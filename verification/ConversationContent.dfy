/** What the model is sent: where every message of a request comes from, and what it says. */
module ConversationContent {
  import opened Options
  import opened MessageHistory
  import opened TokenPruning
  import opened ConversationRun

  // ---- Pruning writes nothing but notes, and leaves the system prompt in front ----

  /** A compaction note: an unpinned user message with the compactor's summary of some messages. */
  ghost predicate IsNote(c: Config, m: Message) {
    && c.compactor.Some? && m.role == User && !m.pinned && m.toolCalls.None?
    && exists unit: seq<Message> :: m.content == "[context compacted] " + c.compactor.value(unit)
  }

  lemma {:induction false} TrimMessages(s: seq<Message>, before: nat, c: Config, m: Message)
    requires m in Trim(s, before, c.maxTokens, c.compactor)
    ensures m in s || IsNote(c, m)
    decreases |s|
  {
    TrimUnfold(s, before, c.maxTokens, c.compactor);
    hide Trim, TotalTokens, UnitLength, AnyPinned, Final;
    if !(before + TotalTokens(s) <= c.maxTokens || Final(s)) {
      var e := UnitLength(s);
      var u := Replaced(s[..e], c.compactor);
      if m !in u {
        TrimMessages(s[e..], before + TotalTokens(u), c, m);
      }
    }
  }

  lemma {:induction false} GuardMessages(s: seq<Message>, m: Message)
    requires m in GuardFrom(s)
    ensures m in s
  {
    if s != [] && s[0].role == Tool && !s[0].pinned {
      GuardMessages(s[1..], m);
    }
  }

  /** Pruning drops messages and may add notes, and changes none. */
  lemma PrunedMessages(h: seq<Message>, c: Config, m: Message)
    requires m in Pruned(h, c)
    ensures m in h || IsNote(c, m)
  {
    hide Trim, GuardFrom, TotalTokens, IsNote;
    if c.maxTokens > 0 && TotalTokens(h) > c.maxTokens {
      var b := Head(h);
      var t := Trim(h[b..], TotalTokens(h[..b]), c.maxTokens, c.compactor);
      if m !in h[..b] {
        GuardMessages(t, m);
        TrimMessages(h[b..], TotalTokens(h[..b]), c, m);
      }
    }
  }

  /** A system prompt in front stays in front. */
  lemma PromptStays(h: seq<Message>, c: Config)
    requires h != [] && h[0].role == System
    ensures Pruned(h, c) != [] && Pruned(h, c)[0] == h[0]
  {
    hide Trim, GuardFrom, TotalTokens, SkipTools;
  }

  /** Each request opens with the prompt in force; nothing else changes. */
  lemma PromptedMeans(h: seq<Message>, prompt: string)
    ensures var r := Prompted(h, prompt);
            && r != [] && r[0].role == System && r[0].content == prompt
            && r[1..] == if h != [] && h[0].role == System then h[1..] else h
  {
  }

  // ---- Where the messages of a run come from ----

  /** The reply of a turn as a message. */
  predicate IsReply(t: Turn, m: Message) {
    && m.role == Assistant && m.content == t.reply && !m.pinned && m.toolCallId.None? && m.toolName.None?
    && m.toolCalls == if t.calls.Some? && t.calls.value != [] then t.calls else None
  }

  /** The response to call j of a turn: what the tool returned, under the id and the name of the call. */
  predicate IsResponse(t: Turn, j: int, m: Message) {
    && t.calls.Some? && 0 <= j < |t.calls.value|
    && m.role == Tool && !m.pinned && m.toolCalls.None?
    && m.content == (if j < |t.results| then t.results[j] else "")
    && m.toolCallId == Some(t.calls.value[j].id) && m.toolName == Some(t.calls.value[j].toolname)
  }

  /** Call j is carried out: no call before it returned "finish". */
  predicate IsCarriedOut(t: Turn, j: int) {
    forall i :: 0 <= i < j && i < |t.results| ==> t.results[i] != "finish"
  }

  ghost predicate IsOf(t: Turn, m: Message) {
    IsReply(t, m) || exists j :: IsResponse(t, j, m) && IsCarriedOut(t, j)
  }

  /** Calls are carried out up to the first "finish", and no further. */
  lemma {:induction false} CarriedOut(t: Turn, i: nat)
    requires i <= |CallsOf(t)| && IsCarriedOut(t, i)
    ensures var n := ExecutedCount(t, i);
            && (forall j :: 0 <= j < n ==> IsCarriedOut(t, j))
            && (n < |CallsOf(t)| ==> 0 < n <= |t.results| && t.results[n - 1] == "finish")
    decreases |CallsOf(t)| - i
  {
    if i < |CallsOf(t)| && ResultOf(t, i) != "finish" {
      CarriedOut(t, i + 1);
    }
  }

  lemma TurnMessages(t: Turn, m: Message)
    requires m in [AssistantMessage(t)] + Executed(t)
    ensures IsOf(t, m)
  {
    if m in Executed(t) {
      var j :| 0 <= j < |Executed(t)| && Executed(t)[j] == m;
      CarriedOut(t, 0);
      assert IsResponse(t, j, m) && IsCarriedOut(t, j);
    }
  }

  lemma {:induction false} PushedMessages(h: seq<Message>, ms: seq<Message>, c: Config, m: Message)
    requires m in PushAll(h, ms, c)
    ensures m in h || m in ms || IsNote(c, m)
  {
    hide Pruned, IsNote;
    if ms != [] {
      var n := |ms| - 1;
      PrunedMessages(PushAll(h, ms[..n], c) + [ms[n]], c, m);
      if m in PushAll(h, ms[..n], c) {
        PushedMessages(h, ms[..n], c, m);
      }
    }
  }

  /** Every message of a run was there before, is a system prompt or a note, or belongs to one of its turns. */
  lemma {:induction false} RunMessages(h: seq<Message>, script: seq<Turn>, n: nat, c: Config, m: Message)
    requires n <= |script| && m in RunTo(h, script, n, c)
    ensures m in h || m.role == System || IsNote(c, m) || exists k :: 0 <= k < n && IsOf(script[k], m)
  {
    hide AfterTurn, IsNote, IsOf;
    if n > 0 {
      var g := RunTo(h, script, n - 1, c);
      AfterTurnMessages(g, script[n - 1], c, m);
      if m in g {
        RunMessages(h, script, n - 1, c, m);
      }
    }
  }

  lemma AfterTurnMessages(h: seq<Message>, t: Turn, c: Config, m: Message)
    requires m in AfterTurn(h, t, c)
    ensures m in h || m.role == System || IsNote(c, m) || IsOf(t, m)
  {
    hide PushAll, IsNote, IsOf, Executed, Prompted;
    var g, ms := Prompted(h, t.prompt), [AssistantMessage(t)] + Executed(t);
    PushedMessages(g, ms, c, m);
    if m in ms {
      TurnMessages(t, m);
    } else if m in g {
      PromptedMessages(h, t.prompt, m);
    }
  }

  lemma PromptedMessages(h: seq<Message>, prompt: string, m: Message)
    requires m in Prompted(h, prompt)
    ensures m in h || m.role == System
  {
  }

  lemma OpenedMessages(h: seq<Message>, prompt: string, user: Message, c: Config, m: Message)
    requires m in Opened(h, prompt, user, c)
    ensures m in h || m == user || m.role == System || IsNote(c, m)
  {
    hide Pruned, IsNote, Prompted;
    PrunedMessages(Prompted(h, prompt) + [user], c, m);
    if m in Prompted(h, prompt) {
      PromptedMessages(h, prompt, m);
    }
  }

  /** The history after n turns of a call, and each request, hold nothing but what was said: tool messages carry what
      the tools returned, under the ids and names of their calls; assistant messages the replies and their calls; user
      messages the text of the call, pinned if asked for, or notes. */
  lemma CallMessages(h: seq<Message>, prompt: string, text: string, pin: bool, script: seq<Turn>, n: nat, c: Config,
                     m: Message)
    requires n <= |script|
    requires var run := RunTo(Opened(h, prompt, UserMessage(text, pin), c), script, n, c);
             m in run || (n < |script| && m in Prompted(run, script[n].prompt))
    ensures m.role == Tool ==>
              m in h || exists k, j :: 0 <= k < n && IsResponse(script[k], j, m) && IsCarriedOut(script[k], j)
    ensures m.role == Assistant ==> m in h || exists k :: 0 <= k < n && IsReply(script[k], m)
    ensures m.role == User ==> m in h || IsNote(c, m) || (m.content == text && m.pinned == pin && m.toolCalls.None?)
  {
    hide Opened, RunTo, IsNote, Prompted;
    var start := Opened(h, prompt, UserMessage(text, pin), c);
    var run := RunTo(start, script, n, c);
    if m !in run {
      PromptedMessages(run, script[n].prompt, m);
    }
    if m in run {
      RunMessages(start, script, n, c, m);
      if m in start {
        OpenedMessages(h, prompt, UserMessage(text, pin), c, m);
      }
    }
    assert IsNote(c, m) ==> m.role == User by { NoteIsUser(c, m); }
  }

  lemma NoteIsUser(c: Config, m: Message)
    ensures IsNote(c, m) ==> m.role == User
  {
  }

  // ---- When nothing has to be pruned ----

  ghost predicate Fits(h: seq<Message>, c: Config) {
    if c.maxTokens > 0 then TotalTokens(h) <= c.maxTokens else |h| <= c.maxHistory
  }

  lemma {:induction false} PushAllFitting(h: seq<Message>, ms: seq<Message>, c: Config)
    requires Fits(h + ms, c)
    ensures PushAll(h, ms, c) == h + ms
  {
    if ms == [] {
      assert h + ms == h;
    } else {
      hide TotalTokens, TokenPruned, CountPruned;
      var n := |ms| - 1;
      assert h + ms == h + ms[..n] + [ms[n]];
      TotalOfConcat(h + ms[..n], [ms[n]]);
      PushAllFitting(h, ms[..n], c);
      PrunedFitting(h + ms, c);
      PushOneMore(h, ms[..n], ms[n], c);
      assert ms == ms[..n] + [ms[n]];
    }
  }

  lemma PrunedFitting(h: seq<Message>, c: Config)
    requires Fits(h, c)
    ensures Pruned(h, c) == h
  {
    hide TotalTokens;
  }

  lemma ResponsesMean(t: Turn)
    ensures IsReply(t, AssistantMessage(t))
    ensures forall j :: 0 <= j < |Executed(t)| ==> IsResponse(t, j, Executed(t)[j]) && IsCarriedOut(t, j)
    ensures var n := |Executed(t)|;
            n < |CallsOf(t)| ==> 0 < n <= |t.results| && t.results[n - 1] == "finish"
  {
    CarriedOut(t, 0);
  }

  /** If it all fits, a turn leaves the request as it was sent, and behind it the reply and one response to each call
      carried out, in order. */
  lemma TurnAppends(h: seq<Message>, t: Turn, c: Config) returns (reply: Message, responses: seq<Message>)
    requires Fits(Prompted(h, t.prompt) + [AssistantMessage(t)] + Executed(t), c)
    ensures AfterTurn(h, t, c) == Prompted(h, t.prompt) + [reply] + responses
    ensures IsReply(t, reply) && forall j :: 0 <= j < |responses| ==> IsResponse(t, j, responses[j])
    ensures forall j :: 0 <= j < |responses| ==> IsCarriedOut(t, j)
    ensures var n := |responses|;
            n < (if t.calls.Some? then |t.calls.value| else 0) ==> 0 < n <= |t.results| && t.results[n - 1] == "finish"
  {
    reply, responses := AssistantMessage(t), Executed(t);
    ResponsesMean(t);
    hide Prompted, PushAll, Executed, AssistantMessage, Fits, IsReply, IsResponse, IsCarriedOut;
    var g := Prompted(h, t.prompt);
    assert g + ([reply] + responses) == g + [reply] + responses;
    PushAllFitting(g, [reply] + responses, c);
  }
}
