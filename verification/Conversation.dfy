/** A conversation: the history it keeps, how it prunes it, and one call of the model loop. */
module Conversations {
  import opened Options
  import opened MessageHistory
  import opened TokenPruning
  import opened ConversationRun

  // ---- The token loop against Trim ----

  lemma SplitTotal(h: seq<Message>, i: nat)
    requires i <= |h|
    ensures TotalTokens(h) == TotalTokens(h[..i]) + TotalTokens(h[i..])
  {
    assert h == h[..i] + h[i..];
    TotalOfConcat(h[..i], h[i..]);
  }

  /** The history once the messages from position i on are trimmed. */
  ghost function TrimmedFrom(h: seq<Message>, i: nat, budget: nat, compactor: Option<Compactor>): seq<Message>
    requires i <= |h|
  {
    h[..i] + Trim(h[i..], TotalTokens(h[..i]), budget, compactor)
  }

  /** Replacing one unit and stepping past it does not change what trimming will lead to. */
  lemma TrimStep(h: seq<Message>, i: nat, budget: nat, compactor: Option<Compactor>, h': seq<Message>, u: seq<Message>)
    requires i < |h| && TotalTokens(h) > budget && !Final(h[i..])
    requires var e := UnitLength(h[i..]);
             u == Replaced(h[i..][..e], compactor) && h' == h[..i] + u + h[i..][e..]
    ensures TrimmedFrom(h', i + |u|, budget, compactor) == TrimmedFrom(h, i, budget, compactor)
    ensures TotalTokens(h') == TotalTokens(h) - TotalTokens(h[i..][..UnitLength(h[i..])]) + TotalTokens(u)
  {
    hide TotalTokens, UnitLength, Final, Trim, Replaced;
    var p, s := h[..i], h[i..];
    var rest := s[UnitLength(s)..];
    StepTotals(h, i, UnitLength(s), u);
    TrimUnfold(s, TotalTokens(p), budget, compactor);
    StepSlices(p, u, rest);
    Assoc(p, u, Trim(rest, TotalTokens(p + u), budget, compactor));
  }

  /** The token counts on both sides of a replaced unit. */
  lemma StepTotals(h: seq<Message>, i: nat, e: nat, u: seq<Message>)
    requires i <= |h| && e <= |h[i..]|
    ensures TotalTokens(h) == TotalTokens(h[..i]) + TotalTokens(h[i..])
    ensures TotalTokens(h[..i] + u) == TotalTokens(h[..i]) + TotalTokens(u)
    ensures TotalTokens(h[..i] + u + h[i..][e..]) == TotalTokens(h) - TotalTokens(h[i..][..e]) + TotalTokens(u)
  {
    hide TotalTokens;
    SplitTotal(h, i);
    SplitTotal(h[i..], e);
    TotalOfConcat(h[..i], u);
    TotalOfConcat(h[..i] + u, h[i..][e..]);
  }

  lemma Assoc(p: seq<Message>, u: seq<Message>, t: seq<Message>)
    ensures p + (u + t) == p + u + t
  {
  }

  lemma StepSlices(p: seq<Message>, u: seq<Message>, rest: seq<Message>)
    ensures (p + u + rest)[..|p| + |u|] == p + u && (p + u + rest)[|p| + |u|..] == rest
  {
  }

  lemma TrimDone(h: seq<Message>, i: nat, budget: nat, compactor: Option<Compactor>)
    requires i <= |h| && (TotalTokens(h) <= budget || Final(h[i..]))
    ensures TrimmedFrom(h, i, budget, compactor) == h
  {
    SplitTotal(h, i);
  }

  lemma {:induction false} SkipIs(s: seq<Message>, e: nat, r: nat)
    requires e <= r <= |s| && (forall k :: e <= k < r ==> s[k].role == Tool) && (r < |s| ==> s[r].role != Tool)
    ensures SkipTools(s, e) == r
    decreases r - e
  {
    if e < r {
      SkipIs(s, e + 1, r);
    }
  }

  lemma TotalOfOne(m: Message)
    ensures TotalTokens([m]) == Tokens(m)
  {
    assert [m][..0] == [];
  }

  method EstimateTokens(m: Message) returns (n: nat)
    ensures n == Tokens(m)
  {
    var chars := |m.content|;
    if m.toolCalls.Some? {
      var calls := m.toolCalls.value;
      for k := 0 to |calls|
        invariant chars == |m.content| + CallChars(calls[..k])
      {
        assert calls[..k + 1][..k] == calls[..k];
        chars := chars + |calls[k].toolname| + |calls[k].arguments| + 8;
      }
      assert calls[..|calls|] == calls;
    }
    n := chars / 4 + 4;
  }

  method EstimateAll(h: seq<Message>) returns (n: nat)
    ensures n == TotalTokens(h)
  {
    n := 0;
    for k := 0 to |h|
      invariant n == TotalTokens(h[..k])
    {
      assert h[..k + 1][..k] == h[..k];
      var m := EstimateTokens(h[k]);
      n := n + m;
    }
    assert h[..|h|] == h;
  }

  class Conversation {
    var history: seq<Message>
    var maxHistory: nat
    var maxTokens: nat
    var maxTurns: int
    var compactor: Option<Compactor>
    var pinNextUser: bool

    constructor (maxHistory: nat)
      ensures history == [] && this.maxHistory == maxHistory && maxTokens == 0 && maxTurns == 0
      ensures compactor == None && !pinNextUser
    {
      history, this.maxHistory, maxTokens, maxTurns := [], maxHistory, 0, 0;
      compactor, pinNextUser := None, false;
    }

    /** Erasing the oldest messages behind the system prompt until at most maxHistory are left. */
    method PruneByCount()
      requires history != []
      modifies this`history
      ensures history == CountPruned(old(history), maxHistory)
    {
      var size, limit := |history|, maxHistory;
      if size <= limit {
        return;
      }
      var eraseStart := if history[0].role == System then 1 else 0;
      var numToRemove := size - limit;
      if numToRemove > size - eraseStart {
        numToRemove := size - eraseStart;
      }
      var eraseEnd := eraseStart + numToRemove;
      while eraseEnd != |history| && history[eraseEnd].role == Tool
        invariant eraseStart + numToRemove <= eraseEnd <= |history|
        invariant SkipTools(history, eraseEnd) == SkipTools(history, eraseStart + numToRemove)
      {
        eraseEnd := eraseEnd + 1;
      }
      history := history[..eraseStart] + history[eraseEnd..];
    }

    /** Dropping, or compacting, the oldest prunable rounds until the budget is met. */
    method PruneByTokens()
      requires history != []
      modifies this`history
      ensures history == TokenPruned(old(history), maxTokens, compactor)
    {
      hide TotalTokens, Trim, GuardFrom;
      var total := EstimateAll(history);
      if total <= maxTokens {
        return;
      }
      ghost var h0 := history;
      var startIdx := if history[0].role == System then 1 else 0;
      var i := startIdx;
      while total > maxTokens && i < |history|
        invariant startIdx <= i <= |history| && total == TotalTokens(history)
        invariant history[..startIdx] == h0[..startIdx]
        invariant TrimmedFrom(history, i, maxTokens, compactor) == TrimmedFrom(h0, startIdx, maxTokens, compactor)
        decreases |history| - i
      {
        // Never drop the most recent message.
        if i + 1 >= |history| {
          break;
        }
        var spanEnd := SpanEnd(i);
        var spanPinned := SomePinned(i, spanEnd);
        assert history[i..][..spanEnd - i] == history[i..spanEnd];
        if !spanPinned && spanEnd >= |history| {
          break;
        }
        total, i := ReplaceSpan(i, spanEnd, spanPinned, total);
      }
      if i == |history| {
        assert history[i..] == [];
      }
      TrimDone(history, i, maxTokens, compactor);
      GuardOrphans(startIdx);
    }

    /** Where the unit starting at i ends. */
    method SpanEnd(i: nat) returns (spanEnd: nat)
      requires i < |history|
      ensures spanEnd == i + UnitLength(history[i..])
    {
      spanEnd := i + 1;
      if history[i].pinned {
        return;
      }
      if history[i].role == Assistant && history[i].toolCalls.Some? && history[i].toolCalls.value != [] {
        while spanEnd < |history| && history[spanEnd].role == Tool
          invariant i < spanEnd <= |history|
          invariant forall k :: i < k < spanEnd ==> history[k].role == Tool
        {
          spanEnd := spanEnd + 1;
        }
        SkipIs(history[i..], 1, spanEnd - i);
      }
    }

    method SomePinned(i: nat, spanEnd: nat) returns (r: bool)
      requires i <= spanEnd <= |history|
      ensures r <==> AnyPinned(history[i..spanEnd])
    {
      var k := i;
      while k < spanEnd
        invariant i <= k <= spanEnd
        invariant forall j :: i <= j < k ==> !history[j].pinned
      {
        if history[k].pinned {
          assert history[i..spanEnd][k - i].pinned;
          return true;
        }
        k := k + 1;
      }
      r := false;
    }

    /** One round of the pruning loop: a span with a pin is stepped over, any other is compacted or erased. */
    method ReplaceSpan(i: nat, spanEnd: nat, spanPinned: bool, total: nat) returns (total': nat, i': nat)
      requires i < spanEnd <= |history| && spanEnd == i + UnitLength(history[i..])
      requires spanPinned <==> AnyPinned(history[i..spanEnd])
      requires total == TotalTokens(history) > maxTokens && !Final(history[i..])
      modifies this`history
      ensures i <= i' <= |history| && total' == TotalTokens(history)
      ensures history[..i] == old(history[..i])
      ensures TrimmedFrom(history, i', maxTokens, compactor) == old(TrimmedFrom(history, i, maxTokens, compactor))
      ensures |history| - i' < old(|history|) - i
    {
      hide TotalTokens, Trim, UnitLength, AnyPinned, Final, Note;
      assert history[i..][..spanEnd - i] == history[i..spanEnd];
      if spanPinned {
        assert history == history[..i] + history[i..spanEnd] + history[i..][spanEnd - i..];
        TrimStep(history, i, maxTokens, compactor, history, history[i..spanEnd]);
        return total, spanEnd;
      }
      var spanTokens := EstimateAll(history[i..spanEnd]);
      SplitTotal(history, i);
      SplitTotal(history[i..], spanEnd - i);
      if compactor.Some? {
        var note := Note(compactor.value(history[i..spanEnd]));
        var h' := history[..i] + [note] + history[i..][spanEnd - i..];
        TrimStep(history, i, maxTokens, compactor, h', [note]);
        TotalOfOne(note);
        var noteTokens := EstimateTokens(note);
        history, total', i' := h', total - spanTokens + noteTokens, i + 1;
      } else {
        var h' := history[..i] + [] + history[i..][spanEnd - i..];
        TrimStep(history, i, maxTokens, compactor, h', []);
        NoTokens();
        history, total', i' := h', total - spanTokens, i;
      }
    }

    /** Erasing unpinned responses directly behind the system prompt. */
    method GuardOrphans(startIdx: nat)
      requires startIdx <= |history|
      modifies this`history
      ensures history == old(history[..startIdx] + GuardFrom(history[startIdx..]))
    {
      while startIdx < |history| && history[startIdx].role == Tool && !history[startIdx].pinned
        invariant startIdx <= |history| && history[..startIdx] == old(history[..startIdx])
        invariant GuardFrom(history[startIdx..]) == old(GuardFrom(history[startIdx..]))
        decreases |history|
      {
        assert history[startIdx..][1..] == history[startIdx + 1..];
        history := history[..startIdx] + history[startIdx + 1..];
      }
      assert history == history[..startIdx] + history[startIdx..];
    }

    method PruneHistory()
      modifies this`history
      ensures history == Pruned(old(history), Setting())
    {
      if history == [] {
        return;
      }
      if maxTokens > 0 {
        PruneByTokens();
      } else {
        PruneByCount();
      }
    }

    function Setting(): Config
      reads this`maxHistory, this`maxTokens, this`compactor
    {
      Config(maxHistory, maxTokens, compactor)
    }

    method Push(m: Message)
      modifies this`history
      ensures history == Pruned(old(history) + [m], Setting())
    {
      history := history + [m];
      PruneHistory();
    }

    method PinNextUserMessage()
      modifies this`pinNextUser
      ensures pinNextUser
    {
      pinNextUser := true;
    }

    method PinMessageAt(idx: nat)
      modifies this`history
      ensures history == if idx < |old(history)| then old(history)[idx := old(history)[idx].(pinned := true)]
                         else old(history)
    {
      if idx < |history| {
        history := history[idx := history[idx].(pinned := true)];
      }
    }

    method Reset()
      modifies this`history
      ensures history == []
    {
      history := [];
    }

    /** The prompt is put in front of the history, or replaces the text of the one in front. */
    method PutPrompt(prompt: string)
      modifies this`history
      ensures history == Prompted(old(history), prompt)
    {
      if history != [] && history[0].role == System {
        history := history[0 := history[0].(content := prompt)];
      } else {
        history := [Message(System, prompt, None, None, None, false)] + history;
      }
    }

    method SetSystemPrompt(prompt: string)
      modifies this`history
      ensures history == Pruned(Prompted(old(history), prompt), Setting())
    {
      PutPrompt(prompt);
      PruneHistory();
    }

    /** One call: the model is asked until it answers without tool calls, a tool says "finish", the turn
        cap is hit, or the recorded behaviour of the model ends. `requests` collects what it was sent, `parse` reads
        a result off the final history. */
    method SendMessage(userMessage: string, prompt: string, script: seq<Turn>, parse: seq<Message> -> string)
      returns (outcome: Outcome, requests: seq<seq<Message>>)
      modifies this`history, this`pinNextUser
      ensures !pinNextUser && |requests| <= |script| && (maxTurns > 0 ==> |requests| <= maxTurns)
      ensures var start := Opened(old(history), prompt, UserMessage(userMessage, old(pinNextUser)), Setting());
              && history == RunTo(start, script, |requests|, Setting())
              && forall k :: 0 <= k < |requests| ==>
                  requests[k] == Prompted(RunTo(start, script, k, Setting()), script[k].prompt)
      ensures forall k :: 0 <= k < |requests| - 1 ==> Continues(script[k])
      ensures match outcome
              case Reply(text) => requests != [] && CallsOf(script[|requests| - 1]) == [] &&
                text == script[|requests| - 1].reply
              case Finished(text) => text == parse(history) && requests != [] && Finishes(script[|requests| - 1])
              case TurnCapped(text) => text == parse(history) && 0 < maxTurns == |requests| &&
                Continues(script[|requests| - 1])
              case Waiting => |requests| == |script| && (requests != [] ==> Continues(script[|requests| - 1]))
    {
      hide Pruned, PushAll, Prompted, RunTo, Executed, Finishes;
      PutPrompt(prompt);
      var user := UserMessage(userMessage, pinNextUser);
      pinNextUser := false;
      Push(user);
      ghost var start, c := history, Setting();
      requests := [];
      RunSteps(start, script, c);
      while true
        invariant |requests| <= |script| && !pinNextUser && (maxTurns > 0 ==> |requests| <= maxTurns)
        invariant history == RunTo(start, script, |requests|, c)
        invariant forall k :: 0 <= k < |requests| ==>
          requests[k] == Prompted(RunTo(start, script, k, c), script[k].prompt)
        invariant forall k :: 0 <= k < |requests| ==> Continues(script[k])
        decreases |script| - |requests|
      {
        if maxTurns > 0 && |requests| >= maxTurns {
          return TurnCapped(parse(history)), requests;
        }
        if |requests| == |script| {
          return Waiting, requests;
        }
        var turn := script[|requests|];
        PutPrompt(turn.prompt);
        requests := requests + [history];
        ghost var sent := history;
        Push(AssistantMessage(turn));
        if CallsOf(turn) == [] {
          SilentTurn(sent, turn, c);
          return Reply(turn.reply), requests;
        }
        var finished := AnswerCalls(turn, sent);
        if finished {
          return Finished(parse(history)), requests;
        }
      }
    }

    lemma RunSteps(start: seq<Message>, script: seq<Turn>, c: Config)
      ensures RunTo(start, script, 0, c) == start
      ensures forall n: nat :: n < |script| ==>
                RunTo(start, script, n + 1, c) == AfterTurn(RunTo(start, script, n, c), script[n], c)
    {
    }

    /** The responses to the calls of one turn are pushed one by one, until one of them ends the session. */
    method AnswerCalls(turn: Turn, ghost sent: seq<Message>) returns (finished: bool)
      requires CallsOf(turn) != [] && history == Pruned(sent + [AssistantMessage(turn)], Setting())
      modifies this`history
      ensures history == PushAll(sent, [AssistantMessage(turn)] + Executed(turn), Setting())
      ensures finished <==> Finishes(turn)
    {
      hide Pruned;
      var calls := CallsOf(turn);
      ghost var pushed := [AssistantMessage(turn)];
      FirstPush(sent, AssistantMessage(turn), Setting());
      for j := 0 to |calls|
        invariant history == PushAll(sent, [AssistantMessage(turn)] + ResponsesTo(turn, j), Setting())
        invariant forall k :: 0 <= k < j ==> ResultOf(turn, k) != "finish"
      {
        var result := ResultOf(turn, j);
        NextPush(sent, AssistantMessage(turn), turn, j, Setting());
        Push(ToolMessage(result, calls[j]));
        if result == "finish" {
          StopsAt(turn, j);
          return true;
        }
      }
      RunsThrough(turn);
      finished := false;
    }
  }
}
