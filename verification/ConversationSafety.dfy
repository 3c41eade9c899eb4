/** When a conversation ever sends the model an orphaned tool response. */
module ConversationSafety {
  import opened Options
  import opened MessageHistory
  import opened TokenPruning
  import opened Compaction
  import opened TokenSafety
  import opened ConversationRun

  function Counted(limit: nat): Config {
    Config(limit, 0, None)
  }

  // ---- One turn under count pruning: exactly when it orphans a response ----

  predicate AllTools(ms: seq<Message>) {
    forall k :: 0 <= k < |ms| ==> ms[k].role == Tool
  }

  /** Pushing a message that may follow the end of the history keeps it free of orphans. */
  lemma PushKeepsNoOrphans(h: seq<Message>, m: Message, limit: nat)
    requires NoOrphans(h) && (m.role == Tool ==> h != [] && MayPrecedeTool(h[|h| - 1]))
    ensures NoOrphans(CountPruned(h + [m], limit))
  {
    NoOrphansSplit(None, h, [m]);
    CountPrunedKeepsNoOrphans(h + [m], limit);
  }

  /** A response pushed behind a tail that fits beside the prompt leaves the longer tail in place. */
  lemma TailGrows(r: seq<Message>, t: seq<Message>, m: Message, limit: nat)
    requires Head(r) == 1 && NoOrphans(r) && EndsWith(r, t) && t != [] && |t| < |r| && |t| + 1 < limit
    requires t[0].role != Tool && MayPrecedeTool(t[|t| - 1])
    ensures var g := CountPruned(r + [m], limit);
            NoOrphans(g) && |t| + 1 < |g| <= limit && g[0] == r[0] && EndsWith(g, t + [m])
  {
    LastOfTail(r, t);
    PushKeepsNoOrphans(r, m, limit);
    PushedTail(r, t, m);
    hide EndsWith, CountPruned, NoOrphansAfter;
    CountPrunedKeepsTail(r + [m], limit, t + [m]);
  }

  lemma {:induction false} ShortRoundSurvives(h: seq<Message>, a: Message, ts: seq<Message>, limit: nat)
    requires Head(h) == 1 && NoOrphans(h) && HasCalls(a) && AllTools(ts) && |ts| + 1 < limit
    ensures var r := PushAll(CountPruned(h + [a], limit), ts, Counted(limit));
            NoOrphans(r) && |ts| + 1 < |r| <= limit && r[0] == h[0] && EndsWith(r, [a] + ts)
  {
    hide NoOrphansAfter, CountPruned;
    if ts == [] {
      PushKeepsNoOrphans(h, a, limit);
      assert [a] + ts == [a];
      CountPrunedKeepsTail(h + [a], limit, [a]);
    } else {
      hide EndsWith, PushAll;
      var n := |ts| - 1;
      ShortRoundSurvives(h, a, ts[..n], limit);
      PushLast(CountPruned(h + [a], limit), ts, limit);
      assert [a] + ts[..n] + [ts[n]] == [a] + ts;
      TailGrows(PushAll(CountPruned(h + [a], limit), ts[..n], Counted(limit)), [a] + ts[..n], ts[n], limit);
    }
  }

  lemma LastOfTail(h: seq<Message>, t: seq<Message>)
    requires EndsWith(h, t) && t != []
    ensures h[|h| - 1] == t[|t| - 1]
  {
    assert h[|h| - |t|..][|t| - 1] == h[|h| - 1];
  }

  /** A full history whose body opens a round that fills it is cut down to its system prompt. */
  lemma CutToPrompt(h: seq<Message>, limit: nat)
    requires Head(h) == 1 && limit >= 2 && |h| == limit + 1
    requires forall k :: 2 <= k < |h| ==> h[k].role == Tool
    ensures CountPruned(h, limit) == [h[0]]
  {
    assert SkipTools(h, 2) == |h|;
    assert h[..1] + h[|h|..] == [h[0]];
  }

  lemma PushLast(g: seq<Message>, ms: seq<Message>, limit: nat)
    requires ms != []
    ensures var n := |ms| - 1;
            PushAll(g, ms, Counted(limit)) == CountPruned(PushAll(g, ms[..n], Counted(limit)) + [ms[n]], limit)
  {
    hide CountPruned;
  }

  /** Once the round no longer fits it is erased with its assistant, and later responses pile up behind the prompt. */
  lemma {:induction false} LongRoundErased(h: seq<Message>, a: Message, ts: seq<Message>, limit: nat)
    requires Head(h) == 1 && NoOrphans(h) && HasCalls(a) && AllTools(ts) && limit >= 2 && |ts| + 1 >= limit
    ensures (|ts| + 1) % limit <= |ts|
    ensures PushAll(CountPruned(h + [a], limit), ts, Counted(limit)) == [h[0]] + ts[|ts| - (|ts| + 1) % limit..]
  {
    hide CountPruned, NoOrphans, HasCalls, PushAll;
    if |ts| + 1 == limit {
      FirstErasure(h, a, ts, limit);
      RemainderIsUnique(limit, limit, 1, 0);
    } else {
      var n := |ts| - 1;
      PushLast(CountPruned(h + [a], limit), ts, limit);
      LongRoundErased(h, a, ts[..n], limit);
      ModStep(|ts|, limit);
      Piles(h[0], ts, |ts| % limit, limit);
    }
  }

  lemma FirstErasure(h: seq<Message>, a: Message, ts: seq<Message>, limit: nat)
    requires Head(h) == 1 && NoOrphans(h) && HasCalls(a) && AllTools(ts) && limit >= 2 && |ts| + 1 == limit
    ensures PushAll(CountPruned(h + [a], limit), ts, Counted(limit)) == [h[0]] + ts[|ts|..]
  {
    hide CountPruned, PushAll;
    var n := |ts| - 1;
    var r := PushAll(CountPruned(h + [a], limit), ts[..n], Counted(limit));
    PushLast(CountPruned(h + [a], limit), ts, limit);
    ShortRoundSurvives(h, a, ts[..n], limit);
    CutFullRound(h[0], a, ts, limit, r);
  }

  lemma CutFullRound(s: Message, a: Message, ts: seq<Message>, limit: nat, r: seq<Message>)
    requires s.role == System && AllTools(ts) && limit >= 2 && |ts| + 1 == limit
    requires |r| == limit && r[0] == s && EndsWith(r, [a] + ts[..|ts| - 1])
    ensures CountPruned(r + [ts[|ts| - 1]], limit) == [s] + ts[|ts|..]
  {
    var g := r + [ts[|ts| - 1]];
    assert r == [s] + ([a] + ts[..|ts| - 1]);
    assert g == [s] + ([a] + ts);
    CutToPrompt(g, limit);
  }

  /** One more response on a pile behind the prompt. */
  lemma Piles(s: Message, ts: seq<Message>, m: nat, limit: nat)
    requires ts != [] && s.role == System && AllTools(ts) && m < |ts| && m < limit && limit >= 2
    ensures var n := |ts| - 1;
            CountPruned([s] + ts[..n][n - m..] + [ts[n]], limit) ==
            [s] + ts[|ts| - (if m + 1 == limit then 0 else m + 1)..]
  {
    var n := |ts| - 1;
    var g := [s] + ts[..n][n - m..] + [ts[n]];
    var tail := ts[n - m..];
    assert tail == ts[..n][n - m..] + [ts[n]];
    assert g == [s] + tail;
    if m + 1 == limit {
      hide CountPruned;
      CutToPrompt(g, limit);
      assert ts[|ts|..] == [];
    }
  }

  lemma ModStep(k: nat, limit: nat)
    requires limit >= 2
    ensures (k + 1) % limit == if k % limit + 1 == limit then 0 else k % limit + 1
  {
    var q, m := k / limit, k % limit;
    if m + 1 == limit {
      assert k + 1 == limit * (q + 1);
      RemainderIsUnique(k + 1, limit, q + 1, 0);
    } else {
      RemainderIsUnique(k + 1, limit, q, m + 1);
    }
  }

  lemma RemainderIsUnique(x: nat, d: nat, q: nat, r: nat)
    requires r < d && x == d * q + r
    ensures x % d == r
  {
    var q', r' := x / d, x % d;
    assert d * (q - q') == r' - r;
    if q > q' {
      AtLeastOnce(d, q - q');
    } else if q < q' {
      AtLeastOnce(d, q' - q);
    }
  }

  lemma AtLeastOnce(d: nat, n: nat)
    requires n >= 1
    ensures d * n >= d
  {
  }

  /** A count-pruned turn of k tool calls leaves no orphan iff the round fits, or ends on an erasure. */
  lemma CountRoundExact(h: seq<Message>, a: Message, ts: seq<Message>, limit: nat)
    requires Head(h) == 1 && NoOrphans(h) && HasCalls(a) && AllTools(ts)
    ensures NoOrphans(PushAll(CountPruned(h + [a], limit), ts, Counted(limit))) <==>
            limit <= 1 || |ts| + 1 < limit || (|ts| + 1) % limit == 0
  {
    hide CountPruned, PushAll;
    if limit <= 1 {
      TinyLimit(h, a, ts, limit);
    } else if |ts| + 1 < limit {
      ShortRoundSurvives(h, a, ts, limit);
    } else {
      LongRoundErased(h, a, ts, limit);
      var m := (|ts| + 1) % limit;
      var r := [h[0]] + ts[|ts| - m..];
      if m > 0 {
        assert r[1].role == Tool && !MayPrecedeTool(r[0]);
      }
    }
  }

  lemma {:induction false} TinyLimit(h: seq<Message>, a: Message, ts: seq<Message>, limit: nat)
    requires Head(h) == 1 && HasCalls(a) && AllTools(ts) && limit <= 1
    ensures PushAll(CountPruned(h + [a], limit), ts, Counted(limit)) == [h[0]]
  {
    if ts != [] {
      TinyLimit(h, a, ts[..|ts| - 1], limit);
    }
  }

  // ---- Turns as they are pushed ----

  lemma {:induction false} PushAllCounted(h: seq<Message>, ms: seq<Message>, c: Config)
    requires c.maxTokens == 0
    ensures PushAll(h, ms, c) == PushAll(h, ms, Counted(c.maxHistory))
  {
    if ms != [] {
      PushAllCounted(h, ms[..|ms| - 1], c);
    }
  }

  lemma {:induction false} PushAllCons(h: seq<Message>, a: Message, ms: seq<Message>, c: Config)
    ensures PushAll(h, [a] + ms, c) == PushAll(Pruned(h + [a], c), ms, c)
  {
    hide Pruned;
    if ms == [] {
      assert [a] + ms == [a] && [a][..0] == [];
    } else {
      var n := |ms| - 1;
      assert ([a] + ms)[..n + 1] == [a] + ms[..n];
      PushAllCons(h, a, ms[..n], c);
    }
  }

  /** A turn fits a message limit: it calls no tool, or its round fits behind the prompt, or it ends on an erasure. */
  predicate TurnFits(t: Turn, limit: nat) {
    var n := |Executed(t)|;
    CallsOf(t) == [] || limit <= 1 || n + 1 < limit || (n + 1) % limit == 0
  }

  ghost predicate Ready(h: seq<Message>) {
    Head(h) == 1 && NoOrphans(h)
  }

  lemma PromptKeepsOrphans(h: seq<Message>, prompt: string)
    ensures NoOrphans(Prompted(h, prompt)) <==> NoOrphans(h)
    ensures Head(Prompted(h, prompt)) == 1
    ensures PinnedOf(Prompted(h, prompt)[1..]) == PinnedOf(Body(h))
  {
    var sys := Message(System, prompt, None, None, None, false);
    if Head(h) == 1 {
      var g := Prompted(h, prompt);
      assert h == [h[0]] + h[1..] && g == [g[0]] + h[1..];
      NoOrphansSplit(None, [h[0]], h[1..]);
      NoOrphansSplit(None, [g[0]], h[1..]);
      assert NoOrphansAfter(Some(h[0]), h[1..]) <==> NoOrphansAfter(Some(g[0]), h[1..]);
    } else {
      NoOrphansSplit(None, [sys], h);
      FirstAfterPrompt(sys, h);
    }
  }

  lemma FirstAfterPrompt(sys: Message, h: seq<Message>)
    requires sys.role == System
    ensures NoOrphansAfter(Some(sys), h) <==> NoOrphansAfter(None, h)
  {
  }

  /** Exactly when one turn under a message limit leaves an orphan in the history the next request sends. */
  lemma CountTurnExact(h: seq<Message>, t: Turn, c: Config)
    requires Ready(h) && c.maxTokens == 0
    ensures NoOrphans(AfterTurn(h, t, c)) <==> TurnFits(t, c.maxHistory)
    ensures Head(AfterTurn(h, t, c)) == 1
  {
    var a, ts, limit := AssistantMessage(t), Executed(t), c.maxHistory;
    var g := Prompted(h, t.prompt);
    hide CountPruned, PushAll, NoOrphansAfter, Prompted;
    PromptKeepsOrphans(h, t.prompt);
    PushAllCons(g, a, ts, c);
    PushAllCounted(CountPruned(g + [a], limit), ts, c);
    if CallsOf(t) == [] {
      SilentTurn(g, t, c);
      PushKeepsNoOrphans(g, a, limit);
    } else {
      CountRoundExact(g, a, ts, limit);
    }
    PushAllKeepsHead(g, [a] + ts, c);
  }

  lemma {:induction false} PushAllKeepsHead(h: seq<Message>, ms: seq<Message>, c: Config)
    requires Head(h) == 1 && c.maxTokens == 0
    ensures Head(PushAll(h, ms, c)) == 1
  {
    if ms != [] {
      PushAllKeepsHead(h, ms[..|ms| - 1], c);
    }
  }

  /** Under a limit of 3, a turn of three calls sends its last response without its call. */
  function ThreeCalls(): Turn {
    var call := ToolCall("", "", "");
    Turn("", "", Some([call, call, call]), [])
  }

  lemma LongTurnOrphans()
    ensures var h := [Message(System, "", None, None, None, false)];
            Ready(h) && !TurnFits(ThreeCalls(), 3) && !NoOrphans(AfterTurn(h, ThreeCalls(), Counted(3)))
  {
    RunsThrough(ThreeCalls());
    hide AfterTurn;
    CountTurnExact([Message(System, "", None, None, None, false)], ThreeCalls(), Counted(3));
  }

  // ---- Whole runs ----

  ghost predicate CleanTo(h: seq<Message>, script: seq<Turn>, n: nat, c: Config)
    requires n <= |script|
  {
    forall k :: 0 <= k <= n ==> NoOrphans(RunTo(h, script, k, c))
  }

  /** Under a message limit a run stays free of orphans exactly as long as all its turns fit. */
  lemma {:induction false} CountRunExact(h: seq<Message>, script: seq<Turn>, n: nat, c: Config)
    requires Ready(h) && c.maxTokens == 0 && n <= |script|
    ensures CleanTo(h, script, n, c) <==> forall k :: 0 <= k < n ==> TurnFits(script[k], c.maxHistory)
  {
    hide AfterTurn, NoOrphansAfter, TurnFits;
    if n == 0 {
      assert RunTo(h, script, 0, c) == h;
    } else {
      CountRunExact(h, script, n - 1, c);
      assert CleanTo(h, script, n, c) <==> CleanTo(h, script, n - 1, c) && NoOrphans(RunTo(h, script, n, c));
      if CleanTo(h, script, n - 1, c) {
        RunKeepsHead(h, script, n - 1, c);
        CountTurnExact(RunTo(h, script, n - 1, c), script[n - 1], c);
      }
    }
  }

  lemma {:induction false} RunKeepsHead(h: seq<Message>, script: seq<Turn>, n: nat, c: Config)
    requires Head(h) == 1 && c.maxTokens == 0 && n <= |script|
    ensures Head(RunTo(h, script, n, c)) == 1
  {
    if n > 0 {
      var g := RunTo(h, script, n - 1, c);
      RunKeepsHead(h, script, n - 1, c);
      PromptKeepsOrphans(g, script[n - 1].prompt);
      PushAllKeepsHead(Prompted(g, script[n - 1].prompt),
                       [AssistantMessage(script[n - 1])] + Executed(script[n - 1]), c);
    }
  }

  /** Ready, safe from compaction, and with exactly the pins p behind the prompt. */
  ghost predicate Holds(h: seq<Message>, c: Config, p: seq<Message>) {
    Ready(h) && SafePins(h, c.compactor) && PinnedOf(h[1..]) == p
  }

  lemma PushedHolds(h: seq<Message>, m: Message, c: Config, p: seq<Message>)
    requires Holds(h, c, p) && (m.role == Tool ==> EndsOpen(h))
    ensures Holds(h + [m], c, p + PinnedOf([m]))
  {
    assert (h + [m])[1..] == h[1..] + [m];
    if m.role == Tool {
      OpenEnd(h);
    }
    assert NoOrphansAfter(Some(h[|h| - 1]), [m]);
    hide NoOrphansAfter, NoLooseRuns, PinnedOf, EndsOpen;
    NoOrphansSplit(None, h, [m]);
    if c.compactor.Some? {
      PushKeepsNoLooseRuns(h, m);
    }
    PinnedOfConcat(h[1..], [m]);
  }

  lemma TokenPush(h: seq<Message>, m: Message, c: Config, p: seq<Message>)
    requires c.maxTokens > 0 && Holds(h, c, p) && (m.role == Tool ==> EndsOpen(h))
    ensures var r := Pruned(h + [m], c);
            && Holds(r, c, p + PinnedOf([m])) && r[|r| - 1] == m
            && (m.role == Tool || (HasCalls(m) && !m.pinned) ==> EndsOpen(r))
  {
    hide NoOrphansAfter, NoLooseRuns, PinnedOf, TokenPruned, EndsOpen;
    PushedHolds(h, m, c, p);
    if m.role == Tool || (HasCalls(m) && !m.pinned) {
      PushKeepsOpen(h, m);
    }
    TokenPrunedSafe(h + [m], c.maxTokens, c.compactor);
  }

  lemma TokenPrompt(h: seq<Message>, prompt: string, c: Config, p: seq<Message>)
    requires NoOrphans(h) && SafePins(h, c.compactor) && PinnedOf(Body(h)) == p
    ensures Holds(Prompted(h, prompt), c, p)
  {
    PromptKeepsOrphans(h, prompt);
    hide NoOrphansAfter, NoLooseRuns, PinnedOf;
    var g := Prompted(h, prompt);
    assert g == [g[0]] + Body(h);
    BehindPrompt(g[0], Body(h));
    if Head(h) == 1 {
      assert h == [h[0]] + Body(h);
      BehindPrompt(h[0], Body(h));
    }
  }

  lemma {:induction false} TokenResponses(h: seq<Message>, a: Message, ts: seq<Message>, c: Config, p: seq<Message>)
    requires c.maxTokens > 0 && Holds(h, c, p) && a.role == Assistant && !a.pinned
    requires forall k :: 0 <= k < |ts| ==> ts[k].role == Tool && !ts[k].pinned
    requires ts != [] ==> HasCalls(a)
    ensures var r := PushAll(h, [a] + ts, c); Holds(r, c, p) && (HasCalls(a) ==> EndsOpen(r))
  {
    hide Pruned, PushAll, NoOrphansAfter, SafePins, PinnedOf, EndsOpen;
    if ts == [] {
      assert [a] + ts == [a];
      FirstPush(h, a, c);
      TokenPush(h, a, c, p);
      assert PinnedOf([a]) == [] by { NonePinned([a]); }
    } else {
      var n := |ts| - 1;
      assert [a] + ts == [a] + ts[..n] + [ts[n]];
      PushOneMore(h, [a] + ts[..n], ts[n], c);
      TokenResponses(h, a, ts[..n], c, p);
      TokenPush(PushAll(h, [a] + ts[..n], c), ts[n], c, p);
      assert PinnedOf([ts[n]]) == [] by { NonePinned([ts[n]]); }
    }
  }

  lemma TokenTurn(h: seq<Message>, t: Turn, c: Config, p: seq<Message>)
    requires c.maxTokens > 0 && Holds(h, c, p)
    ensures Holds(AfterTurn(h, t, c), c, p)
  {
    TokenPrompt(h, t.prompt, c, p);
    hide Holds, Prompted, PushAll;
    TokenResponses(Prompted(h, t.prompt), AssistantMessage(t), Executed(t), c, p);
  }

  /** Under a token budget no model behaviour ever leads to an orphan, and every pin stays, through any run. */
  lemma {:induction false} TokenRunSafe(h: seq<Message>, script: seq<Turn>, n: nat, c: Config, p: seq<Message>)
    requires c.maxTokens > 0 && Holds(h, c, p) && n <= |script|
    ensures Holds(RunTo(h, script, n, c), c, p)
  {
    hide Holds, AfterTurn;
    if n > 0 {
      TokenRunSafe(h, script, n - 1, c, p);
      TokenTurn(RunTo(h, script, n - 1, c), script[n - 1], c, p);
    }
  }

  /** A call on a clean history under a token budget: whatever the model does, each request opens with the prompt
      of its turn, carries every pin including this call's, and orphans nothing; the next call starts clean again. */
  lemma TokenCallSafe(h: seq<Message>, prompt: string, user: Message, script: seq<Turn>, k: nat, c: Config)
    requires c.maxTokens > 0 && NoOrphans(h) && SafePins(h, c.compactor) && user.role == User && k <= |script|
    ensures var p := PinnedOf(Body(h)) + PinnedOf([user]);
            && Holds(RunTo(Opened(h, prompt, user, c), script, k, c), c, p)
            && (k < |script| ==>
                  Holds(Prompted(RunTo(Opened(h, prompt, user, c), script, k, c), script[k].prompt), c, p))
  {
    var p := PinnedOf(Body(h)) + PinnedOf([user]);
    TokenPrompt(h, prompt, c, PinnedOf(Body(h)));
    TokenPush(Prompted(h, prompt), user, c, PinnedOf(Body(h)));
    TokenRunSafe(Opened(h, prompt, user, c), script, k, c, p);
    if k < |script| {
      TokenPrompt(RunTo(Opened(h, prompt, user, c), script, k, c), script[k].prompt, c, p);
    }
  }

  /** A call on a clean history under a message limit: its requests orphan nothing iff all turns but the last fit. */
  lemma CountCallExact(h: seq<Message>, prompt: string, user: Message, script: seq<Turn>, n: nat, c: Config)
    requires c.maxTokens == 0 && NoOrphans(h) && user.role == User && n < |script|
    ensures var start := Opened(h, prompt, user, c);
            (forall k :: 0 <= k <= n ==> NoOrphans(Prompted(RunTo(start, script, k, c), script[k].prompt)))
            <==> (forall k :: 0 <= k < n ==> TurnFits(script[k], c.maxHistory))
  {
    hide NoOrphansAfter, TurnFits;
    var start := Opened(h, prompt, user, c);
    PromptKeepsOrphans(h, prompt);
    PushKeepsNoOrphans(Prompted(h, prompt), user, c.maxHistory);
    PushAllKeepsHead(Prompted(h, prompt), [user], c);
    assert [user][..0] == [];
    CountRunExact(start, script, n, c);
    forall k | 0 <= k <= n
      ensures NoOrphans(Prompted(RunTo(start, script, k, c), script[k].prompt)) <==>
        NoOrphans(RunTo(start, script, k, c))
    {
      PromptKeepsOrphans(RunTo(start, script, k, c), script[k].prompt);
    }
  }
}
