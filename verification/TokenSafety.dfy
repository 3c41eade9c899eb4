/** Token pruning of whole histories: what it keeps, when it fits, and when it orphans a response. */
module TokenSafety {
  import opened Options
  import opened MessageHistory
  import opened TokenPruning
  import opened Compaction

  /** The messages behind the system prompt. */
  function Body(h: seq<Message>): seq<Message> {
    h[Head(h)..]
  }

  lemma BodyHead(h: seq<Message>)
    requires NoOrphans(h)
    ensures Body(h) == [] || Body(h)[0].role != Tool
  {
  }

  /** Trimming the body leaves the guard against responses behind the prompt nothing to do. */
  lemma GuardIsIdle(h: seq<Message>, before: nat, budget: nat, compactor: Option<Compactor>)
    requires NoOrphans(h)
    ensures var t := Trim(Body(h), before, budget, compactor); GuardFrom(t) == t && (t == [] || t[0].role != Tool)
  {
    BodyHead(h);
    var s := Body(h);
    if compactor.Some? {
      CompactedHead(s, before, budget, compactor.value);
    } else {
      BodyNoOrphans(h);
      TrimFitsOrStuck(if Head(h) == 1 then Some(h[0]) else None, s, before, budget);
    }
    hide Trim;
  }

  lemma BodyNoOrphans(h: seq<Message>)
    ensures var prev := if Head(h) == 1 then Some(h[0]) else None;
            NoOrphans(h) <==> NoOrphansAfter(None, h[..Head(h)]) && NoOrphansAfter(prev, Body(h))
  {
    assert h == h[..Head(h)] + Body(h);
    NoOrphansSplit(None, h[..Head(h)], Body(h));
  }

  lemma PrunedIs(h: seq<Message>, budget: nat, compactor: Option<Compactor>)
    requires NoOrphans(h)
    ensures TokenPruned(h, budget, compactor) ==
            h[..Head(h)] + Trim(Body(h), TotalTokens(h[..Head(h)]), budget, compactor)
    ensures TotalTokens(h[..Head(h)]) + TotalTokens(Body(h)) == TotalTokens(h)
  {
    var g := h[..Head(h)];
    assert h == g + Body(h);
    TotalOfConcat(g, Body(h));
    TrimUnfold(Body(h), TotalTokens(g), budget, compactor);
    GuardIsIdle(h, TotalTokens(g), budget, compactor);
    hide Trim, TotalTokens, GuardFrom, NoOrphansAfter;
  }

  /** Compacting a clean history to a budget orphans a response iff its body strands one. */
  lemma CompactedOrphansIff(h: seq<Message>, budget: nat, f: Compactor)
    requires NoOrphans(h)
    ensures NoOrphans(TokenPruned(h, budget, Some(f))) <==>
            !Strands(Body(h), Stop(Body(h), TotalTokens(h[..Head(h)]), budget, Some(f)))
  {
    var prev, g := if Head(h) == 1 then Some(h[0]) else None, h[..Head(h)];
    PrunedIs(h, budget, Some(f));
    BodyNoOrphans(h);
    CompactOrphansIff(prev, Body(h), TotalTokens(g), budget, f);
    hide Trim, TotalTokens, NoOrphansAfter, Strands, Stop, TokenPruned;
    NoOrphansSplit(None, g, Trim(Body(h), TotalTokens(g), budget, Some(f)));
  }

  /** Without a compactor the pruned history fits, or nothing behind its prompt can be pruned any further. */
  lemma TokenPrunedFitsOrStuck(h: seq<Message>, budget: nat)
    requires NoOrphans(h)
    ensures var r := TokenPruned(h, budget, None);
            |r| >= Head(h) && (TotalTokens(r) <= budget || Stuck(r[Head(h)..]))
  {
    var g := h[..Head(h)];
    PrunedIs(h, budget, None);
    BodyNoOrphans(h);
    TrimFitsOrStuck(if Head(h) == 1 then Some(h[0]) else None, Body(h), TotalTokens(g), budget);
    hide Trim, TotalTokens, NoOrphansAfter, Stuck, TokenPruned;
    TotalOfConcat(g, Trim(Body(h), TotalTokens(g), budget, None));
  }

  // ---- Histories that stay clean ----

  /** No compaction can strand a response, or there is no compactor. */
  ghost predicate SafePins(h: seq<Message>, compactor: Option<Compactor>) {
    compactor.Some? ==> NoLooseRuns(h)
  }

  /** Without loose runs, or without a compactor, pruning behind a system prompt keeps every pin, the last message
      and the open round, and orphans nothing; the final guard finds nothing to do. */
  lemma BodyPrunedSafe(sys: Message, s: seq<Message>, before: nat, budget: nat, compactor: Option<Compactor>)
    requires sys.role == System && NoOrphans([sys] + s) && SafePins([sys] + s, compactor)
    ensures var t := Trim(s, before, budget, compactor);
            && GuardFrom(t) == t
            && NoOrphans([sys] + t) && SafePins([sys] + t, compactor)
            && PinnedOf(t) == PinnedOf(s)
            && (s == [] <==> t == []) && (s != [] ==> t[|t| - 1] == s[|s| - 1])
            && (EndsOpen([sys] + s) ==> EndsOpen([sys] + t))
  {
    var t := Trim(s, before, budget, compactor);
    assert Body([sys] + s) == s && ([sys] + s)[..1] == [sys];
    GuardIsIdle([sys] + s, before, budget, compactor);
    hide NoOrphansAfter, Trim, NoLooseRuns, EndsOpen, PinnedOf, GuardFrom;
    NoOrphansSplit(None, [sys], s);
    TrimKeepsPins(s, before, budget, compactor);
    TrimOfNothing(before, budget, compactor);
    BehindPrompt(sys, s);
    BehindPrompt(sys, t);
    if compactor.Some? {
      CompactKeepsNoOrphans(Some(sys), s, before, budget, compactor.value);
    } else {
      TrimKeepsNoOrphans(Some(sys), s, before, budget);
    }
    if EndsOpen(s) {
      TrimKeepsOpen(s, before, budget, compactor);
    }
    NoOrphansSplit(None, [sys], t);
  }

  /** The same for a whole history that opens with its system prompt. */
  lemma TokenPrunedSafe(h: seq<Message>, budget: nat, compactor: Option<Compactor>)
    requires Head(h) == 1 && NoOrphans(h) && SafePins(h, compactor)
    ensures var r := TokenPruned(h, budget, compactor);
            && Head(r) == 1 && r[0] == h[0]
            && NoOrphans(r) && SafePins(r, compactor)
            && PinnedOf(r[1..]) == PinnedOf(h[1..])
            && r[|r| - 1] == h[|h| - 1]
            && (EndsOpen(h) ==> EndsOpen(r))
            && (TotalTokens(h) > budget ==> r[1..] == Trim(h[1..], Tokens(h[0]), budget, compactor))
  {
    hide NoOrphansAfter, Trim, SafePins, PinnedOf, GuardFrom, EndsOpen;
    if TotalTokens(h) > budget {
      assert h == [h[0]] + h[1..] && h[..1] == [h[0]];
      assert TotalTokens(h[..1]) == Tokens(h[0]) by { assert h[..1][..0] == []; }
      BodyPrunedSafe(h[0], h[1..], Tokens(h[0]), budget, compactor);
    }
  }

  // ---- Where a compactor does orphan a response ----

  function Plain(r: Role, chars: nat): Message {
    Message(r, seq(chars, i => 'x'), None, None, None, false)
  }

  function PinnedCall(): Message {
    Message(Assistant, "", Some([ToolCall("", "", "")]), None, None, true)
  }

  lemma PinnedCallTokens()
    ensures Tokens(PinnedCall()) == 6
  {
    assert CallChars([]) == 0;
  }

  lemma TotalOfFirst(m: Message, s: seq<Message>)
    ensures TotalTokens([m] + s) == Tokens(m) + TotalTokens(s)
  {
    assert [m][..0] == [];
    TotalOfConcat([m], s);
  }

  lemma ReplacedAlone(m: Message, f: Compactor)
    ensures Replaced([m], Some(f)) == [if m.pinned then m else Note(f([m]))]
  {
    assert m.pinned ==> AnyPinned([m]) by { assert [m][0] == m; }
  }

  lemma NotFinal(m: Message, s: seq<Message>)
    requires s != [] && UnitLength([m] + s) == 1
    ensures !Final([m] + s)
  {
    hide UnitLength, AnyPinned;
  }

  lemma TrimFirst(m: Message, s: seq<Message>, before: nat, budget: nat, f: Compactor, r: Message)
    requires before + Tokens(m) + TotalTokens(s) > budget && s != [] && UnitLength([m] + s) == 1
    requires r == if m.pinned then m else Note(f([m]))
    ensures Trim([m] + s, before, budget, Some(f)) == [r] + Trim(s, before + Tokens(r), budget, Some(f))
  {
    hide Trim, TotalTokens, Tokens, UnitLength, Note, Replaced, Final;
    TrimUnfold([m] + s, before, budget, Some(f));
    NotFinal(m, s);
    TotalOfFirst(m, s);
    assert ([m] + s)[..1] == [m] && ([m] + s)[1..] == s;
    ReplacedAlone(m, f);
    NoTokens();
    TotalOfFirst(r, []);
    assert [r] + [] == [r];
  }

  const EMPTY_SUMMARY: Compactor := (ms: seq<Message>) => ""

  function TwoLeft(): seq<Message> {
    [Plain(Tool, 0)] + [Plain(User, 0)]
  }

  function SplitRoundHistory(): seq<Message> {
    [PinnedCall()] + ([Plain(Tool, 24)] + TwoLeft())
  }

  lemma SplitRoundTokens()
    ensures TotalTokens(TwoLeft()) == 8 && TotalTokens([Plain(Tool, 24)] + TwoLeft()) == 18
    ensures TotalTokens(SplitRoundHistory()) == 24
  {
    PinnedCallTokens();
    NoTokens();
    TotalOfFirst(Plain(User, 0), []);
    assert [Plain(User, 0)] + [] == [Plain(User, 0)];
    TotalOfFirst(Plain(Tool, 0), [Plain(User, 0)]);
    TotalOfFirst(Plain(Tool, 24), TwoLeft());
    TotalOfFirst(PinnedCall(), [Plain(Tool, 24)] + TwoLeft());
  }

  lemma SplitRoundTrim()
    ensures Trim(SplitRoundHistory(), 0, 23, Some(EMPTY_SUMMARY)) == [PinnedCall()] + ([Note("")] + TwoLeft())
  {
    hide TotalTokens, CallChars;
    SplitRoundTokens();
    PinnedCallTokens();
    TrimFirst(PinnedCall(), [Plain(Tool, 24)] + TwoLeft(), 0, 23, EMPTY_SUMMARY, PinnedCall());
    TrimFirst(Plain(Tool, 24), TwoLeft(), 6, 23, EMPTY_SUMMARY, Note(""));
  }

  /** Pinning a call splits its round: compacting the first of two responses strands the second. */
  lemma CompactorCanOrphan()
    ensures NoOrphans(SplitRoundHistory())
    ensures !NoOrphans(TokenPruned(SplitRoundHistory(), 23, Some(EMPTY_SUMMARY)))
  {
    hide Trim, TotalTokens, CallChars;
    NoTokens();
    SplitRoundTokens();
    SplitRoundTrim();
    var h, r := SplitRoundHistory(), [PinnedCall()] + ([Note("")] + TwoLeft());
    assert h[0..] == h && h[..0] == [] && [] + r == r;
    assert GuardFrom(r) == r;
    assert r[2] == Plain(Tool, 0) && r[1] == Note("");
  }
}
