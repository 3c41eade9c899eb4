/** When compacting rounds into notes leaves a response without its call. */
module Compaction {
  import opened Options
  import opened MessageHistory
  import opened TokenPruning

  // ---- Responses that are compacted on their own ----

  ghost predicate AllToolsIn(s: seq<Message>, lo: int, hi: int) {
    forall i :: lo <= i < hi && 0 <= i < |s| ==> s[i].role == Tool
  }

  /** Message k is a response in the round of the unpinned call at j. */
  ghost predicate RoundFrom(s: seq<Message>, j: int, k: int) {
    0 <= j < k < |s| && HasCalls(s[j]) && !s[j].pinned && AllToolsIn(s, j + 1, k + 1)
  }

  ghost predicate InRound(s: seq<Message>, k: int) {
    exists j :: RoundFrom(s, j, k)
  }

  /** Response k is unpinned and outside every unpinned round: a unit of its own. */
  ghost predicate Loose(s: seq<Message>, k: int) {
    0 <= k < |s| && s[k].role == Tool && !s[k].pinned && !InRound(s, k)
  }

  /** The position from which on pruning looks at nothing any more. */
  function Stop(s: seq<Message>, before: nat, budget: nat, compactor: Option<Compactor>): (n: nat)
    ensures n <= |s|
    decreases |s|
  {
    if before + TotalTokens(s) <= budget || Final(s) then 0
    else
      var e := UnitLength(s);
      var u := Replaced(s[..e], compactor);
      e + Stop(s[e..], before + TotalTokens(u), budget, compactor)
  }

  /** Response k stays, being pinned or first to be left alone, while the loose one before it is compacted. */
  ghost predicate StrandedAt(s: seq<Message>, stop: int, k: int) {
    && 0 < k < |s| && k <= stop && s[k].role == Tool && Loose(s, k - 1)
    && (s[k].pinned || k == stop)
  }

  ghost predicate Strands(s: seq<Message>, stop: int) {
    exists k :: StrandedAt(s, stop, k)
  }

  lemma StopUnfold(s: seq<Message>, before: nat, budget: nat, compactor: Option<Compactor>)
    ensures before + TotalTokens(s) <= budget || Final(s) ==> Stop(s, before, budget, compactor) == 0
    ensures !(before + TotalTokens(s) <= budget || Final(s)) ==>
              var e := UnitLength(s);
              var u := Replaced(s[..e], compactor);
              Stop(s, before, budget, compactor) == e + Stop(s[e..], before + TotalTokens(u), budget, compactor)
  {
    hide TotalTokens, UnitLength, Replaced, Final;
  }

  // ---- Units and rounds ----

  lemma ToolsShift(u: seq<Message>, t: seq<Message>, lo: nat, hi: int)
    ensures AllToolsIn(u + t, |u| + lo, |u| + hi) <==> AllToolsIn(t, lo, hi)
  {
    var g := u + t;
    if AllToolsIn(g, |u| + lo, |u| + hi) {
      forall i | lo <= i < hi && 0 <= i < |t|
        ensures t[i].role == Tool
      {
        assert g[|u| + i] == t[i];
      }
    }
  }

  /** A round keeps its shape behind other messages. */
  lemma RoundShift(u: seq<Message>, t: seq<Message>, j: nat, k: nat)
    ensures RoundFrom(u + t, |u| + j, |u| + k) <==> RoundFrom(t, j, k)
  {
    ToolsShift(u, t, j + 1, k + 1);
    hide AllToolsIn;
  }

  /** Inside a unit nothing is loose but the last message, and that one only if the unit is it alone. */
  lemma LooseInUnit(s: seq<Message>, k: int)
    requires s != [] && 0 <= k < UnitLength(s)
    ensures Loose(s, k) ==> UnitLength(s) == 1 && !AnyPinned(s[..1])
  {
    var e := UnitLength(s);
    if e > 1 && k > 0 {
      assert RoundFrom(s, 0, k);
    }
  }

  lemma RoundBounds(s: seq<Message>, j: int, k: int)
    requires RoundFrom(s, j, k)
    ensures 0 <= j < k < |s|
  {
  }

  lemma UnitEnds(s: seq<Message>)
    requires s != []
    ensures !s[0].pinned && HasCalls(s[0]) && UnitLength(s) < |s| ==> s[UnitLength(s)].role != Tool
    ensures forall j :: 0 < j < UnitLength(s) ==> !HasCalls(s[j])
  {
  }

  /** A round that goes on behind a unit starts behind it. */
  lemma RoundStartsBehind(s: seq<Message>, j: int, k: int)
    requires s != [] && RoundFrom(s, j, k) && k >= UnitLength(s)
    ensures j >= UnitLength(s)
  {
    hide UnitLength;
    UnitEnds(s);
  }

  /** A round never reaches across the end of a unit. */
  lemma RoundsBehindUnit(s: seq<Message>, k: nat)
    requires s != [] && k < |s| - UnitLength(s)
    ensures InRound(s[UnitLength(s)..], k) <==> InRound(s, UnitLength(s) + k)
  {
    var e := UnitLength(s);
    var at := e + k;
    hide UnitLength, RoundFrom;
    if j :| RoundFrom(s[e..], j, k) {
      RoundBounds(s[e..], j, k);
      RoundShiftAt(s, e, j, k);
    }
    if j :| RoundFrom(s, j, at) {
      RoundBounds(s, j, at);
      RoundStartsBehind(s, j, at);
      RoundShiftAt(s, e, j - e, k);
    }
  }

  lemma RoundShiftAt(s: seq<Message>, e: nat, j: nat, k: nat)
    requires e <= |s|
    ensures RoundFrom(s, e + j, e + k) <==> RoundFrom(s[e..], j, k)
  {
    assert s == s[..e] + s[e..];
    RoundShift(s[..e], s[e..], j, k);
  }

  lemma LooseBehindUnit(s: seq<Message>, k: nat)
    requires s != [] && k < |s| - UnitLength(s)
    ensures Loose(s[UnitLength(s)..], k) <==> Loose(s, UnitLength(s) + k)
  {
    RoundsBehindUnit(s, k);
    hide InRound, UnitLength;
  }

  /** A compacted unit that a response follows was a loose response. */
  lemma CompactedBeforeResponse(prev: Option<Message>, s: seq<Message>)
    requires s != [] && NoOrphansAfter(prev, s) && !AnyPinned(s[..UnitLength(s)])
    requires UnitLength(s) < |s| && s[UnitLength(s)].role == Tool
    ensures UnitLength(s) == 1 && Loose(s, 0)
  {
    assert !s[0].pinned by {
      if s[0].pinned {
        PinnedHead(s);
      }
    }
  }

  /** The stranded positions behind one unit: those of the rest, and perhaps the first of the rest. */
  lemma StrandsUnfold(s: seq<Message>, stop: nat)
    requires s != []
    ensures var e := UnitLength(s);
            Strands(s, e + stop) <==>
              Strands(s[e..], stop) ||
              (e < |s| && s[e].role == Tool && Loose(s, e - 1) && (s[e].pinned || stop == 0))
  {
    hide Loose, UnitLength;
    var e := UnitLength(s);
    var all := e + stop;
    if k :| StrandedAt(s, all, k) {
      if k < e {
        LooseInUnit(s, k - 1);
      } else if k > e {
        LooseBehindUnit(s, k - 1 - e);
        assert StrandedAt(s[e..], stop, k - e);
      }
    }
    if k :| StrandedAt(s[e..], stop, k) {
      LooseBehindUnit(s, k - 1);
      assert StrandedAt(s, e + stop, e + k);
    }
    if e < |s| && s[e].role == Tool && Loose(s, e - 1) && (s[e].pinned || stop == 0) {
      assert StrandedAt(s, e + stop, e);
    }
  }

  // ---- Exactly when compaction orphans a response ----

  /** What compaction leaves opens with a response iff it did so before and that response stays. */
  lemma CompactedHead(s: seq<Message>, before: nat, budget: nat, f: Compactor)
    ensures var t := Trim(s, before, budget, Some(f));
            && (t == [] <==> s == [])
            && (s != [] ==> (t[0].role == Tool <==>
                  s[0].role == Tool && (s[0].pinned || Stop(s, before, budget, Some(f)) == 0)))
  {
    TrimUnfold(s, before, budget, Some(f));
    StopUnfold(s, before, budget, Some(f));
    hide Trim, Stop, TotalTokens;
    if !(before + TotalTokens(s) <= budget || Final(s)) && s[0].pinned {
      PinnedHead(s);
    }
  }

  /** Behind a note, or anything else no response may follow. */
  lemma BehindNote(prev: Option<Message>, note: Message, t: seq<Message>)
    requires !MayPrecedeTool(note)
    ensures NoOrphansAfter(Some(note), t) <==> NoOrphansAfter(prev, t) && (t == [] || t[0].role != Tool)
  {
  }

  /** Compacting to a budget orphans a response iff it strands one: the loose response before a response that
      is pinned, or at which pruning stops, has become a note. */
  lemma {:induction false} CompactOrphansIff(prev: Option<Message>, s: seq<Message>, before: nat, budget: nat,
                                             f: Compactor)
    requires NoOrphansAfter(prev, s)
    ensures NoOrphansAfter(prev, Trim(s, before, budget, Some(f))) <==> !Strands(s, Stop(s, before, budget, Some(f)))
    decreases |s|
  {
    TrimUnfold(s, before, budget, Some(f));
    StopUnfold(s, before, budget, Some(f));
    hide Trim, Stop, TotalTokens, NoOrphansAfter, Loose, UnitLength, AnyPinned, Final;
    if !(before + TotalTokens(s) <= budget || Final(s)) {
      var e := UnitLength(s);
      var u := Replaced(s[..e], Some(f));
      var rest, b := s[e..], before + TotalTokens(u);
      var t, stop := Trim(rest, b, budget, Some(f)), Stop(rest, b, budget, Some(f));
      UnitBoundary(prev, s);
      CompactOrphansIff(Some(s[e - 1]), rest, b, budget, f);
      StrandsUnfold(s, stop);
      NoOrphansSplit(prev, u, t);
      LooseInUnit(s, e - 1);
      if AnyPinned(s[..e]) {
        assert e == 1 ==> !Loose(s, e - 1);
      } else {
        NoteIsHarmless(prev, f(s[..e]));
        BehindNote(Some(s[e - 1]), u[0], t);
        CompactedHead(rest, b, budget, f);
        if e < |s| && s[e].role == Tool {
          CompactedBeforeResponse(prev, s);
        }
      }
    }
  }

  lemma NoteIsHarmless(prev: Option<Message>, summary: string)
    ensures NoOrphansAfter(prev, [Note(summary)]) && !MayPrecedeTool(Note(summary))
  {
  }

  // ---- Histories no compaction can harm ----

  /** No response stands directly behind a loose one. */
  ghost predicate NoLooseRuns(s: seq<Message>) {
    forall k :: 0 < k < |s| && s[k].role == Tool ==> !Loose(s, k - 1)
  }

  /** Without loose runs compaction orphans nothing, whatever the budget and the notes, and makes none. */
  lemma CompactKeepsNoOrphans(prev: Option<Message>, s: seq<Message>, before: nat, budget: nat, f: Compactor)
    requires NoOrphansAfter(prev, s) && NoLooseRuns(s)
    ensures NoOrphansAfter(prev, Trim(s, before, budget, Some(f)))
    ensures NoLooseRuns(Trim(s, before, budget, Some(f)))
  {
    CompactOrphansIff(prev, s, before, budget, f);
    TrimKeepsNoLooseRuns(s, before, budget, f);
  }

  lemma RoundInFront(u: seq<Message>, t: seq<Message>, k: int)
    requires 0 <= k < |u|
    ensures InRound(u + t, k) <==> InRound(u, k)
  {
    var g := u + t;
    assert forall i :: 0 <= i < |u| ==> g[i] == u[i];
    if j :| RoundFrom(g, j, k) {
      assert RoundFrom(u, j, k);
    }
    if j :| RoundFrom(u, j, k) {
      assert RoundFrom(g, j, k);
    }
  }

  lemma LooseInConcat(u: seq<Message>, t: seq<Message>, k: int)
    ensures 0 <= k < |u| ==> (Loose(u + t, k) <==> Loose(u, k))
    ensures |u| <= k < |u| + |t| ==> (Loose(u + t, k) ==> Loose(t, k - |u|))
  {
    var g := u + t;
    if 0 <= k < |u| {
      RoundInFront(u, t, k);
    }
    if |u| <= k < |u| + |t| && InRound(t, k - |u|) {
      var j :| RoundFrom(t, j, k - |u|);
      RoundShift(u, t, j, k - |u|);
    }
  }

  /** What takes the place of a unit holds nothing loose. */
  lemma ReplacedIsTight(s: seq<Message>, f: Compactor, k: int)
    requires s != []
    ensures !Loose(Replaced(s[..UnitLength(s)], Some(f)), k)
  {
    var e := UnitLength(s);
    if AnyPinned(s[..e]) {
      if 0 <= k < e {
        LooseInUnit(s, k);
        LooseInConcat(s[..e], s[e..], k);
        assert s[..e] + s[e..] == s;
      }
    }
  }

  lemma {:induction false} TrimKeepsNoLooseRuns(s: seq<Message>, before: nat, budget: nat, f: Compactor)
    requires NoLooseRuns(s)
    ensures NoLooseRuns(Trim(s, before, budget, Some(f)))
    decreases |s|
  {
    TrimUnfold(s, before, budget, Some(f));
    hide Trim, TotalTokens, Loose, UnitLength, AnyPinned, Final, Replaced;
    if !(before + TotalTokens(s) <= budget || Final(s)) {
      var e := UnitLength(s);
      var u := Replaced(s[..e], Some(f));
      var t := Trim(s[e..], before + TotalTokens(u), budget, Some(f));
      forall k | 0 < k < |s[e..]| && s[e..][k].role == Tool
        ensures !Loose(s[e..], k - 1)
      {
        LooseBehindUnit(s, k - 1);
      }
      TrimKeepsNoLooseRuns(s[e..], before + TotalTokens(u), budget, f);
      forall k | 0 < k < |u + t| && (u + t)[k].role == Tool
        ensures !Loose(u + t, k - 1)
      {
        LooseInConcat(u, t, k - 1);
        ReplacedIsTight(s, f, k - 1);
      }
    }
  }

  // ---- The round that is still open ----

  ghost predicate OpenFrom(s: seq<Message>, j: int) {
    0 <= j < |s| && HasCalls(s[j]) && !s[j].pinned && AllToolsIn(s, j + 1, |s|)
  }

  /** The history ends with an unpinned call, or with responses of its round. */
  ghost predicate EndsOpen(s: seq<Message>) {
    exists j :: OpenFrom(s, j)
  }

  lemma OpenEnd(s: seq<Message>)
    requires EndsOpen(s)
    ensures s != [] && MayPrecedeTool(s[|s| - 1]) && !Loose(s, |s| - 1)
  {
    var j :| OpenFrom(s, j);
    if j < |s| - 1 {
      assert RoundFrom(s, j, |s| - 1);
    }
  }

  lemma OpenShift(u: seq<Message>, t: seq<Message>, j: nat)
    ensures OpenFrom(u + t, |u| + j) <==> OpenFrom(t, j)
  {
    ToolsShift(u, t, j + 1, |t|);
    hide AllToolsIn;
  }

  lemma OpenBehind(u: seq<Message>, t: seq<Message>)
    requires EndsOpen(t)
    ensures EndsOpen(u + t)
  {
    var j :| OpenFrom(t, j);
    OpenShift(u, t, j);
  }

  lemma OpenPast(s: seq<Message>, e: nat)
    requires EndsOpen(s) && e < |s| && s != [] && e == UnitLength(s)
    ensures EndsOpen(s[e..])
  {
    var j :| OpenFrom(s, j);
    assert j >= e by {
      if j < |s| - 1 {
        RoundStartsBehind(s, j, |s| - 1);
      }
    }
    assert s == s[..e] + s[e..];
    hide OpenFrom;
    OpenShift(s[..e], s[e..], j - e);
  }

  /** Pruning leaves the open round whole. */
  lemma {:induction false} TrimKeepsOpen(s: seq<Message>, before: nat, budget: nat, compactor: Option<Compactor>)
    requires EndsOpen(s)
    ensures EndsOpen(Trim(s, before, budget, compactor))
    decreases |s|
  {
    hide Trim, TotalTokens, EndsOpen, UnitLength, AnyPinned, Replaced, Final;
    assert s != [] by {
      OpenEnd(s);
    }
    TrimUnfold(s, before, budget, compactor);
    if !(before + TotalTokens(s) <= budget || Final(s)) {
      var e := UnitLength(s);
      var u := Replaced(s[..e], compactor);
      var rest, b := s[e..], before + TotalTokens(u);
      if e < |s| {
        OpenPast(s, e);
        TrimKeepsOpen(rest, b, budget, compactor);
        OpenBehind(u, Trim(rest, b, budget, compactor));
      } else {
        LastUnitStays(s, b, budget, compactor);
      }
    }
  }

  lemma LastUnitStays(s: seq<Message>, b: nat, budget: nat, compactor: Option<Compactor>)
    requires s != [] && !Final(s) && UnitLength(s) == |s|
    ensures Replaced(s[..UnitLength(s)], compactor) + Trim(s[UnitLength(s)..], b, budget, compactor) == s
  {
    WholeUnitIsPinned(s, compactor);
    TrimOfNothing(b, budget, compactor);
    hide Trim, UnitLength, Replaced, Final;
    assert s[UnitLength(s)..] == [] && s + [] == s;
  }

  /** Pushing a message keeps a history free of loose runs if responses are pushed to an open round only. */
  lemma PushKeepsNoLooseRuns(h: seq<Message>, m: Message)
    requires NoLooseRuns(h) && (m.role == Tool ==> EndsOpen(h))
    ensures NoLooseRuns(h + [m])
  {
    if m.role == Tool {
      OpenEnd(h);
    }
    hide Loose, EndsOpen;
    forall k | 0 < k < |h + [m]| && (h + [m])[k].role == Tool
      ensures !Loose(h + [m], k - 1)
    {
      LooseInConcat(h, [m], k - 1);
    }
  }

  lemma PushKeepsOpen(h: seq<Message>, m: Message)
    requires (HasCalls(m) && !m.pinned) || (m.role == Tool && EndsOpen(h))
    ensures EndsOpen(h + [m])
  {
    var g := h + [m];
    if HasCalls(m) && !m.pinned {
      assert OpenFrom(g, |h|);
    } else {
      var j :| OpenFrom(h, j);
      assert OpenFrom(g, j);
    }
  }

  // ---- Behind a system prompt ----

  lemma BehindPrompt(sys: Message, s: seq<Message>)
    requires sys.role == System
    ensures NoLooseRuns([sys] + s) <==> NoLooseRuns(s)
    ensures EndsOpen([sys] + s) <==> EndsOpen(s)
  {
    hide Loose;
    forall k | 0 <= k < |s|
      ensures Loose([sys] + s, k + 1) <==> Loose(s, k)
    {
      LooseBehindPrompt(sys, s, k);
    }
    PromptIsTight(sys, s);
    NoLooseRunsShift(sys, s);
    OpenBehindPrompt(sys, s);
  }

  lemma RoundBehindPrompt(sys: Message, s: seq<Message>, k: nat)
    requires sys.role == System && k < |s| && InRound([sys] + s, k + 1)
    ensures InRound(s, k)
  {
    var g, at := [sys] + s, k + 1;
    var j :| RoundFrom(g, j, at);
    assert j > 0;
    RoundShift([sys], s, j - 1, k);
  }

  lemma LooseBehindPrompt(sys: Message, s: seq<Message>, k: nat)
    requires sys.role == System && k < |s|
    ensures Loose([sys] + s, k + 1) <==> Loose(s, k)
  {
    LooseInConcat([sys], s, k + 1);
    hide InRound;
    if InRound([sys] + s, k + 1) {
      RoundBehindPrompt(sys, s, k);
    }
  }

  lemma PromptIsTight(sys: Message, s: seq<Message>)
    requires sys.role == System
    ensures !Loose([sys] + s, 0)
  {
  }

  lemma NoLooseRunsShift(sys: Message, s: seq<Message>)
    requires !Loose([sys] + s, 0) && forall k :: 0 <= k < |s| ==> (Loose([sys] + s, k + 1) <==> Loose(s, k))
    ensures NoLooseRuns([sys] + s) <==> NoLooseRuns(s)
  {
    hide Loose;
    var g := [sys] + s;
    if NoLooseRuns(g) {
      forall k | 0 < k < |s| && s[k].role == Tool
        ensures !Loose(s, k - 1)
      {
        assert g[k + 1] == s[k];
        assert Loose(g, k - 1 + 1) <==> Loose(s, k - 1);
      }
    }
    if NoLooseRuns(s) {
      forall k | 0 < k < |g| && g[k].role == Tool
        ensures !Loose(g, k - 1)
      {
        if k > 1 {
          assert Loose(g, k - 2 + 1) <==> Loose(s, k - 2);
        }
      }
    }
  }

  lemma OpenBehindPrompt(sys: Message, s: seq<Message>)
    requires sys.role == System
    ensures EndsOpen([sys] + s) <==> EndsOpen(s)
  {
    var g := [sys] + s;
    if EndsOpen(s) {
      OpenBehind([sys], s);
    }
    if j :| OpenFrom(g, j) {
      assert j > 0;
      OpenShift([sys], s, j - 1);
    }
  }
}
