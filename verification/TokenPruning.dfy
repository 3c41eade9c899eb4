/** Pruning a history to a token budget, round by round from the oldest. */
module TokenPruning {
  import opened Options
  import opened MessageHistory

  type Compactor = seq<Message> -> string

  /** The note that replaces a compacted round. */
  function Note(summary: string): Message {
    Message(User, "[context compacted] " + summary, None, None, None, false)
  }

  predicate AnyPinned(s: seq<Message>) {
    exists k :: 0 <= k < |s| && s[k].pinned
  }

  /** The length of the unit pruning decides about: a pinned message alone, an assistant
      with calls together with its responses, any other message alone. */
  function UnitLength(s: seq<Message>): (e: nat)
    requires s != []
    ensures 1 <= e <= |s|
  {
    if !s[0].pinned && HasCalls(s[0]) then SkipTools(s, 1) else 1
  }

  /** What takes the place of a unit. */
  function Replaced(unit: seq<Message>, compactor: Option<Compactor>): seq<Message> {
    if AnyPinned(unit) then unit
    else if compactor.Some? then [Note(compactor.value(unit))]
    else []
  }

  /** The last message is never dropped, nor an unpinned round that reaches it. */
  predicate Final(s: seq<Message>) {
    |s| <= 1 || (var e := UnitLength(s); e == |s| && !AnyPinned(s[..e]))
  }

  /** What pruning makes of the messages from some position on, when `before` tokens stand before them. */
  function Trim(s: seq<Message>, before: nat, budget: nat, compactor: Option<Compactor>): seq<Message>
    decreases |s|
  {
    if before + TotalTokens(s) <= budget || Final(s) then s
    else
      var e := UnitLength(s);
      var u := Replaced(s[..e], compactor);
      u + Trim(s[e..], before + TotalTokens(u), budget, compactor)
  }

  lemma TrimUnfold(s: seq<Message>, before: nat, budget: nat, compactor: Option<Compactor>)
    ensures before + TotalTokens(s) <= budget || Final(s) ==> Trim(s, before, budget, compactor) == s
    ensures !(before + TotalTokens(s) <= budget || Final(s)) ==>
              var e := UnitLength(s);
              var u := Replaced(s[..e], compactor);
              Trim(s, before, budget, compactor) == u + Trim(s[e..], before + TotalTokens(u), budget, compactor)
  {
    hide TotalTokens, UnitLength, Replaced, Final;
  }

  /** A round: an assistant message with calls and all its responses, none of them pinned. */
  predicate IsRound(u: seq<Message>) {
    && u != [] && HasCalls(u[0])
    && (forall k :: 0 < k < |u| ==> u[k].role == Tool)
    && (forall k :: 0 <= k < |u| ==> !u[k].pinned)
  }

  /** A single message that opens no unpinned round. */
  predicate IsAlone(m: Message) {
    m.pinned || !HasCalls(m)
  }

  lemma UnitGoes(u: seq<Message>, rest: seq<Message>, before: nat, budget: nat, compactor: Option<Compactor>)
    requires u != [] && rest != [] && UnitLength(u + rest) == |u| && before + TotalTokens(u + rest) > budget
    ensures var r := Replaced(u, compactor);
            Trim(u + rest, before, budget, compactor) == r + Trim(rest, before + TotalTokens(r), budget, compactor)
  {
    hide Trim, TotalTokens, UnitLength, Replaced, AnyPinned;
    TrimUnfold(u + rest, before, budget, compactor);
    assert (u + rest)[..|u|] == u && (u + rest)[|u|..] == rest;
  }

  /** Over budget the oldest round goes as a whole, or leaves one note on all of it, and pruning goes on behind it. */
  lemma OldestRoundGoes(u: seq<Message>, rest: seq<Message>, before: nat, budget: nat, f: Compactor)
    requires IsRound(u) && rest != [] && rest[0].role != Tool && before + TotalTokens(u + rest) > budget
    ensures Trim(u + rest, before, budget, None) == Trim(rest, before, budget, None)
    ensures var note := Message(User, "[context compacted] " + f(u), None, None, None, false);
            Trim(u + rest, before, budget, Some(f)) ==
              [note] + Trim(rest, before + TotalTokens([note]), budget, Some(f))
  {
    hide Trim, TotalTokens;
    SkipsTo(u + rest, 1, |u|);
    UnitGoes(u, rest, before, budget, None);
    UnitGoes(u, rest, before, budget, Some(f));
    hide UnitLength;
    NoTokens();
    NothingInFront(Trim(rest, before, budget, None));
  }

  lemma NothingInFront(s: seq<Message>)
    ensures [] + s == s
  {
  }

  lemma {:induction false} SkipsTo(s: seq<Message>, i: nat, e: nat)
    requires i <= e < |s| && (forall k :: i <= k < e ==> s[k].role == Tool) && s[e].role != Tool
    ensures SkipTools(s, i) == e
    decreases e - i
  {
    if i < e {
      SkipsTo(s, i + 1, e);
    }
  }

  /** Over budget the oldest message outside such a round stays if it is pinned, and otherwise goes alone. */
  lemma OldestMessageGoes(m: Message, rest: seq<Message>, before: nat, budget: nat)
    requires IsAlone(m) && rest != [] && before + TotalTokens([m] + rest) > budget
    ensures Trim([m] + rest, before, budget, None) ==
            (if m.pinned then [m] + Trim(rest, before + TotalTokens([m]), budget, None)
             else Trim(rest, before, budget, None))
  {
    hide Trim, TotalTokens;
    UnitGoes([m], rest, before, budget, None);
    hide UnitLength;
    assert [m][0] == m;
    NoTokens();
    NothingInFront(Trim(rest, before, budget, None));
  }

  /** Unpinned tool responses directly after the system prompt are dropped. */
  function GuardFrom(s: seq<Message>): seq<Message> {
    if s != [] && s[0].role == Tool && !s[0].pinned then GuardFrom(s[1..]) else s
  }

  function TokenPruned(h: seq<Message>, budget: nat, compactor: Option<Compactor>): seq<Message> {
    var b := Head(h);
    if TotalTokens(h) <= budget then h
    else h[..b] + GuardFrom(Trim(h[b..], TotalTokens(h[..b]), budget, compactor))
  }

  // ---- No response is orphaned ----

  lemma UnitBoundary(prev: Option<Message>, s: seq<Message>)
    requires s != [] && NoOrphansAfter(prev, s)
    ensures var e := UnitLength(s);
            && NoOrphansAfter(prev, s[..e])
            && NoOrphansAfter(Some(s[e - 1]), s[e..])
            && (!s[0].pinned ==> NoOrphansAfter(prev, s[e..]))
            && (s[0].role != Tool && !(s[0].pinned && HasCalls(s[0])) && e < |s| ==> s[e].role != Tool)
  {
    var e := UnitLength(s);
    assert s == s[..e] + s[e..];
    NoOrphansSplit(prev, s[..e], s[e..]);
  }

  lemma PinnedHead(s: seq<Message>)
    requires s != [] && s[0].pinned
    ensures AnyPinned(s[..UnitLength(s)])
  {
    assert s[..UnitLength(s)][0] == s[0];
  }

  lemma JoinAfter(prev: Option<Message>, u: seq<Message>, r: seq<Message>)
    requires NoOrphansAfter(prev, u)
    requires NoOrphansAfter(if u == [] then prev else Some(u[|u| - 1]), r)
    ensures NoOrphansAfter(prev, u + r)
  {
    NoOrphansSplit(prev, u, r);
  }

  /** Without a compactor pruning never orphans a response, wherever the pins are. */
  lemma {:induction false} TrimKeepsNoOrphans(prev: Option<Message>, s: seq<Message>, before: nat, budget: nat)
    requires NoOrphansAfter(prev, s)
    ensures NoOrphansAfter(prev, Trim(s, before, budget, None))
    decreases |s|
  {
    TrimUnfold(s, before, budget, None);
    hide NoOrphansAfter, UnitLength, AnyPinned, Trim, TotalTokens;
    if !(before + TotalTokens(s) <= budget || Final(s)) {
      var e := UnitLength(s);
      var u := Replaced(s[..e], None);
      UnitBoundary(prev, s);
      if s[0].pinned {
        PinnedHead(s);
      }
      var t := Trim(s[e..], before + TotalTokens(u), budget, None);
      TrimKeepsNoOrphans(if u == [] then prev else Some(s[e - 1]), s[e..], before + TotalTokens(u), budget);
      if u == [] {
        assert u + t == t;
      } else {
        JoinAfter(prev, u, t);
      }
    }
  }

  // ---- Pins and the last message survive ----

  function PinnedOf(s: seq<Message>): seq<Message> {
    if s == [] then [] else (if s[0].pinned then [s[0]] else []) + PinnedOf(s[1..])
  }

  lemma PinnedOfCons(m: Message, s: seq<Message>)
    ensures PinnedOf([m] + s) == (if m.pinned then [m] else []) + PinnedOf(s)
  {
    assert ([m] + s)[1..] == s;
  }

  lemma {:induction false} PinnedOfConcat(g: seq<Message>, h: seq<Message>)
    ensures PinnedOf(g + h) == PinnedOf(g) + PinnedOf(h)
  {
    if g == [] {
      assert g + h == h;
    } else {
      hide PinnedOf;
      PinnedOfConcat(g[1..], h);
      PinnedOfCons(g[0], g[1..]);
      PinnedOfCons(g[0], g[1..] + h);
      assert g == [g[0]] + g[1..] && g + h == [g[0]] + (g[1..] + h);
    }
  }

  lemma {:induction false} NonePinned(s: seq<Message>)
    requires !AnyPinned(s)
    ensures PinnedOf(s) == []
  {
    if s != [] {
      NonePinned(s[1..]);
    }
  }

  lemma ReplacedKeepsPins(unit: seq<Message>, compactor: Option<Compactor>)
    ensures PinnedOf(Replaced(unit, compactor)) == PinnedOf(unit)
  {
    if !AnyPinned(unit) {
      NonePinned(unit);
    }
  }

  lemma TrimOfNothing(before: nat, budget: nat, compactor: Option<Compactor>)
    ensures Trim([], before, budget, compactor) == []
  {
  }

  lemma WholeUnitIsPinned(s: seq<Message>, compactor: Option<Compactor>)
    requires !Final(s) && UnitLength(s) == |s|
    ensures s[..UnitLength(s)] == s && Replaced(s, compactor) == s
  {
  }

  /** Every pinned message survives, in order, and the last message stays last. */
  lemma {:induction false} TrimKeepsPins(s: seq<Message>, before: nat, budget: nat, compactor: Option<Compactor>)
    ensures var r := Trim(s, before, budget, compactor);
            && PinnedOf(r) == PinnedOf(s)
            && (s != [] ==> r != [] && r[|r| - 1] == s[|s| - 1])
    decreases |s|
  {
    TrimUnfold(s, before, budget, compactor);
    hide UnitLength, AnyPinned, PinnedOf, TotalTokens, Trim, Replaced;
    if !(before + TotalTokens(s) <= budget || Final(s)) {
      var e := UnitLength(s);
      var u := Replaced(s[..e], compactor);
      var t := Trim(s[e..], before + TotalTokens(u), budget, compactor);
      assert s == s[..e] + s[e..];
      TrimKeepsPins(s[e..], before + TotalTokens(u), budget, compactor);
      ReplacedKeepsPins(s[..e], compactor);
      PinnedOfConcat(s[..e], s[e..]);
      PinnedOfConcat(u, t);
      if e == |s| {
        TrimOfNothing(before + TotalTokens(u), budget, compactor);
        WholeUnitIsPinned(s, compactor);
        assert u + t == s;
      }
    }
  }

  // ---- What is dropped: the fewest oldest rounds that make it fit ----

  /** s with the prunable ones among its first n units dropped or compacted. */
  ghost function WithoutUnits(s: seq<Message>, n: nat, compactor: Option<Compactor>): seq<Message>
    decreases |s|
  {
    if n == 0 || s == [] then s
    else
      var e := UnitLength(s);
      Replaced(s[..e], compactor) + WithoutUnits(s[e..], n - 1, compactor)
  }

  /** What stands behind the first n units of s. */
  ghost function BehindUnits(s: seq<Message>, n: nat): seq<Message>
    decreases |s|
  {
    if n == 0 || s == [] then s else BehindUnits(s[UnitLength(s)..], n - 1)
  }

  /** Nothing in s can be pruned: all of it is pinned, shares a round with a pin, or is the trailing round. */
  ghost predicate Stuck(s: seq<Message>)
    decreases |s|
  {
    Final(s) || (var e := UnitLength(s); AnyPinned(s[..e]) && Stuck(s[e..]))
  }

  ghost predicate OverUntil(s: seq<Message>, n: nat, before: nat, budget: nat, compactor: Option<Compactor>) {
    forall k: nat :: k < n ==> before + TotalTokens(WithoutUnits(s, k, compactor)) > budget
  }

  /** Pruning stops at the first number of units whose removal makes the rest fit, or at the trailing round. */
  lemma {:induction false} TrimIsLeast(s: seq<Message>, before: nat, budget: nat, compactor: Option<Compactor>)
    returns (n: nat)
    ensures var r := Trim(s, before, budget, compactor);
            && r == WithoutUnits(s, n, compactor)
            && (before + TotalTokens(r) <= budget || Final(BehindUnits(s, n)))
    ensures OverUntil(s, n, before, budget, compactor)
    decreases |s|
  {
    TrimUnfold(s, before, budget, compactor);
    hide UnitLength, AnyPinned, TotalTokens, Replaced, Trim;
    if before + TotalTokens(s) <= budget || Final(s) {
      return 0;
    }
    var e := UnitLength(s);
    var u := Replaced(s[..e], compactor);
    var m := TrimIsLeast(s[e..], before + TotalTokens(u), budget, compactor);
    n := m + 1;
    TotalOfConcat(u, WithoutUnits(s[e..], m, compactor));
    forall k: nat | k < n
      ensures before + TotalTokens(WithoutUnits(s, k, compactor)) > budget
    {
      if k > 0 {
        TotalOfConcat(u, WithoutUnits(s[e..], k - 1, compactor));
      }
    }
  }

  /** A unit that keeps its pin is still a unit when what follows it does not open with a response. */
  lemma UnitStays(u: seq<Message>, t: seq<Message>)
    requires u != [] && UnitLength(u) == |u|
    requires u[0].pinned || t == [] || t[0].role != Tool
    ensures UnitLength(u + t) == |u|
  {
    if !u[0].pinned && HasCalls(u[0]) {
      assert forall k :: 0 <= k < |u| ==> (u + t)[k] == u[k];
      SkipToolsWithin(u, t, 1);
    }
  }

  lemma {:induction false} SkipToolsWithin(u: seq<Message>, t: seq<Message>, e: nat)
    requires e <= |u| && SkipTools(u, e) == |u| && (t == [] || t[0].role != Tool)
    ensures SkipTools(u + t, e) == |u|
    decreases |u| - e
  {
    if e < |u| {
      SkipToolsWithin(u, t, e + 1);
    }
  }

  lemma {:induction false} UnitAlone(s: seq<Message>, e: nat)
    requires s != [] && e == UnitLength(s)
    ensures UnitLength(s[..e]) == e
  {
    if !s[0].pinned && HasCalls(s[0]) {
      SkipAll(s[..e], 1);
    }
  }

  lemma {:induction false} SkipAll(s: seq<Message>, e: nat)
    requires e <= |s| && forall k :: e <= k < |s| ==> s[k].role == Tool
    ensures SkipTools(s, e) == |s|
    decreases |s| - e
  {
    if e < |s| {
      SkipAll(s, e + 1);
    }
  }

  /** After pruning everything fits, or nothing left can be pruned. */
  lemma {:induction false} TrimFitsOrStuck(prev: Option<Message>, s: seq<Message>, before: nat, budget: nat)
    requires NoOrphansAfter(prev, s)
    ensures var r := Trim(s, before, budget, None);
            && (before + TotalTokens(r) <= budget || Stuck(r))
            && (s == [] || s[0].role != Tool ==> r == [] || r[0].role != Tool)
    decreases |s|
  {
    TrimUnfold(s, before, budget, None);
    hide UnitLength, AnyPinned, TotalTokens, Trim, Stuck;
    if before + TotalTokens(s) <= budget {
    } else if Final(s) {
      FinalIsStuck(s);
    } else {
      var e := UnitLength(s);
      var u := Replaced(s[..e], None);
      var t := Trim(s[e..], before + TotalTokens(u), budget, None);
      UnitBoundary(prev, s);
      if s[0].pinned {
        PinnedHead(s);
      }
      TrimFitsOrStuck(Some(s[e - 1]), s[e..], before + TotalTokens(u), budget);
      TotalOfConcat(u, t);
      if u == [] {
        assert u + t == t;
      } else {
        UnitAlone(s, e);
        KeptUnitOpens(s);
        StuckBehindPin(u, t);
      }
    }
  }

  /** A kept unit opens with its pin, or with a call whose responses end with the unit. */
  lemma KeptUnitOpens(s: seq<Message>)
    requires s != [] && AnyPinned(s[..UnitLength(s)])
    ensures s[0].pinned || (HasCalls(s[0]) && (UnitLength(s) < |s| ==> s[UnitLength(s)].role != Tool))
  {
  }

  lemma FinalIsStuck(s: seq<Message>)
    requires Final(s)
    ensures Stuck(s)
  {
  }

  lemma StuckBehindPin(u: seq<Message>, t: seq<Message>)
    requires u != [] && UnitLength(u) == |u| && AnyPinned(u) && (u[0].pinned || t == [] || t[0].role != Tool)
    ensures Stuck(t) ==> Stuck(u + t)
  {
    UnitStays(u, t);
    hide UnitLength, AnyPinned, Final;
    assert (u + t)[..|u|] == u && (u + t)[|u|..] == t;
  }
}
