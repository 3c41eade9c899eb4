/** The cost-first surface budget: a greedy choice under a global cap and one cap per thread-set. */
module SurfaceBudget {
  import opened FiniteSets
  import opened StableSorting

  datatype SurfaceObject = SurfaceObject(threads: set<int>, hasFree: bool, hasListMutation: bool, isSelfRace: bool,
                                         hasUnprotectedWrite: bool, hasCrossThreadRw: bool,
                                         hasMissingAtomicAnnotation: bool, riskScore: int, flowPrior: int)

  predicate ForceKeep(o: SurfaceObject) {
    o.hasFree || o.hasListMutation || o.isSelfRace
  }

  function PriorityScore(o: SurfaceObject): int {
    o.riskScore + (if o.hasFree then 600 else 0) + (if o.hasListMutation then 300 else 0)
    + (if o.isSelfRace then 250 else 0) + (if o.hasUnprotectedWrite then 120 else 0)
    + (if o.hasCrossThreadRw then 80 else 0) + (if o.hasMissingAtomicAnnotation then 40 else 0) + o.flowPrior
  }

  type Surface = seq<SurfaceObject>

  predicate InRange(s: Surface, id: int) {
    0 <= id < |s|
  }

  predicate Forced(s: Surface, id: int) {
    InRange(s, id) && ForceKeep(s[id])
  }

  function Priority(s: Surface, id: int): int {
    if InRange(s, id) then PriorityScore(s[id]) else 0
  }

  /** The thread-set an object is budgeted under. */
  function Key(s: Surface, id: int): set<int> {
    if InRange(s, id) && s[id].threads != {} then s[id].threads else {-1}
  }

  // ---- Total priority and thread-set counts ----

  lemma AnyMember<T>(a: set<T>) returns (x: T)
    requires a != {}
    ensures x in a
  {
    x :| x in a;
  }

  lemma HasMember(a: set<int>)
    requires a != {}
    ensures exists x :: x in a
  {
    var x := AnyMember(a);
  }

  /** A larger set has a member the smaller one lacks. */
  lemma Pick<T>(a: set<T>, b: set<T>) returns (y: T)
    requires |a| < |b|
    ensures y in b && y !in a
  {
    if b - a == {} {
      assert b <= a by { assert forall x :: x in b ==> x !in b - a; }
      SubsetSize(b, a);
    }
    y := AnyMember(b - a);
  }

  ghost function Total(s: Surface, ids: set<int>): int {
    if ids == {} then 0
    else
      HasMember(ids);
      var x :| x in ids;
      Priority(s, x) + Total(s, ids - {x})
  }

  lemma {:induction false} TotalWithout(s: Surface, ids: set<int>, x: int)
    requires x in ids
    ensures Total(s, ids) == Priority(s, x) + Total(s, ids - {x})
    decreases ids
  {
    var y :| y in ids && Total(s, ids) == Priority(s, y) + Total(s, ids - {y});
    if y != x {
      TotalWithout(s, ids - {y}, x);
      TotalWithout(s, ids - {x}, y);
      assert ids - {y} - {x} == ids - {x} - {y};
    }
  }

  lemma TotalWith(s: Surface, ids: set<int>, x: int)
    requires x !in ids
    ensures Total(s, ids + {x}) == Total(s, ids) + Priority(s, x)
  {
    TotalWithout(s, ids + {x}, x);
    assert ids + {x} - {x} == ids;
  }

  ghost function Group(s: Surface, ids: set<int>, k: set<int>): set<int> {
    set x | x in ids && Key(s, x) == k
  }

  /** A choice within both caps. */
  ghost predicate Feasible(s: Surface, ids: set<int>, globalCap: int, perSetCap: int) {
    |ids| <= globalCap && forall k :: |Group(s, ids, k)| <= perSetCap
  }

  /** If every thread-set has at most as many members in a as in b, then a is no larger than b. */
  lemma {:induction false} CountByGroup(s: Surface, a: set<int>, b: set<int>)
    requires forall k :: |Group(s, a, k)| <= |Group(s, b, k)|
    ensures |a| <= |b|
    decreases |a|
  {
    if a != {} {
      HasMember(a);
      var x :| x in a;
      var g := Key(s, x);
      var ag, bg := Group(s, a, g), Group(s, b, g);
      assert x in ag;
      forall k
        ensures |Group(s, a - ag, k)| <= |Group(s, b - bg, k)|
      {
        if k == g {
          assert Group(s, a - ag, k) == {};
        } else {
          assert Group(s, a - ag, k) == Group(s, a, k) && Group(s, b - bg, k) == Group(s, b, k);
        }
      }
      assert a == (a - ag) + ag && b == (b - bg) + bg;
      CountByGroup(s, a - ag, b - bg);
    }
  }

  /** A smaller feasible choice can be enlarged from a larger one without breaking a thread-set cap. */
  lemma Augment(s: Surface, a: set<int>, b: set<int>) returns (y: int)
    requires |a| < |b|
    ensures y in b && y !in a && |Group(s, a, Key(s, y))| < |Group(s, b, Key(s, y))|
  {
    if forall k :: |Group(s, b, k)| <= |Group(s, a, k)| {
      CountByGroup(s, b, a);
    }
    var k :| |Group(s, a, k)| < |Group(s, b, k)|;
    y := Pick(Group(s, a, k), Group(s, b, k));
  }

  // ---- The exchange argument ----

  ghost predicate Optimal(s: Surface, seen: set<int>, chosen: set<int>, globalCap: int, perSetCap: int) {
    forall other :: other <= seen && Feasible(s, other, globalCap, perSetCap) ==> Total(s, other) <= Total(s, chosen)
  }

  /** Swapping x for y of no smaller priority keeps a choice feasible when y's thread-set has room. */
  lemma Swap(s: Surface, other: set<int>, x: int, y: int, globalCap: int, perSetCap: int)
    requires Feasible(s, other, globalCap, perSetCap) && x in other && y !in other - {x}
    requires |Group(s, other - {x}, Key(s, y))| < perSetCap && Priority(s, x) <= Priority(s, y)
    ensures Feasible(s, other - {x} + {y}, globalCap, perSetCap)
    ensures Total(s, other) <= Total(s, other - {x} + {y})
  {
    var rest := other - {x};
    forall k
      ensures |Group(s, rest + {y}, k)| <= perSetCap
    {
      SubsetSize(Group(s, rest, k), Group(s, other, k));
      if k == Key(s, y) {
        assert Group(s, rest + {y}, k) == Group(s, rest, k) + {y};
      } else {
        assert Group(s, rest + {y}, k) == Group(s, rest, k);
      }
    }
    TotalWithout(s, other, x);
    TotalWith(s, rest, y);
  }

  /** Passing over an object is optimal when a cap is exhausted and nothing chosen has lower priority. */
  lemma PassOver(s: Surface, seen: set<int>, chosen: set<int>, x: int, globalCap: int, perSetCap: int)
    requires Optimal(s, seen, chosen, globalCap, perSetCap) && chosen <= seen && x !in seen
    requires Feasible(s, chosen, globalCap, perSetCap) || chosen == {}
    requires forall y :: y in chosen ==> Priority(s, x) <= Priority(s, y)
    requires |chosen| >= globalCap || |Group(s, chosen, Key(s, x))| >= perSetCap
    ensures Optimal(s, seen + {x}, chosen, globalCap, perSetCap)
  {
    forall other | other <= seen + {x} && Feasible(s, other, globalCap, perSetCap)
      ensures Total(s, other) <= Total(s, chosen)
    {
      if x in other {
        Exchange(s, chosen, other, x, globalCap, perSetCap);
        var y :| y in chosen && y !in other - {x} && |Group(s, other - {x}, Key(s, y))| < perSetCap;
        Swap(s, other, x, y, globalCap, perSetCap);
        assert other - {x} + {y} <= seen;
      }
    }
  }

  lemma Exchange(s: Surface, chosen: set<int>, other: set<int>, x: int, globalCap: int, perSetCap: int)
    requires x in other && Feasible(s, other, globalCap, perSetCap)
    requires Feasible(s, chosen, globalCap, perSetCap) || chosen == {}
    requires |chosen| >= globalCap || |Group(s, chosen, Key(s, x))| >= perSetCap
    ensures exists y :: y in chosen && y !in other - {x} && |Group(s, other - {x}, Key(s, y))| < perSetCap
  {
    var rest := other - {x};
    var g := Key(s, x);
    assert Group(s, other, g) == Group(s, rest, g) + {x};
    assert |Group(s, other, g)| <= perSetCap;
    if |chosen| >= globalCap {
      var y := Augment(s, rest, chosen);
      assert |Group(s, chosen, Key(s, y))| <= perSetCap;
    } else {
      var y := Pick(Group(s, rest, g), Group(s, chosen, g));
      assert y in chosen && Key(s, y) == g;
    }
  }

  /** Choosing an object of non-negative priority keeps the choice optimal. */
  lemma TakeOne(s: Surface, seen: set<int>, chosen: set<int>, x: int, globalCap: int, perSetCap: int)
    requires Optimal(s, seen, chosen, globalCap, perSetCap) && chosen <= seen && x !in seen && Priority(s, x) >= 0
    ensures Optimal(s, seen + {x}, chosen + {x}, globalCap, perSetCap)
  {
    TotalWith(s, chosen, x);
    forall other | other <= seen + {x} && Feasible(s, other, globalCap, perSetCap)
      ensures Total(s, other) <= Total(s, chosen + {x})
    {
      if x in other {
        TotalWithout(s, other, x);
        forall k
          ensures |Group(s, other - {x}, k)| <= perSetCap
        {
          SubsetSize(Group(s, other - {x}, k), Group(s, other, k));
        }
        assert Feasible(s, other - {x}, globalCap, perSetCap) && other - {x} <= seen;
      } else {
        assert other <= seen;
      }
    }
  }

  // ---- The order of the greedy pass ----

  function ByPriority(s: Surface): Order<int> {
    (a, b) => Priority(s, a) > Priority(s, b)
  }

  /** A stable sort by descending priority. */
  function StableOrder(s: Surface, ids: seq<int>): seq<int> {
    Sorted(ByPriority(s), ids)
  }

  ghost predicate Ascending(ids: seq<int>) {
    forall i, j :: 0 <= i < j < |ids| ==> ids[i] < ids[j]
  }

  predicate Outranks(s: Surface, a: int, b: int) {
    Priority(s, a) > Priority(s, b) || (Priority(s, a) == Priority(s, b) && a < b)
  }

  /** Descending priority, and ascending ids where priorities tie. */
  ghost predicate Ranked(s: Surface, order: seq<int>) {
    forall i, j :: 0 <= i < j < |order| ==> Outranks(s, order[i], order[j])
  }

  /** Ties in priority keep the ascending order of the ids. */
  lemma StableOrderRanks(s: Surface, ids: seq<int>)
    requires Ascending(ids)
    ensures Ranked(s, StableOrder(s, ids)) && |StableOrder(s, ids)| == |ids|
    ensures forall x :: x in StableOrder(s, ids) <==> x in ids
  {
    var at := SortIsStable(ByPriority(s), ids);
    SortKeepsAll(ByPriority(s), ids);
    var order := StableOrder(s, ids);
    forall x
      ensures x in order <==> x in ids
    {
      assert x in multiset(order) <==> x in multiset(ids);
    }
    forall i, j | 0 <= i < j < |order|
      ensures Outranks(s, order[i], order[j])
    {
      assert MayPrecede(ByPriority(s), order[i], at[i], order[j], at[j]);
    }
  }

  // ---- The greedy pass ----

  ghost function Unforced(s: Surface, ids: seq<int>): set<int> {
    set x | x in ids && !Forced(s, x)
  }

  ghost function ForcedOf(s: Surface, ids: seq<int>): set<int> {
    set x | x in ids && Forced(s, x)
  }

  ghost predicate NonNegative(s: Surface, ids: set<int>) {
    forall x :: x in ids ==> Priority(s, x) >= 0
  }

  /** Whatever was passed over was blocked by a cap that is now exhausted. */
  ghost predicate PassedOverBlocked(s: Surface, seen: set<int>, chosen: set<int>, globalCap: int, perSetCap: int) {
    forall x :: x in seen && x !in chosen ==> |chosen| >= globalCap || |Group(s, chosen, Key(s, x))| >= perSetCap
  }

  ghost predicate Choosing(s: Surface, seen: set<int>, chosen: set<int>, globalCap: int, perSetCap: int) {
    && chosen <= seen
    && (chosen == {} || Feasible(s, chosen, globalCap, perSetCap))
    && PassedOverBlocked(s, seen, chosen, globalCap, perSetCap)
  }

  function CountIn(perSet: map<set<int>, int>, k: set<int>): int {
    if k in perSet then perSet[k] else 0
  }

  ghost predicate Counts(s: Surface, chosen: set<int>, perSet: map<set<int>, int>) {
    forall k :: CountIn(perSet, k) == |Group(s, chosen, k)|
  }

  lemma GroupWith(s: Surface, chosen: set<int>, x: int)
    requires x !in chosen
    ensures forall k :: |Group(s, chosen + {x}, k)| == |Group(s, chosen, k)| + (if k == Key(s, x) then 1 else 0)
  {
    forall k
      ensures |Group(s, chosen + {x}, k)| == |Group(s, chosen, k)| + (if k == Key(s, x) then 1 else 0)
    {
      if k == Key(s, x) {
        assert Group(s, chosen + {x}, k) == Group(s, chosen, k) + {x};
      } else {
        assert Group(s, chosen + {x}, k) == Group(s, chosen, k);
      }
    }
  }

  lemma ChooseMore(s: Surface, seen: set<int>, chosen: set<int>, x: int, globalCap: int, perSetCap: int)
    requires Choosing(s, seen, chosen, globalCap, perSetCap) && x !in seen
    requires |chosen| < globalCap && |Group(s, chosen, Key(s, x))| < perSetCap
    ensures Choosing(s, seen + {x}, chosen + {x}, globalCap, perSetCap)
  {
    GroupWith(s, chosen, x);
    if chosen == {} {
      forall k
        ensures |Group(s, chosen, k)| == 0
      {
        assert Group(s, chosen, k) == {};
      }
    }
  }

  lemma SameSize<T>(a: set<T>, b: set<T>)
    requires a <= b && |a| >= |b|
    ensures a == b
  {
    assert b == a + (b - a);
  }

  lemma Prefix(s: Surface, order: seq<int>, i: nat)
    requires Ranked(s, order) && i < |order|
    ensures order[i] !in order[..i] && order[i] !in Unforced(s, order[..i])
    ensures forall y :: y in Unforced(s, order[..i]) ==> Priority(s, order[i]) <= Priority(s, y)
    ensures Unforced(s, order[..i + 1]) ==
              if Forced(s, order[i]) then Unforced(s, order[..i]) else Unforced(s, order[..i]) + {order[i]}
  {
    assert order[..i + 1] == order[..i] + [order[i]];
  }

  /** The pass has dealt with the first i objects: what it chose, what it kept, and its two counters agree. */
  ghost predicate Passed(s: Surface, order: seq<int>, i: nat, chosen: set<int>, reduced: set<int>, budgeted: int,
                         perSet: map<set<int>, int>, globalCap: int, perSetCap: int)
    requires i <= |order|
  {
    && chosen <= Unforced(s, order[..i]) && |chosen| == budgeted
    && reduced == chosen + ForcedOf(s, order[..i])
    && Counts(s, chosen, perSet)
    && Choosing(s, Unforced(s, order[..i]), chosen, globalCap, perSetCap)
    && (NonNegative(s, chosen) ==> Optimal(s, Unforced(s, order[..i]), chosen, globalCap, perSetCap))
  }

  lemma StartsPassing(s: Surface, order: seq<int>, globalCap: int, perSetCap: int)
    ensures Passed(s, order, 0, {}, {}, 0, map[], globalCap, perSetCap)
  {
    StartsChoosing(s, globalCap, perSetCap);
  }

  lemma KeepForced(s: Surface, order: seq<int>, i: nat, chosen: set<int>, reduced: set<int>, budgeted: int,
                   perSet: map<set<int>, int>, globalCap: int, perSetCap: int)
    requires Ranked(s, order) && i < |order| && Forced(s, order[i])
    requires Passed(s, order, i, chosen, reduced, budgeted, perSet, globalCap, perSetCap)
    ensures Passed(s, order, i + 1, chosen, reduced + {order[i]}, budgeted, perSet, globalCap, perSetCap)
  {
    hide Optimal, Choosing, Counts, Ranked, Unforced, ForcedOf, NonNegative, Key;
    Prefix(s, order, i);
    ForcedPrefix(s, order, i);
    assert reduced + {order[i]} == chosen + (ForcedOf(s, order[..i]) + {order[i]});
  }

  lemma LeaveOut(s: Surface, order: seq<int>, i: nat, chosen: set<int>, reduced: set<int>, budgeted: int,
                 perSet: map<set<int>, int>, globalCap: int, perSetCap: int)
    requires Ranked(s, order) && i < |order| && !Forced(s, order[i])
    requires Passed(s, order, i, chosen, reduced, budgeted, perSet, globalCap, perSetCap)
    requires budgeted >= globalCap || CountIn(perSet, Key(s, order[i])) >= perSetCap
    ensures Passed(s, order, i + 1, chosen, reduced, budgeted, perSet, globalCap, perSetCap)
  {
    hide Optimal, Choosing, Ranked, Unforced, ForcedOf, NonNegative, Key;
    Prefix(s, order, i);
    ForcedPrefix(s, order, i);
    Blocked(s, Unforced(s, order[..i]), chosen, order[i], globalCap, perSetCap);
  }

  lemma Choose(s: Surface, order: seq<int>, i: nat, chosen: set<int>, reduced: set<int>, budgeted: int,
               perSet: map<set<int>, int>, globalCap: int, perSetCap: int)
    requires Ranked(s, order) && i < |order| && !Forced(s, order[i])
    requires Passed(s, order, i, chosen, reduced, budgeted, perSet, globalCap, perSetCap)
    requires budgeted < globalCap && CountIn(perSet, Key(s, order[i])) < perSetCap
    ensures var ts := Key(s, order[i]);
            Passed(s, order, i + 1, chosen + {order[i]}, reduced + {order[i]}, budgeted + 1,
                   perSet[ts := CountIn(perSet, ts) + 1], globalCap, perSetCap)
  {
    hide Optimal, Choosing, Ranked, Unforced, ForcedOf, NonNegative, Key;
    Prefix(s, order, i);
    ForcedPrefix(s, order, i);
    ChooseMore(s, Unforced(s, order[..i]), chosen, order[i], globalCap, perSetCap);
    Taken(s, Unforced(s, order[..i]), chosen, order[i], globalCap, perSetCap);
    CountMore(s, chosen, perSet, order[i]);
  }

  lemma EndsPassing(s: Surface, order: seq<int>, chosen: set<int>, reduced: set<int>, budgeted: int,
                    perSet: map<set<int>, int>, globalCap: int, perSetCap: int)
    requires Passed(s, order, |order|, chosen, reduced, budgeted, perSet, globalCap, perSetCap)
    ensures reduced <= (set x | x in order) && reduced * Unforced(s, order) == chosen
    ensures forall x :: x in order && Forced(s, x) ==> x in reduced
    ensures Choosing(s, Unforced(s, order), chosen, globalCap, perSetCap)
    ensures Optimal(s, Unforced(s, order), chosen, globalCap, perSetCap) <==> NonNegative(s, chosen)
  {
    assert order[..|order|] == order;
    if x :| x in chosen && Priority(s, x) < 0 {
      NegativeIsNotOptimal(s, Unforced(s, order), chosen, x, globalCap, perSetCap);
    }
    hide Optimal, Choosing, Counts;
    KeptParts(s, order, chosen);
  }

  /** One pass in the given order: forced objects always, others while both caps have room. */
  method GreedyPass(s: Surface, order: seq<int>, globalCap: int, perThreadSetCap: int) returns (reduced: set<int>)
    requires Ranked(s, order) && forall x :: x in order ==> InRange(s, x)
    ensures reduced <= set x | x in order
    ensures forall x :: x in order && Forced(s, x) ==> x in reduced
    ensures Choosing(s, Unforced(s, order), reduced * Unforced(s, order), globalCap, perThreadSetCap)
    ensures var chosen := reduced * Unforced(s, order);
            Optimal(s, Unforced(s, order), chosen, globalCap, perThreadSetCap) <==> NonNegative(s, chosen)
  {
    hide Optimal, Choosing, Counts, Ranked, Unforced, NonNegative, Key, Passed;
    reduced := {};
    var perSet: map<set<int>, int> := map[];
    var budgeted := 0;
    ghost var chosen: set<int> := {};
    StartsPassing(s, order, globalCap, perThreadSetCap);
    for i := 0 to |order|
      invariant Passed(s, order, i, chosen, reduced, budgeted, perSet, globalCap, perThreadSetCap)
    {
      var id := order[i];
      assert id in order;
      if ForceKeep(s[id]) {
        KeepForced(s, order, i, chosen, reduced, budgeted, perSet, globalCap, perThreadSetCap);
        reduced := reduced + {id};
        continue;
      }
      var ts := Key(s, id);
      if budgeted >= globalCap || CountIn(perSet, ts) >= perThreadSetCap {
        LeaveOut(s, order, i, chosen, reduced, budgeted, perSet, globalCap, perThreadSetCap);
        continue;
      }
      Choose(s, order, i, chosen, reduced, budgeted, perSet, globalCap, perThreadSetCap);
      reduced, chosen := reduced + {id}, chosen + {id};
      perSet, budgeted := perSet[ts := CountIn(perSet, ts) + 1], budgeted + 1;
    }
    EndsPassing(s, order, chosen, reduced, budgeted, perSet, globalCap, perThreadSetCap);
  }

  lemma KeptParts(s: Surface, order: seq<int>, chosen: set<int>)
    requires chosen <= Unforced(s, order)
    ensures var reduced := chosen + ForcedOf(s, order);
            && reduced <= (set x | x in order) && reduced * Unforced(s, order) == chosen
            && forall x :: x in order && Forced(s, x) ==> x in reduced
  {
  }

  lemma Taken(s: Surface, seen: set<int>, chosen: set<int>, x: int, globalCap: int, perSetCap: int)
    requires x !in seen && chosen <= seen
    requires NonNegative(s, chosen) ==> Optimal(s, seen, chosen, globalCap, perSetCap)
    ensures NonNegative(s, chosen + {x}) ==> Optimal(s, seen + {x}, chosen + {x}, globalCap, perSetCap)
  {
    if NonNegative(s, chosen + {x}) {
      assert forall y :: y in chosen ==> y in chosen + {x};
      TakeOne(s, seen, chosen, x, globalCap, perSetCap);
    }
  }

  /** A choice with an object of negative priority is not optimal: leaving it out is feasible and better. */
  lemma NegativeIsNotOptimal(s: Surface, seen: set<int>, chosen: set<int>, x: int, globalCap: int, perSetCap: int)
    requires chosen <= seen && Feasible(s, chosen, globalCap, perSetCap) && x in chosen && Priority(s, x) < 0
    ensures !Optimal(s, seen, chosen, globalCap, perSetCap)
  {
    var other := chosen - {x};
    TotalWithout(s, chosen, x);
    SubsetSize(other, chosen);
    forall k
      ensures |Group(s, other, k)| <= perSetCap
    {
      SubsetSize(Group(s, other, k), Group(s, chosen, k));
    }
    assert Feasible(s, other, globalCap, perSetCap);
  }

  lemma StartsChoosing(s: Surface, globalCap: int, perSetCap: int)
    ensures Unforced(s, []) == {} && ForcedOf(s, []) == {} && Counts(s, {}, map[])
    ensures Choosing(s, {}, {}, globalCap, perSetCap) && Optimal(s, {}, {}, globalCap, perSetCap)
  {
    forall k
      ensures Group(s, {}, k) == {}
    {
    }
  }

  lemma ForcedPrefix(s: Surface, order: seq<int>, i: nat)
    requires i < |order|
    ensures ForcedOf(s, order[..i + 1]) ==
              if Forced(s, order[i]) then ForcedOf(s, order[..i]) + {order[i]} else ForcedOf(s, order[..i])
  {
    assert order[..i + 1] == order[..i] + [order[i]];
  }

  lemma CountMore(s: Surface, chosen: set<int>, perSet: map<set<int>, int>, id: int)
    requires Counts(s, chosen, perSet) && id !in chosen
    ensures Counts(s, chosen + {id}, perSet[Key(s, id) := CountIn(perSet, Key(s, id)) + 1])
  {
    GroupWith(s, chosen, id);
  }

  lemma Blocked(s: Surface, seen: set<int>, chosen: set<int>, x: int, globalCap: int, perSetCap: int)
    requires Choosing(s, seen, chosen, globalCap, perSetCap) && x !in seen
    requires |chosen| >= globalCap || |Group(s, chosen, Key(s, x))| >= perSetCap
    requires forall y :: y in chosen ==> Priority(s, x) <= Priority(s, y)
    ensures Choosing(s, seen + {x}, chosen, globalCap, perSetCap)
    ensures Optimal(s, seen, chosen, globalCap, perSetCap) ==> Optimal(s, seen + {x}, chosen, globalCap, perSetCap)
  {
    if Optimal(s, seen, chosen, globalCap, perSetCap) {
      PassOver(s, seen, chosen, x, globalCap, perSetCap);
    }
  }

  // ---- The budget in the objects' own fields ----

  /** The priority of an object that is the only one of its surface. */
  function PriorityAlone(o: SurfaceObject): int {
    Priority([o], 0)
  }

  /** What each mutation flag adds to the priority of an object. */
  lemma MutationWeights(o: SurfaceObject)
    ensures PriorityAlone(o.(hasFree := true)) == PriorityAlone(o.(hasFree := false)) + 600
    ensures PriorityAlone(o.(hasListMutation := true)) == PriorityAlone(o.(hasListMutation := false)) + 300
    ensures PriorityAlone(o.(isSelfRace := true)) == PriorityAlone(o.(isSelfRace := false)) + 250
  {
  }

  /** What each access flag adds to the priority of an object. */
  lemma AccessWeights(o: SurfaceObject)
    ensures PriorityAlone(o.(hasUnprotectedWrite := true)) == PriorityAlone(o.(hasUnprotectedWrite := false)) + 120
    ensures PriorityAlone(o.(hasCrossThreadRw := true)) == PriorityAlone(o.(hasCrossThreadRw := false)) + 80
    ensures PriorityAlone(o.(hasMissingAtomicAnnotation := true)) ==
            PriorityAlone(o.(hasMissingAtomicAnnotation := false)) + 40
  {
  }

  /** Risk and flow add themselves, and without risk, flow and flags there is no priority. */
  lemma BaseWeights(o: SurfaceObject)
    ensures PriorityAlone(o) == PriorityAlone(o.(riskScore := 0)) + o.riskScore
    ensures PriorityAlone(o) == PriorityAlone(o.(flowPrior := 0)) + o.flowPrior
    ensures PriorityAlone(SurfaceObject(o.threads, false, false, false, false, false, false, 0, 0)) == 0
  {
  }

  /** Two objects draw on the same allowance: their thread-sets agree, or neither names a thread. */
  predicate SameAllowance(a: set<int>, b: set<int>) {
    a == b || (a <= {-1} && b <= {-1})
  }

  /** The objects without a free, a list mutation or a race with themselves. */
  ghost function Ordinary(s: Surface, ids: set<int>): set<int> {
    set x | x in ids && 0 <= x < |s| && !s[x].hasFree && !s[x].hasListMutation && !s[x].isSelfRace
  }

  ghost function SharingWith(s: Surface, ids: set<int>, threads: set<int>): set<int> {
    set x | x in ids && 0 <= x < |s| && SameAllowance(s[x].threads, threads)
  }

  /** All others are kept; the ordinary objects kept respect the global cap and one cap for each thread-set; and each
      one dropped found the global cap or the allowance of its thread-set used up. */
  ghost predicate Budgeted(s: Surface, ids: seq<int>, kept: set<int>, globalCap: int, perSetCap: int) {
    var rest := Ordinary(s, kept);
    && (forall x :: x in kept ==> x in ids)
    && (forall x :: x in ids && 0 <= x < |s| && (s[x].hasFree || s[x].hasListMutation || s[x].isSelfRace) ==> x in kept)
    && (rest != {} ==> |rest| <= globalCap && forall ts :: |SharingWith(s, rest, ts)| <= perSetCap)
    && (forall x :: x in ids && 0 <= x < |s| && x !in kept ==>
          |rest| >= globalCap || |SharingWith(s, rest, s[x].threads)| >= perSetCap)
  }

  lemma IsBudgeted(s: Surface, ids: seq<int>, kept: set<int>, globalCap: int, perSetCap: int)
    requires (forall x :: x in ids ==> InRange(s, x)) && kept <= set x | x in ids
    requires forall x :: x in ids && Forced(s, x) ==> x in kept
    requires Choosing(s, Unforced(s, ids), kept * Unforced(s, ids), globalCap, perSetCap)
    ensures Budgeted(s, ids, kept, globalCap, perSetCap)
  {
    var rest := Ordinary(s, kept);
    assert rest == kept * Unforced(s, ids);
    hide SharingWith, Group, Ordinary;
    forall ts
      ensures SharingWith(s, rest, ts) == Group(s, rest, if ts == {} then {-1} else ts)
    {
      SharingMeans(s, rest, ts);
    }
  }

  lemma SharingMeans(s: Surface, ids: set<int>, ts: set<int>)
    requires forall x :: x in ids ==> InRange(s, x)
    ensures SharingWith(s, ids, ts) == Group(s, ids, if ts == {} then {-1} else ts)
  {
    forall a: set<int> | a <= {-1}
      ensures a == {} || a == {-1}
    {
      if a != {} {
        assert -1 in a;
      }
    }
  }

  /** The objects kept within the budget. */
  method ApplyCostFirstSurfaceBudget(s: Surface, conflictingPairs: nat, objKeep: seq<int>, enabled: bool,
                                     globalCap: int, perThreadSetCap: int)
    returns (kept: set<int>)
    requires Ascending(objKeep) && forall x :: x in objKeep ==> InRange(s, x)
    ensures !enabled || |objKeep| <= 80 || (|s| < 1200 && conflictingPairs < 50000) ==> kept == set x | x in objKeep
    ensures kept <= set x | x in objKeep
    ensures forall x :: x in objKeep && Forced(s, x) ==> x in kept
    ensures enabled && |objKeep| > 80 && (|s| >= 1200 || conflictingPairs >= 50000) ==>
              var chosen := kept * Unforced(s, objKeep);
              && Budgeted(s, objKeep, kept, globalCap, perThreadSetCap)
              && Choosing(s, Unforced(s, objKeep), chosen, globalCap, perThreadSetCap)
              && (Optimal(s, Unforced(s, objKeep), chosen, globalCap, perThreadSetCap) <==> NonNegative(s, chosen))
  {
    if !enabled || |objKeep| <= 80 {
      return set x | x in objKeep;
    }
    var pathological := |s| >= 1200 || conflictingPairs >= 50000;
    if !pathological {
      return set x | x in objKeep;
    }
    StableOrderRanks(s, objKeep);
    var order := StableOrder(s, objKeep);
    var reduced := GreedyPass(s, order, globalCap, perThreadSetCap);
    assert Unforced(s, order) == Unforced(s, objKeep);
    if |reduced| < |objKeep| {
      kept := reduced;
    } else {
      kept := set x | x in objKeep;
      ElementsSize(objKeep);
      SameSize(reduced, kept);
    }
    IsBudgeted(s, objKeep, kept, globalCap, perThreadSetCap);
  }
}
