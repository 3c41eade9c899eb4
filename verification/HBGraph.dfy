/** The happens-before graph and its two bounded breadth-first queries. */
module HBGraphs {
  import opened FiniteSets
  import opened Options
  import opened HBWalks

  /** A search state: a node, and whether the way to it crossed an accepted edge. */
  type State = (Node, bool)

  /** What a search looks for. Without a policy no edge counts as crossed. */
  datatype Query = Query(m: EdgeMap, from: Node, target: Node, requireSync: bool, policy: Option<SyncPolicy>)

  predicate Accepts(policy: Option<SyncPolicy>, k: HBEdgeKind) {
    policy.Some? && IsSyncEdge(k, policy.value)
  }

  ghost predicate CrossesAccepted(policy: Option<SyncPolicy>, es: seq<HBEdge>) {
    policy.Some? && Crosses(es, policy.value)
  }

  ghost predicate Goal(q: Query, s: State) {
    s.0 == q.target && (q.requireSync ==> s.1)
  }

  ghost function Next(q: Query, s: State, e: HBEdge): State {
    (e.dst, s.1 || Accepts(q.policy, e.kind))
  }

  /** The walk that first led to each visited state. */
  type Trails = map<State, seq<HBEdge>>

  ghost predicate Sound(q: Query, via: Trails) {
    forall s :: s in via ==> IsWalk(q.m, q.from, via[s], s.0) && CrossesAccepted(q.policy, via[s]) == s.1
  }

  ghost predicate Followed(q: Query, via: Trails, s: State, e: HBEdge)
    requires s in via
  {
    && !Goal(q, Next(q, s, e))
    && Next(q, s, e) in via
    && |via[Next(q, s, e)]| <= |via[s]| + 1
  }

  ghost predicate Expanded(q: Query, via: Trails, s: State)
    requires s in via
  {
    forall k :: 0 <= k < |Edges(q.m, s.0)| ==> Followed(q, via, s, Edges(q.m, s.0)[k])
  }

  /** Every state nearer than n has had all its edges followed. */
  ghost predicate ExpandedBelow(q: Query, via: Trails, n: int) {
    forall s :: s in via && |via[s]| < n ==> Expanded(q, via, s)
  }

  lemma AppendEdge(q: Query, via: Trails, s: State, e: HBEdge)
    requires Sound(q, via) && s in via && HasEdge(q.m, e) && e.src == s.0
    ensures IsWalk(q.m, q.from, via[s] + [e], e.dst)
    ensures CrossesAccepted(q.policy, via[s] + [e]) == Next(q, s, e).1
  {
    assert IsWalk(q.m, e.src, [e], e.dst);
    WalkConcat(q.m, q.from, via[s], s.0, [e], e.dst);
    assert forall p :: IsSyncEdge(e.kind, p) ==> IsSyncEdge([e][0].kind, p);
    assert forall p :: Crosses([e], p) <==> IsSyncEdge(e.kind, p);
  }

  /** The state a walk is in after its first k edges. */
  ghost function StateAt(q: Query, es: seq<HBEdge>, k: nat): State
    requires k <= |es|
  {
    (NodeAt(q.from, es, k), CrossesAccepted(q.policy, es[..k]))
  }

  lemma StateStep(q: Query, es: seq<HBEdge>, k: nat)
    requires k < |es|
    ensures StateAt(q, es, k + 1) == Next(q, StateAt(q, es, k), es[k])
  {
    assert es[..k + 1] == es[..k] + [es[k]];
    CrossesConcat(es[..k], [es[k]]);
    assert forall p :: IsSyncEdge(es[k].kind, p) ==> IsSyncEdge([es[k]][0].kind, p);
    assert forall p :: Crosses([es[k]], p) <==> IsSyncEdge(es[k].kind, p);
  }

  lemma {:induction false} WalkIsVisited(q: Query, via: Trails, n: int, es: seq<HBEdge>, b: Node, k: nat)
    requires (q.from, false) in via && via[(q.from, false)] == []
    requires ExpandedBelow(q, via, n)
    requires IsWalk(q.m, q.from, es, b) && k <= |es| && k <= n
    ensures StateAt(q, es, k) in via && |via[StateAt(q, es, k)]| <= k
    ensures k > 0 ==> !Goal(q, StateAt(q, es, k))
  {
    if k > 0 {
      WalkIsVisited(q, via, n, es, b, k - 1);
      StateStep(q, es, k - 1);
      var s := StateAt(q, es, k - 1);
      assert HasEdge(q.m, es[k - 1]) && es[k - 1].src == s.0;
      var i :| 0 <= i < |Edges(q.m, s.0)| && Edges(q.m, s.0)[i] == es[k - 1];
      assert Followed(q, via, s, es[k - 1]);
    }
  }

  /** A search that followed every edge below depth n has missed no goal within n edges. */
  lemma NoGoalWithin(q: Query, via: Trails, n: int, es: seq<HBEdge>)
    requires (q.from, false) in via && via[(q.from, false)] == []
    requires ExpandedBelow(q, via, n)
    requires IsWalk(q.m, q.from, es, q.target) && 1 <= |es| <= n
    ensures q.requireSync && !CrossesAccepted(q.policy, es)
  {
    WalkIsVisited(q, via, n, es, q.target, |es|);
    assert es[..|es|] == es;
  }

  // ---- The queue discipline of breadth-first search ----

  /** The queue holds visited states in order of distance, all within one of lo. */
  ghost predicate Queued(via: Trails, queue: seq<State>, lo: int) {
    && (forall k :: 0 <= k < |queue| ==> queue[k] in via && lo <= |via[queue[k]]| <= lo + 1)
    && (forall j, k :: 0 <= j < k < |queue| ==> |via[queue[j]]| <= |via[queue[k]]|)
    && (forall s :: s in via ==> |via[s]| <= lo + 1)
  }

  ghost predicate Settled(q: Query, via: Trails, cap: int, s: State)
    requires s in via
  {
    |via[s]| >= cap || Expanded(q, via, s)
  }

  /** Everything visited and no longer queued, apart from `open`, is settled. */
  ghost predicate SettledBut(q: Query, via: Trails, cap: int, queue: seq<State>, open: set<State>) {
    forall s :: s in via && s !in queue && s !in open ==> Settled(q, via, cap, s)
  }

  lemma VisitKeeps(q: Query, via: Trails, cap: int, queue: seq<State>, open: set<State>, lo: int, s: State, e: HBEdge)
    requires Sound(q, via) && Queued(via, queue, lo) && SettledBut(q, via, cap, queue, open)
    requires s in via && |via[s]| == lo && HasEdge(q.m, e) && e.src == s.0
    requires Next(q, s, e) !in via
    ensures var via' := via[Next(q, s, e) := via[s] + [e]];
            var queue' := queue + [Next(q, s, e)];
            && Sound(q, via') && Queued(via', queue', lo) && SettledBut(q, via', cap, queue', open)
  {
    AppendEdge(q, via, s, e);
    var t := Next(q, s, e);
    var via' := via[t := via[s] + [e]];
    var queue' := queue + [t];
    forall x | x in via' && x !in queue' && x !in open
      ensures Settled(q, via', cap, x)
    {
      assert x != t by { assert queue'[|queue|] == t; }
      assert forall k :: 0 <= k < |queue| ==> queue[k] == queue'[k];
      FollowedStays(q, via, via', x);
    }
  }

  lemma FollowedStays(q: Query, via: Trails, via': Trails, x: State)
    requires x in via
    requires forall s :: s in via ==> s in via' && via'[s] == via[s]
    ensures forall e :: Followed(q, via, x, e) ==> Followed(q, via', x, e)
    ensures Expanded(q, via, x) ==> Expanded(q, via', x)
  {
  }

  /** All states a search from `from` can be in. */
  ghost function AllStates(m: EdgeMap, from: Node): set<State> {
    set n, b | n in Touched(m) + {from} && b in {true, false} :: (n, b)
  }

  lemma NextIsState(q: Query, s: State, e: HBEdge)
    requires HasEdge(q.m, e)
    ensures Next(q, s, e) in AllStates(q.m, q.from)
  {
    TouchedBy(q.m, e);
  }

  /** The invariant of a running search: `queue` lists what is still to be expanded. */
  ghost predicate Searching(q: Query, via: Trails, cap: int, queue: seq<State>, open: set<State>, lo: int) {
    && (q.from, false) in via && via[(q.from, false)] == []
    && Sound(q, via)
    && Queued(via, queue, lo)
    && SettledBut(q, via, cap, queue, open)
    && via.Keys <= AllStates(q.m, q.from)
  }

  /** The first n edges leaving s have been followed. */
  ghost predicate FollowedTo(q: Query, via: Trails, s: State, n: int)
    requires s in via
  {
    forall k :: 0 <= k < n && k < |Edges(q.m, s.0)| ==> Followed(q, via, s, Edges(q.m, s.0)[k])
  }

  /** The two parallel queues of the program against the one queue of states. */
  ghost predicate Mirrors(q: seq<(Node, int)>, qSync: seq<bool>, queue: seq<State>, via: Trails) {
    && |q| == |qSync| == |queue|
    && (forall k :: 0 <= k < |q| ==>
          queue[k] == (q[k].0, qSync[k]) && queue[k] in via && q[k].1 == |via[queue[k]]|)
  }

  /** The two visited sets of the program against the one table of states. */
  ghost predicate VisitedSplit(visNoSync: set<Node>, visSync: set<Node>, via: Trails) {
    forall n :: (n in visNoSync <==> (n, false) in via) && (n in visSync <==> (n, true) in via)
  }

  lemma StartsSearching(q: Query, cap: int)
    ensures Searching(q, map[(q.from, false) := []], cap, [(q.from, false)], {}, 0)
  {
    assert [(q.from, false)][0] == (q.from, false);
  }

  lemma NoneFollowed(q: Query, via: Trails, s: State)
    requires s in via
    ensures FollowedTo(q, via, s, 0)
  {
  }

  lemma PopQueued(via: Trails, queue: seq<State>, lo: int)
    requires Queued(via, queue, lo) && queue != []
    ensures queue[0] in via && Queued(via, queue[1..], |via[queue[0]]|)
    ensures forall s :: s in via && |via[s]| < |via[queue[0]]| ==> s !in queue
  {
  }

  lemma PopSettled(q: Query, via: Trails, cap: int, queue: seq<State>)
    requires SettledBut(q, via, cap, queue, {}) && queue != [] && queue[0] in via
    ensures SettledBut(q, via, cap, queue[1..], {queue[0]})
    ensures |via[queue[0]]| >= cap ==> SettledBut(q, via, cap, queue[1..], {})
  {
    hide Expanded;
    forall x | x in via && x !in queue[1..] && x != queue[0]
      ensures Settled(q, via, cap, x)
    {
      assert x !in queue;
    }
  }

  lemma PopKeeps(q: Query, via: Trails, cap: int, queue: seq<State>, lo: int)
    requires Searching(q, via, cap, queue, {}, lo) && queue != []
    ensures var s := queue[0];
            && Searching(q, via, cap, queue[1..], {s}, |via[s]|)
            && (|via[s]| >= cap ==> Searching(q, via, cap, queue[1..], {}, |via[s]|))
            && ExpandedBelow(q, via, if |via[s]| < cap then |via[s]| else cap)
  {
    PopQueued(via, queue, lo);
    PopSettled(q, via, cap, queue);
    hide Queued, Expanded, Sound;
    assert forall s :: s in via && |via[s]| < |via[queue[0]]| ==> Settled(q, via, cap, s);
    hide SettledBut;
  }

  ghost function Unvisited(q: Query, via: Trails): nat {
    |AllStates(q.m, q.from) - via.Keys|
  }

  /** Following edge i of s to a state not seen before. */
  lemma VisitStep(q: Query, via: Trails, cap: int, queue: seq<State>, s: State, i: nat, via': Trails)
    requires s in via && Searching(q, via, cap, queue, {s}, |via[s]|) && BySource(q.m)
    requires i < |Edges(q.m, s.0)| && FollowedTo(q, via, s, i)
    requires var t := Next(q, s, Edges(q.m, s.0)[i]);
             t !in via && !Goal(q, t) && via' == via[t := via[s] + [Edges(q.m, s.0)[i]]]
    ensures Searching(q, via', cap, queue + [Next(q, s, Edges(q.m, s.0)[i])], {s}, |via[s]|)
    ensures FollowedTo(q, via', s, i + 1)
    ensures Unvisited(q, via') == Unvisited(q, via) - 1
  {
    var e := Edges(q.m, s.0)[i];
    var t := Next(q, s, e);
    VisitKeeps(q, via, cap, queue, {s}, |via[s]|, s, e);
    NextIsState(q, s, e);
    OneFewer(AllStates(q.m, q.from), via.Keys, t);
    assert via'.Keys == via.Keys + {t};
    FollowedToGrows(q, via, s, i, via');
  }

  lemma FollowedToGrows(q: Query, via: Trails, s: State, i: nat, via': Trails)
    requires s in via && i < |Edges(q.m, s.0)| && FollowedTo(q, via, s, i)
    requires var t := Next(q, s, Edges(q.m, s.0)[i]);
             t !in via && !Goal(q, t) && via' == via[t := via[s] + [Edges(q.m, s.0)[i]]]
    ensures FollowedTo(q, via', s, i + 1)
  {
    FollowedStays(q, via, via', s);
  }

  /** Following edge i of s to a state seen before. */
  lemma SeenStep(q: Query, via: Trails, cap: int, queue: seq<State>, s: State, i: nat)
    requires s in via && Searching(q, via, cap, queue, {s}, |via[s]|)
    requires i < |Edges(q.m, s.0)| && FollowedTo(q, via, s, i)
    requires var t := Next(q, s, Edges(q.m, s.0)[i]); t in via && !Goal(q, t)
    ensures FollowedTo(q, via, s, i + 1)
  {
  }

  lemma CloseStep(q: Query, via: Trails, cap: int, queue: seq<State>, s: State, lo: int)
    requires s in via && Searching(q, via, cap, queue, {s}, lo)
    requires FollowedTo(q, via, s, |Edges(q.m, s.0)|)
    ensures Searching(q, via, cap, queue, {}, lo)
  {
  }

  lemma MirrorPush(q: seq<(Node, int)>, qSync: seq<bool>, queue: seq<State>, via: Trails, t: State, via': Trails,
                   d: int)
    requires Mirrors(q, qSync, queue, via)
    requires t !in via && t in via' && via' == via[t := via'[t]] && |via'[t]| == d
    ensures Mirrors(q + [(t.0, d)], qSync + [t.1], queue + [t], via')
  {
  }

  lemma MirrorPop(q: seq<(Node, int)>, qSync: seq<bool>, queue: seq<State>, via: Trails)
    requires Mirrors(q, qSync, queue, via)
    ensures |q| == |qSync| == |queue|
    ensures q != [] ==>
              && queue[0] == (q[0].0, qSync[0]) && queue[0] in via && q[0].1 == |via[queue[0]]|
              && Mirrors(q[1..], qSync[1..], queue[1..], via)
  {
  }

  lemma SplitSeen(visNoSync: set<Node>, visSync: set<Node>, via: Trails, n: Node, b: bool)
    requires VisitedSplit(visNoSync, visSync, via)
    ensures (n, b) in via <==> if b then n in visSync else n in visNoSync
  {
    if b {
      assert (n, true) in via <==> n in visSync;
    } else {
      assert (n, false) in via <==> n in visNoSync;
    }
  }

  lemma StartsMirrored(n: Node)
    ensures Mirrors([(n, 0)], [false], [(n, false)], map[(n, false) := []])
    ensures VisitedSplit({n}, {}, map[(n, false) := []])
  {
  }

  lemma SplitPush(visNoSync: set<Node>, visSync: set<Node>, via: Trails, t: State, via': Trails)
    requires VisitedSplit(visNoSync, visSync, via) && via'.Keys == via.Keys + {t}
    ensures VisitedSplit(if t.1 then visNoSync else visNoSync + {t.0}, if t.1 then visSync + {t.0} else visSync, via')
  {
  }

  lemma FoundGoal(q: Query, via: Trails, cap: int, queue: seq<State>, s: State, e: HBEdge)
    requires s in via && Searching(q, via, cap, queue, {s}, |via[s]|) && |via[s]| < cap
    requires HasEdge(q.m, e) && e.src == s.0 && Goal(q, Next(q, s, e)) && q.policy.Some?
    ensures WalkWithin(q.m, q.from, q.target, cap, q.requireSync, q.policy.value)
  {
    AppendEdge(q, via, s, e);
    var es := via[s] + [e];
    assert IsWalk(q.m, q.from, es, q.target) && 1 <= |es| && (q.requireSync ==> Crosses(es, q.policy.value));
  }

  lemma NothingFound(q: Query, via: Trails, cap: int, lo: int)
    requires Searching(q, via, cap, [], {}, lo) && q.policy.Some?
    ensures !WalkWithin(q.m, q.from, q.target, cap, q.requireSync, q.policy.value)
  {
    assert ExpandedBelow(q, via, cap);
    if es: seq<HBEdge> :| IsWalk(q.m, q.from, es, q.target) && 1 <= |es| <= cap &&
                           (q.requireSync ==> Crosses(es, q.policy.value)) {
      NoGoalWithin(q, via, cap, es);
    }
  }

  // ---- Searching for a shortest path ----

  function Kinds(es: seq<HBEdge>): seq<HBEdgeKind> {
    seq(|es|, i requires 0 <= i < |es| => es[i].kind)
  }

  /** `kinds` labels a walk from a to b, and no walk from a to b is shorter. */
  ghost predicate IsShortest(m: EdgeMap, a: Node, b: Node, kinds: seq<HBEdgeKind>) {
    && (exists es :: IsWalk(m, a, es, b) && Kinds(es) == kinds)
    && (forall es :: IsWalk(m, a, es, b) ==> |es| >= |kinds|)
  }

  /** The labels are those of a walk, edge by edge, and no walk between the two nodes has fewer edges. */
  lemma ShortestMeans(m: EdgeMap, a: Node, b: Node, kinds: seq<HBEdgeKind>)
    ensures IsShortest(m, a, b, kinds) <==>
              && (exists es: seq<HBEdge> ::
                    IsWalk(m, a, es, b) && |es| == |kinds| && forall i :: 0 <= i < |es| ==> kinds[i] == es[i].kind)
              && forall es :: IsWalk(m, a, es, b) ==> |kinds| <= |es|
  {
    hide IsWalk;
    if es: seq<HBEdge> :| IsWalk(m, a, es, b) && |es| == |kinds| &&
                           forall i :: 0 <= i < |es| ==> kinds[i] == es[i].kind {
      assert Kinds(es) == kinds;
    }
  }

  ghost predicate PathMirrors(q: seq<(Node, seq<HBEdgeKind>)>, vis: set<Node>, queue: seq<State>, via: Trails) {
    && |q| == |queue|
    && (forall k :: 0 <= k < |q| ==> queue[k] == (q[k].0, false) && queue[k] in via && q[k].1 == Kinds(via[queue[k]]))
    && (forall n :: n in vis <==> (n, false) in via)
  }

  lemma StartsPathMirrored(n: Node)
    ensures PathMirrors([(n, [])], {n}, [(n, false)], map[(n, false) := []])
  {
  }

  lemma PathPop(q: seq<(Node, seq<HBEdgeKind>)>, vis: set<Node>, queue: seq<State>, via: Trails)
    requires PathMirrors(q, vis, queue, via)
    ensures |q| == |queue|
    ensures q != [] ==>
              && queue[0] == (q[0].0, false) && queue[0] in via && q[0].1 == Kinds(via[queue[0]])
              && PathMirrors(q[1..], vis, queue[1..], via)
  {
  }

  lemma PathSeen(q: seq<(Node, seq<HBEdgeKind>)>, vis: set<Node>, queue: seq<State>, via: Trails, n: Node)
    requires PathMirrors(q, vis, queue, via)
    ensures n in vis <==> (n, false) in via
  {
  }

  lemma PathPush(q: seq<(Node, seq<HBEdgeKind>)>, vis: set<Node>, queue: seq<State>, via: Trails,
                 t: State, via': Trails, p: seq<HBEdgeKind>)
    requires PathMirrors(q, vis, queue, via)
    requires t !in via && !t.1 && t in via' && via' == via[t := via'[t]] && Kinds(via'[t]) == p
    ensures PathMirrors(q + [(t.0, p)], vis + {t.0}, queue + [t], via')
  {
    forall n
      ensures n in vis + {t.0} <==> (n, false) in via'
    {
      assert t == (t.0, false);
    }
  }

  lemma FoundShortest(q: Query, via: Trails, cap: int, queue: seq<State>, s: State, e: HBEdge)
    requires s in via && Searching(q, via, cap, queue, {s}, |via[s]|) && |via[s]| < cap
    requires ExpandedBelow(q, via, |via[s]|) && !q.requireSync && q.from != q.target
    requires HasEdge(q.m, e) && e.src == s.0 && e.dst == q.target
    ensures IsShortest(q.m, q.from, q.target, Kinds(via[s]) + [e.kind])
    ensures WalkWithin(q.m, q.from, q.target, cap, false, AllMechanisms)
  {
    AppendEdge(q, via, s, e);
    var es := via[s] + [e];
    assert Kinds(es) == Kinds(via[s]) + [e.kind];
    assert IsWalk(q.m, q.from, es, q.target) && 1 <= |es| <= cap;
    forall fs | IsWalk(q.m, q.from, fs, q.target)
      ensures |fs| >= |es|
    {
      if |fs| < |es| {
        NoGoalWithin(q, via, |via[s]|, fs);
      }
    }
  }

  lemma NoPathFound(q: Query, via: Trails, cap: int, lo: int)
    requires Searching(q, via, cap, [], {}, lo) && !q.requireSync && q.from != q.target
    ensures !WalkWithin(q.m, q.from, q.target, cap, false, AllMechanisms)
  {
    assert ExpandedBelow(q, via, cap);
    forall es | IsWalk(q.m, q.from, es, q.target)
      ensures |es| > cap
    {
      if |es| <= cap {
        NoGoalWithin(q, via, cap, es);
      }
    }
  }

  // ---- The two edge tables hold the same edges ----

  ghost predicate ByDestination(m: EdgeMap) {
    forall n, k :: n in m && 0 <= k < |m[n]| ==> m[n][k].dst == n
  }

  ghost predicate SameEdges(outs: EdgeMap, ins: EdgeMap) {
    forall e: HBEdge :: multiset(Edges(outs, e.src))[e] == multiset(Edges(ins, e.dst))[e]
  }

  function Filed(m: EdgeMap, n: Node, e: HBEdge): EdgeMap {
    m[n := Edges(m, n) + [e]]
  }

  lemma FiledCount(m: EdgeMap, n: Node, e: HBEdge, k: Node, f: HBEdge)
    ensures multiset(Edges(Filed(m, n, e), k))[f] ==
            multiset(Edges(m, k))[f] + (if k == n && f == e then 1 else 0)
  {
    if k == n {
      assert multiset(Edges(m, n) + [e]) == multiset(Edges(m, n)) + multiset{e};
    }
  }

  lemma FilingKeepsSameEdges(outs: EdgeMap, ins: EdgeMap, e: HBEdge)
    requires SameEdges(outs, ins)
    ensures SameEdges(Filed(outs, e.src, e), Filed(ins, e.dst, e))
  {
    forall f: HBEdge
      ensures multiset(Edges(Filed(outs, e.src, e), f.src))[f] == multiset(Edges(Filed(ins, e.dst, e), f.dst))[f]
    {
      FiledCount(outs, e.src, e, f.src, f);
      FiledCount(ins, e.dst, e, f.dst, f);
    }
  }

  lemma FilingKeepsOrder(outs: EdgeMap, ins: EdgeMap, e: HBEdge)
    requires BySource(outs) && ByDestination(ins)
    ensures BySource(Filed(outs, e.src, e)) && ByDestination(Filed(ins, e.dst, e))
  {
  }

  class HBGraph {
    var outEdges: EdgeMap
    var inEdges: EdgeMap

    ghost predicate Valid()
      reads this
    {
      BySource(outEdges) && ByDestination(inEdges) && SameEdges(outEdges, inEdges)
    }

    constructor ()
      ensures Valid() && outEdges == map[] && inEdges == map[]
    {
      outEdges, inEdges := map[], map[];
    }

    method Clear()
      modifies this
      ensures Valid() && outEdges == map[] && inEdges == map[]
    {
      outEdges, inEdges := map[], map[];
    }

    /** A null endpoint makes the call a no-op. */
    method AddEdge(src: Option<Node>, dst: Option<Node>, kind: HBEdgeKind, evidence: string)
      requires Valid()
      modifies this
      ensures Valid()
      ensures src.None? || dst.None? ==> outEdges == old(outEdges) && inEdges == old(inEdges)
      ensures src.Some? && dst.Some? ==>
                var e := HBEdge(src.value, dst.value, kind, evidence);
                outEdges == Filed(old(outEdges), e.src, e) && inEdges == Filed(old(inEdges), e.dst, e)
    {
      if src.None? || dst.None? {
        return;
      }
      var e := HBEdge(src.value, dst.value, kind, evidence);
      hide BySource, ByDestination, SameEdges, Filed;
      FilingKeepsOrder(outEdges, inEdges, e);
      FilingKeepsSameEdges(outEdges, inEdges, e);
      outEdges := Filed(outEdges, e.src, e);
      inEdges := Filed(inEdges, e.dst, e);
    }

    /** Breadth-first search over (node, crossed) with two visited sets and two parallel queues. */
    method HbReachable(n1: Option<Node>, n2: Option<Node>, maxDepth: int, requireSync: bool, policy: SyncPolicy,
                       envDepth: Option<int>)
      returns (r: bool)
      requires Valid()
      ensures n1.None? || n2.None? ==> !r
      ensures n1.Some? && n1 == n2 ==> r == !requireSync
      ensures n1.Some? && n2.Some? && n1 != n2 ==>
                var cap := if envDepth.Some? then envDepth.value else maxDepth;
                r <==> WalkWithin(outEdges, n1.value, n2.value, cap, requireSync, policy)
    {
      if n1.None? || n2.None? {
        return false;
      }
      if n1 == n2 {
        return !requireSync;
      }
      var cap := if envDepth.Some? then envDepth.value else maxDepth;
      r := Search(n1.value, n2.value, cap, requireSync, policy);
    }

    method Search(n1: Node, n2: Node, cap: int, requireSync: bool, policy: SyncPolicy) returns (r: bool)
      requires Valid()
      ensures r <==> WalkWithin(outEdges, n1, n2, cap, requireSync, policy)
    {
      hide Searching, FollowedTo, WalkWithin, Mirrors, VisitedSplit, Unvisited;
      ghost var qr := Query(outEdges, n1, n2, requireSync, Some(policy));
      var q: seq<(Node, int)> := [(n1, 0)];
      var qSync: seq<bool> := [false];
      var visNoSync: set<Node>, visSync: set<Node> := {n1}, {};
      ghost var via: Trails := map[(n1, false) := []];
      ghost var queue: seq<State> := [(n1, false)];
      ghost var lo := 0;
      StartsSearching(qr, cap);
      StartsMirrored(n1);
      while q != []
        invariant Mirrors(q, qSync, queue, via)
        invariant VisitedSplit(visNoSync, visSync, via)
        invariant Searching(qr, via, cap, queue, {}, lo)
        decreases Unvisited(qr, via) + |q|
      {
        MirrorPop(q, qSync, queue, via);
        PopKeeps(qr, via, cap, queue, lo);
        ghost var s := queue[0];
        var u, d, sawSync := q[0].0, q[0].1, qSync[0];
        q, qSync, queue, lo := q[1..], qSync[1..], queue[1..], d;
        if d < cap {
          r, q, qSync, visNoSync, visSync, via, queue :=
            FollowEdges(n2, requireSync, policy, u, d, sawSync, q, qSync, visNoSync, visSync, qr, cap, via, queue);
          if r {
            return;
          }
        }
      }
      MirrorPop(q, qSync, queue, via);
      NothingFound(qr, via, cap, lo);
      r := false;
    }

    /** The body of the search: the edges leaving the dequeued node u are followed in order. */
    method FollowEdges(n2: Node, requireSync: bool, policy: SyncPolicy, u: Node, d: int, sawSync: bool,
                       q0: seq<(Node, int)>, qSync0: seq<bool>, visNoSync0: set<Node>, visSync0: set<Node>,
                       ghost qr: Query, ghost cap: int, ghost via0: Trails, ghost queue0: seq<State>)
      returns (found: bool, q: seq<(Node, int)>, qSync: seq<bool>, visNoSync: set<Node>, visSync: set<Node>,
               ghost via: Trails, ghost queue: seq<State>)
      requires Valid() && qr.m == outEdges && qr.target == n2 && qr.requireSync == requireSync &&
        qr.policy == Some(policy)
      requires Mirrors(q0, qSync0, queue0, via0) && VisitedSplit(visNoSync0, visSync0, via0)
      requires (u, sawSync) in via0 && |via0[(u, sawSync)]| == d < cap
      requires Searching(qr, via0, cap, queue0, {(u, sawSync)}, d)
      ensures found ==> WalkWithin(outEdges, qr.from, n2, cap, requireSync, policy)
      ensures !found ==>
                && Mirrors(q, qSync, queue, via) && VisitedSplit(visNoSync, visSync, via)
                && Searching(qr, via, cap, queue, {}, d)
                && Unvisited(qr, via) + |q| == Unvisited(qr, via0) + |q0|
    {
      hide Searching, FollowedTo, WalkWithin, Mirrors, VisitedSplit, Unvisited, IsSyncEdge, SameEdges, ByDestination;
      ghost var s := (u, sawSync);
      q, qSync, visNoSync, visSync, via, queue := q0, qSync0, visNoSync0, visSync0, via0, queue0;
      var es := Edges(outEdges, u);
      NoneFollowed(qr, via, s);
      for i := 0 to |es|
        invariant Mirrors(q, qSync, queue, via) && VisitedSplit(visNoSync, visSync, via)
        invariant s in via && |via[s]| == d && Searching(qr, via, cap, queue, {s}, d)
        invariant FollowedTo(qr, via, s, i)
        invariant Unvisited(qr, via) + |q| == Unvisited(qr, via0) + |q0|
      {
        var v := es[i].dst;
        var nextSync := sawSync || IsSyncEdge(es[i].kind, policy);
        ghost var t := Next(qr, s, es[i]);
        assert t == (v, nextSync);
        if v == n2 && (!requireSync || nextSync) {
          FoundGoal(qr, via, cap, queue, s, es[i]);
          found := true;
          return;
        }
        SplitSeen(visNoSync, visSync, via, v, nextSync);
        if if nextSync then v in visSync else v in visNoSync {
          SeenStep(qr, via, cap, queue, s, i);
        } else {
          ghost var via' := via[t := via[s] + [es[i]]];
          VisitStep(qr, via, cap, queue, s, i, via');
          MirrorPush(q, qSync, queue, via, t, via', d + 1);
          SplitPush(visNoSync, visSync, via, t, via');
          visNoSync, visSync := if nextSync then visNoSync else visNoSync + {v},
                                if nextSync then visSync + {v} else visSync;
          q, qSync, queue, via := q + [(v, d + 1)], qSync + [nextSync], queue + [t], via';
        }
      }
      CloseStep(qr, via, cap, queue, s, d);
      found := false;
    }

    /** The edge kinds of a shortest walk from n1 to n2 within the cap, or nothing. */
    method ClassifyPath(n1: Option<Node>, n2: Option<Node>, envDepth: Option<int>) returns (kinds: seq<HBEdgeKind>)
      requires Valid()
      ensures n1.None? || n2.None? || n1 == n2 ==> kinds == []
      ensures n1.Some? && n2.Some? && n1 != n2 ==>
                var cap := if envDepth.Some? then envDepth.value else 16;
                && (kinds != [] <==> WalkWithin(outEdges, n1.value, n2.value, cap, false, AllMechanisms))
                && (kinds != [] ==> IsShortest(outEdges, n1.value, n2.value, kinds))
    {
      if n1.None? || n2.None? || n1 == n2 {
        return [];
      }
      var cap := if envDepth.Some? then envDepth.value else 16;
      kinds := SearchPath(n1.value, n2.value, cap);
    }

    method SearchPath(n1: Node, n2: Node, cap: int) returns (kinds: seq<HBEdgeKind>)
      requires Valid() && n1 != n2
      ensures kinds != [] <==> WalkWithin(outEdges, n1, n2, cap, false, AllMechanisms)
      ensures kinds != [] ==> IsShortest(outEdges, n1, n2, kinds)
    {
      hide Searching, FollowedTo, PathMirrors, Unvisited, SameEdges, ByDestination, WalkWithin, IsShortest;
      ghost var qr := Query(outEdges, n1, n2, false, None);
      var q: seq<(Node, seq<HBEdgeKind>)> := [(n1, [])];
      var vis: set<Node> := {n1};
      ghost var via: Trails := map[(n1, false) := []];
      ghost var queue: seq<State> := [(n1, false)];
      ghost var lo := 0;
      StartsSearching(qr, cap);
      StartsPathMirrored(n1);
      while q != []
        invariant PathMirrors(q, vis, queue, via)
        invariant Searching(qr, via, cap, queue, {}, lo)
        decreases Unvisited(qr, via) + |q|
      {
        PathPop(q, vis, queue, via);
        PopKeeps(qr, via, cap, queue, lo);
        ghost var s := queue[0];
        var u, p := q[0].0, q[0].1;
        q, queue, lo := q[1..], queue[1..], |p|;
        if |p| < cap {
          kinds, q, vis, via, queue := FollowKinds(n2, u, p, q, vis, qr, cap, via, queue);
          if kinds != [] {
            return;
          }
        }
      }
      PathPop(q, vis, queue, via);
      NoPathFound(qr, via, cap, lo);
      kinds := [];
    }

    method FollowKinds(n2: Node, u: Node, p: seq<HBEdgeKind>, q0: seq<(Node, seq<HBEdgeKind>)>, vis0: set<Node>,
                       ghost qr: Query, ghost cap: int, ghost via0: Trails, ghost queue0: seq<State>)
      returns (found: seq<HBEdgeKind>, q: seq<(Node, seq<HBEdgeKind>)>, vis: set<Node>,
               ghost via: Trails, ghost queue: seq<State>)
      requires Valid() && qr == Query(outEdges, qr.from, n2, false, None) && qr.from != n2
      requires PathMirrors(q0, vis0, queue0, via0)
      requires (u, false) in via0 && |p| < cap && Kinds(via0[(u, false)]) == p
      requires Searching(qr, via0, cap, queue0, {(u, false)}, |p|) && ExpandedBelow(qr, via0, |p|)
      ensures found != [] ==>
                && IsShortest(outEdges, qr.from, n2, found)
                && WalkWithin(outEdges, qr.from, n2, cap, false, AllMechanisms)
      ensures found == [] ==>
                && PathMirrors(q, vis, queue, via)
                && Searching(qr, via, cap, queue, {}, |p|)
                && Unvisited(qr, via) + |q| == Unvisited(qr, via0) + |q0|
    {
      hide Searching, FollowedTo, PathMirrors, Unvisited, SameEdges, ByDestination, WalkWithin, IsShortest,
        ExpandedBelow;
      ghost var s := (u, false);
      q, vis, via, queue := q0, vis0, via0, queue0;
      var es := Edges(outEdges, u);
      NoneFollowed(qr, via, s);
      for i := 0 to |es|
        invariant PathMirrors(q, vis, queue, via)
        invariant s in via && via[s] == via0[s] && Searching(qr, via, cap, queue, {s}, |p|)
        invariant FollowedTo(qr, via, s, i)
        invariant Unvisited(qr, via) + |q| == Unvisited(qr, via0) + |q0|
      {
        var v := es[i].dst;
        var p2 := p + [es[i].kind];
        ghost var t := Next(qr, s, es[i]);
        assert t == (v, false);
        if v == n2 {
          FoundShortest(qr, via0, cap, queue0, s, es[i]);
          return p2, q, vis, via, queue;
        }
        PathSeen(q, vis, queue, via, v);
        if v in vis {
          SeenStep(qr, via, cap, queue, s, i);
        } else {
          ghost var via' := via[t := via[s] + [es[i]]];
          VisitStep(qr, via, cap, queue, s, i, via');
          PathPush(q, vis, queue, via, t, via', p2);
          q, vis, queue, via := q + [(v, p2)], vis + {v}, queue + [t], via';
        }
      }
      CloseStep(qr, via, cap, queue, s, |p|);
      found := [];
    }
  }
}
