/** Walks in the happens-before multigraph: what a query about the graph means,
    independently of how it is answered. */
module HBWalks {
  type Node = int

  datatype HBEdgeKind =
    | ProgramOrder
    | CallReturn
    | LockReleaseAcquire
    | ForkToEntry
    | JoinFromExit
    | RcuSync
    | RefcountLastPut
    | RelAcqPair
    | BhIrqInterval
    | Completion
    | LifecycleFlag

  datatype HBEdge = HBEdge(src: Node, dst: Node, kind: HBEdgeKind, evidence: string)

  datatype SyncPolicy = AllMechanisms | StructuralOnly

  type EdgeMap = map<Node, seq<HBEdge>>

  predicate IsSyncEdge(k: HBEdgeKind, policy: SyncPolicy) {
    match k
    case ProgramOrder | CallReturn => false
    case LockReleaseAcquire | ForkToEntry | JoinFromExit => true
    case _ => policy.AllMechanisms?
  }

  function Edges(m: EdgeMap, n: Node): seq<HBEdge> {
    if n in m then m[n] else []
  }

  ghost predicate HasEdge(m: EdgeMap, e: HBEdge) {
    e in Edges(m, e.src)
  }

  /** Every list of outgoing edges is filed under the source of its edges. */
  ghost predicate BySource(m: EdgeMap) {
    forall n, k :: n in m && 0 <= k < |m[n]| ==> m[n][k].src == n
  }

  ghost predicate IsWalk(m: EdgeMap, a: Node, es: seq<HBEdge>, b: Node) {
    && (es == [] ==> a == b)
    && (es != [] ==> es[0].src == a && es[|es| - 1].dst == b)
    && (forall i :: 0 <= i < |es| ==> HasEdge(m, es[i]))
    && (forall i :: 0 < i < |es| ==> es[i - 1].dst == es[i].src)
  }

  ghost predicate Crosses(es: seq<HBEdge>, policy: SyncPolicy) {
    exists i :: 0 <= i < |es| && IsSyncEdge(es[i].kind, policy)
  }

  /** Some walk of 1..cap edges leads from a to b and, when asked, crosses an accepted edge. */
  ghost predicate WalkWithin(m: EdgeMap, a: Node, b: Node, cap: int, requireSync: bool, policy: SyncPolicy) {
    exists es :: IsWalk(m, a, es, b) && 1 <= |es| <= cap && (requireSync ==> Crosses(es, policy))
  }

  ghost predicate Reaches(m: EdgeMap, a: Node, b: Node) {
    exists es :: IsWalk(m, a, es, b)
  }

  lemma WalkConcat(m: EdgeMap, a: Node, es: seq<HBEdge>, b: Node, fs: seq<HBEdge>, c: Node)
    requires IsWalk(m, a, es, b) && IsWalk(m, b, fs, c)
    ensures IsWalk(m, a, es + fs, c)
    ensures forall p :: Crosses(es + fs, p) <==> Crosses(es, p) || Crosses(fs, p)
  {
    CrossesConcat(es, fs);
  }

  lemma CrossesConcat(es: seq<HBEdge>, fs: seq<HBEdge>)
    ensures forall p :: Crosses(es + fs, p) <==> Crosses(es, p) || Crosses(fs, p)
  {
    var gs := es + fs;
    forall p
      ensures Crosses(gs, p) <==> Crosses(es, p) || Crosses(fs, p)
    {
      if Crosses(es, p) {
        var i :| 0 <= i < |es| && IsSyncEdge(es[i].kind, p);
        assert gs[i] == es[i];
      }
      if Crosses(fs, p) {
        var i :| 0 <= i < |fs| && IsSyncEdge(fs[i].kind, p);
        assert gs[|es| + i] == fs[i];
      }
    }
  }

  lemma WalkSlice(m: EdgeMap, a: Node, es: seq<HBEdge>, b: Node, k: nat)
    requires IsWalk(m, a, es, b) && k < |es|
    ensures IsWalk(m, a, es[..k], es[k].src)
    ensures IsWalk(m, es[k].dst, es[k + 1..], b)
  {
  }

  // ---- Saturation: bounded search equals unbounded reachability ----

  /** All nodes that an edge of the graph touches. */
  ghost function Touched(m: EdgeMap): set<Node> {
    (set n, k | n in m && 0 <= k < |m[n]| :: m[n][k].src) +
    (set n, k | n in m && 0 <= k < |m[n]| :: m[n][k].dst)
  }

  lemma TouchedBy(m: EdgeMap, e: HBEdge)
    requires HasEdge(m, e)
    ensures e.src in Touched(m) && e.dst in Touched(m)
  {
    var k :| 0 <= k < |m[e.src]| && m[e.src][k] == e;
  }

  /** A sequence longer than the set it draws from repeats an element. */
  lemma {:induction false} Pigeonhole(s: seq<Node>, universe: set<Node>)
    requires forall i :: 0 <= i < |s| ==> s[i] in universe
    requires |s| > |universe|
    ensures exists i, j :: 0 <= i < j < |s| && s[i] == s[j]
  {
    var last := s[|s| - 1];
    var init := s[..|s| - 1];
    if last in init {
      var i :| 0 <= i < |init| && init[i] == last;
      assert s[i] == s[|s| - 1];
    } else {
      Pigeonhole(init, universe - {last});
      var i, j :| 0 <= i < j < |init| && init[i] == init[j];
      assert s[i] == s[j];
    }
  }

  /** The node a walk stands on after its first i edges. */
  ghost function NodeAt(a: Node, es: seq<HBEdge>, i: nat): Node
    requires i <= |es|
  {
    if i == 0 then a else es[i - 1].dst
  }

  lemma LongWalkRepeats(m: EdgeMap, a: Node, es: seq<HBEdge>, b: Node) returns (i: nat, j: nat)
    requires IsWalk(m, a, es, b) && es != [] && |es| >= |Touched(m)|
    ensures i < j <= |es| && NodeAt(a, es, i) == NodeAt(a, es, j)
  {
    var visits := seq(|es| + 1, k requires 0 <= k <= |es| => NodeAt(a, es, k));
    forall k | 0 <= k < |visits|
      ensures visits[k] in Touched(m)
    {
      TouchedBy(m, es[if k == 0 then 0 else k - 1]);
    }
    Pigeonhole(visits, Touched(m));
    i, j :| 0 <= i < j < |visits| && visits[i] == visits[j];
  }

  lemma WalkParts(m: EdgeMap, a: Node, es: seq<HBEdge>, b: Node, i: nat)
    requires IsWalk(m, a, es, b) && i <= |es|
    ensures IsWalk(m, a, es[..i], NodeAt(a, es, i)) && IsWalk(m, NodeAt(a, es, i), es[i..], b)
  {
    if 0 < i < |es| {
      assert es[i - 1].dst == es[i].src;
    }
  }

  lemma CutLoop(m: EdgeMap, a: Node, es: seq<HBEdge>, b: Node, i: nat, j: nat)
    requires IsWalk(m, a, es, b)
    requires i < j <= |es| && NodeAt(a, es, i) == NodeAt(a, es, j)
    ensures IsWalk(m, a, es[..i] + es[j..], b)
  {
    hide IsWalk;
    WalkParts(m, a, es, b, i);
    WalkParts(m, a, es, b, j);
    WalkConcat(m, a, es[..i], NodeAt(a, es, i), es[j..], b);
  }

  /** Cutting loops: a reachable node is reachable by fewer edges than the graph has nodes. */
  lemma {:induction false} ShortWalk(m: EdgeMap, a: Node, es: seq<HBEdge>, b: Node) returns (fs: seq<HBEdge>)
    requires IsWalk(m, a, es, b)
    ensures IsWalk(m, a, fs, b)
    ensures fs == [] || |fs| < |Touched(m)|
    decreases |es|
  {
    if es == [] || |es| < |Touched(m)| {
      fs := es;
    } else {
      var i, j := LongWalkRepeats(m, a, es, b);
      CutLoop(m, a, es, b, i, j);
      fs := ShortWalk(m, a, es[..i] + es[j..], b);
    }
  }

  /** An accepted edge, reachable from a and leading on to b. */
  ghost predicate ReachesAcross(m: EdgeMap, a: Node, b: Node, policy: SyncPolicy) {
    exists e :: HasEdge(m, e) && IsSyncEdge(e.kind, policy) && Reaches(m, a, e.src) && Reaches(m, e.dst, b)
  }

  lemma SyncWalkCrosses(m: EdgeMap, a: Node, b: Node, policy: SyncPolicy, es: seq<HBEdge>)
    requires IsWalk(m, a, es, b) && Crosses(es, policy)
    ensures ReachesAcross(m, a, b, policy)
  {
    var k :| 0 <= k < |es| && IsSyncEdge(es[k].kind, policy);
    WalkSlice(m, a, es, b, k);
    assert HasEdge(m, es[k]) && Reaches(m, a, es[k].src) && Reaches(m, es[k].dst, b);
  }

  /** Shortened on both sides of the accepted edge, the walk has at most 2|V|-1 edges. */
  lemma ShortSyncWalk(m: EdgeMap, a: Node, b: Node, policy: SyncPolicy, e: HBEdge) returns (es: seq<HBEdge>)
    requires HasEdge(m, e) && IsSyncEdge(e.kind, policy) && Reaches(m, a, e.src) && Reaches(m, e.dst, b)
    ensures IsWalk(m, a, es, b) && Crosses(es, policy) && 1 <= |es| <= 2 * |Touched(m)| - 1
  {
    var p :| IsWalk(m, a, p, e.src);
    var s :| IsWalk(m, e.dst, s, b);
    p := ShortWalk(m, a, p, e.src);
    s := ShortWalk(m, e.dst, s, b);
    TouchedBy(m, e);
    assert Touched(m) != {};
    JoinAcross(m, a, p, e, s, b, policy);
    es := p + [e] + s;
  }

  lemma JoinAcross(m: EdgeMap, a: Node, p: seq<HBEdge>, e: HBEdge, s: seq<HBEdge>, b: Node, policy: SyncPolicy)
    requires IsWalk(m, a, p, e.src) && HasEdge(m, e) && IsSyncEdge(e.kind, policy) && IsWalk(m, e.dst, s, b)
    ensures IsWalk(m, a, p + [e] + s, b) && Crosses(p + [e] + s, policy)
  {
    assert IsWalk(m, e.src, [e], e.dst);
    assert Crosses([e], policy) by { assert IsSyncEdge([e][0].kind, policy); }
    hide IsWalk, Crosses;
    WalkConcat(m, a, p, e.src, [e], e.dst);
    WalkConcat(m, a, p + [e], e.dst, s, b);
  }

  /** From 2|V|-1 edges on, the bound no longer matters: the synchronised query is
      true iff b is reachable from a across an accepted edge, however long the way. */
  lemma SyncSaturation(m: EdgeMap, a: Node, b: Node, cap: int, policy: SyncPolicy)
    requires cap >= 2 * |Touched(m)| - 1
    ensures WalkWithin(m, a, b, cap, true, policy) <==> ReachesAcross(m, a, b, policy)
  {
    hide IsWalk, Crosses, Touched;
    if WalkWithin(m, a, b, cap, true, policy) {
      var es: seq<HBEdge> :| IsWalk(m, a, es, b) && 1 <= |es| <= cap && Crosses(es, policy);
      SyncWalkCrosses(m, a, b, policy, es);
    }
    if e :| HasEdge(m, e) && IsSyncEdge(e.kind, policy) && Reaches(m, a, e.src) && Reaches(m, e.dst, b) {
      var es := ShortSyncWalk(m, a, b, policy, e);
    }
  }

  /** The query without a synchronisation demand saturates earlier. */
  lemma PlainSaturation(m: EdgeMap, a: Node, b: Node, cap: int, policy: SyncPolicy)
    requires cap >= |Touched(m)| - 1
    requires a != b
    ensures WalkWithin(m, a, b, cap, false, policy) <==> Reaches(m, a, b)
  {
    if es :| IsWalk(m, a, es, b) {
      var fs := ShortWalk(m, a, es, b);
      assert 1 <= |fs| <= cap;
    }
  }

  // ---- Which edges count ----

  /** A graph of one edge. */
  function OneEdge(k: HBEdgeKind): EdgeMap {
    map[0 := [HBEdge(0, 1, k, "")]]
  }

  /** Across a single edge the structural policy sees locks, forks and joins; the wider one sees every mechanism;
      neither sees program order or calls. Without the demand for synchronisation every kind is followed. */
  lemma AcceptedKinds(k: HBEdgeKind, cap: int, policy: SyncPolicy)
    requires cap >= 1
    ensures WalkWithin(OneEdge(k), 0, 1, cap, false, policy)
    ensures WalkWithin(OneEdge(k), 0, 1, cap, true, StructuralOnly) <==>
            k in {LockReleaseAcquire, ForkToEntry, JoinFromExit}
    ensures WalkWithin(OneEdge(k), 0, 1, cap, true, AllMechanisms) <==> k !in {ProgramOrder, CallReturn}
  {
    var m, e := OneEdge(k), HBEdge(0, 1, k, "");
    assert IsWalk(m, 0, [e], 1) by {
      assert Edges(m, 0)[0] == e;
    }
    forall p
      ensures WalkWithin(m, 0, 1, cap, true, p) <==> IsSyncEdge(k, p)
    {
      if es: seq<HBEdge> :| IsWalk(m, 0, es, 1) && Crosses(es, p) {
        var i :| 0 <= i < |es| && IsSyncEdge(es[i].kind, p);
        assert HasEdge(m, es[i]);
      }
      if IsSyncEdge(k, p) {
        assert IsSyncEdge([e][0].kind, p);
      }
    }
  }
}
