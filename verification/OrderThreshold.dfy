/** For which depth caps the must-order relation is transitive: exactly the harmless ones. */
module OrderThreshold {
  import opened FiniteSets
  import opened HBWalks
  import opened Evidence

  // ---- Rings: n nodes, each with one edge to the next, synchronised from node k on ----

  ghost function RingEdge(n: nat, k: nat, i: int): HBEdge {
    HBEdge(i, if i == n - 1 then 0 else i + 1, if i >= k then ForkToEntry else ProgramOrder, "ring")
  }

  /** The first j edges of the ring. */
  ghost function Arc(n: nat, k: nat, j: nat): EdgeMap {
    if j == 0 then map[] else Arc(n, k, j - 1)[j - 1 := [RingEdge(n, k, j - 1)]]
  }

  ghost function Ring(n: nat, k: nat): EdgeMap {
    Arc(n, k, n)
  }

  ghost function RingEvidence(n: nat, k: nat, cap: int, policy: SyncPolicy): Evidence {
    Evidence(Ring(n, k), Ring(n, k).Keys, cap, policy, {}, {}, {}, {})
  }

  lemma {:induction false} ArcEdges(n: nat, k: nat, j: nat)
    ensures forall i :: i in Arc(n, k, j) <==> 0 <= i < j
    ensures forall i :: i in Arc(n, k, j) ==> Arc(n, k, j)[i] == [RingEdge(n, k, i)]
  {
    hide RingEdge;
    if j > 0 {
      ArcEdges(n, k, j - 1);
    }
  }

  lemma {:induction false} ArcSize(n: nat, k: nat, j: nat)
    ensures |Arc(n, k, j).Keys| == j
  {
    hide RingEdge;
    if j > 0 {
      ArcSize(n, k, j - 1);
      ArcEdges(n, k, j - 1);
      assert Arc(n, k, j).Keys == Arc(n, k, j - 1).Keys + {j - 1};
    }
  }

  lemma TouchedInside(m: EdgeMap, nodes: set<Node>)
    requires forall n, i :: n in m && 0 <= i < |m[n]| ==> m[n][i].src in nodes && m[n][i].dst in nodes
    ensures Touched(m) <= nodes
  {
  }

  lemma RingSize(n: nat, k: nat)
    ensures |Touched(Ring(n, k))| <= n
  {
    ArcSize(n, k, n);
    ArcEdges(n, k, n);
    hide Touched, Arc;
    TouchedInside(Ring(n, k), Ring(n, k).Keys);
    SubsetSize(Touched(Ring(n, k)), Ring(n, k).Keys);
  }

  /** The node L edges behind a, for at most two rounds. */
  ghost function At(n: nat, a: int, L: int): int {
    if a + L < n then a + L else if a + L < 2 * n then a + L - n else a + L - 2 * n
  }

  ghost function RingPath(n: nat, k: nat, a: int, L: nat): seq<HBEdge> {
    seq(L, i requires 0 <= i < L => RingEdge(n, k, At(n, a, i)))
  }

  lemma RingHasEdge(n: nat, k: nat, e: HBEdge)
    ensures HasEdge(Ring(n, k), e) <==> 0 <= e.src < n && e == RingEdge(n, k, e.src)
  {
    ArcEdges(n, k, n);
  }

  lemma RingPathWalks(n: nat, k: nat, a: int, L: nat)
    requires 0 <= a < n && 1 <= L <= 2 * n
    ensures IsWalk(Ring(n, k), a, RingPath(n, k, a, L), At(n, a, L))
  {
    var es := RingPath(n, k, a, L);
    forall i | 0 <= i < |es|
      ensures HasEdge(Ring(n, k), es[i]) && es[i].dst == At(n, a, i + 1)
    {
      RingHasEdge(n, k, es[i]);
    }
    hide Ring;
    assert forall i :: 0 < i < |es| ==> es[i].src == At(n, a, i - 1 + 1);
  }

  /** There is only one way to go. */
  lemma {:induction false} RingWalkIsPath(n: nat, k: nat, a: int, es: seq<HBEdge>, b: int)
    requires 0 <= a < n && |es| <= 2 * n && IsWalk(Ring(n, k), a, es, b)
    ensures b == At(n, a, |es|) && es == RingPath(n, k, a, |es|)
  {
    hide Ring;
    if es != [] {
      var j := |es| - 1;
      WalkSlice(Ring(n, k), a, es, b, j);
      RingWalkIsPath(n, k, a, es[..j], es[j].src);
      RingHasEdge(n, k, es[j]);
      assert es == es[..j] + [es[j]];
    }
  }

  // ---- What a ring orders ----

  lemma RingOrders(n: nat, k: nat, cap: int, policy: SyncPolicy, a: int, L: nat, i: nat)
    requires 0 <= a < n && i < L <= cap <= 2 * n && At(n, a, L) != a && At(n, a, i) >= k
    ensures Ordered(RingEvidence(n, k, cap, policy), a, At(n, a, L))
  {
    var es := RingPath(n, k, a, L);
    RingPathWalks(n, k, a, L);
    ArcEdges(n, k, n);
    assert IsSyncEdge(es[i].kind, policy);
    hide IsWalk, Chained, Arc, RingPath;
    assert WalkWithin(Ring(n, k), a, At(n, a, L), cap, true, policy);
  }

  lemma RingLeavesUnordered(n: nat, k: nat, cap: int, policy: SyncPolicy, a: int, b: int)
    requires 0 <= a < n && cap <= 2 * n && a != b
    requires forall L, i :: 0 <= i < L <= cap && At(n, a, L) == b ==> At(n, a, i) < k
    ensures !Ordered(RingEvidence(n, k, cap, policy), a, b)
  {
    hide IsWalk, Ring;
    var ev := RingEvidence(n, k, cap, policy);
    forall es | IsWalk(ev.m, a, es, b) && |es| <= cap
      ensures !Crosses(es, policy)
    {
      RingWalkIsPath(n, k, a, es, b);
    }
    forall c, x
      ensures !ChainTo(ev, a, c, x)
    {
      assert c != [] ==> c[0] !in ev.guars;
    }
  }

  ghost predicate Breaks(ev: Evidence, a: int, b: int, c: int) {
    Ordered(ev, a, b) && Ordered(ev, b, c) && !Ordered(ev, a, c)
  }

  /** Cap 1: the walk 1 -> 2 -> 0 of a three-node ring is one edge too long. */
  lemma CapOneBreaks(policy: SyncPolicy)
    ensures Breaks(RingEvidence(3, 1, 1, policy), 1, 2, 0)
  {
    hide Ordered;
    RingOrders(3, 1, 1, policy, 1, 1, 0);
    RingOrders(3, 1, 1, policy, 2, 1, 0);
    RingLeavesUnordered(3, 1, 1, policy, 1, 0);
  }

  /** Caps 2 and 3: 0 reaches 1 over its plain edge, and otherwise only after a whole round. */
  lemma SmallCapBreaks(cap: int, policy: SyncPolicy)
    requires 2 <= cap <= 3
    ensures Breaks(RingEvidence(3, 1, cap, policy), 0, 2, 1)
  {
    hide Ordered;
    RingOrders(3, 1, cap, policy, 0, 2, 1);
    RingOrders(3, 1, cap, policy, 2, 2, 0);
    RingLeavesUnordered(3, 1, cap, policy, 0, 1);
  }

  /** With one synchronised edge, 0 is ordered before 1 and 1 before a node that 0 reaches one edge too late. */
  lemma LargeCapBreaks(n: nat, cap: int, policy: SyncPolicy)
    requires n >= 3 && n + 1 <= cap <= 2 * n - 2
    ensures Breaks(RingEvidence(n, n - 1, cap, policy), 0, 1, cap - n + 1)
  {
    hide Ordered;
    RingOrders(n, n - 1, cap, policy, 0, n + 1, n - 1);
    RingOrders(n, n - 1, cap, policy, 1, cap, n - 2);
    RingLeavesUnordered(n, n - 1, cap, policy, 0, cap - n + 1);
  }

  // ---- The threshold ----

  /** For every positive cap some evidence on few nodes is not transitive. */
  lemma BoundedOrderIsNotTransitive(cap: nat, policy: SyncPolicy) returns (ev: Evidence, a: int, b: int, c: int)
    requires cap >= 1
    ensures ev.cap == cap && ev.policy == policy && Breaks(ev, a, b, c)
    ensures |Touched(ev.m)| <= 3 || 2 * |Touched(ev.m)| <= cap + 3
  {
    hide Breaks, Ring;
    if cap == 1 {
      ev, a, b, c := RingEvidence(3, 1, 1, policy), 1, 2, 0;
      CapOneBreaks(policy);
      RingSize(3, 1);
    } else if cap <= 3 {
      ev, a, b, c := RingEvidence(3, 1, cap, policy), 0, 2, 1;
      SmallCapBreaks(cap, policy);
      RingSize(3, 1);
    } else {
      var n := (cap + 1) / 2 + 1;
      ev, a, b, c := RingEvidence(n, n - 1, cap, policy), 0, 1, cap - n + 1;
      LargeCapBreaks(n, cap, policy);
      RingSize(n, n - 1);
    }
  }

  /** On graphs of at most v nodes the relation is transitive, whatever the evidence. */
  ghost predicate AlwaysTransitive(v: nat, cap: int, policy: SyncPolicy) {
    forall ev: Evidence, a, b, c ::
      ev.cap == cap && ev.policy == policy && |Touched(ev.m)| <= v && Ordered(ev, a, b) && Ordered(ev, b, c) ==>
        Ordered(ev, a, c)
  }

  /** The exact threshold: transitive iff the cap admits no walk at all or at least 2v-1 edges, or v is at most 2. */
  lemma TransitiveIffCapIsHarmless(v: nat, cap: int, policy: SyncPolicy)
    ensures AlwaysTransitive(v, cap, policy) <==> v <= 2 || cap <= 0 || cap >= 2 * v - 1
  {
    hide Ordered;
    if v <= 2 || cap <= 0 || cap >= 2 * v - 1 {
      forall ev: Evidence, a, b, c | ev.cap == cap && ev.policy == policy && |Touched(ev.m)| <= v
        ensures Ordered(ev, a, b) && Ordered(ev, b, c) ==> Ordered(ev, a, c)
      {
        OrderedIsPreorder(ev, a, b, c);
      }
    } else {
      var ev, a, b, c := BoundedOrderIsNotTransitive(cap, policy);
    }
  }
}
