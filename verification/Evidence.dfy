/** Ordering evidence as a value: when one node must precede another, and the laws of that relation. */
module Evidence {
  import opened FiniteSets
  import opened HBWalks

  /** The happens-before edges plus everything the contracts guarantee. `ids` are the node ids
      that resolve; tokens protect nodes exclusively, shared, or as atomic accesses. */
  datatype Evidence = Evidence(
    m: EdgeMap, ids: set<int>, cap: int, policy: SyncPolicy,
    guars: set<(int, int)>,
    exclusive: set<(string, int)>, shared: set<(string, int)>, atomic: set<(string, int)>)

  ghost predicate CfReach(ev: Evidence, a: int, b: int) {
    a == b || (a in ev.ids && b in ev.ids && WalkWithin(ev.m, a, b, ev.cap, false, ev.policy))
  }

  ghost predicate StaticSync(ev: Evidence, a: int, b: int) {
    a != b && a in ev.ids && b in ev.ids && WalkWithin(ev.m, a, b, ev.cap, true, ev.policy)
  }

  /** A non-empty chain of guarantee edges starting control-flow-after `a` and ending at x. */
  ghost predicate ChainTo(ev: Evidence, a: int, c: seq<(int, int)>, x: int) {
    && c != []
    && CfReach(ev, a, c[0].0)
    && (forall i :: 0 <= i < |c| ==> c[i] in ev.guars)
    && (forall i :: 0 < i < |c| ==> CfReach(ev, c[i - 1].1, c[i].0))
    && c[|c| - 1].1 == x
  }

  ghost predicate Chained(ev: Evidence, a: int, b: int) {
    exists c, x :: ChainTo(ev, a, c, x) && CfReach(ev, x, b)
  }

  /** The must-order relation: equality, a synchronised static walk, or a guarantee chain. */
  ghost predicate Ordered(ev: Evidence, a: int, b: int) {
    a == b || StaticSync(ev, a, b) || Chained(ev, a, b)
  }

  // ---- Control flow alone orders nothing ----

  /** Distinct nodes are ordered only with the help of an accepted edge on the way, or of a guarantee. */
  lemma OrderNeedsSynchronisation(ev: Evidence, a: int, b: int)
    requires Ordered(ev, a, b) && a != b
    ensures ReachesAcross(ev.m, a, b, ev.policy)
         || (exists g, h :: g in ev.guars && h in ev.guars && CfReach(ev, a, g.0) && CfReach(ev, h.1, b))
  {
    if StaticSync(ev, a, b) {
      var es: seq<HBEdge> :| IsWalk(ev.m, a, es, b) && 1 <= |es| <= ev.cap && Crosses(es, ev.policy);
      SyncWalkCrosses(ev.m, a, b, ev.policy, es);
    } else {
      var c: seq<(int, int)>, x :| ChainTo(ev, a, c, x) && CfReach(ev, x, b);
      assert c[0] in ev.guars && c[|c| - 1] in ev.guars;
    }
  }

  /** One edge orders its ends forwards, if the policy accepts its kind, and never backwards. */
  lemma OneEdgeOrders(k: HBEdgeKind, ids: set<int>, cap: int, policy: SyncPolicy)
    requires cap >= 1 && 0 in ids && 1 in ids
    ensures var ev := Evidence(OneEdge(k), ids, cap, policy, {}, {}, {}, {});
            && CfReach(ev, 0, 1) && !CfReach(ev, 1, 0) && !Ordered(ev, 1, 0)
            && (Ordered(ev, 0, 1) <==>
                  k in {LockReleaseAcquire, ForkToEntry, JoinFromExit}
                  || (policy == AllMechanisms && k !in {ProgramOrder, CallReturn}))
  {
    var ev := Evidence(OneEdge(k), ids, cap, policy, {}, {}, {}, {});
    AcceptedKinds(k, cap, policy);
    StartsAtSource(k);
    NoGuaranteeNoChain(ev, 0, 1);
    NoGuaranteeNoChain(ev, 1, 0);
    hide IsWalk, Crosses, Chained;
  }

  lemma StartsAtSource(k: HBEdgeKind)
    ensures forall x, es: seq<HBEdge>, y :: es != [] && IsWalk(OneEdge(k), x, es, y) ==> x == 0
  {
    forall x, es: seq<HBEdge>, y | es != [] && IsWalk(OneEdge(k), x, es, y)
      ensures x == 0
    {
      assert HasEdge(OneEdge(k), es[0]);
    }
  }

  lemma NoGuaranteeNoChain(ev: Evidence, from: int, to: int)
    requires ev.guars == {}
    ensures !Chained(ev, from, to)
  {
    forall c: seq<(int, int)>, x | c != []
      ensures !ChainTo(ev, from, c, x)
    {
      assert c[0] !in ev.guars;
    }
  }

  /** A guarantee orders whatever control flow leads to its left end before whatever leads on from its right end. */
  lemma GuaranteeBridges(ev: Evidence, a: int, x: int, y: int, b: int)
    requires CfReach(ev, a, x) && (x, y) in ev.guars && CfReach(ev, y, b)
    ensures Ordered(ev, a, b)
  {
    assert ChainTo(ev, a, [(x, y)], y);
  }

  // ---- When the relation is a preorder ----

  ghost predicate Saturating(ev: Evidence) {
    ev.cap >= 2 * |Touched(ev.m)| - 1 && ev.cap >= |Touched(ev.m)| - 1
  }

  /** The cap admits no walk at all, or every walk that matters, or there are too few nodes for it to matter. */
  ghost predicate CapIsHarmless(ev: Evidence) {
    ev.cap <= 0 || Saturating(ev) || |Touched(ev.m)| <= 2
  }

  lemma CfIsReach(ev: Evidence, a: int, b: int)
    requires ev.cap >= |Touched(ev.m)| - 1
    ensures CfReach(ev, a, b) <==> a == b || (a in ev.ids && b in ev.ids && Reaches(ev.m, a, b))
  {
    if a != b {
      PlainSaturation(ev.m, a, b, ev.cap, ev.policy);
    }
  }

  lemma ReachesTrans(m: EdgeMap, a: Node, b: Node, c: Node)
    requires Reaches(m, a, b) && Reaches(m, b, c)
    ensures Reaches(m, a, c)
  {
    var es :| IsWalk(m, a, es, b);
    var fs :| IsWalk(m, b, fs, c);
    WalkConcat(m, a, es, b, fs, c);
  }

  lemma CfTrans(ev: Evidence, a: int, b: int, c: int)
    requires CapIsHarmless(ev) && CfReach(ev, a, b) && CfReach(ev, b, c)
    ensures CfReach(ev, a, c)
  {
    if ev.cap > 0 && a != b && b != c {
      CfIsReach(ev, a, b);
      CfIsReach(ev, b, c);
      CfIsReach(ev, a, c);
      ReachesTrans(ev.m, a, b, c);
    }
  }

  lemma SyncIsCf(ev: Evidence, a: int, b: int)
    requires StaticSync(ev, a, b)
    ensures CfReach(ev, a, b)
  {
  }

  lemma SyncThenCf(ev: Evidence, a: int, b: int, c: int)
    requires Saturating(ev) && StaticSync(ev, a, b) && CfReach(ev, b, c) && a != c
    ensures StaticSync(ev, a, c)
  {
    SyncSaturation(ev.m, a, b, ev.cap, ev.policy);
    SyncSaturation(ev.m, a, c, ev.cap, ev.policy);
    CfIsReach(ev, b, c);
    if b != c {
      var e :| HasEdge(ev.m, e) && IsSyncEdge(e.kind, ev.policy) && Reaches(ev.m, a, e.src) && Reaches(ev.m, e.dst, b);
      ReachesTrans(ev.m, e.dst, b, c);
    }
  }

  lemma SyncTouches(ev: Evidence, a: int, b: int)
    requires StaticSync(ev, a, b)
    ensures a != b && ev.cap > 0 && a in Touched(ev.m) && b in Touched(ev.m)
  {
    var es: seq<HBEdge> :| IsWalk(ev.m, a, es, b) && 1 <= |es| <= ev.cap && Crosses(es, ev.policy);
    TouchedBy(ev.m, es[0]);
    TouchedBy(ev.m, es[|es| - 1]);
  }

  lemma SyncTrans(ev: Evidence, a: int, b: int, c: int)
    requires CapIsHarmless(ev) && StaticSync(ev, a, b) && StaticSync(ev, b, c) && a != c
    ensures StaticSync(ev, a, c)
  {
    hide StaticSync, Touched, CfReach;
    SyncTouches(ev, a, b);
    SyncTouches(ev, b, c);
    assert {a, b, c} <= Touched(ev.m) && |{a, b, c}| == 3;
    SubsetSize({a, b, c}, Touched(ev.m));
    SyncIsCf(ev, b, c);
    SyncThenCf(ev, a, b, c);
  }

  /** Control flow may be put in front of a chain. */
  lemma CfThenChained(ev: Evidence, a: int, b: int, c: int)
    requires CapIsHarmless(ev) && CfReach(ev, a, b) && Chained(ev, b, c)
    ensures Chained(ev, a, c)
  {
    hide CfReach, CapIsHarmless;
    var g: seq<(int, int)>, x :| ChainTo(ev, b, g, x) && CfReach(ev, x, c);
    CfTrans(ev, a, b, g[0].0);
    assert ChainTo(ev, a, g, x);
  }

  lemma ChainedThenCf(ev: Evidence, a: int, b: int, c: int)
    requires CapIsHarmless(ev) && Chained(ev, a, b) && CfReach(ev, b, c)
    ensures Chained(ev, a, c)
  {
    hide CfReach, CapIsHarmless;
    var g: seq<(int, int)>, x :| ChainTo(ev, a, g, x) && CfReach(ev, x, b);
    CfTrans(ev, x, b, c);
  }

  lemma ChainedTrans(ev: Evidence, a: int, b: int, c: int)
    requires CapIsHarmless(ev) && Chained(ev, a, b) && Chained(ev, b, c)
    ensures Chained(ev, a, c)
  {
    hide CfReach, CapIsHarmless;
    var g: seq<(int, int)>, x :| ChainTo(ev, a, g, x) && CfReach(ev, x, b);
    var h: seq<(int, int)>, y :| ChainTo(ev, b, h, y) && CfReach(ev, y, c);
    CfTrans(ev, x, b, h[0].0);
    assert ChainTo(ev, a, g + h, y);
  }

  /** Reflexive and transitive across every mixture of static and guarantee witnesses. */
  lemma OrderedIsPreorder(ev: Evidence, a: int, b: int, c: int)
    requires CapIsHarmless(ev)
    ensures Ordered(ev, a, a)
    ensures Ordered(ev, a, b) && Ordered(ev, b, c) ==> Ordered(ev, a, c)
  {
    hide StaticSync, Chained, CapIsHarmless;
    if Ordered(ev, a, b) && Ordered(ev, b, c) && a != b && b != c && a != c {
      if Chained(ev, b, c) {
        if Chained(ev, a, b) {
          ChainedTrans(ev, a, b, c);
        } else {
          SyncIsCf(ev, a, b);
          CfThenChained(ev, a, b, c);
        }
      } else {
        if Chained(ev, a, b) {
          SyncIsCf(ev, b, c);
          ChainedThenCf(ev, a, b, c);
        } else {
          SyncTrans(ev, a, b, c);
        }
      }
    }
  }

  // ---- More evidence orders and protects more ----

  predicate PolicyLeq(p: SyncPolicy, p': SyncPolicy) {
    p == p' || p' == AllMechanisms
  }

  predicate Leq(ev: Evidence, ev': Evidence) {
    && ev.m == ev'.m && ev.ids == ev'.ids && ev.cap == ev'.cap && PolicyLeq(ev.policy, ev'.policy)
    && ev.guars <= ev'.guars
    && ev.exclusive <= ev'.exclusive && ev.shared <= ev'.shared && ev.atomic <= ev'.atomic
  }

  lemma SyncPolicyMono(ev: Evidence, ev': Evidence, a: int, b: int)
    requires Leq(ev, ev') && StaticSync(ev, a, b)
    ensures StaticSync(ev', a, b)
  {
    var es: seq<HBEdge> :| IsWalk(ev.m, a, es, b) && 1 <= |es| <= ev.cap && Crosses(es, ev.policy);
    var i :| 0 <= i < |es| && IsSyncEdge(es[i].kind, ev.policy);
    assert IsSyncEdge(es[i].kind, ev'.policy);
  }

  lemma OrderedMono(ev: Evidence, ev': Evidence, a: int, b: int)
    requires Leq(ev, ev') && Ordered(ev, a, b)
    ensures Ordered(ev', a, b)
  {
    if StaticSync(ev, a, b) {
      SyncPolicyMono(ev, ev', a, b);
    } else if a != b {
      var c: seq<(int, int)>, x :| ChainTo(ev, a, c, x) && CfReach(ev, x, b);
      assert forall y, z :: CfReach(ev, y, z) ==> CfReach(ev', y, z);
      assert ChainTo(ev', a, c, x);
    }
  }

  // ---- Protection ----

  /** Both nodes are covered by one token, at least one of them exclusively. */
  ghost predicate CommonExclusion(ev: Evidence, a: int, b: int) {
    exists t :: ((t, a) in ev.exclusive && ((t, b) in ev.exclusive || (t, b) in ev.shared))
             || ((t, a) in ev.shared && (t, b) in ev.exclusive)
  }

  ghost predicate AtomicCompatible(ev: Evidence, a: int, b: int) {
    exists t :: (t, a) in ev.atomic && (t, b) in ev.atomic
  }

  lemma ProtectionIsSymmetric(ev: Evidence, a: int, b: int)
    ensures CommonExclusion(ev, a, b) <==> CommonExclusion(ev, b, a)
    ensures AtomicCompatible(ev, a, b) <==> AtomicCompatible(ev, b, a)
  {
  }

  lemma ProtectionMono(ev: Evidence, ev': Evidence, a: int, b: int)
    requires Leq(ev, ev')
    ensures CommonExclusion(ev, a, b) ==> CommonExclusion(ev', a, b)
    ensures AtomicCompatible(ev, a, b) ==> AtomicCompatible(ev', a, b)
  {
  }
}
