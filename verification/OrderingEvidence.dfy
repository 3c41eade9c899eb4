/** Ordering evidence as the checker builds and queries it. */
module OrderingEvidences {
  import opened FiniteSets
  import opened Options
  import opened HBWalks
  import opened HBGraphs
  import opened Evidence
  import opened ConcurrencyContracts

  function TokenSet(m: map<string, seq<int>>): set<(string, int)> {
    set t, n | t in m && n in m[t] :: (t, n)
  }

  // ---- What a list of guarantees contributes ----

  ghost function EdgesOf(gs: seq<NodeGuar>, ids: set<int>): set<(int, int)> {
    set g, a, b | g in gs && g.form in {Order, Wait} && a in g.a && b in g.b && a in ids && b in ids :: (a, b)
  }

  ghost function ExclusionsOf(gs: seq<NodeGuar>, ids: set<int>, isShared: bool): set<(string, int)> {
    set g, a | g in gs && g.form == Exclude && g.isShared == isShared && a in g.a && a in ids :: (g.token, a)
  }

  ghost function AtomicsOf(gs: seq<NodeGuar>, ids: set<int>): set<(string, int)> {
    set g, a | g in gs && g.form == AtomicOp && a in g.a && a in ids :: (g.token, a)
  }

  ghost function EvidenceFrom(gs: seq<NodeGuar>, m: EdgeMap, ids: set<int>, cap: int, policy: SyncPolicy): Evidence {
    Evidence(m, ids, cap, policy, EdgesOf(gs, ids),
             ExclusionsOf(gs, ids, false), ExclusionsOf(gs, ids, true), AtomicsOf(gs, ids))
  }

  /** Adding guarantees, or widening the policy, only adds evidence. */
  lemma MoreGuaranteesMoreEvidence(gs: seq<NodeGuar>, gs': seq<NodeGuar>, m: EdgeMap, ids: set<int>, cap: int,
                                   policy: SyncPolicy, policy': SyncPolicy)
    requires forall g :: g in gs ==> g in gs'
    requires PolicyLeq(policy, policy')
    ensures Leq(EvidenceFrom(gs, m, ids, cap, policy), EvidenceFrom(gs', m, ids, cap, policy'))
  {
  }

  /** The effect of filing nodes under a token. */
  function Record(m: map<string, seq<int>>, token: string, ns: seq<int>): map<string, seq<int>> {
    m[token := (if token in m then m[token] else []) + ns]
  }

  /** The resolving nodes a guarantee covers with its token, and the resolving pairs it orders. */
  ghost function Covered(g: NodeGuar, ids: set<int>): set<(string, int)> {
    set a | a in g.a && a in ids :: (g.token, a)
  }

  ghost function Paired(g: NodeGuar, ids: set<int>): set<(int, int)> {
    set a, b | a in g.a && b in g.b && a in ids && b in ids :: (a, b)
  }

  lemma Recorded(m: map<string, seq<int>>, g: NodeGuar, ns: seq<int>, ids: set<int>)
    requires forall n :: n in ns <==> n in g.a && n in ids
    ensures TokenSet(Record(m, g.token, ns)) == TokenSet(m) + Covered(g, ids)
  {
    var m' := Record(m, g.token, ns);
    forall p | p in TokenSet(m) + Covered(g, ids)
      ensures p in TokenSet(m')
    {
      assert p.0 in m' && p.1 in m'[p.0];
    }
  }

  /** What one more guarantee contributes, case by case. */
  lemma Contributions(gs: seq<NodeGuar>, g: NodeGuar, ids: set<int>)
    ensures EdgesOf(gs + [g], ids) ==
              if g.form in {Order, Wait} then EdgesOf(gs, ids) + Paired(g, ids) else EdgesOf(gs, ids)
    ensures forall s :: ExclusionsOf(gs + [g], ids, s) ==
              if g.form == Exclude && g.isShared == s then ExclusionsOf(gs, ids, s) + Covered(g, ids)
              else ExclusionsOf(gs, ids, s)
    ensures AtomicsOf(gs + [g], ids) ==
              if g.form == AtomicOp then AtomicsOf(gs, ids) + Covered(g, ids) else AtomicsOf(gs, ids)
  {
    assert forall h :: h in gs + [g] <==> h in gs || h == g;
  }

  lemma PairsRecorded(es: seq<(int, int)>, fs: seq<(int, int)>, g: NodeGuar, ids: set<int>)
    requires forall e :: e in fs <==> e.0 in g.a && e.1 in g.b && e.0 in ids && e.1 in ids
    ensures (set e | e in es + fs) == (set e | e in es) + Paired(g, ids)
  {
    var pairs := Paired(g, ids);
    forall e
      ensures e in pairs <==> e in fs
    {
      var (a, b) := e;
      if e in fs {
        assert a in g.a && b in g.b && (a, b) in pairs;
      }
      if e in pairs {
        var c, d :| c in g.a && d in g.b && c in ids && d in ids && e == (c, d);
        assert e in fs;
      }
    }
    assert forall e :: e in es + fs <==> e in es || e in fs;
  }

  // ---- The worklist of a must-order query ----

  ghost predicate Explored(ev: Evidence, es: seq<(int, int)>, x: int, visited: set<int>) {
    forall i :: 0 <= i < |es| && CfReach(ev, x, es[i].0) ==> es[i].1 in visited
  }

  ghost predicate AllChained(ev: Evidence, from: int, visited: set<int>) {
    forall x :: x in visited ==> exists c :: ChainTo(ev, from, c, x)
  }

  /** Whatever has left the worklist does not reach the target and has passed its guarantees on. */
  ghost predicate Closed(ev: Evidence, es: seq<(int, int)>, visited: set<int>, work: seq<int>, to: int) {
    forall x :: x in visited && x !in work ==> !CfReach(ev, x, to) && Explored(ev, es, x, visited)
  }

  ghost predicate SameEdgeSet(ev: Evidence, es: seq<(int, int)>) {
    ev.guars == set e | e in es
  }

  lemma ExtendChain(ev: Evidence, from: int, visited: set<int>, x: int, e: (int, int))
    requires AllChained(ev, from, visited) && x in visited && e in ev.guars && CfReach(ev, x, e.0)
    ensures AllChained(ev, from, visited + {e.1})
  {
    hide CfReach;
    var c :| ChainTo(ev, from, c, x);
    assert ChainTo(ev, from, c + [e], e.1);
  }

  lemma StartChain(ev: Evidence, from: int, visited: set<int>, e: (int, int))
    requires AllChained(ev, from, visited) && e in ev.guars && CfReach(ev, from, e.0)
    ensures AllChained(ev, from, visited + {e.1})
  {
    hide CfReach;
    assert ChainTo(ev, from, [e], e.1);
  }

  lemma {:induction false} ChainIsVisited(ev: Evidence, es: seq<(int, int)>, from: int, c: seq<(int, int)>, x: int,
                                          visited: set<int>, to: int)
    requires SameEdgeSet(ev, es) && ChainTo(ev, from, c, x)
    requires Explored(ev, es, from, visited) && Closed(ev, es, visited, [], to)
    ensures x in visited
    decreases |c|
  {
    var last := c[|c| - 1];
    assert last in ev.guars;
    var i :| 0 <= i < |es| && es[i] == last;
    if |c| > 1 {
      ChainIsVisited(ev, es, from, c[..|c| - 1], c[|c| - 2].1, visited, to);
    }
  }

  lemma NothingChained(ev: Evidence, es: seq<(int, int)>, from: int, to: int, visited: set<int>)
    requires SameEdgeSet(ev, es)
    requires Explored(ev, es, from, visited) && Closed(ev, es, visited, [], to)
    ensures !Chained(ev, from, to)
  {
    forall c: seq<(int, int)>, x | ChainTo(ev, from, c, x)
      ensures !CfReach(ev, x, to)
    {
      ChainIsVisited(ev, es, from, c, x, visited, to);
    }
  }

  lemma ChainReaches(ev: Evidence, from: int, visited: set<int>, x: int, to: int)
    requires AllChained(ev, from, visited) && x in visited && CfReach(ev, x, to)
    ensures Chained(ev, from, to)
  {
  }

  function Targets(es: seq<(int, int)>): set<int> {
    set e | e in es :: e.1
  }

  /** What one round of the worklist does: the targets guaranteed after x are marked and queued. */
  ghost predicate Advanced(visited: set<int>, work: seq<int>, visited': set<int>, work': seq<int>, all: set<int>) {
    && visited <= visited' <= visited + all
    && (forall y :: y in work ==> y in work')
    && (forall y :: y in work' ==> y in work || y in visited')
    && (forall y :: y in visited' && y !in visited ==> y in work')
    && |all - visited'| + |work'| == |all - visited| + |work|
  }

  lemma AdvanceStarts(visited: set<int>, work: seq<int>, all: set<int>)
    ensures Advanced(visited, work, visited, work, all)
  {
  }

  lemma SeedStarts(ev: Evidence, es: seq<(int, int)>, from: int, to: int)
    ensures AllChained(ev, from, {}) && Closed(ev, es, {}, [], to)
  {
  }

  lemma SeedCloses(ev: Evidence, es: seq<(int, int)>, visited: set<int>, work: seq<int>, to: int)
    requires Advanced({}, [], visited, work, Targets(es))
    ensures Closed(ev, es, visited, work, to)
    ensures forall x :: x in work ==> x in visited
  {
  }

  lemma StillMarked(visited: set<int>, work: seq<int>, visited': set<int>, work': seq<int>, all: set<int>)
    requires Advanced(visited, work, visited', work', all) && forall x :: x in work ==> x in visited
    ensures forall x :: x in work' ==> x in visited'
    ensures |all - visited'| + |work'| == |all - visited| + |work|
    ensures visited <= visited'
  {
  }

  lemma CfSelf(ev: Evidence, x: int)
    ensures CfReach(ev, x, x)
  {
  }

  lemma AdvanceStep(visited0: set<int>, work0: seq<int>, visited: set<int>, work: seq<int>, all: set<int>, y: int)
    requires Advanced(visited0, work0, visited, work, all) && y in all && y !in visited
    ensures Advanced(visited0, work0, visited + {y}, work + [y], all)
  {
    OneFewer(all, visited, y);
    assert (work + [y])[|work|] == y;
    assert forall z :: z in work ==> z in work + [y];
  }

  lemma AdvanceCloses(ev: Evidence, es: seq<(int, int)>, visited: set<int>, work: seq<int>,
                      visited': set<int>, work': seq<int>, x: int, to: int)
    requires work != [] && x == work[|work| - 1]
    requires Closed(ev, es, visited, work, to)
    requires Advanced(visited, work[..|work| - 1], visited', work', Targets(es))
    requires !CfReach(ev, x, to) && Explored(ev, es, x, visited')
    ensures Closed(ev, es, visited', work', to)
  {
    forall y | y in visited' && y !in work'
      ensures !CfReach(ev, y, to) && Explored(ev, es, y, visited')
    {
      if y != x {
        assert y !in work[..|work| - 1];
        assert y !in work by {
          assert work == work[..|work| - 1] + [x];
        }
        assert Explored(ev, es, y, visited);
      }
    }
  }

  lemma ExploredMore(ev: Evidence, es: seq<(int, int)>, x: int, visited: set<int>, visited': set<int>)
    requires Explored(ev, es, x, visited) && visited <= visited'
    ensures Explored(ev, es, x, visited')
  {
  }

  /** The first n guarantee edges have been tried from x. */
  ghost predicate Tried(ev: Evidence, es: seq<(int, int)>, n: nat, x: int, visited: set<int>) {
    forall i :: 0 <= i < n && i < |es| && CfReach(ev, x, es[i].0) ==> es[i].1 in visited
  }

  class OrderingEvidence {
    const ids: set<int>
    const hb: HBGraph
    const policy: SyncPolicy
    const envDepth: Option<int>
    const maxDepth: int := 64
    var guarEdges: seq<(int, int)>
    var exclExclusive: map<string, seq<int>>
    var exclShared: map<string, seq<int>>
    var atomicTok: map<string, seq<int>>

    ghost function Cap(): int {
      if envDepth.Some? then envDepth.value else maxDepth
    }

    ghost function View(): Evidence
      reads this, hb
    {
      Evidence(hb.outEdges, ids, Cap(), policy, (set e | e in guarEdges),
               TokenSet(exclExclusive), TokenSet(exclShared), TokenSet(atomicTok))
    }

    constructor (ids: set<int>, hb: HBGraph, policy: SyncPolicy, envDepth: Option<int>)
      ensures this.ids == ids && this.hb == hb && this.policy == policy && this.envDepth == envDepth
      ensures guarEdges == [] && exclExclusive == map[] && exclShared == map[] && atomicTok == map[]
    {
      this.ids, this.hb, this.policy, this.envDepth := ids, hb, policy, envDepth;
      guarEdges, exclExclusive, exclShared, atomicTok := [], map[], map[], map[];
    }

    function NodeByID(id: int): Option<Node> {
      if id in ids then Some(id) else None
    }

    /** Some token held exclusively covers both nodes, the other side in either mode. */
    predicate CommonlyExcluded(a: int, b: int)
      reads this, hb
      ensures CommonlyExcluded(a, b) <==> CommonExclusion(View(), a, b)
    {
      assert forall t, n :: (t, n) in TokenSet(exclExclusive) <==> t in exclExclusive && n in exclExclusive[t];
      assert forall t, n :: (t, n) in TokenSet(exclShared) <==> t in exclShared && n in exclShared[t];
      exists tok | tok in exclExclusive ::
        var aIn, bInEx := a in exclExclusive[tok], b in exclExclusive[tok];
        var aInSh := tok in exclShared && a in exclShared[tok];
        var bInSh := tok in exclShared && b in exclShared[tok];
        (aIn && (bInEx || bInSh)) || (aInSh && bInEx)
    }

    predicate AtomicallyCompatible(a: int, b: int)
      reads this, hb
      ensures AtomicallyCompatible(a, b) <==> AtomicCompatible(View(), a, b)
    {
      assert forall t, n :: (t, n) in TokenSet(atomicTok) <==> t in atomicTok && n in atomicTok[t];
      exists tok | tok in atomicTok :: a in atomicTok[tok] && b in atomicTok[tok]
    }

    method CfReachable(from: int, to: int) returns (r: bool)
      requires hb.Valid()
      ensures r <==> CfReach(View(), from, to)
    {
      if from == to {
        return true;
      }
      var a, b := NodeByID(from), NodeByID(to);
      if a.None? || b.None? {
        return false;
      }
      r := hb.HbReachable(a, b, maxDepth, false, AllMechanisms, envDepth);
    }

    method StaticSyncOrder(from: int, to: int) returns (r: bool)
      requires hb.Valid()
      ensures r <==> StaticSync(View(), from, to)
    {
      var a, b := NodeByID(from), NodeByID(to);
      if a.None? || b.None? {
        return false;
      }
      r := hb.HbReachable(a, b, maxDepth, true, policy, envDepth);
    }

    /** The last-in first-out worklist over the targets of guarantee edges. */
    method OrdReach(from: int, to: int) returns (r: bool)
      requires hb.Valid()
      ensures r <==> Ordered(View(), from, to)
    {
      hide CfReach, StaticSync, AllChained, Explored, Chained, Closed, Advanced;
      if from == to {
        return true;
      }
      var synced := StaticSyncOrder(from, to);
      if synced {
        return true;
      }
      if guarEdges == [] {
        NoGuaranteeNoChain(View(), from, to);
        return false;
      }
      ghost var ev, all := View(), Targets(guarEdges);
      var visited: set<int>, work: seq<int> := {}, [];
      SeedStarts(ev, guarEdges, from, to);
      visited, work := Advance(from, from, visited, work);
      SeedCloses(ev, guarEdges, visited, work, to);
      while work != []
        invariant AllChained(ev, from, visited) && Explored(ev, guarEdges, from, visited)
        invariant Closed(ev, guarEdges, visited, work, to)
        invariant forall x :: x in work ==> x in visited
        decreases |all - visited| + |work|
      {
        var x := work[|work| - 1];
        var reaches := CfReachable(x, to);
        if reaches {
          ChainReaches(ev, from, visited, x, to);
          return true;
        }
        ghost var visited0, work0 := visited, work;
        visited, work := Advance(from, x, visited, work[..|work| - 1]);
        AdvanceCloses(ev, guarEdges, visited0, work0, visited, work, x, to);
        StillMarked(visited0, work0[..|work0| - 1], visited, work, all);
        ExploredMore(ev, guarEdges, from, visited0, visited);
      }
      NothingChained(ev, guarEdges, from, to, visited);
      r := false;
    }

    /** One pass over the guarantee edges from x. */
    method Advance(ghost from: int, x: int, visited0: set<int>, work0: seq<int>)
      returns (visited: set<int>, work: seq<int>)
      requires hb.Valid()
      requires AllChained(View(), from, visited0) && (x == from || x in visited0)
      ensures AllChained(View(), from, visited) && Explored(View(), guarEdges, x, visited)
      ensures Advanced(visited0, work0, visited, work, Targets(guarEdges))
    {
      hide CfReach, AllChained, Advanced;
      ghost var ev, all := View(), Targets(guarEdges);
      visited, work := visited0, work0;
      AdvanceStarts(visited0, work0, all);
      for i := 0 to |guarEdges|
        invariant AllChained(ev, from, visited) && visited0 <= visited
        invariant Tried(ev, guarEdges, i, x, visited)
        invariant Advanced(visited0, work0, visited, work, all)
      {
        var e := guarEdges[i];
        var after := CfReachable(x, e.0);
        if (x == e.0 || after) && e.1 !in visited {
          CfSelf(ev, x);
          if x == from {
            StartChain(ev, from, visited, e);
          } else {
            ExtendChain(ev, from, visited, x, e);
          }
          AdvanceStep(visited0, work0, visited, work, all, e.1);
          visited, work := visited + {e.1}, work + [e.1];
        }
      }
    }

    /** The guarantee's node pairs, or the nodes it protects, are recorded if they resolve. */
    method AddGuarantee(g: NodeGuar, ghost gs: seq<NodeGuar>)
      requires View() == EvidenceFrom(gs, hb.outEdges, ids, Cap(), policy)
      modifies this
      ensures View() == EvidenceFrom(gs + [g], hb.outEdges, ids, Cap(), policy)
    {
      hide EdgesOf, ExclusionsOf, AtomicsOf, Covered, Paired, TokenSet, Record;
      Contributions(gs, g, ids);
      match g.form {
        case Order | Wait =>
          var es := ResolvedPairs(g);
          PairsRecorded(guarEdges, es, g, ids);
          guarEdges := guarEdges + es;
        case Exclude =>
          var ns := Resolved(g.a);
          Recorded(if g.isShared then exclShared else exclExclusive, g, ns, ids);
          if g.isShared {
            exclShared := Record(exclShared, g.token, ns);
          } else {
            exclExclusive := Record(exclExclusive, g.token, ns);
          }
        case AtomicOp =>
          var ns := Resolved(g.a);
          Recorded(atomicTok, g, ns, ids);
          atomicTok := Record(atomicTok, g.token, ns);
        case OtherGuarantee =>
      }
    }

    method Resolved(ns: seq<int>) returns (r: seq<int>)
      ensures forall n :: n in r <==> n in ns && n in ids
    {
      r := [];
      for i := 0 to |ns|
        invariant forall n :: n in r <==> n in ns[..i] && n in ids
      {
        if ns[i] in ids {
          r := r + [ns[i]];
        }
      }
    }

    method ResolvedPairs(g: NodeGuar) returns (r: seq<(int, int)>)
      ensures forall e :: e in r <==> e.0 in g.a && e.1 in g.b && e.0 in ids && e.1 in ids
    {
      r := [];
      for i := 0 to |g.a|
        invariant forall e :: e in r <==> e.0 in g.a[..i] && e.1 in g.b && e.0 in ids && e.1 in ids
      {
        for j := 0 to |g.b|
          invariant forall e :: e in r <==>
            (e.0 in g.a[..i] && e.1 in g.b && e.0 in ids && e.1 in ids) ||
            (e.0 == g.a[i] && e.1 in g.b[..j] && e.0 in ids && e.1 in ids)
        {
          if g.a[i] in ids && g.b[j] in ids {
            r := r + [(g.a[i], g.b[j])];
          }
        }
      }
    }
  }

  /** All guarantees of the thread-set's contracts, thread by thread. */
  ghost function GuarsOf(threads: seq<int>, contracts: map<int, Contract>): seq<NodeGuar> {
    if threads == [] then []
    else
      var t := threads[|threads| - 1];
      GuarsOf(threads[..|threads| - 1], contracts) + (if t in contracts then contracts[t].nodeGuars else [])
  }

  lemma {:induction false} GuarsOfContains(threads: seq<int>, contracts: map<int, Contract>, g: NodeGuar)
    ensures g in GuarsOf(threads, contracts) <==>
            exists t :: t in threads && t in contracts && g in contracts[t].nodeGuars
  {
    if threads != [] {
      GuarsOfContains(threads[..|threads| - 1], contracts, g);
      assert threads == threads[..|threads| - 1] + [threads[|threads| - 1]];
    }
  }

  method BuildEvidence(threads: seq<int>, contracts: map<int, Contract>, ids: set<int>, hb: HBGraph,
                       policy: SyncPolicy, envDepth: Option<int>)
    returns (ev: OrderingEvidence)
    requires hb.Valid()
    ensures fresh(ev) && ev.hb == hb
    ensures ev.View() == EvidenceFrom(GuarsOf(threads, contracts), hb.outEdges, ids,
                                      if envDepth.Some? then envDepth.value else 64, policy)
  {
    ev := new OrderingEvidence(ids, hb, policy, envDepth);
    ghost var gs: seq<NodeGuar> := [];
    for i := 0 to |threads|
      invariant gs == GuarsOf(threads[..i], contracts)
      invariant ev.View() == EvidenceFrom(gs, hb.outEdges, ids, ev.Cap(), policy)
    {
      assert threads[..i + 1][..i] == threads[..i];
      var own := if threads[i] in contracts then contracts[threads[i]].nodeGuars else [];
      ghost var gs0 := gs;
      for j := 0 to |own|
        invariant gs == gs0 + own[..j]
        invariant ev.View() == EvidenceFrom(gs, hb.outEdges, ids, ev.Cap(), policy)
      {
        ev.AddGuarantee(own[j], gs);
        gs := gs + [own[j]];
        assert own[..j + 1] == own[..j] + [own[j]];
      }
      assert own[..|own|] == own;
    }
    assert threads[..|threads|] == threads;
  }
}
