/** The memoised queries of the thread-creation tree. */
module ThreadCreationTrees {
  import opened Options
  import opened Paths
  import opened ThreadTree

  // ---- Searching inside a thread ----

  /** A path from a to b whose nodes after a all lie in the thread. */
  ghost predicate Inside(flow: Edges, a: int, p: seq<int>, b: int, nodes: set<int>) {
    IsPath(flow, a, p, b) && forall i :: 0 < i < |p| ==> p[i] in nodes
  }

  ghost predicate InsideTo(flow: Edges, a: int, b: int, nodes: set<int>) {
    exists p :: Inside(flow, a, p, b, nodes)
  }

  ghost predicate Handed(nodes: set<int>, end: Option<int>, w: int, visited: set<int>) {
    Some(w) != end && (w in nodes ==> w in visited)
  }

  /** Visited nodes were reached inside the thread; the settled ones handed on all their successors. */
  ghost predicate Walking(flow: Edges, nodes: set<int>, start: int, end: Option<int>, visited: set<int>,
                          work: seq<int>) {
    && start in visited
    && (forall v :: v in visited ==> InsideTo(flow, start, v, nodes))
    && (forall w :: w in work ==> w in visited)
    && (forall v, w :: v in visited && v !in work && (v, w) in flow ==> Handed(nodes, end, w, visited))
  }

  ghost predicate HandedOn(flow: Edges, nodes: set<int>, end: Option<int>, cur: int, done: set<int>,
                           visited: set<int>) {
    forall w :: w in done && (cur, w) in flow ==> Handed(nodes, end, w, visited)
  }

  lemma InsideStep(flow: Edges, nodes: set<int>, start: int, v: int, w: int)
    requires InsideTo(flow, start, v, nodes) && (v, w) in flow
    ensures LeadsTo(flow, Some(start), Some(w), nodes)
    ensures w in nodes ==> InsideTo(flow, start, w, nodes)
  {
    var p :| Inside(flow, start, p, v, nodes);
    var q := p + [w];
    assert IsPath(flow, start, q, w);
    assert w in nodes ==> Inside(flow, start, q, w, nodes);
  }

  lemma StartsWalking(flow: Edges, nodes: set<int>, start: int, end: Option<int>)
    ensures Walking(flow, nodes, start, end, {start}, [start])
  {
    assert Inside(flow, start, [start], start, nodes);
    assert start in [start];
  }

  lemma {:induction false} PathIsVisited(flow: Edges, nodes: set<int>, start: int, end: Option<int>, visited: set<int>,
                                         p: seq<int>, b: int, k: nat)
    requires Walking(flow, nodes, start, end, visited, [])
    requires IsPath(flow, start, p, b) && forall i :: 0 < i < |p| - 1 ==> p[i] in nodes
    requires k < |p| && (k == |p| - 1 ==> b in nodes || k == 0)
    ensures p[k] in visited
  {
    if k > 0 {
      PathIsVisited(flow, nodes, start, end, visited, p, b, k - 1);
      WalkedEdge(flow, nodes, start, end, visited, p, b, k - 1);
    }
  }

  lemma WalkedEdge(flow: Edges, nodes: set<int>, start: int, end: Option<int>, visited: set<int>, p: seq<int>, b: int,
                   k: nat)
    requires Walking(flow, nodes, start, end, visited, []) && IsPath(flow, start, p, b) && k + 1 < |p| &&
      p[k] in visited
    ensures Handed(nodes, end, p[k + 1], visited)
  {
    var v, w := p[k], p[k + 1];
    assert (v, w) in flow && v !in [];
  }

  lemma NothingLeads(flow: Edges, nodes: set<int>, start: int, end: int, visited: set<int>)
    requires Walking(flow, nodes, start, Some(end), visited, []) && start != end
    ensures !LeadsTo(flow, Some(start), Some(end), nodes)
  {
    if p :| IsPath(flow, start, p, end) && forall i :: 0 < i < |p| - 1 ==> p[i] in nodes {
      var n := |p| - 2;
      PathIsVisited(flow, nodes, start, Some(end), visited, p, end, n);
      WalkedEdge(flow, nodes, start, Some(end), visited, p, end, n);
    }
  }

  /** With no target and a start inside the thread, the search finds exactly what is reachable there. */
  lemma WalkedAll(flow: Edges, nodes: set<int>, start: int, visited: set<int>)
    requires Walking(flow, nodes, start, None, visited, []) && start in nodes
    ensures forall n :: n in visited <==> n in nodes && Reach(Within(flow, nodes), start, n)
  {
    var es := Within(flow, nodes);
    forall n | n in visited
      ensures n in nodes && Reach(es, start, n)
    {
      var p :| Inside(flow, start, p, n, nodes);
      assert forall i :: 0 <= i < |p| ==> p[i] in nodes;
      assert forall i :: 0 <= i < |p| - 1 ==> (p[i], p[i + 1]) in flow;
      assert IsPath(es, start, p, n);
    }
    forall e | e in es && e.0 in visited
      ensures e.1 in visited
    {
      var (v, w) := e;
      assert (v, w) in flow && v !in [] && w in nodes;
      assert Handed(nodes, None, w, visited);
    }
    SearchIsReach(es, visited, start);
  }

  lemma CloseNode(flow: Edges, nodes: set<int>, start: int, end: Option<int>, visited: set<int>, work: seq<int>,
                  visited': set<int>, work': seq<int>)
    requires Walking(flow, nodes, start, end, visited, work) && work != []
    requires HandedOn(flow, nodes, end, work[0], SuccessorsOf(flow, work[0]), visited')
    requires Spread(flow, nodes, start, visited, work[1..], visited', work')
    ensures Walking(flow, nodes, start, end, visited', work')
  {
    var cur := work[0];
    forall v, w | v in visited' && v !in work' && (v, w) in flow
      ensures Handed(nodes, end, w, visited')
    {
      if v == cur {
        assert w in SuccessorsOf(flow, cur);
      } else {
        assert v in visited && v !in work by {
          assert forall x :: x in work <==> x == cur || x in work[1..];
        }
      }
    }
  }

  /** The visited set and the worklist grew by the same new nodes. */
  ghost predicate Spread(flow: Edges, nodes: set<int>, start: int, visited: set<int>, work: seq<int>,
                         visited': set<int>, work': seq<int>) {
    && visited <= visited' <= visited + nodes
    && (forall v :: v in visited' ==> v in visited || InsideTo(flow, start, v, nodes))
    && (forall v :: v in work' <==> v in work || (v in visited' && v !in visited))
    && |nodes - visited'| + |work'| == |nodes - visited| + |work|
  }

  lemma SpreadMore(flow: Edges, nodes: set<int>, start: int, visited0: set<int>, work0: seq<int>, visited: set<int>,
                   work: seq<int>, w: int)
    requires Spread(flow, nodes, start, visited0, work0, visited, work)
    requires w in nodes && w !in visited && InsideTo(flow, start, w, nodes)
    ensures Spread(flow, nodes, start, visited0, work0, visited + {w}, work + [w])
  {
    assert nodes - visited == (nodes - (visited + {w})) + {w};
  }

  lemma SpreadNothing(flow: Edges, nodes: set<int>, start: int, visited: set<int>, work: seq<int>)
    ensures Spread(flow, nodes, start, visited, work, visited, work)
  {
  }

  /** The unvisited successors of one node inside the thread are queued; `found` if the target is among them. */
  method SpreadFrom(flow: Edges, nodes: set<int>, ghost start: int, end: Option<int>, cur: int, visited0: set<int>,
                    work0: seq<int>)
    returns (found: bool, visited: set<int>, work: seq<int>)
    requires InsideTo(flow, start, cur, nodes)
    ensures found ==> end.Some? && LeadsTo(flow, Some(start), end, nodes)
    ensures !found ==>
              && Spread(flow, nodes, start, visited0, work0, visited, work)
              && HandedOn(flow, nodes, end, cur, SuccessorsOf(flow, cur), visited)
  {
    hide InsideTo, LeadsTo, Spread;
    found, visited, work := false, visited0, work0;
    SpreadNothing(flow, nodes, start, visited, work);
    var todo := SuccessorsOf(flow, cur);
    while exists w :: w in todo
      invariant todo <= SuccessorsOf(flow, cur)
      invariant Spread(flow, nodes, start, visited0, work0, visited, work)
      invariant HandedOn(flow, nodes, end, cur, SuccessorsOf(flow, cur) - todo, visited)
      decreases todo
    {
      var next :| next in todo;
      assert (cur, next) in flow;
      InsideStep(flow, nodes, start, cur, next);
      if end == Some(next) {
        found := true;
        return;
      }
      if next in nodes && next !in visited {
        SpreadMore(flow, nodes, start, visited0, work0, visited, work, next);
        visited, work := visited + {next}, work + [next];
      }
      todo := todo - {next};
    }
  }

  /** Whether control leads from one node to another inside a thread. */
  method IsReachable(flow: Edges, start: Option<int>, end: Option<int>, nodes: set<int>) returns (r: bool)
    ensures r <==> LeadsTo(flow, start, end, nodes)
  {
    if start.None? || end.None? {
      return false;
    }
    if start == end {
      assert IsPath(flow, start.value, [start.value], end.value);
      return true;
    }
    hide LeadsTo, Walking, HandedOn, Spread;
    var work, visited := [start.value], {start.value};
    StartsWalking(flow, nodes, start.value, end);
    while work != []
      invariant Walking(flow, nodes, start.value, end, visited, work)
      decreases |nodes - visited| + |work|
    {
      WalkingHead(flow, nodes, start.value, end, visited, work);
      ghost var visited0, work0 := visited, work;
      r, visited, work := SpreadFrom(flow, nodes, start.value, end, work[0], visited, work[1..]);
      if r {
        return;
      }
      CloseNode(flow, nodes, start.value, end, visited0, work0, visited, work);
      SpreadCount(flow, nodes, start.value, visited0, work0[1..], visited, work);
    }
    NothingLeads(flow, nodes, start.value, end.value, visited);
    r := false;
  }

  lemma WalkingHead(flow: Edges, nodes: set<int>, start: int, end: Option<int>, visited: set<int>, work: seq<int>)
    requires Walking(flow, nodes, start, end, visited, work) && work != []
    ensures InsideTo(flow, start, work[0], nodes)
  {
    assert work[0] in work;
  }

  lemma SpreadCount(flow: Edges, nodes: set<int>, start: int, visited: set<int>, work: seq<int>, visited': set<int>,
                    work': seq<int>)
    requires Spread(flow, nodes, start, visited, work, visited', work')
    ensures |nodes - visited'| + |work'| == |nodes - visited| + |work|
  {
  }

  /** The nodes of a thread reachable from a node, or reaching it. */
  method GetReachableNodes(flow: Edges, start: Option<int>, nodes: set<int>, forward: bool)
    returns (reachable: set<int>)
    ensures reachable == ReachableIn(flow, nodes, start, forward)
  {
    if start.None? || start.value !in nodes {
      return {};
    }
    hide Walking, HandedOn, Spread, Reach, Within;
    var es := if forward then flow else Reversed(flow);
    var work := [start.value];
    reachable := {start.value};
    StartsWalking(es, nodes, start.value, None);
    while work != []
      invariant Walking(es, nodes, start.value, None, reachable, work)
      decreases |nodes - reachable| + |work|
    {
      WalkingHead(es, nodes, start.value, None, reachable, work);
      ghost var visited0, work0 := reachable, work;
      var found;
      found, reachable, work := SpreadFrom(es, nodes, start.value, None, work[0], reachable, work[1..]);
      CloseNode(es, nodes, start.value, None, visited0, work0, reachable, work);
      SpreadCount(es, nodes, start.value, visited0, work0[1..], reachable, work);
    }
    WalkedDirection(flow, nodes, start.value, forward, es, reachable);
  }

  lemma WalkedDirection(flow: Edges, nodes: set<int>, start: int, forward: bool, es: Edges, visited: set<int>)
    requires es == if forward then flow else Reversed(flow)
    requires Walking(es, nodes, start, None, visited, []) && start in nodes
    ensures visited == ReachableIn(flow, nodes, Some(start), forward)
  {
    WalkedAll(es, nodes, start, visited);
    forall n
      ensures n in visited <==> n in ReachableIn(flow, nodes, Some(start), forward)
    {
      if !forward {
        ReversedWithin(flow, nodes);
        ReverseReach(Within(flow, nodes), n, start);
      }
    }
  }

  lemma ReversedWithin(flow: Edges, nodes: set<int>)
    ensures Within(Reversed(flow), nodes) == Reversed(Within(flow, nodes))
  {
    forall e | e in Within(Reversed(flow), nodes)
      ensures e in Reversed(Within(flow, nodes))
    {
      assert (e.1, e.0) in Within(flow, nodes);
    }
  }

  // ---- The memoised relations ----

  type PairCache = map<(int, int), bool>

  /** The key of an unordered pair: the smaller thread first. */
  function OrderedPair(x: int, y: int): (int, int) {
    if x <= y then (x, y) else (y, x)
  }

  class ThreadCreationTree {
    const tree: Tree
    var concurrencyCache: PairCache
    var mayHappenInParallelCache: PairCache

    ghost predicate Valid()
      reads this
    {
      && Forest(tree)
      && (forall k :: k in concurrencyCache ==>
            k.0 in tree.threads && k.1 in tree.threads && (concurrencyCache[k] <==> Concurrent(tree, k.0, k.1)))
      && (forall k :: k in mayHappenInParallelCache ==>
            k.0 in tree.threads && k.1 in tree.threads && tree.threads[k.0].parent == tree.threads[k.1].parent &&
            (mayHappenInParallelCache[k] <==> SiblingsParallel(tree, k.0, k.1)))
    }

    constructor (tree: Tree)
      requires Forest(tree)
      ensures Valid() && this.tree == tree
    {
      this.tree, concurrencyCache, mayHappenInParallelCache := tree, map[], map[];
    }

    /** Whether x descends from y: the parent links of x are followed. */
    method IsDescendant(x: int, y: int) returns (r: bool)
      requires Valid() && x in tree.threads
      ensures r <==> IsDescendantOf(tree, x, y)
    {
      var parent := tree.threads[x].parent;
      while parent.Some?
        invariant parent.Some? ==> parent.value in tree.threads
        invariant IsDescendantOf(tree, x, y) <==>
                  parent.Some? && (parent.value == y || IsDescendantOf(tree, parent.value, y))
        decreases if parent.Some? then tree.depth[parent.value] + 1 else 0
      {
        if parent.value == y {
          return true;
        }
        parent := tree.threads[parent.value].parent;
      }
      r := false;
    }

    method MayHappenInParallel(x: int, y: int) returns (r: bool)
      requires Valid() && x in tree.threads && y in tree.threads && tree.threads[x].parent == tree.threads[y].parent
      modifies this`mayHappenInParallelCache
      ensures Valid() && (r <==> SiblingsParallel(tree, x, y))
    {
      hide Forest, LeadsTo, Concurrent;
      var key := OrderedPair(x, y);
      SiblingsSymmetric(tree, x, y);
      if key in mayHappenInParallelCache {
        return mayHappenInParallelCache[key];
      }
      r := JudgeSiblings(x, y);
      mayHappenInParallelCache := mayHappenInParallelCache[key := r];
    }

    /** Roots are judged by their entry points, siblings by their parent's joins and forks. */
    method JudgeSiblings(x: int, y: int) returns (r: bool)
      requires Valid() && x in tree.threads && y in tree.threads && tree.threads[x].parent == tree.threads[y].parent
      ensures r <==> SiblingsParallel(tree, x, y)
    {
      hide LeadsTo, Concurrent;
      var a, b := tree.threads[x], tree.threads[y];
      if a.parent.None? {
        if !(a.isKernelEntry && b.isKernelEntry) {
          return false;
        }
        if tree.manualEntries && a.declared && b.declared {
          return true;
        }
        if (a.phase == InitPhase && b.phase == ExitPhase) || (a.phase == ExitPhase && b.phase == InitPhase) {
          return false;
        }
        if tree.sharing.Some? && a.named && b.named && (x, y) !in tree.sharing.value {
          return false;
        }
        return true;
      }
      var nodes := tree.threads[a.parent.value].nodes;
      var xBeforeY := IsReachable(tree.flow, a.joinNode, b.forkNode, nodes);
      var yBeforeX := IsReachable(tree.flow, b.joinNode, a.forkNode, nodes);
      r := !xBeforeY && !yBeforeX;
    }

    method MayThreadsRunConcurrently(x: int, y: int) returns (r: bool)
      requires Valid() && x in tree.threads && y in tree.threads
      modifies this`concurrencyCache, this`mayHappenInParallelCache
      ensures Valid() && (r <==> Concurrent(tree, x, y))
      decreases tree.depth[x], 1
    {
      if x == y {
        return tree.threads[x].isReentrant;
      }
      hide SiblingsParallel, IsDescendantOf, Concurrent;
      var key := OrderedPair(x, y);
      ConcurrentSymmetric(tree, x, y);
      if key in concurrencyCache {
        return concurrencyCache[key];
      }
      r := JudgePair(x, y);
      concurrencyCache := concurrencyCache[key := r];
    }

    /** A line of descent runs in parallel; other threads are judged as siblings, or by their parents. */
    method JudgePair(x: int, y: int) returns (r: bool)
      requires Valid() && x in tree.threads && y in tree.threads && x != y
      modifies this`concurrencyCache, this`mayHappenInParallelCache
      ensures Valid() && (r <==> Concurrent(tree, x, y))
      decreases tree.depth[x], 0
    {
      hide SiblingsParallel, IsDescendantOf;
      var below := IsDescendant(x, y);
      var above := IsDescendant(y, x);
      if below || above {
        return true;
      }
      var p, q := tree.threads[x].parent, tree.threads[y].parent;
      if p == q {
        r := MayHappenInParallel(x, y);
      } else if p.Some? && q.Some? {
        r := MayThreadsRunConcurrently(p.value, q.value);
      } else {
        r := false;
      }
    }

    /** The overlapping nodes of two threads: all of both for siblings, the child and the ancestor's scope for a line
        of descent. */
    method ComputeParallelLocs(x: int, y: int) returns (r: (set<int>, set<int>))
      requires Valid() && x in tree.threads && y in tree.threads
      modifies this`concurrencyCache, this`mayHappenInParallelCache
      ensures Valid() && r == ParallelNodes(tree, x, y)
    {
      hide Concurrent, IsDescendantOf, ReachableIn;
      var parallel := MayThreadsRunConcurrently(x, y);
      if !parallel {
        return ({}, {});
      }
      var a, b := tree.threads[x], tree.threads[y];
      if a.parent.Some? && a.parent == b.parent {
        return (a.nodes, b.nodes);
      }
      var yBelow := IsDescendant(y, x);
      if yBelow {
        var scope := ConcurrentScope(a.nodes, b.forkNode, b.joinNode);
        return (scope, b.nodes);
      }
      var xBelow := IsDescendant(x, y);
      if xBelow {
        var scope := ConcurrentScope(b.nodes, a.forkNode, a.joinNode);
        return (a.nodes, scope);
      }
      r := ({}, {});
    }

    /** What the fork reaches, cut down to what reaches the join if there is one. */
    method ConcurrentScope(nodes: set<int>, fork: Option<int>, join: Option<int>) returns (scope: set<int>)
      ensures scope == Scope(tree.flow, nodes, fork, join)
    {
      var fromFork := GetReachableNodes(tree.flow, fork, nodes, true);
      if join.None? {
        return fromFork;
      }
      var toJoin := GetReachableNodes(tree.flow, join, nodes, false);
      scope := set n | n in fromFork && n in toJoin;
    }
  }

  class ParallelLocCache {
    var cache: map<(int, int), (set<int>, set<int>)>

    ghost predicate Valid(tree: Tree)
      requires Forest(tree)
      reads this
    {
      forall k :: k in cache ==> k.0 in tree.threads && k.1 in tree.threads && cache[k] == ParallelNodes(tree, k.0, k.1)
    }

    constructor ()
      ensures cache == map[]
    {
      cache := map[];
    }

    /** The answer for the caller's order of the two threads, computed once per unordered pair. */
    method GetParallelLocs(tct: ThreadCreationTree, x: int, y: int) returns (r: (set<int>, set<int>))
      requires tct.Valid() && Valid(tct.tree) && x in tct.tree.threads && y in tct.tree.threads
      modifies this, tct`concurrencyCache, tct`mayHappenInParallelCache
      ensures tct.Valid() && Valid(tct.tree)
      ensures r == ParallelNodes(tct.tree, x, y)
      ensures cache == old(cache)[OrderedPair(x, y) :=
        ParallelNodes(tct.tree, OrderedPair(x, y).0, OrderedPair(x, y).1)]
    {
      hide ParallelNodes, Forest;
      var key := OrderedPair(x, y);
      ParallelNodesSwap(tct.tree, key.0, key.1);
      if key !in cache {
        var computed := tct.ComputeParallelLocs(key.0, key.1);
        cache := cache[key := computed];
      }
      r := if key.0 == x then cache[key] else (cache[key].1, cache[key].0);
    }
  }
}
