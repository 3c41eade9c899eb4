/** Contracting a control-flow graph to the nodes that matter for concurrency. */
module CfgContraction {
  import opened FiniteSets
  import opened Paths

  type Successors = map<int, seq<int>>

  function Succ(cfg: Successors, n: int): seq<int> {
    if n in cfg then cfg[n] else []
  }

  ghost function CfgEdges(cfg: Successors): Edges {
    set n, k | n in cfg && 0 <= k < |cfg[n]| :: (n, cfg[n][k])
  }

  lemma CfgEdge(cfg: Successors, a: int, b: int)
    ensures (a, b) in CfgEdges(cfg) <==> b in Succ(cfg, a)
  {
    if b in Succ(cfg, a) {
      var k :| 0 <= k < |cfg[a]| && cfg[a][k] == b;
      assert (a, cfg[a][k]) in CfgEdges(cfg);
    }
  }

  /** A path of at least one edge that meets no kept node on the way. */
  ghost predicate Direct(cfg: Successors, kept: set<int>, a: int, p: seq<int>, b: int) {
    && IsPath(CfgEdges(cfg), a, p, b) && |p| >= 2
    && (forall i :: 0 < i < |p| - 1 ==> p[i] !in kept)
  }

  ghost predicate Directly(cfg: Successors, kept: set<int>, a: int, b: int) {
    exists p :: Direct(cfg, kept, a, p, b)
  }

  /** c is the next kept node after n along some path. */
  ghost predicate IsChild(cfg: Successors, kept: set<int>, n: int, c: int) {
    c in kept && c != n && Directly(cfg, kept, n, c)
  }

  ghost predicate AreChildren(cfg: Successors, kept: set<int>, n: int, cs: set<int>) {
    forall c :: c in cs <==> IsChild(cfg, kept, n, c)
  }

  lemma DirectStep(cfg: Successors, kept: set<int>, a: int, b: int, c: int)
    requires c in Succ(cfg, b)
    requires b == a || (b !in kept && Directly(cfg, kept, a, b))
    ensures Directly(cfg, kept, a, c)
  {
    CfgEdge(cfg, b, c);
    if b == a {
      assert Direct(cfg, kept, a, [a, c], c);
    } else {
      var p :| Direct(cfg, kept, a, p, b);
      assert Direct(cfg, kept, a, p + [c], c);
    }
  }

  // ---- The search for children ----

  /** Everything found so far is reached directly, and what has been expanded passed its successors on. */
  ghost predicate Exploring(cfg: Successors, kept: set<int>, start: int, visited: set<int>, work: seq<int>) {
    && start in visited
    && (forall v :: v in visited && v != start ==> Directly(cfg, kept, start, v))
    && (forall w :: w in work ==> Directly(cfg, kept, start, w))
    && (forall v, w :: v in visited && (v == start || v !in kept) && w in Succ(cfg, v) ==> w in visited || w in work)
  }

  lemma StartExploring(cfg: Successors, kept: set<int>, start: int)
    ensures Exploring(cfg, kept, start, {start}, Succ(cfg, start))
  {
    forall w | w in Succ(cfg, start)
      ensures Directly(cfg, kept, start, w)
    {
      DirectStep(cfg, kept, start, start, w);
    }
  }

  lemma VisitNode(cfg: Successors, kept: set<int>, start: int, visited: set<int>, work: seq<int>)
    requires Exploring(cfg, kept, start, visited, work) && work != []
    ensures var n := work[0];
            && (n in visited ==> Exploring(cfg, kept, start, visited, work[1..]))
            && (n !in visited && n in kept ==> Exploring(cfg, kept, start, visited + {n}, work[1..]))
            && (n !in visited && n !in kept ==> Exploring(cfg, kept, start, visited + {n}, work[1..] + Succ(cfg, n)))
  {
    var n := work[0];
    assert n in work;
    assert forall w :: w in work <==> w == n || w in work[1..];
    if n !in visited && n !in kept {
      var work' := work[1..] + Succ(cfg, n);
      forall w | w in work'
        ensures Directly(cfg, kept, start, w)
      {
        if w in Succ(cfg, n) {
          DirectStep(cfg, kept, start, n, w);
        }
      }
    }
  }

  lemma {:induction false} DirectIsVisited(cfg: Successors, kept: set<int>, start: int, visited: set<int>, p: seq<int>,
                                           b: int, k: nat)
    requires Exploring(cfg, kept, start, visited, []) && Direct(cfg, kept, start, p, b) && k < |p|
    ensures p[k] in visited
  {
    if k > 0 {
      DirectIsVisited(cfg, kept, start, visited, p, b, k - 1);
      assert (p[k - 1], p[k]) in CfgEdges(cfg);
      CfgEdge(cfg, p[k - 1], p[k]);
    }
  }

  lemma ExploredAll(cfg: Successors, kept: set<int>, start: int, visited: set<int>)
    requires Exploring(cfg, kept, start, visited, [])
    ensures AreChildren(cfg, kept, start, set c | c in visited && c in kept && c != start)
  {
    forall c | IsChild(cfg, kept, start, c)
      ensures c in visited
    {
      var p :| Direct(cfg, kept, start, p, c);
      DirectIsVisited(cfg, kept, start, visited, p, c, |p| - 1);
    }
  }

  // ---- Contraction preserves reachability ----

  /** Every step of p leads to a child. */
  ghost predicate ChildPath(cfg: Successors, kept: set<int>, a: int, p: seq<int>, b: int) {
    && p != [] && p[0] == a && p[|p| - 1] == b
    && (forall i :: 0 <= i < |p| - 1 ==> IsChild(cfg, kept, p[i], p[i + 1]))
  }

  function FirstKept(kept: set<int>, p: seq<int>, i: nat): (r: nat)
    requires i < |p| && p[|p| - 1] in kept
    ensures i <= r < |p| && p[r] in kept
    ensures forall k :: i <= k < r ==> p[k] !in kept
    decreases |p| - i
  {
    if p[i] in kept then i else FirstKept(kept, p, i + 1)
  }

  /** A path to a kept node contracts to a path over children. */
  lemma {:induction false} Contract(cfg: Successors, kept: set<int>, a: int, p: seq<int>, b: int) returns (q: seq<int>)
    requires IsPath(CfgEdges(cfg), a, p, b) && (b in kept || a == b)
    ensures ChildPath(cfg, kept, a, q, b)
    decreases |p|
  {
    if a == b {
      return [a];
    }
    var i := FirstKept(kept, p, 1);
    q := Contract(cfg, kept, p[i], p[i..], b);
    if p[i] != a {
      assert Direct(cfg, kept, a, p[..i + 1], p[i]);
      assert IsChild(cfg, kept, a, p[i]);
      q := [a] + q;
    }
  }

  lemma {:induction false} Expand(cfg: Successors, kept: set<int>, a: int, q: seq<int>, b: int)
    requires ChildPath(cfg, kept, a, q, b)
    ensures Reach(CfgEdges(cfg), a, b)
    ensures a != b && |q| > 1 ==> b in kept
    decreases |q|
  {
    if |q| == 1 {
      ReachSelf(CfgEdges(cfg), a);
    } else {
      var n := |q| - 2;
      Expand(cfg, kept, a, q[..n + 1], q[n]);
      assert IsChild(cfg, kept, q[n], q[n + 1]);
      var p :| Direct(cfg, kept, q[n], p, b);
      ReachTrans(CfgEdges(cfg), a, q[n], b);
    }
  }

  // ---- The contracted graph of a function ----

  /** A function of the contracted graph: its entry, its nodes, and its order edges. */
  datatype Function = Function(entry: int, nodes: set<int>, edges: Edges)

  /** The nodes are the entry and every kept node reachable from it; the edges lead from each node to its children. */
  ghost predicate IsContraction(cfg: Successors, kept: set<int>, f: Function) {
    && (forall n :: n in f.nodes <==> n == f.entry || (n in kept && Reach(CfgEdges(cfg), f.entry, n)))
    && (forall a, b :: (a, b) in f.edges <==> a in f.nodes && IsChild(cfg, kept, a, b))
  }

  /** A path each of whose steps is a control-flow edge. */
  ghost predicate FlowPath(cfg: Successors, a: int, p: seq<int>, b: int) {
    && p != [] && p[0] == a && p[|p| - 1] == b
    && forall i :: 0 <= i < |p| - 1 ==> p[i] in cfg && p[i + 1] in cfg[p[i]]
  }

  lemma FlowIsPath(cfg: Successors, a: int, p: seq<int>, b: int)
    ensures FlowPath(cfg, a, p, b) <==> IsPath(CfgEdges(cfg), a, p, b)
  {
    hide CfgEdges;
    if FlowPath(cfg, a, p, b) {
      forall i | 0 <= i < |p| - 1
        ensures (p[i], p[i + 1]) in CfgEdges(cfg)
      {
        CfgEdge(cfg, p[i], p[i + 1]);
      }
    }
    if IsPath(CfgEdges(cfg), a, p, b) {
      forall i | 0 <= i < |p| - 1
        ensures p[i] in cfg && p[i + 1] in cfg[p[i]]
      {
        CfgEdge(cfg, p[i], p[i + 1]);
        assert (p[i], p[i + 1]) in CfgEdges(cfg);
      }
    }
  }

  /** A way from a to b that passes no kept node. */
  ghost predicate ShortOfKept(cfg: Successors, kept: set<int>, a: int, p: seq<int>, b: int) {
    FlowPath(cfg, a, p, b) && forall i :: 0 < i < |p| - 1 ==> p[i] !in kept
  }

  lemma DirectMeans(cfg: Successors, kept: set<int>, a: int, p: seq<int>, b: int)
    requires a != b
    ensures Direct(cfg, kept, a, p, b) <==> ShortOfKept(cfg, kept, a, p, b)
  {
    hide CfgEdges;
    FlowIsPath(cfg, a, p, b);
  }

  /** The nodes of a function are its entry and the kept nodes that control flow reaches from it; an order edge leads
      from one of them to each other kept node that it reaches without passing a kept node on the way. */
  lemma NodesAndEdgesMean(cfg: Successors, kept: set<int>, f: Function)
    requires IsContraction(cfg, kept, f)
    ensures forall n :: n in f.nodes <==> n == f.entry || (n in kept && exists p :: FlowPath(cfg, f.entry, p, n))
    ensures forall a, b :: (a, b) in f.edges <==>
              a in f.nodes && b in kept && a != b && exists p :: ShortOfKept(cfg, kept, a, p, b)
  {
    hide CfgEdges, FlowPath, IsPath, Direct, ShortOfKept;
    forall a, p, b
      ensures FlowPath(cfg, a, p, b) <==> IsPath(CfgEdges(cfg), a, p, b)
      ensures a != b ==> (Direct(cfg, kept, a, p, b) <==> ShortOfKept(cfg, kept, a, p, b))
    {
      FlowIsPath(cfg, a, p, b);
      if a != b {
        DirectMeans(cfg, kept, a, p, b);
      }
    }
    forall a, b
      ensures (a, b) in f.edges <==>
              a in f.nodes && b in kept && a != b && exists p :: ShortOfKept(cfg, kept, a, p, b)
    {
      assert IsChild(cfg, kept, a, b) <==> b in kept && a != b && Directly(cfg, kept, a, b);
    }
  }

  lemma ChildOfNode(cfg: Successors, kept: set<int>, f: Function, a: int, b: int)
    requires IsContraction(cfg, kept, f) && a in f.nodes && IsChild(cfg, kept, a, b)
    ensures b in f.nodes && (a, b) in f.edges
  {
    var p :| Direct(cfg, kept, a, p, b);
    if a == f.entry {
      ReachSelf(CfgEdges(cfg), a);
    }
    ReachTrans(CfgEdges(cfg), f.entry, a, b);
  }

  lemma {:induction false} ChildPathIsPath(cfg: Successors, kept: set<int>, f: Function, a: int, q: seq<int>, b: int)
    requires IsContraction(cfg, kept, f) && a in f.nodes && ChildPath(cfg, kept, a, q, b)
    ensures b in f.nodes && IsPath(f.edges, a, q, b)
    decreases |q|
  {
    if |q| > 1 {
      var n := |q| - 2;
      ChildPathIsPath(cfg, kept, f, a, q[..n + 1], q[n]);
      ChildOfNode(cfg, kept, f, q[n], q[n + 1]);
      assert forall i :: 0 <= i < n ==> (q[..n + 1][i], q[..n + 1][i + 1]) == (q[i], q[i + 1]);
    }
  }

  /** Between distinct nodes of a function, control flow leads from a to b iff the order edges do -- except
      that no order edge ever leads back to an entry that is not itself kept. */
  lemma ContractionPreservesReachability(cfg: Successors, kept: set<int>, f: Function, a: int, b: int)
    requires IsContraction(cfg, kept, f) && a in f.nodes && b in f.nodes && a != b
    ensures Reach(f.edges, a, b) <==> Reach(CfgEdges(cfg), a, b) && b in kept
  {
    if Reach(CfgEdges(cfg), a, b) && b in kept {
      var p :| IsPath(CfgEdges(cfg), a, p, b);
      var q := Contract(cfg, kept, a, p, b);
      ChildPathIsPath(cfg, kept, f, a, q, b);
    }
    if Reach(f.edges, a, b) {
      var q :| IsPath(f.edges, a, q, b);
      assert forall i :: 0 <= i < |q| - 1 ==> (q[i], q[i + 1]) in f.edges;
      Expand(cfg, kept, a, q, b);
    }
  }

  /** Nothing but the entry can be lost: contraction preserves all reachability of the function iff its entry is
      kept, or no other node of the function leads back to it. */
  lemma PreservesAllIffEntryIsSafe(cfg: Successors, kept: set<int>, f: Function)
    requires IsContraction(cfg, kept, f)
    ensures (forall a, b :: a in f.nodes && b in f.nodes && a != b ==>
               (Reach(f.edges, a, b) <==> Reach(CfgEdges(cfg), a, b)))
        <==> f.entry in kept || forall a :: a in f.nodes && a != f.entry ==> !Reach(CfgEdges(cfg), a, f.entry)
  {
    hide Reach, CfgEdges;
    forall a, b | a in f.nodes && b in f.nodes && a != b
      ensures Reach(f.edges, a, b) <==> Reach(CfgEdges(cfg), a, b) && b in kept
    {
      ContractionPreservesReachability(cfg, kept, f, a, b);
    }
    assert f.entry in f.nodes;
  }

  /** The ordinary case: no control flow enters the entry of a function. */
  lemma UnenteredEntryLosesNothing(cfg: Successors, kept: set<int>, f: Function, a: int, b: int)
    requires IsContraction(cfg, kept, f) && a in f.nodes && b in f.nodes && a != b
    requires forall n :: f.entry !in Succ(cfg, n)
    ensures Reach(f.edges, a, b) <==> Reach(CfgEdges(cfg), a, b)
  {
    ContractionPreservesReachability(cfg, kept, f, a, b);
    if p :| IsPath(CfgEdges(cfg), a, p, b) {
      assert (p[|p| - 2], p[|p| - 2 + 1]) in CfgEdges(cfg);
      CfgEdge(cfg, p[|p| - 2], b);
    }
  }

  /** Entry 0 and kept node 1 in a loop: 1 leads back to 0, but no order edge does. */
  lemma EntryCanBeLost()
    ensures var cfg: Successors, kept, f := map[0 := [1], 1 := [0]], {1}, Function(0, {0, 1}, {(0, 1)});
            IsContraction(cfg, kept, f) && Reach(CfgEdges(cfg), 1, 0) && !Reach(f.edges, 1, 0)
  {
    var cfg: Successors, kept, f := map[0 := [1], 1 := [0]], {1}, Function(0, {0, 1}, {(0, 1)});
    CfgEdge(cfg, 0, 1);
    CfgEdge(cfg, 1, 0);
    assert IsPath(CfgEdges(cfg), 0, [0, 1], 1) && IsPath(CfgEdges(cfg), 1, [1, 0], 0);
    assert Direct(cfg, kept, 0, [0, 1], 1);
    forall a, b | a in f.nodes && IsChild(cfg, kept, a, b)
      ensures (a, b) == (0, 1)
    {
    }
    ContractionPreservesReachability(cfg, kept, f, 1, 0);
  }

  // ---- The search over children ----

  ghost predicate Growing(cfg: Successors, kept: set<int>, f: Function, visited: set<int>, queue: seq<int>) {
    && visited == f.nodes + (set n | n in queue) && f.entry in visited
    && (forall n :: n in visited ==> n == f.entry || (n in kept && Reach(CfgEdges(cfg), f.entry, n)))
    && (forall a, b :: (a, b) in f.edges <==> a in f.nodes && IsChild(cfg, kept, a, b))
    && (forall a, b :: a in f.nodes && IsChild(cfg, kept, a, b) ==> b in visited)
  }

  lemma ChildIsReachable(cfg: Successors, kept: set<int>, entry: int, a: int, b: int)
    requires a == entry || Reach(CfgEdges(cfg), entry, a)
    requires IsChild(cfg, kept, a, b)
    ensures b in kept && Reach(CfgEdges(cfg), entry, b)
  {
    var p :| Direct(cfg, kept, a, p, b);
    assert IsPath(CfgEdges(cfg), a, p, b);
    if a != entry {
      ReachTrans(CfgEdges(cfg), entry, a, b);
    }
  }

  /** Once the queue is empty the function is the contraction. */
  lemma GrownUp(cfg: Successors, kept: set<int>, f: Function, visited: set<int>)
    requires Growing(cfg, kept, f, visited, [])
    ensures IsContraction(cfg, kept, f)
  {
    forall n | n in kept && Reach(CfgEdges(cfg), f.entry, n)
      ensures n in f.nodes
    {
      var p :| IsPath(CfgEdges(cfg), f.entry, p, n);
      var q := Contract(cfg, kept, f.entry, p, n);
      ChildrenStay(cfg, kept, f, visited, q, n, |q| - 1);
    }
  }

  lemma {:induction false} ChildrenStay(cfg: Successors, kept: set<int>, f: Function, visited: set<int>, q: seq<int>,
                                        b: int, k: nat)
    requires Growing(cfg, kept, f, visited, []) && ChildPath(cfg, kept, f.entry, q, b) && k < |q|
    ensures q[k] in f.nodes
  {
    if k > 0 {
      ChildrenStay(cfg, kept, f, visited, q, b, k - 1);
      assert IsChild(cfg, kept, q[k - 1], q[k - 1 + 1]);
    }
  }

  lemma StartGrowing(cfg: Successors, kept: set<int>, entry: int)
    ensures Growing(cfg, kept, Function(entry, {}, {}), {entry}, [entry])
  {
  }

  ghost function OutgoingTo(n: int, cs: set<int>): Edges {
    set c | c in cs :: (n, c)
  }

  lemma GrowStep(cfg: Successors, kept: set<int>, f: Function, visited: set<int>, queue: seq<int>, cs: set<int>,
                 visited': set<int>, queue': seq<int>)
    requires Growing(cfg, kept, f, visited, queue) && queue != []
    requires AreChildren(cfg, kept, queue[0], cs)
    requires visited' == visited + cs
    requires forall n :: n in queue' <==> n in queue[1..] || n in cs - visited
    ensures Growing(cfg, kept, Function(f.entry, f.nodes + {queue[0]}, f.edges + OutgoingTo(queue[0], cs)),
      visited', queue')
  {
    var n := queue[0];
    assert n in queue;
    assert forall x :: x in queue <==> x == n || x in queue[1..];
    forall c | c in cs
      ensures c in kept && Reach(CfgEdges(cfg), f.entry, c)
    {
      ChildIsReachable(cfg, kept, f.entry, n, c);
    }
    hide IsChild, Reach, CfgEdges;
    assert (set x | x in queue) == {n} + set x | x in queue[1..];
    assert (set x | x in queue') == (set x | x in queue[1..]) + (cs - visited);
    forall a, b
      ensures (a, b) in f.edges + OutgoingTo(n, cs) <==> a in f.nodes + {n} && IsChild(cfg, kept, a, b)
    {
      assert (a, b) in OutgoingTo(n, cs) <==> a == n && b in cs;
    }
  }

  class CCPG {
    const cfg: Successors
    const kept: set<int>
    var findChildrenCache: map<int, set<int>>
    var functions: map<int, Function>

    ghost predicate Valid()
      reads this
    {
      && (forall n :: n in findChildrenCache ==> AreChildren(cfg, kept, n, findChildrenCache[n]))
      && (forall n :: n in functions ==> functions[n].entry == n && IsContraction(cfg, kept, functions[n]))
    }

    constructor (cfg: Successors, kept: set<int>)
      ensures Valid() && this.cfg == cfg && this.kept == kept && functions == map[]
    {
      this.cfg, this.kept, findChildrenCache, functions := cfg, kept, map[], map[];
    }

    /** The next kept nodes after `start`, looked up in the cache or searched for breadth-first. */
    method FindChildren(start: int) returns (children: set<int>)
      requires Valid()
      modifies this`findChildrenCache
      ensures Valid() && AreChildren(cfg, kept, start, children)
    {
      if start in findChildrenCache {
        return findChildrenCache[start];
      }
      children := SearchChildren(start);
      findChildrenCache := findChildrenCache[start := children];
    }

    method SearchChildren(start: int) returns (children: set<int>)
      ensures AreChildren(cfg, kept, start, children)
    {
      hide Exploring, AreChildren, Succ, Universe;
      children := {};
      var work, visited := Succ(cfg, start), {start};
      ghost var universe := Universe(cfg, start);
      SuccInUniverse(cfg, start, start);
      StartExploring(cfg, kept, start);
      while work != []
        invariant Exploring(cfg, kept, start, visited, work)
        invariant children == (set c | c in visited && c in kept && c != start)
        invariant start in visited && visited <= universe && forall w :: w in work ==> w in universe
        decreases |universe - visited|, |work|
      {
        var n := work[0];
        VisitNode(cfg, kept, start, visited, work);
        SuccInUniverse(cfg, start, n);
        work := work[1..];
        if n in visited {
          continue;
        }
        OneFewer(universe, visited, n);
        visited := visited + {n};
        if n in kept {
          children := children + {n};
        } else {
          work := work + Succ(cfg, n);
        }
      }
      ExploredAll(cfg, kept, start, visited);
    }

    /** The function rooted at a node: the one built before, or a breadth-first search over children. */
    method CreateFunction(funcNode: int) returns (f: Function)
      requires Valid()
      modifies this`findChildrenCache, this`functions
      ensures Valid() && funcNode in functions && f == functions[funcNode]
      ensures functions == old(functions)[funcNode := f]
      ensures f.entry == funcNode && IsContraction(cfg, kept, f)
    {
      if funcNode in functions {
        return functions[funcNode];
      }
      hide Growing, IsChild;
      f := Function(funcNode, {}, {});
      var queue, visited := [funcNode], {funcNode};
      ghost var universe := kept + {funcNode};
      StartGrowing(cfg, kept, funcNode);
      while queue != []
        invariant Valid() && functions == old(functions)
        invariant f.entry == funcNode && Growing(cfg, kept, f, visited, queue)
        decreases |universe - visited| + |queue|
      {
        var node := queue[0];
        var children := FindChildren(node);
        ChildrenKept(cfg, kept, node, children);
        ghost var queue0, visited0 := queue, visited;
        var edges;
        visited, queue, edges := LinkChildren(node, children, visited, queue[1..], f.edges);
        GrowStep(cfg, kept, f, visited0, queue0, children, visited, queue);
        SeenMore(universe, visited0, children);
        f := f.(nodes := f.nodes + {node}, edges := edges);
      }
      GrownUp(cfg, kept, f, visited);
      functions := functions[funcNode := f];
    }

    /** An order edge to every child; the ones not seen before are queued. */
    method LinkChildren(node: int, children: set<int>, visited0: set<int>, queue0: seq<int>, edges0: Edges)
      returns (visited: set<int>, queue: seq<int>, edges: Edges)
      ensures Linking(node, children, visited0, queue0, edges0, visited, queue, edges)
    {
      hide Linking;
      visited, queue, edges := visited0, queue0, edges0;
      var todo := children;
      NothingLinked(node, visited0, queue0, edges0);
      assert children - todo == {};
      while exists c :: c in todo
        invariant todo <= children
        invariant Linking(node, children - todo, visited0, queue0, edges0, visited, queue, edges)
        decreases todo
      {
        var child :| child in todo;
        Linked(node, children - todo, visited0, queue0, edges0, visited, queue, edges, child);
        assert children - (todo - {child}) == children - todo + {child};
        edges := edges + {(node, child)};
        queue := if child in visited then queue else queue + [child];
        visited := visited + {child};
        todo := todo - {child};
      }
      assert children - todo == children;
    }
  }

  /** The children `done` are linked to the node, and those of them not visited before are queued. */
  ghost predicate Linking(node: int, done: set<int>, visited0: set<int>, queue0: seq<int>, edges0: Edges,
                          visited: set<int>, queue: seq<int>, edges: Edges) {
    && visited == visited0 + done
    && (forall n :: n in queue <==> n in queue0 || n in done - visited0)
    && |queue| == |queue0| + |done - visited0|
    && edges == edges0 + OutgoingTo(node, done)
  }

  lemma NothingLinked(node: int, visited0: set<int>, queue0: seq<int>, edges0: Edges)
    ensures Linking(node, {}, visited0, queue0, edges0, visited0, queue0, edges0)
  {
    assert {} - visited0 == {};
  }

  lemma Linked(node: int, done: set<int>, visited0: set<int>, queue0: seq<int>, edges0: Edges,
               visited: set<int>, queue: seq<int>, edges: Edges, child: int)
    requires Linking(node, done, visited0, queue0, edges0, visited, queue, edges) && child !in done
    ensures Linking(node, done + {child}, visited0, queue0, edges0, visited + {child},
                    if child in visited then queue else queue + [child], edges + {(node, child)})
  {
    var unseen, unseenNow := done - visited0, done + {child} - visited0;
    EdgeLinked(node, done, child);
    hide OutgoingTo;
    if child in visited {
      assert unseenNow == unseen;
    } else {
      assert unseenNow == unseen + {child};
      assert forall n :: n in queue + [child] <==> n in queue || n == child;
    }
  }

  lemma EdgeLinked(node: int, done: set<int>, child: int)
    ensures OutgoingTo(node, done + {child}) == OutgoingTo(node, done) + {(node, child)}
  {
  }

  ghost function Universe(cfg: Successors, start: int): set<int> {
    {start} + set n, k | n in cfg && 0 <= k < |cfg[n]| :: cfg[n][k]
  }

  lemma SuccInUniverse(cfg: Successors, start: int, n: int)
    ensures start in Universe(cfg, start) && forall w :: w in Succ(cfg, n) ==> w in Universe(cfg, start)
  {
  }

  lemma ChildrenKept(cfg: Successors, kept: set<int>, n: int, cs: set<int>)
    requires AreChildren(cfg, kept, n, cs)
    ensures cs <= kept
  {
    forall c | c in cs
      ensures c in kept
    {
      assert IsChild(cfg, kept, n, c);
    }
  }
}
