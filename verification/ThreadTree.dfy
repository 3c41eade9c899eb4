/** The thread-creation tree: which threads may run at the same time, and where. */
module ThreadTree {
  import opened Options
  import opened Paths

  datatype Phase = InitPhase | ExitPhase | UnknownPhase

  /** What the tree knows of a thread. `named` and `declared` stand for the two entry-name tests. */
  datatype Thread = Thread(parent: Option<int>, forkNode: Option<int>, joinNode: Option<int>, nodes: set<int>,
                           isKernelEntry: bool, isReentrant: bool, phase: Phase, named: bool, declared: bool)

  /** The threads, the graph they run in, and the answers of the entry-level data-sharing query.
      `depth` witnesses that parent links form a forest. */
  datatype Tree = Tree(threads: map<int, Thread>, depth: map<int, nat>, flow: Edges,
                       sharing: Option<set<(int, int)>>, manualEntries: bool)

  ghost predicate Forest(t: Tree) {
    && t.depth.Keys == t.threads.Keys
    && (forall x :: x in t.threads ==>
          match t.threads[x].parent
          case None => t.depth[x] == 0
          case Some(p) => p in t.threads && t.depth[x] == t.depth[p] + 1)
    && (t.sharing.Some? ==> forall x, y :: (x, y) in t.sharing.value <==> (y, x) in t.sharing.value)
  }

  // ---- Ancestors ----

  ghost function Lift(t: Tree, x: int, k: nat): Option<int>
    requires Forest(t) && x in t.threads
    decreases k
  {
    if k == 0 then Some(x)
    else
      match t.threads[x].parent
      case None => None
      case Some(p) => Lift(t, p, k - 1)
  }

  ghost predicate IsDescendantOf(t: Tree, x: int, y: int)
    requires Forest(t) && x in t.threads
    decreases t.depth[x]
  {
    match t.threads[x].parent
    case None => false
    case Some(p) => p == y || IsDescendantOf(t, p, y)
  }

  ghost function Root(t: Tree, x: int): (r: int)
    requires Forest(t) && x in t.threads
    ensures r in t.threads && t.depth[r] == 0
    decreases t.depth[x]
  {
    match t.threads[x].parent
    case None => x
    case Some(p) => Root(t, p)
  }

  lemma {:induction false} DescendantIsDeeper(t: Tree, x: int, y: int)
    requires Forest(t) && x in t.threads && IsDescendantOf(t, x, y)
    ensures y in t.threads && t.depth[y] < t.depth[x] && Root(t, x) == Root(t, y)
    decreases t.depth[x]
  {
    var p := t.threads[x].parent.value;
    if p != y {
      DescendantIsDeeper(t, p, y);
    }
  }

  /** A root is the ancestor of everything below it. */
  lemma {:induction false} RootIsAncestor(t: Tree, x: int)
    requires Forest(t) && x in t.threads
    ensures Root(t, x) == x || IsDescendantOf(t, x, Root(t, x))
    decreases t.depth[x]
  {
    if t.threads[x].parent.Some? {
      RootIsAncestor(t, t.threads[x].parent.value);
    }
  }

  // ---- Siblings ----

  /** One node leads to the other through nodes of the thread; the last step may leave it. */
  ghost predicate LeadsTo(flow: Edges, a: Option<int>, b: Option<int>, nodes: set<int>) {
    && a.Some? && b.Some?
    && exists p :: IsPath(flow, a.value, p, b.value) && forall i :: 0 < i < |p| - 1 ==> p[i] in nodes
  }

  ghost predicate SiblingsParallel(t: Tree, x: int, y: int)
    requires Forest(t) && x in t.threads && y in t.threads && t.threads[x].parent == t.threads[y].parent
  {
    var a, b := t.threads[x], t.threads[y];
    match a.parent
    case None =>
      && a.isKernelEntry && b.isKernelEntry
      && ((t.manualEntries && a.declared && b.declared)
          || (!({a.phase, b.phase} == {InitPhase, ExitPhase})
              && (t.sharing.Some? && a.named && b.named ==> (x, y) in t.sharing.value)))
    case Some(p) =>
      && !LeadsTo(t.flow, a.joinNode, b.forkNode, t.threads[p].nodes)
      && !LeadsTo(t.flow, b.joinNode, a.forkNode, t.threads[p].nodes)
  }

  lemma SiblingsSymmetric(t: Tree, x: int, y: int)
    requires Forest(t) && x in t.threads && y in t.threads && t.threads[x].parent == t.threads[y].parent
    ensures SiblingsParallel(t, x, y) <==> SiblingsParallel(t, y, x)
  {
    assert {t.threads[x].phase, t.threads[y].phase} == {t.threads[y].phase, t.threads[x].phase};
  }

  // ---- The recursive relation ----

  ghost predicate Concurrent(t: Tree, x: int, y: int)
    requires Forest(t) && x in t.threads && y in t.threads
    decreases t.depth[x]
  {
    if x == y then t.threads[x].isReentrant
    else if IsDescendantOf(t, x, y) || IsDescendantOf(t, y, x) then true
    else
      var p, q := t.threads[x].parent, t.threads[y].parent;
      if p == q then SiblingsParallel(t, x, y)
      else if p.Some? && q.Some? then Concurrent(t, p.value, q.value)
      else false
  }

  lemma {:induction false} ConcurrentSymmetric(t: Tree, x: int, y: int)
    requires Forest(t) && x in t.threads && y in t.threads
    ensures Concurrent(t, x, y) <==> Concurrent(t, y, x)
    decreases t.depth[x]
  {
    var p, q := t.threads[x].parent, t.threads[y].parent;
    if p == q {
      SiblingsSymmetric(t, x, y);
    } else if p.Some? && q.Some? {
      ConcurrentSymmetric(t, p.value, q.value);
    }
  }

  /** x and y are the k-th ancestors of u and v, distinct, and siblings. */
  ghost predicate SiblingAncestors(t: Tree, u: int, v: int, k: nat, x: int, y: int)
    requires Forest(t) && u in t.threads && v in t.threads
  {
    && x in t.threads && y in t.threads && x != y && t.threads[x].parent == t.threads[y].parent
    && Lift(t, u, k) == Some(x) && Lift(t, v, k) == Some(y)
  }

  ghost predicate Unrelated(t: Tree, u: int, v: int)
    requires Forest(t) && u in t.threads && v in t.threads
  {
    u != v && !IsDescendantOf(t, u, v) && !IsDescendantOf(t, v, u)
  }

  /** At equal depth the pair of sibling ancestors decides. */
  lemma {:induction false} EqualDepthSiblingsDecide(t: Tree, u: int, v: int) returns (k: nat, x: int, y: int)
    requires Forest(t) && u in t.threads && v in t.threads && u != v && t.depth[u] == t.depth[v]
    ensures SiblingAncestors(t, u, v, k, x, y)
    ensures Concurrent(t, u, v) <==> SiblingsParallel(t, x, y)
    decreases t.depth[u]
  {
    hide IsDescendantOf, SiblingsParallel, Concurrent;
    var p, q := t.threads[u].parent, t.threads[v].parent;
    NotDeeper(t, u, v);
    LiftsToParents(t, u, v);
    if p == q {
      k, x, y := 0, u, v;
    } else {
      k, x, y := EqualDepthSiblingsDecide(t, p.value, q.value);
      k := k + 1;
    }
  }

  /** Unrelated threads that are not siblings are judged by their parents. */
  lemma LiftsToParents(t: Tree, u: int, v: int)
    requires Forest(t) && u in t.threads && v in t.threads && Unrelated(t, u, v)
    ensures var p, q := t.threads[u].parent, t.threads[v].parent;
            && (p == q ==> (Concurrent(t, u, v) <==> SiblingsParallel(t, u, v)))
            && (p != q && p.Some? && q.Some? ==> (Concurrent(t, u, v) <==> Concurrent(t, p.value, q.value)))
            && (p != q && (p.None? || q.None?) ==> !Concurrent(t, u, v))
  {
    hide SiblingsParallel;
  }

  lemma RelatedIsConcurrent(t: Tree, u: int, v: int)
    requires Forest(t) && u in t.threads && v in t.threads && IsDescendantOf(t, u, v)
    ensures v in t.threads && u != v && Concurrent(t, u, v) && Concurrent(t, v, u) && Root(t, u) == Root(t, v)
  {
    hide SiblingsParallel;
    DescendantIsDeeper(t, u, v);
  }

  lemma NotDeeper(t: Tree, u: int, v: int)
    requires Forest(t) && u in t.threads && v in t.threads && t.depth[u] == t.depth[v]
    ensures !IsDescendantOf(t, u, v) && !IsDescendantOf(t, v, u)
  {
    if IsDescendantOf(t, u, v) {
      DescendantIsDeeper(t, u, v);
    }
    if IsDescendantOf(t, v, u) {
      DescendantIsDeeper(t, v, u);
    }
  }

  /** At unequal depth forks and joins play no part: unrelated threads count as concurrent iff they
      belong to the same tree. */
  lemma {:induction false} UnequalDepthIgnoresJoins(t: Tree, u: int, v: int)
    requires Forest(t) && u in t.threads && v in t.threads && Unrelated(t, u, v) && t.depth[u] != t.depth[v]
    ensures Concurrent(t, u, v) <==> Root(t, u) == Root(t, v)
    decreases t.depth[u]
  {
    hide IsDescendantOf, SiblingsParallel, Concurrent;
    var p, q := t.threads[u].parent, t.threads[v].parent;
    LiftsToParents(t, u, v);
    if p.None? || q.None? {
      RootIsAncestor(t, u);
      RootIsAncestor(t, v);
    } else if IsDescendantOf(t, p.value, q.value) {
      RelatedIsConcurrent(t, p.value, q.value);
    } else if IsDescendantOf(t, q.value, p.value) {
      RelatedIsConcurrent(t, q.value, p.value);
    } else {
      UnequalDepthIgnoresJoins(t, p.value, q.value);
    }
  }

  /** The memoised relation in one statement, for any two distinct threads. */
  lemma ConcurrencyClosedForm(t: Tree, u: int, v: int)
    requires Forest(t) && u in t.threads && v in t.threads && u != v
    ensures t.depth[u] != t.depth[v] ==> (Concurrent(t, u, v) <==> Root(t, u) == Root(t, v))
    ensures t.depth[u] == t.depth[v] ==>
              exists k, x, y ::
                SiblingAncestors(t, u, v, k, x, y) && (Concurrent(t, u, v) <==> SiblingsParallel(t, x, y))
  {
    hide IsDescendantOf, SiblingsParallel, Concurrent;
    if t.depth[u] == t.depth[v] {
      var k, x, y := EqualDepthSiblingsDecide(t, u, v);
    } else if IsDescendantOf(t, u, v) {
      RelatedIsConcurrent(t, u, v);
    } else if IsDescendantOf(t, v, u) {
      RelatedIsConcurrent(t, v, u);
    } else {
      UnequalDepthIgnoresJoins(t, u, v);
    }
  }

  /** x is joined on the way to the fork of its sibling y, and z is created by y. */
  ghost predicate JoinedBeforeChild(t: Tree, x: int, y: int, z: int)
    requires Forest(t)
  {
    && {x, y, z} <= t.threads.Keys && x != y
    && t.threads[z].parent == Some(y) && t.threads[x].parent == t.threads[y].parent && t.threads[x].parent.Some?
    && LeadsTo(t.flow, t.threads[x].joinNode, t.threads[y].forkNode, t.threads[t.threads[x].parent.value].nodes)
  }

  /** The join keeps x apart from y, but not from z, although y creates z even later. */
  lemma JoinsCountOnlyAtEqualDepth(t: Tree, x: int, y: int, z: int)
    requires Forest(t) && JoinedBeforeChild(t, x, y, z)
    ensures !Concurrent(t, x, y) && Concurrent(t, x, z)
  {
    NotDeeper(t, x, y);
    LiftsToParents(t, x, y);
    if IsDescendantOf(t, x, z) {
      DescendantIsDeeper(t, x, z);
    }
    UnequalDepthIgnoresJoins(t, x, z);
  }

  /** Thread 0 forks 1, joins it, then forks 2, which forks 3. */
  function JoinedThenForked(): Tree {
    var root := Thread(None, None, None, {10, 11, 12}, true, false, UnknownPhase, false, false);
    var first := Thread(Some(0), Some(10), Some(11), {20}, false, false, UnknownPhase, false, false);
    var second := Thread(Some(0), Some(12), None, {30}, false, false, UnknownPhase, false, false);
    var third := Thread(Some(2), Some(30), None, {40}, false, false, UnknownPhase, false, false);
    Tree(map[0 := root, 1 := first, 2 := second, 3 := third], map[0 := 0, 1 := 1, 2 := 1, 3 := 2],
         {(10, 11), (11, 12)}, None, false)
  }

  lemma JoinedThenForkedIsForest()
    ensures Forest(JoinedThenForked())
  {
  }

  lemma JoinLeadsToFork()
    ensures LeadsTo(JoinedThenForked().flow, Some(11), Some(12), {10, 11, 12})
  {
    assert IsPath(JoinedThenForked().flow, 11, [11, 12], 12);
  }

  lemma JoinedThenForkedIsOne()
    ensures Forest(JoinedThenForked()) && JoinedBeforeChild(JoinedThenForked(), 1, 2, 3)
  {
    JoinedThenForkedIsForest();
    JoinLeadsToFork();
    hide Forest, LeadsTo;
  }

  // ---- Where the ancestor of a thread runs in parallel with it ----

  ghost function Within(flow: Edges, nodes: set<int>): Edges {
    set e | e in flow && e.0 in nodes && e.1 in nodes
  }

  function Reversed(es: Edges): Edges {
    set e | e in es :: (e.1, e.0)
  }

  lemma ReversePath(es: Edges, a: int, p: seq<int>, b: int) returns (q: seq<int>)
    requires IsPath(es, a, p, b)
    ensures IsPath(Reversed(es), b, q, a)
  {
    q := seq(|p|, i requires 0 <= i < |p| => p[|p| - 1 - i]);
    forall i | 0 <= i < |q| - 1
      ensures (q[i], q[i + 1]) in Reversed(es)
    {
      var k := |p| - 2 - i;
      assert (p[k], p[k + 1]) in es;
    }
  }

  lemma ReverseReach(es: Edges, a: int, b: int)
    ensures Reach(Reversed(es), b, a) <==> Reach(es, a, b)
  {
    if p :| IsPath(es, a, p, b) {
      var q := ReversePath(es, a, p, b);
    }
    if p :| IsPath(Reversed(es), b, p, a) {
      var q := ReversePath(Reversed(es), b, p, a);
      assert Reversed(Reversed(es)) == es by {
        forall e | e in es
          ensures e in Reversed(Reversed(es))
        {
          assert (e.1, e.0) in Reversed(es);
        }
      }
    }
  }

  ghost function ReachableIn(flow: Edges, nodes: set<int>, start: Option<int>, forward: bool): set<int> {
    if start.None? || start.value !in nodes then {}
    else
      var es := Within(flow, nodes);
      set n | n in nodes && (if forward then Reach(es, start.value, n) else Reach(es, n, start.value))
  }

  /** The part of the ancestor that overlaps with the child. */
  ghost function Scope(flow: Edges, nodes: set<int>, fork: Option<int>, join: Option<int>): set<int> {
    var after := ReachableIn(flow, nodes, fork, true);
    if join.Some? then after * ReachableIn(flow, nodes, join, false) else after
  }

  /** With a join the scope is exactly the nodes on some walk from the fork to the join inside the thread;
      without one, everything the fork reaches there. */
  lemma ScopeIsBetweenForkAndJoin(flow: Edges, nodes: set<int>, fork: int, join: Option<int>, n: int)
    requires fork in nodes && (join.Some? ==> join.value in nodes)
    ensures join.None? ==> (n in Scope(flow, nodes, Some(fork), join) <==>
      n in nodes && Reach(Within(flow, nodes), fork, n))
    ensures join.Some? ==>
              (n in Scope(flow, nodes, Some(fork), join) <==>
               exists p :: IsPath(Within(flow, nodes), fork, p, join.value) && n in p)
  {
    var es := Within(flow, nodes);
    if join.Some? {
      if n in Scope(flow, nodes, Some(fork), join) {
        var p :| IsPath(es, fork, p, n);
        var q :| IsPath(es, n, q, join.value);
        PathConcat(es, fork, p, n, q, join.value);
        assert (p + q[1..])[|p| - 1] == n;
      }
      if p :| IsPath(es, fork, p, join.value) && n in p {
        var k :| 0 <= k < |p| && p[k] == n;
        assert IsPath(es, fork, p[..k + 1], n) && IsPath(es, n, p[k..], join.value);
        assert n in nodes by {
          if k > 0 {
            assert (p[k - 1], p[k - 1 + 1]) in es;
          }
        }
      }
    }
  }

  // ---- The pair of parallel node sets ----

  /** The nodes of x and of y that may overlap, before they are mapped to source locations. */
  ghost function ParallelNodes(t: Tree, x: int, y: int): (set<int>, set<int>)
    requires Forest(t) && x in t.threads && y in t.threads
  {
    var a, b := t.threads[x], t.threads[y];
    if !Concurrent(t, x, y) then ({}, {})
    else if a.parent.Some? && a.parent == b.parent then (a.nodes, b.nodes)
    else if IsDescendantOf(t, y, x) then (Scope(t.flow, a.nodes, b.forkNode, b.joinNode), b.nodes)
    else if IsDescendantOf(t, x, y) then (a.nodes, Scope(t.flow, b.nodes, a.forkNode, a.joinNode))
    else ({}, {})
  }

  lemma ParallelNodesSwap(t: Tree, x: int, y: int)
    requires Forest(t) && x in t.threads && y in t.threads
    ensures ParallelNodes(t, y, x) == (ParallelNodes(t, x, y).1, ParallelNodes(t, x, y).0)
  {
    hide Concurrent, Scope, IsDescendantOf;
    ConcurrentSymmetric(t, x, y);
    if IsDescendantOf(t, x, y) && IsDescendantOf(t, y, x) {
      DescendantIsDeeper(t, x, y);
      DescendantIsDeeper(t, y, x);
    }
  }
}
