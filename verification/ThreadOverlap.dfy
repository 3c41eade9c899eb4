/** Where two threads overlap and when siblings and roots do: the laws in terms of the threads' own fields. */
module ThreadOverlap {
  import opened Options
  import opened Paths
  import opened ThreadTree

  /** A path on which every node belongs to the thread. */
  ghost predicate PathInside(flow: Edges, nodes: set<int>, a: int, p: seq<int>, b: int) {
    IsPath(flow, a, p, b) && forall k :: 0 <= k < |p| ==> p[k] in nodes
  }

  lemma InsideIsWithin(flow: Edges, nodes: set<int>, a: int, p: seq<int>, b: int)
    requires a in nodes
    ensures IsPath(Within(flow, nodes), a, p, b) <==> PathInside(flow, nodes, a, p, b)
  {
    if IsPath(Within(flow, nodes), a, p, b) {
      forall k | 0 <= k < |p|
        ensures p[k] in nodes
      {
        if k > 0 {
          assert (p[k - 1], p[k - 1 + 1]) in Within(flow, nodes);
        }
      }
    }
  }

  // ---- A line of descent ----

  /** n lies between the fork and the join of `child` inside the nodes of its ancestor, or behind the fork if there
      is no join. A fork or join outside those nodes leaves nothing. */
  ghost predicate Between(flow: Edges, nodes: set<int>, child: Thread, n: int) {
    && child.forkNode.Some? && child.forkNode.value in nodes
    && if child.joinNode.None? then exists p :: PathInside(flow, nodes, child.forkNode.value, p, n)
       else child.joinNode.value in nodes &&
            exists p :: PathInside(flow, nodes, child.forkNode.value, p, child.joinNode.value) && n in p
  }

  lemma ScopeMeans(flow: Edges, nodes: set<int>, child: Thread, n: int)
    ensures n in Scope(flow, nodes, child.forkNode, child.joinNode) <==> Between(flow, nodes, child, n)
  {
    var fork, join := child.forkNode, child.joinNode;
    if fork.Some? && fork.value in nodes && (join.Some? ==> join.value in nodes) {
      ScopeIsBetweenForkAndJoin(flow, nodes, fork.value, join, n);
      hide Scope;
      forall p, b
        ensures IsPath(Within(flow, nodes), fork.value, p, b) <==> PathInside(flow, nodes, fork.value, p, b)
      {
        InsideIsWithin(flow, nodes, fork.value, p, b);
      }
      if p :| PathInside(flow, nodes, fork.value, p, n) {
        assert p[|p| - 1] in nodes;
      }
      hide Within, IsPath;
    }
  }

  /** A thread below x overlaps with x everywhere; x overlaps with it between its own fork and join. */
  lemma DescendantOverlap(t: Tree, x: int, y: int)
    requires Forest(t) && x in t.threads && y in t.threads && IsDescendantOf(t, y, x)
    ensures ParallelNodes(t, x, y).1 == t.threads[y].nodes
    ensures forall n :: n in ParallelNodes(t, x, y).0 <==> Between(t.flow, t.threads[x].nodes, t.threads[y], n)
    ensures ParallelNodes(t, y, x) == (ParallelNodes(t, x, y).1, ParallelNodes(t, x, y).0)
  {
    RelatedIsConcurrent(t, y, x);
    DescendantIsDeeper(t, y, x);
    ParallelNodesSwap(t, x, y);
    hide Concurrent, IsDescendantOf, Between, Scope;
    forall n
      ensures n in Scope(t.flow, t.threads[x].nodes, t.threads[y].forkNode, t.threads[y].joinNode) <==>
              Between(t.flow, t.threads[x].nodes, t.threads[y], n)
    {
      ScopeMeans(t.flow, t.threads[x].nodes, t.threads[y], n);
    }
  }

  /** Concurrent threads forked by the same thread overlap everywhere. */
  lemma SiblingOverlap(t: Tree, x: int, y: int)
    requires Forest(t) && x in t.threads && y in t.threads && Concurrent(t, x, y)
    requires t.threads[x].parent.Some? && t.threads[x].parent == t.threads[y].parent
    ensures ParallelNodes(t, x, y) == (t.threads[x].nodes, t.threads[y].nodes)
  {
    hide Concurrent;
  }

  /** Threads that are not concurrent, roots, and unrelated threads of different parents overlap nowhere. */
  lemma NoOverlap(t: Tree, x: int, y: int)
    requires Forest(t) && x in t.threads && y in t.threads
    requires !Concurrent(t, x, y)
          || (t.threads[x].parent.None? && t.threads[y].parent.None?)
          || (t.threads[x].parent != t.threads[y].parent && !IsDescendantOf(t, x, y) && !IsDescendantOf(t, y, x))
    ensures ParallelNodes(t, x, y) == ({}, {})
  {
    hide Concurrent;
  }

  // ---- Siblings and roots ----

  /** Forked siblings are concurrent iff no path, inside their parent up to its last step, leads from the join of one
      to the fork of the other. */
  lemma SiblingsMean(t: Tree, x: int, y: int, p: int)
    requires Forest(t) && x in t.threads && y in t.threads && x != y
    requires t.threads[x].parent == t.threads[y].parent == Some(p)
    ensures Concurrent(t, x, y) <==> !JoinedFirst(t, p, x, y) && !JoinedFirst(t, p, y, x)
  {
    NotDeeper(t, x, y);
    LiftsToParents(t, x, y);
    hide Concurrent;
  }

  /** x is joined on the way to the fork of y. */
  ghost predicate JoinedFirst(t: Tree, p: int, x: int, y: int)
    requires {p, x, y} <= t.threads.Keys
  {
    && t.threads[x].joinNode.Some? && t.threads[y].forkNode.Some?
    && exists w ::
         && w != [] && w[0] == t.threads[x].joinNode.value && w[|w| - 1] == t.threads[y].forkNode.value
         && (forall i :: 0 <= i < |w| - 1 ==> (w[i], w[i + 1]) in t.flow)
         && (forall i :: 0 < i < |w| - 1 ==> w[i] in t.threads[p].nodes)
  }

  /** Distinct roots are concurrent iff both are kernel entries and either both are declared by hand, or they are not
      an initialisation and an exit, and if both are named and data sharing is known, they share data. */
  lemma RootsMean(t: Tree, x: int, y: int)
    requires Forest(t) && x in t.threads && y in t.threads && x != y
    requires t.threads[x].parent.None? && t.threads[y].parent.None?
    ensures var a, b := t.threads[x], t.threads[y];
            Concurrent(t, x, y) <==>
              && a.isKernelEntry && b.isKernelEntry
              && ((t.manualEntries && a.declared && b.declared)
                  || (!(a.phase == InitPhase && b.phase == ExitPhase) && !(a.phase == ExitPhase && b.phase == InitPhase)
                      && (t.sharing.Some? && a.named && b.named ==> (x, y) in t.sharing.value)))
  {
    NotDeeper(t, x, y);
    LiftsToParents(t, x, y);
    hide Concurrent;
  }

  /** A thread is concurrent with itself iff it is reentrant. */
  lemma SelfOverlap(t: Tree, x: int)
    requires Forest(t) && x in t.threads
    ensures Concurrent(t, x, x) <==> t.threads[x].isReentrant
  {
    hide IsDescendantOf, SiblingsParallel;
    var reentrant := t.threads[x].isReentrant;
    assert Concurrent(t, x, x) == reentrant;
  }

  /** Each thread of the chain is the parent of the one before it. */
  ghost predicate ParentChain(t: Tree, x: int, p: seq<int>, y: int) {
    && |p| > 1 && p[0] == x && p[|p| - 1] == y
    && forall i :: 0 <= i < |p| - 1 ==> p[i] in t.threads && t.threads[p[i]].parent == Some(p[i + 1])
  }

  /** Descent is a chain of one or more parent links. */
  lemma DescentMeans(t: Tree, x: int, y: int)
    requires Forest(t) && x in t.threads
    ensures IsDescendantOf(t, x, y) <==> exists p :: ParentChain(t, x, p, y)
  {
    if IsDescendantOf(t, x, y) {
      var p := ChainOf(t, x, y);
    }
    if p :| ParentChain(t, x, p, y) {
      ChainDescends(t, x, p, y);
    }
  }

  lemma {:induction false} ChainOf(t: Tree, x: int, y: int) returns (p: seq<int>)
    requires Forest(t) && x in t.threads && IsDescendantOf(t, x, y)
    ensures ParentChain(t, x, p, y)
    decreases t.depth[x]
  {
    var up := t.threads[x].parent.value;
    p := [x, y];
    if up != y {
      hide IsDescendantOf;
      var q := ChainOf(t, up, y);
      p := [x] + q;
    }
  }

  lemma {:induction false} ChainDescends(t: Tree, x: int, p: seq<int>, y: int)
    requires Forest(t) && x in t.threads && ParentChain(t, x, p, y)
    ensures IsDescendantOf(t, x, y)
    decreases |p|
  {
    assert t.threads[p[0]].parent == Some(p[1]);
    if |p| > 2 {
      assert ParentChain(t, p[1], p[1..], y);
      hide ParentChain;
      ChainDescends(t, p[1], p[1..], y);
    }
  }

  /** A thread is concurrent with every thread found by following parent links from it, in either order. */
  lemma DescentIsConcurrent(t: Tree, x: int, p: seq<int>, y: int)
    requires Forest(t) && x in t.threads && ParentChain(t, x, p, y)
    ensures y in t.threads && x != y && Concurrent(t, x, y) && Concurrent(t, y, x)
  {
    hide Concurrent;
    ChainDescends(t, x, p, y);
    DescendantIsDeeper(t, x, y);
    RelatedIsConcurrent(t, x, y);
  }
}
