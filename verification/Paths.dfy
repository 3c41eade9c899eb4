/** Paths in finite directed graphs. */
module Paths {
  type Edges = set<(int, int)>

  ghost predicate IsPath(es: Edges, a: int, p: seq<int>, b: int) {
    && p != [] && p[0] == a && p[|p| - 1] == b
    && (forall i :: 0 <= i < |p| - 1 ==> (p[i], p[i + 1]) in es)
  }

  ghost predicate Reach(es: Edges, a: int, b: int) {
    exists p :: IsPath(es, a, p, b)
  }

  lemma ReachSelf(es: Edges, a: int)
    ensures Reach(es, a, a)
  {
    assert IsPath(es, a, [a], a);
  }

  lemma PathConcat(es: Edges, a: int, p: seq<int>, b: int, q: seq<int>, c: int)
    requires IsPath(es, a, p, b) && IsPath(es, b, q, c)
    ensures IsPath(es, a, p + q[1..], c)
  {
    var r := p + q[1..];
    forall i | 0 <= i < |r| - 1
      ensures (r[i], r[i + 1]) in es
    {
      if i >= |p| - 1 {
        assert r[i] == q[i - |p| + 1] && r[i + 1] == q[i - |p| + 2];
      }
    }
  }

  lemma ReachTrans(es: Edges, a: int, b: int, c: int)
    requires Reach(es, a, b) && Reach(es, b, c)
    ensures Reach(es, a, c)
  {
    var p :| IsPath(es, a, p, b);
    var q :| IsPath(es, b, q, c);
    PathConcat(es, a, p, b, q, c);
  }

  lemma ReachStep(es: Edges, a: int, b: int, c: int)
    requires Reach(es, a, b) && (b, c) in es
    ensures Reach(es, a, c)
  {
    assert IsPath(es, b, [b, c], c);
    ReachTrans(es, a, b, c);
  }

  ghost predicate ClosedUnder(es: Edges, s: set<int>) {
    forall e :: e in es && e.0 in s ==> e.1 in s
  }

  /** A closed set contains everything reachable from its members. */
  lemma {:induction false} ClosedContains(es: Edges, s: set<int>, a: int, p: seq<int>, b: int)
    requires ClosedUnder(es, s) && a in s && IsPath(es, a, p, b)
    ensures b in s
    decreases |p|
  {
    if |p| > 1 {
      var n := |p| - 2;
      assert (p[n], p[n + 1]) in es;
      ClosedContains(es, s, a, p[..n + 1], p[n]);
    }
  }

  /** Reachability is the least closed set: it is what any complete search finds. */
  lemma SearchIsReach(es: Edges, s: set<int>, a: int)
    requires a in s && ClosedUnder(es, s)
    requires forall x :: x in s ==> Reach(es, a, x)
    ensures forall x :: x in s <==> Reach(es, a, x)
  {
    forall x | Reach(es, a, x)
      ensures x in s
    {
      var p :| IsPath(es, a, p, x);
      ClosedContains(es, s, a, p, x);
    }
  }

  function SuccessorsOf(es: Edges, n: int): set<int> {
    set e | e in es && e.0 == n :: e.1
  }

  lemma SuccessorMeans(es: Edges, n: int, m: int)
    ensures m in SuccessorsOf(es, n) <==> (n, m) in es
  {
  }
}
