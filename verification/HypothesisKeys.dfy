/** What canonical keys tell apart, and which member of a group stays: the laws in terms of accesses, objects and
    severities. */
module HypothesisKeys {
  import opened ConcurrencyContracts
  import opened FiniteSets
  import opened HypothesisDedup

  // ---- The mutation anchor ----

  predicate HasKind(s: Surface, n: int, kind: AccessType) {
    n in s.kind && s.kind[n] == kind
  }

  /** Position k holds the first node with an access of the kind. */
  ghost predicate FirstOfKind(s: Surface, nodes: seq<int>, kind: AccessType, k: int) {
    0 <= k < |nodes| && HasKind(s, nodes[k], kind) && forall j :: 0 <= j < k ==> !HasKind(s, nodes[j], kind)
  }

  ghost predicate NoneOfKind(s: Surface, nodes: seq<int>, kind: AccessType) {
    forall j :: 0 <= j < |nodes| ==> !HasKind(s, nodes[j], kind)
  }

  /** The anchor is the first node that frees, or else the first that writes, or else nothing. */
  lemma {:induction false} AnchorMeans(s: Surface, nodes: seq<int>)
    requires Grounded(s)
    ensures var a := AnchorOf(s, nodes);
            if !NoneOfKind(s, nodes, Free) then exists k :: FirstOfKind(s, nodes, Free, k) && a == nodes[k]
            else if !NoneOfKind(s, nodes, Write) then exists k :: FirstOfKind(s, nodes, Write, k) && a == nodes[k]
            else a == -1
  {
    if nodes != [] {
      var n := |nodes| - 1;
      AnchorMeans(s, nodes[..n]);
      NoneMore(s, nodes, Free);
      NoneMore(s, nodes, Write);
      FirstMore(s, nodes, Free);
      FirstMore(s, nodes, Write);
    }
  }

  lemma NoneMore(s: Surface, nodes: seq<int>, kind: AccessType)
    requires nodes != []
    ensures var n := |nodes| - 1;
            NoneOfKind(s, nodes, kind) <==> NoneOfKind(s, nodes[..n], kind) && !HasKind(s, nodes[n], kind)
  {
    var n := |nodes| - 1;
    assert forall j :: 0 <= j < n ==> nodes[..n][j] == nodes[j];
  }

  lemma FirstMore(s: Surface, nodes: seq<int>, kind: AccessType)
    requires nodes != []
    ensures var n := |nodes| - 1;
            && (forall k :: FirstOfKind(s, nodes[..n], kind, k) ==>
                  FirstOfKind(s, nodes, kind, k) && nodes[k] == nodes[..n][k])
            && (NoneOfKind(s, nodes[..n], kind) && HasKind(s, nodes[n], kind) ==> FirstOfKind(s, nodes, kind, n))
  {
    var n := |nodes| - 1;
    assert forall j :: 0 <= j < n ==> nodes[..n][j] == nodes[j];
  }

  /** The object is that of the anchor if it has one, and otherwise the least one touched. */
  lemma ObjectMeans(s: Surface, nodes: seq<int>)
    requires Grounded(s) && AnyObject(s, nodes)
    ensures var a := AnchorOf(s, nodes);
            if a >= 0 && a in s.obj then PrimaryObject(s, nodes) == s.obj[a]
            else IsLeastObject(s, nodes, PrimaryObject(s, nodes))
  {
    LeastObjectIsLeast(s, nodes);
  }

  // ---- What each level merges ----

  /** Hypotheses of different hazard classes are never merged. */
  lemma ClassesStayApart(s: Surface, g: Hypothesis, h: Hypothesis, level: DedupLevel)
    requires KeyOf(s, g, level) == KeyOf(s, h, level)
    ensures g.hazardClass == h.hazardClass
  {
    hide AnchorOf, PrimaryObject;
  }

  /** The exact level merges within a class what is grounded in the same nodes, in any order. */
  lemma ExactMerges(s: Surface, g: Hypothesis, h: Hypothesis)
    ensures KeyOf(s, g, ExactLevel) == KeyOf(s, h, ExactLevel) <==>
            g.hazardClass == h.hazardClass && multiset(g.nodes) == multiset(h.nodes)
  {
    hide AnchorOf, PrimaryObject;
  }

  ghost predicate Anchored(s: Surface, nodes: seq<int>) {
    !(NoneOfKind(s, nodes, Free) && NoneOfKind(s, nodes, Write)) && AnyObject(s, nodes)
  }

  lemma AnchoredMeans(s: Surface, nodes: seq<int>)
    requires Grounded(s)
    ensures Anchored(s, nodes) <==> AnchorOf(s, nodes) >= 0 && AnyObject(s, nodes)
  {
    AnchorMeans(s, nodes);
    assert forall k :: FirstOfKind(s, nodes, Free, k) ==> nodes[k] in s.kind;
    assert forall k :: FirstOfKind(s, nodes, Write, k) ==> nodes[k] in s.kind;
  }

  /** The anchor level merges within a class what shares its anchor and object; a hypothesis that mutates nothing, or
      touches no object, is merged as at the exact level. */
  lemma AnchorMerges(s: Surface, g: Hypothesis, h: Hypothesis)
    requires Grounded(s)
    ensures KeyOf(s, g, AnchorLevel) == KeyOf(s, h, AnchorLevel) <==>
              && g.hazardClass == h.hazardClass
              && (Anchored(s, g.nodes) <==> Anchored(s, h.nodes))
              && if Anchored(s, g.nodes) && Anchored(s, h.nodes) then
                   && AnchorOf(s, g.nodes) == AnchorOf(s, h.nodes)
                   && PrimaryObject(s, g.nodes) == PrimaryObject(s, h.nodes)
                 else multiset(g.nodes) == multiset(h.nodes)
  {
    AnchoredMeans(s, g.nodes);
    AnchoredMeans(s, h.nodes);
    hide AnchorOf, PrimaryObject, Anchored;
  }

  /** The object-class level merges within a class what shares its object; a hypothesis that touches no object is
      merged as at the exact level. */
  lemma ObjectClassMerges(s: Surface, g: Hypothesis, h: Hypothesis)
    ensures KeyOf(s, g, ObjectClassLevel) == KeyOf(s, h, ObjectClassLevel) <==>
              && g.hazardClass == h.hazardClass
              && (AnyObject(s, g.nodes) <==> AnyObject(s, h.nodes))
              && if AnyObject(s, g.nodes) && AnyObject(s, h.nodes) then
                   PrimaryObject(s, g.nodes) == PrimaryObject(s, h.nodes)
                 else multiset(g.nodes) == multiset(h.nodes)
  {
    hide AnchorOf, PrimaryObject, AnyObject;
  }

  // ---- The representative ----

  ghost function WithKey(s: Surface, hs: seq<Hypothesis>, level: DedupLevel, k: DedupKey): set<nat> {
    set p: nat | p < |hs| && KeyOf(s, hs[p], level) == k
  }

  lemma MembersAreAll(s: Surface, hs: seq<Hypothesis>, level: DedupLevel, k: DedupKey, ms: seq<nat>)
    requires AreMembers(s, hs, level, k, ms)
    ensures |ms| == |WithKey(s, hs, level, k)|
  {
    hide KeyOf;
    DistinctSize<nat>(ms);
    var all: set<nat> := set p: nat | p in ms;
    assert |all| == |ms|;
    assert WithKey(s, hs, level, k) == all;
  }

  /** What remains of a group is its first member of greatest severity and then of most nodes, with one note for each
      of the others; nothing else about it changes. */
  lemma RepresentativeMeans(s: Surface, hs: seq<Hypothesis>, level: DedupLevel, k: DedupKey, rep: Hypothesis)
    returns (best: nat)
    requires Stands(s, hs, level, k, rep)
    ensures best in WithKey(s, hs, level, k)
    ensures rep == hs[best].(notes := hs[best].notes + |WithKey(s, hs, level, k)| - 1)
    ensures forall p :: p in WithKey(s, hs, level, k) ==>
              && hs[p].severity <= rep.severity
              && (hs[p].severity == rep.severity ==> |hs[p].nodes| <= |rep.nodes|)
              && (hs[p].severity == rep.severity && |hs[p].nodes| == |rep.nodes| ==> best <= p)
  {
    hide KeyOf;
    var ms: seq<nat>, b: nat :|
      AreMembers(s, hs, level, k, ms) && IsBest(hs, ms, b) && rep == Folded(hs[b], |ms| - 1);
    best := b;
    MembersAreAll(s, hs, level, k, ms);
    forall p | p in WithKey(s, hs, level, k)
      ensures !Better(hs[p], hs[b]) && (p < b ==> Better(hs[b], hs[p]))
    {
      var i :| 0 <= i < |ms| && ms[i] == p;
    }
  }
}
