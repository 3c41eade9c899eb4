/** Collapsing near-duplicate hypotheses by a canonical key. */
module HypothesisDedup {
  import opened ConcurrencyContracts
  import opened FiniteSets

  datatype DedupLevel = ExactLevel | AnchorLevel | ObjectClassLevel

  datatype DedupKey =
    | ByObject(cls: string, obj: int)
    | ByAnchor(cls: string, obj: int, anchor: int)
    | ByNodes(cls: string, nodes: multiset<int>)

  /** `nodes` lists the grounded nodes by role name; `notes` counts the findings folded into this one. */
  datatype Hypothesis = Hypothesis(hazardClass: string, severity: nat, nodes: seq<int>, notes: nat)

  /** For every grounded node its object and the kind of its access. */
  datatype Surface = Surface(obj: map<int, int>, kind: map<int, AccessType>)

  /** Accesses without a node are not recorded. */
  ghost predicate Grounded(s: Surface) {
    forall n :: n in s.kind ==> n >= 0
  }

  function MutationRank(s: Surface, n: int): int {
    if n !in s.kind then -1
    else
      match s.kind[n]
      case Free => 2
      case Write => 1
      case Read => -1
  }

  /** The first node of the highest mutation rank, or -1 if nothing is mutated. */
  function AnchorOf(s: Surface, nodes: seq<int>): int {
    if nodes == [] then -1
    else
      var n := nodes[|nodes| - 1];
      var best := AnchorOf(s, nodes[..|nodes| - 1]);
      if MutationRank(s, n) > MutationRank(s, best) && MutationRank(s, n) > 0 then n else best
  }

  predicate AnyObject(s: Surface, nodes: seq<int>) {
    exists k :: 0 <= k < |nodes| && nodes[k] in s.obj
  }

  /** The least object touched by a grounded node. */
  ghost predicate IsLeastObject(s: Surface, nodes: seq<int>, o: int) {
    && (exists k :: 0 <= k < |nodes| && nodes[k] in s.obj && s.obj[nodes[k]] == o)
    && (forall k :: 0 <= k < |nodes| && nodes[k] in s.obj ==> o <= s.obj[nodes[k]])
  }

  function LeastObject(s: Surface, nodes: seq<int>): int
    requires AnyObject(s, nodes)
  {
    var n := |nodes| - 1;
    if AnyObject(s, nodes[..n]) then
      var o := LeastObject(s, nodes[..n]);
      if nodes[n] in s.obj && s.obj[nodes[n]] < o then s.obj[nodes[n]] else o
    else
      AnyObjectLast(s, nodes);
      s.obj[nodes[n]]
  }

  lemma AnyObjectLast(s: Surface, nodes: seq<int>)
    requires AnyObject(s, nodes) && !AnyObject(s, nodes[..|nodes| - 1])
    ensures nodes[|nodes| - 1] in s.obj
  {
    var init := nodes[..|nodes| - 1];
    assert forall j :: 0 <= j < |init| ==> init[j] == nodes[j];
    var k :| 0 <= k < |nodes| && nodes[k] in s.obj;
  }

  lemma {:induction false} LeastObjectIsLeast(s: Surface, nodes: seq<int>)
    requires AnyObject(s, nodes)
    ensures IsLeastObject(s, nodes, LeastObject(s, nodes))
  {
    var n := |nodes| - 1;
    var init := nodes[..n];
    if AnyObject(s, init) {
      LeastObjectIsLeast(s, init);
      var k :| 0 <= k < |init| && init[k] in s.obj && s.obj[init[k]] == LeastObject(s, init);
      assert nodes[k] == init[k];
      forall j | 0 <= j < |nodes| && nodes[j] in s.obj
        ensures LeastObject(s, nodes) <= s.obj[nodes[j]]
      {
        if j < n {
          assert init[j] == nodes[j];
        }
      }
    } else {
      AnyObjectLast(s, nodes);
      assert forall j :: 0 <= j < n ==> init[j] == nodes[j];
    }
  }

  function PrimaryObject(s: Surface, nodes: seq<int>): int
    requires AnyObject(s, nodes)
  {
    var a := AnchorOf(s, nodes);
    if a >= 0 && a in s.obj then s.obj[a] else LeastObject(s, nodes)
  }

  function KeyOf(s: Surface, h: Hypothesis, level: DedupLevel): DedupKey {
    var a := AnchorOf(s, h.nodes);
    if level == ObjectClassLevel && AnyObject(s, h.nodes) then ByObject(h.hazardClass, PrimaryObject(s, h.nodes))
    else if level == AnchorLevel && a >= 0 && AnyObject(s, h.nodes) then
      ByAnchor(h.hazardClass, PrimaryObject(s, h.nodes), a)
    else ByNodes(h.hazardClass, multiset(h.nodes))
  }

  // ---- The object-class key is coarser than the anchor key ----

  lemma SameNodesSameObjects(s: Surface, a: seq<int>, b: seq<int>)
    requires multiset(a) == multiset(b) && AnyObject(s, a)
    ensures AnyObject(s, b) && LeastObject(s, a) == LeastObject(s, b)
  {
    forall n
      ensures n in a <==> n in b
    {
      assert n in multiset(a) <==> n in multiset(b);
    }
    var k :| 0 <= k < |a| && a[k] in s.obj;
    assert a[k] in a;
    var j :| 0 <= j < |b| && b[j] == a[k];
    AtMost(s, a, b);
    AtMost(s, b, a);
  }

  lemma AtMost(s: Surface, a: seq<int>, b: seq<int>)
    requires (forall n :: n in a ==> n in b) && AnyObject(s, a) && AnyObject(s, b)
    ensures LeastObject(s, b) <= LeastObject(s, a)
  {
    LeastObjectIsLeast(s, a);
    LeastObjectIsLeast(s, b);
    var k :| 0 <= k < |a| && a[k] in s.obj && s.obj[a[k]] == LeastObject(s, a);
    assert a[k] in a;
    var j :| 0 <= j < |b| && b[j] == a[k];
  }

  /** Hypotheses merged by anchor are also merged by object class. */
  lemma ObjectClassIsCoarser(s: Surface, g: Hypothesis, h: Hypothesis)
    requires KeyOf(s, g, AnchorLevel) == KeyOf(s, h, AnchorLevel)
    ensures KeyOf(s, g, ObjectClassLevel) == KeyOf(s, h, ObjectClassLevel)
  {
    if KeyOf(s, g, AnchorLevel).ByNodes? {
      if AnyObject(s, g.nodes) {
        SameNodesSameObjects(s, g.nodes, h.nodes);
      } else if AnyObject(s, h.nodes) {
        SameNodesSameObjects(s, h.nodes, g.nodes);
      }
    }
  }

  ghost function KeysOf(s: Surface, hs: seq<Hypothesis>, level: DedupLevel): set<DedupKey> {
    set k | 0 <= k < |hs| :: KeyOf(s, hs[k], level)
  }

  /** Object-class deduplication never leaves more groups than anchor deduplication. */
  lemma {:induction false} CoarserHasFewerKeys(s: Surface, hs: seq<Hypothesis>)
    ensures |KeysOf(s, hs, ObjectClassLevel)| <= |KeysOf(s, hs, AnchorLevel)|
  {
    if hs != [] {
      var n := |hs| - 1;
      CoarserHasFewerKeys(s, hs[..n]);
      KeysGrow(s, hs, AnchorLevel);
      KeysGrow(s, hs, ObjectClassLevel);
      if KeyOf(s, hs[n], AnchorLevel) in KeysOf(s, hs[..n], AnchorLevel) {
        var k :| 0 <= k < n && KeyOf(s, hs[..n][k], AnchorLevel) == KeyOf(s, hs[n], AnchorLevel);
        ObjectClassIsCoarser(s, hs[k], hs[n]);
        assert KeyOf(s, hs[..n][k], ObjectClassLevel) in KeysOf(s, hs[..n], ObjectClassLevel);
      }
    }
  }

  lemma KeysGrow(s: Surface, hs: seq<Hypothesis>, level: DedupLevel)
    requires hs != []
    ensures var n := |hs| - 1; KeysOf(s, hs, level) == KeysOf(s, hs[..n], level) + {KeyOf(s, hs[n], level)}
  {
    var n := |hs| - 1;
    forall x | x in KeysOf(s, hs[..n], level)
      ensures x in KeysOf(s, hs, level)
    {
      var k :| 0 <= k < n && KeyOf(s, hs[..n][k], level) == x;
      assert hs[k] == hs[..n][k];
    }
    forall x | x in KeysOf(s, hs, level)
      ensures x in KeysOf(s, hs[..n], level) + {KeyOf(s, hs[n], level)}
    {
      var k :| 0 <= k < |hs| && KeyOf(s, hs[k], level) == x;
      if k < n {
        assert hs[..n][k] == hs[k];
      }
    }
  }

  // ---- One representative for each key ----

  predicate Better(a: Hypothesis, b: Hypothesis) {
    a.severity > b.severity || (a.severity == b.severity && |a.nodes| > |b.nodes|)
  }

  /** The positions of the hypotheses with key k, in order. */
  ghost predicate AreMembers(s: Surface, hs: seq<Hypothesis>, level: DedupLevel, k: DedupKey, ms: seq<nat>) {
    && (forall i :: 0 <= i < |ms| ==> ms[i] < |hs| && KeyOf(s, hs[ms[i]], level) == k)
    && (forall i, j :: 0 <= i < j < |ms| ==> ms[i] < ms[j])
    && (forall p :: 0 <= p < |hs| && KeyOf(s, hs[p], level) == k ==> p in ms)
  }

  /** The first of the most severe, most grounded members. */
  ghost predicate IsBest(hs: seq<Hypothesis>, ms: seq<nat>, best: nat) {
    && best in ms
    && (forall i :: 0 <= i < |ms| ==> ms[i] < |hs|)
    && (forall i :: 0 <= i < |ms| ==> !Better(hs[ms[i]], hs[best]))
    && (forall i :: 0 <= i < |ms| && ms[i] < best ==> Better(hs[best], hs[ms[i]]))
  }

  /** The representative with a note on how many others it stands for. */
  function Folded(h: Hypothesis, others: nat): Hypothesis {
    h.(notes := h.notes + others)
  }

  ghost predicate Stands(s: Surface, hs: seq<Hypothesis>, level: DedupLevel, k: DedupKey, rep: Hypothesis) {
    exists ms: seq<nat>, best: nat ::
      AreMembers(s, hs, level, k, ms) && IsBest(hs, ms, best) && rep == Folded(hs[best], |ms| - 1)
  }

  ghost predicate DistinctKeys(s: Surface, hs: seq<Hypothesis>, level: DedupLevel) {
    forall i, j :: 0 <= i < j < |hs| ==> KeyOf(s, hs[i], level) != KeyOf(s, hs[j], level)
  }

  /** One hypothesis per key, each the best of its group; nothing changes when all keys differ. */
  ghost predicate IsDedup(s: Surface, hs: seq<Hypothesis>, level: DedupLevel, out: seq<Hypothesis>) {
    && DistinctKeys(s, out, level)
    && KeysOf(s, out, level) == KeysOf(s, hs, level)
    && (forall i :: 0 <= i < |out| ==> Stands(s, hs, level, KeyOf(s, out[i], level), out[i]))
    && (DistinctKeys(s, hs, level) ==> out == hs)
  }

  /** Deduplicating twice changes nothing more. */
  lemma DedupIsIdempotent(s: Surface, hs: seq<Hypothesis>, level: DedupLevel, out: seq<Hypothesis>,
                          again: seq<Hypothesis>)
    requires IsDedup(s, hs, level, out) && IsDedup(s, out, level, again)
    ensures again == out
  {
  }

  lemma DistinctStep(s: Surface, hs: seq<Hypothesis>, level: DedupLevel)
    requires hs != []
    ensures var n := |hs| - 1;
            DistinctKeys(s, hs, level) <==>
              DistinctKeys(s, hs[..n], level) && KeyOf(s, hs[n], level) !in KeysOf(s, hs[..n], level)
  {
    hide KeyOf;
    var n := |hs| - 1;
    assert forall i :: 0 <= i < n ==> hs[..n][i] == hs[i];
    if KeyOf(s, hs[n], level) !in KeysOf(s, hs[..n], level) {
      forall i | 0 <= i < n
        ensures KeyOf(s, hs[i], level) != KeyOf(s, hs[n], level)
      {
        assert KeyOf(s, hs[..n][i], level) in KeysOf(s, hs[..n], level);
      }
    }
  }

  lemma {:induction false} KeysCount(s: Surface, hs: seq<Hypothesis>, level: DedupLevel)
    ensures |KeysOf(s, hs, level)| <= |hs|
    ensures |KeysOf(s, hs, level)| == |hs| <==> DistinctKeys(s, hs, level)
  {
    hide KeyOf;
    if hs != [] {
      hide DistinctKeys, KeysOf;
      KeysCount(s, hs[..|hs| - 1], level);
      KeysGrow(s, hs, level);
      DistinctStep(s, hs, level);
    }
  }

  /** Never fewer findings by anchor than by object class. */
  lemma ObjectClassLeavesNoMore(s: Surface, hs: seq<Hypothesis>, byAnchor: seq<Hypothesis>, byClass: seq<Hypothesis>)
    requires IsDedup(s, hs, AnchorLevel, byAnchor) && IsDedup(s, hs, ObjectClassLevel, byClass)
    ensures |byClass| <= |byAnchor|
  {
    CoarserHasFewerKeys(s, hs);
    KeysCount(s, byAnchor, AnchorLevel);
    KeysCount(s, byClass, ObjectClassLevel);
  }

  method BestOf(hs: seq<Hypothesis>, ms: seq<nat>) returns (best: nat)
    requires ms != [] && forall i :: 0 <= i < |ms| ==> ms[i] < |hs|
    requires forall i, j :: 0 <= i < j < |ms| ==> ms[i] < ms[j]
    ensures IsBest(hs, ms, best)
  {
    best := ms[0];
    for i := 0 to |ms|
      invariant best in ms && best <= ms[if i == 0 then 0 else i - 1]
      invariant forall j :: 0 <= j < i ==> !Better(hs[ms[j]], hs[best])
      invariant forall j :: 0 <= j < i && ms[j] < best ==> Better(hs[best], hs[ms[j]])
      invariant i == 0 ==> best == ms[0]
    {
      var a, b := hs[ms[i]], hs[best];
      if a.severity != b.severity {
        best := if a.severity > b.severity then ms[i] else best;
      } else if |a.nodes| > |b.nodes| {
        best := ms[i];
      }
    }
  }

  // ---- Grouping ----

  /** The groups of the first i hypotheses, with their keys in order of appearance. */
  ghost predicate Grouped(s: Surface, hs: seq<Hypothesis>, level: DedupLevel, keys: seq<DedupKey>,
                          groups: map<DedupKey, seq<nat>>) {
    && (forall k :: k in groups <==> k in keys)
    && (forall a, b :: 0 <= a < b < |keys| ==> keys[a] != keys[b])
    && (forall k :: k in groups ==> groups[k] != [] && AreMembers(s, hs, level, k, groups[k]))
    && (forall k :: k in groups <==> k in KeysOf(s, hs, level))
  }

  lemma GroupMore(s: Surface, hs: seq<Hypothesis>, level: DedupLevel, keys: seq<DedupKey>,
                  groups: map<DedupKey, seq<nat>>, h: Hypothesis)
    requires Grouped(s, hs, level, keys, groups)
    ensures var k := KeyOf(s, h, level);
            var ms := if k in groups then groups[k] else [];
            Grouped(s, hs + [h], level, if k in groups then keys else keys + [k], groups[k := ms + [|hs|]])
  {
    hide KeyOf, KeysOf, AreMembers;
    var k := KeyOf(s, h, level);
    var ms := if k in groups then groups[k] else [];
    var hs' := hs + [h];
    KeysGrow(s, hs', level);
    assert hs'[..|hs|] == hs;
    if k !in groups {
      NoMembers(s, hs, level, k);
    }
    MembersMore(s, hs, level, k, ms, h);
    forall l | l in groups && l != k
      ensures AreMembers(s, hs', level, l, groups[l])
    {
      MembersSame(s, hs, level, l, groups[l], h);
    }
  }

  lemma NoMembers(s: Surface, hs: seq<Hypothesis>, level: DedupLevel, k: DedupKey)
    requires k !in KeysOf(s, hs, level)
    ensures AreMembers(s, hs, level, k, [])
  {
    hide KeyOf;
    forall p | 0 <= p < |hs|
      ensures KeyOf(s, hs[p], level) != k
    {
      assert KeyOf(s, hs[p], level) in KeysOf(s, hs, level);
    }
  }

  lemma MembersMore(s: Surface, hs: seq<Hypothesis>, level: DedupLevel, k: DedupKey, ms: seq<nat>, h: Hypothesis)
    requires AreMembers(s, hs, level, k, ms) && KeyOf(s, h, level) == k
    ensures AreMembers(s, hs + [h], level, k, ms + [|hs|])
  {
    hide KeyOf;
    assert (ms + [|hs|])[|ms|] == |hs|;
    assert forall p :: p in ms ==> p in ms + [|hs|];
  }

  lemma MembersSame(s: Surface, hs: seq<Hypothesis>, level: DedupLevel, k: DedupKey, ms: seq<nat>, h: Hypothesis)
    requires AreMembers(s, hs, level, k, ms) && KeyOf(s, h, level) != k
    ensures AreMembers(s, hs + [h], level, k, ms)
  {
  }

  /** One pass over the nodes finds the mutation anchor and the least object. */
  method CanonicalKey(s: Surface, h: Hypothesis, level: DedupLevel) returns (key: DedupKey)
    requires Grounded(s)
    ensures key == KeyOf(s, h, level)
  {
    var nodes := h.nodes;
    var anchor, anchorRank, primaryObj, anyObj := -1, -1, 0, false;
    for i := 0 to |nodes|
      invariant anchor == AnchorOf(s, nodes[..i]) &&
        anchorRank == (if anchor == -1 then -1 else MutationRank(s, anchor))
      invariant anyObj <==> AnyObject(s, nodes[..i])
      invariant anyObj ==> primaryObj == LeastObject(s, nodes[..i])
    {
      ScanStep(s, nodes, i);
      var nid := nodes[i];
      if nid in s.obj {
        primaryObj := if !anyObj || s.obj[nid] < primaryObj then s.obj[nid] else primaryObj;
        anyObj := true;
      }
      if MutationRank(s, nid) > anchorRank {
        anchor, anchorRank := nid, MutationRank(s, nid);
      }
    }
    assert nodes[..|nodes|] == nodes;
    if anchor >= 0 && anchor in s.obj && anyObj {
      primaryObj := s.obj[anchor];
    }
    if level == ObjectClassLevel && anyObj {
      return ByObject(h.hazardClass, primaryObj);
    }
    if level == AnchorLevel && anchor >= 0 && anyObj {
      return ByAnchor(h.hazardClass, primaryObj, anchor);
    }
    key := ByNodes(h.hazardClass, multiset(nodes));
  }

  lemma ScanStep(s: Surface, nodes: seq<int>, i: nat)
    requires i < |nodes|
    ensures nodes[..i + 1][..i] == nodes[..i] && nodes[..i + 1][i] == nodes[i]
    ensures AnyObject(s, nodes[..i + 1]) <==> AnyObject(s, nodes[..i]) || nodes[i] in s.obj
  {
    var p := nodes[..i + 1];
    if AnyObject(s, nodes[..i]) {
      var k :| 0 <= k < i && nodes[..i][k] in s.obj;
      assert p[k] in s.obj;
    }
    if nodes[i] in s.obj {
      assert p[i] in s.obj;
    }
    if AnyObject(s, p) && nodes[i] !in s.obj {
      var k :| 0 <= k < |p| && p[k] in s.obj;
      assert nodes[..i][k] in s.obj;
    }
  }

  /** Hypotheses are grouped by key and each group is reduced to its best member. */
  method DedupHypotheses(hs: seq<Hypothesis>, s: Surface, level: DedupLevel) returns (out: seq<Hypothesis>)
    requires Grounded(s)
    ensures IsDedup(s, hs, level, out)
  {
    hide KeyOf, KeysOf, AreMembers, IsBest, Grouped, Stands, IsDedup, DistinctKeys, Folded;
    KeysCount(s, hs, level);
    var keys: seq<DedupKey>, groups: map<DedupKey, seq<nat>> := [], map[];
    NothingGrouped(s, level);
    for i := 0 to |hs|
      invariant Grouped(s, hs[..i], level, keys, groups)
    {
      GroupMore(s, hs[..i], level, keys, groups, hs[i]);
      assert hs[..i + 1] == hs[..i] + [hs[i]];
      var k := CanonicalKey(s, hs[i], level);
      keys, groups := if k in groups then keys else keys + [k],
                      groups[k := (if k in groups then groups[k] else []) + [i]];
    }
    assert hs[..|hs|] == hs;
    KeysListed(s, hs, level, keys, groups);
    if |keys| == |hs| {
      AllStand(s, hs, level);
      return hs;
    }
    out := [];
    for i := 0 to |keys|
      invariant |out| == i
      invariant forall j :: 0 <= j < i ==> KeyOf(s, out[j], level) == keys[j] && Stands(s, hs, level, keys[j], out[j])
    {
      KeyHasGroup(s, hs, level, keys, groups, i);
      var ms := groups[keys[i]];
      MembersInRange(s, hs, level, keys[i], ms);
      var best := BestOf(hs, ms);
      RepStands(s, hs, level, keys[i], ms, best);
      out := out + [Folded(hs[best], |ms| - 1)];
    }
    OutKeys(s, hs, level, keys, out);
  }

  lemma KeyHasGroup(s: Surface, hs: seq<Hypothesis>, level: DedupLevel, keys: seq<DedupKey>,
                    groups: map<DedupKey, seq<nat>>, i: nat)
    requires Grouped(s, hs, level, keys, groups) && i < |keys|
    ensures keys[i] in groups && groups[keys[i]] != [] && AreMembers(s, hs, level, keys[i], groups[keys[i]])
  {
  }

  lemma NothingGrouped(s: Surface, level: DedupLevel)
    ensures Grouped(s, [], level, [], map[])
  {
  }

  lemma MembersInRange(s: Surface, hs: seq<Hypothesis>, level: DedupLevel, k: DedupKey, ms: seq<nat>)
    requires AreMembers(s, hs, level, k, ms)
    ensures forall i :: 0 <= i < |ms| ==> ms[i] < |hs|
    ensures forall i, j :: 0 <= i < j < |ms| ==> ms[i] < ms[j]
  {
  }

  lemma RepStands(s: Surface, hs: seq<Hypothesis>, level: DedupLevel, k: DedupKey, ms: seq<nat>, best: nat)
    requires AreMembers(s, hs, level, k, ms) && IsBest(hs, ms, best)
    ensures best < |hs| && |ms| > 0
    ensures var rep := Folded(hs[best], |ms| - 1); KeyOf(s, rep, level) == k && Stands(s, hs, level, k, rep)
  {
  }

  lemma KeysListed(s: Surface, hs: seq<Hypothesis>, level: DedupLevel, keys: seq<DedupKey>,
                   groups: map<DedupKey, seq<nat>>)
    requires Grouped(s, hs, level, keys, groups)
    ensures (set k | k in keys) == KeysOf(s, hs, level)
    ensures forall a, b :: 0 <= a < b < |keys| ==> keys[a] != keys[b]
    ensures |keys| == |hs| <==> DistinctKeys(s, hs, level)
  {
    hide KeyOf, KeysOf, AreMembers;
    DistinctSize(keys);
    KeysCount(s, hs, level);
    assert (set k | k in keys) == KeysOf(s, hs, level);
  }

  lemma AllStand(s: Surface, hs: seq<Hypothesis>, level: DedupLevel)
    requires DistinctKeys(s, hs, level)
    ensures IsDedup(s, hs, level, hs)
  {
    hide KeyOf, KeysOf;
    forall i | 0 <= i < |hs|
      ensures Stands(s, hs, level, KeyOf(s, hs[i], level), hs[i])
    {
      var ms: seq<nat> := [i];
      assert AreMembers(s, hs, level, KeyOf(s, hs[i], level), ms);
      assert IsBest(hs, ms, i);
    }
  }

  lemma OutKeys(s: Surface, hs: seq<Hypothesis>, level: DedupLevel, keys: seq<DedupKey>, out: seq<Hypothesis>)
    requires |out| == |keys| && (set k | k in keys) == KeysOf(s, hs, level)
    requires forall a, b :: 0 <= a < b < |keys| ==> keys[a] != keys[b]
    requires forall j :: 0 <= j < |keys| ==> KeyOf(s, out[j], level) == keys[j] && Stands(s, hs, level, keys[j], out[j])
    requires !DistinctKeys(s, hs, level)
    ensures IsDedup(s, hs, level, out)
  {
    hide KeyOf, Stands;
    forall k
      ensures k in KeysOf(s, out, level) <==> k in KeysOf(s, hs, level)
    {
      assert k in KeysOf(s, hs, level) <==> k in keys;
      if j :| 0 <= j < |keys| && keys[j] == k {
        assert KeyOf(s, out[j], level) == k;
      }
    }
  }
}
