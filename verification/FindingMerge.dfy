/** Merging raw conflicts that share an anchor, before they are reviewed. */
module FindingMerge {
  /** Object, hazard class and mutating access: what makes two raw conflicts the same finding. */
  datatype AnchorKey = AnchorKey(objectId: int, hazardClass: string, anchor: string)

  /** `tier` is the tier's rank, `site` the description of the violating access. */
  datatype Candidate = Candidate(key: AnchorKey, tier: nat, site: string, merged: nat, alternates: seq<string>)

  predicate Fresh(c: Candidate) {
    c.merged == 1 && c.alternates == []
  }

  /** The candidates with key k, in order. */
  ghost function Members(raw: seq<Candidate>, k: AnchorKey): seq<Candidate> {
    if raw == [] then []
    else
      var n := |raw| - 1;
      Members(raw[..n], k) + (if raw[n].key == k then [raw[n]] else [])
  }

  ghost function Sites(ms: seq<Candidate>): seq<string> {
    seq(|ms|, i requires 0 <= i < |ms| => ms[i].site)
  }

  ghost predicate IsFirstTop(ms: seq<Candidate>, j: int) {
    && 0 <= j < |ms|
    && (forall i :: 0 <= i < |ms| ==> ms[i].tier <= ms[j].tier)
    && (forall i :: 0 <= i < j ==> ms[i].tier < ms[j].tier)
  }

  /** `rep` stands for all of ms: it is the first of the top tier, counts them all, and lists the sites of the
      others. */
  ghost predicate Represents(rep: Candidate, ms: seq<Candidate>) {
    && rep.merged == |ms| == |rep.alternates| + 1
    && multiset([rep.site] + rep.alternates) == multiset(Sites(ms))
    && exists j :: IsFirstTop(ms, j) && ms[j] == rep.(merged := 1, alternates := [])
  }

  /** The groups built from raw: one representative for each key that occurs. */
  ghost predicate AreGroups(groups: map<AnchorKey, Candidate>, raw: seq<Candidate>) {
    forall k :: (k in groups <==> Members(raw, k) != []) && (k in groups ==> Represents(groups[k], Members(raw, k)))
  }

  lemma FirstOfGroup(c: Candidate)
    requires Fresh(c)
    ensures Represents(c, [c])
  {
    assert Sites([c]) == [c.site] == [c.site] + c.alternates;
    assert IsFirstTop([c], 0) && [c][0] == c.(merged := 1, alternates := []);
  }

  lemma SitesOfMore(ms: seq<Candidate>, c: Candidate)
    ensures multiset(Sites(ms + [c])) == multiset(Sites(ms)) + multiset{c.site}
  {
    assert Sites(ms + [c]) == Sites(ms) + [c.site];
  }

  /** A candidate of higher tier takes over: the old representative becomes an alternate. */
  lemma TakesOver(rep: Candidate, ms: seq<Candidate>, c: Candidate)
    requires Represents(rep, ms) && Fresh(c) && c.tier > rep.tier
    ensures Represents(c.(merged := rep.merged + 1, alternates := rep.alternates + [rep.site]), ms + [c])
  {
    SitesOfMore(ms, c);
    var alts := rep.alternates + [rep.site];
    assert multiset([c.site] + alts) == multiset([rep.site] + rep.alternates) + multiset{c.site};
    assert IsFirstTop(ms + [c], |ms|);
  }

  lemma JoinsGroup(rep: Candidate, ms: seq<Candidate>, c: Candidate)
    requires Represents(rep, ms) && Fresh(c) && c.tier <= rep.tier
    ensures Represents(rep.(merged := rep.merged + 1, alternates := rep.alternates + [c.site]), ms + [c])
  {
    SitesOfMore(ms, c);
    assert [rep.site] + (rep.alternates + [c.site]) == [rep.site] + rep.alternates + [c.site];
    var j :| IsFirstTop(ms, j) && ms[j] == rep.(merged := 1, alternates := []);
    assert IsFirstTop(ms + [c], j);
  }

  // ---- Nothing is lost ----

  ghost function TotalMerged<K>(groups: map<K, nat>): nat
    decreases groups.Keys
  {
    if groups.Keys == {} then 0
    else
      var k :| k in groups.Keys;
      groups[k] + TotalMerged(groups - {k})
  }

  lemma {:induction false} TotalWithout<K>(groups: map<K, nat>, k: K)
    requires k in groups
    ensures TotalMerged(groups) == groups[k] + TotalMerged(groups - {k})
    decreases groups.Keys
  {
    var l :| l in groups.Keys && TotalMerged(groups) == groups[l] + TotalMerged(groups - {l});
    if l != k {
      TotalWithout(groups - {l}, k);
      TotalWithout(groups - {k}, l);
      assert groups - {l} - {k} == groups - {k} - {l};
    }
  }

  ghost function Counts(groups: map<AnchorKey, Candidate>): map<AnchorKey, nat> {
    map k | k in groups :: groups[k].merged
  }

  lemma OneMoreCounted(groups: map<AnchorKey, Candidate>, k: AnchorKey, c: Candidate)
    requires c.merged == (if k in groups then groups[k].merged else 0) + 1
    ensures TotalMerged(Counts(groups[k := c])) == TotalMerged(Counts(groups)) + 1
  {
    TotalWithout(Counts(groups[k := c]), k);
    if k in groups {
      TotalWithout(Counts(groups), k);
      assert Counts(groups[k := c]) - {k} == Counts(groups) - {k};
    } else {
      assert Counts(groups[k := c]) - {k} == Counts(groups);
    }
  }

  lemma GroupsGrow(groups: map<AnchorKey, Candidate>, raw: seq<Candidate>, c: Candidate, rep: Candidate)
    requires AreGroups(groups, raw) && Represents(rep, Members(raw, c.key) + [c])
    ensures AreGroups(groups[c.key := rep], raw + [c])
  {
    hide Represents;
    assert (raw + [c])[..|raw|] == raw;
    forall k
      ensures Members(raw + [c], k) == if k == c.key then Members(raw, k) + [c] else Members(raw, k)
    {
    }
  }

  // ---- The groups in terms of the raw conflicts ----

  lemma {:induction false} MembersMean(raw: seq<Candidate>, k: AnchorKey)
    ensures forall c :: multiset(Members(raw, k))[c] == if c.key == k then multiset(raw)[c] else 0
  {
    if raw != [] {
      var n := |raw| - 1;
      MembersMean(raw[..n], k);
      assert raw == raw[..n] + [raw[n]];
    }
  }

  lemma MemberMeans(raw: seq<Candidate>, k: AnchorKey, c: Candidate)
    ensures c in Members(raw, k) <==> c in raw && c.key == k
  {
    MembersMean(raw, k);
    assert c in multiset(Members(raw, k)) <==> c in Members(raw, k);
    assert c in multiset(raw) <==> c in raw;
  }

  /** No raw conflict is lost: its key has a group of no lower tier. The representative of a group is one of the raw
      conflicts with its key, up to the count and the alternates. */
  lemma GroupsMean(groups: map<AnchorKey, Candidate>, raw: seq<Candidate>)
    requires AreGroups(groups, raw)
    ensures forall c :: c in raw ==> c.key in groups && c.tier <= groups[c.key].tier
    ensures forall k :: k in groups ==>
              && groups[k].key == k
              && groups[k].(merged := 1, alternates := []) in raw
              && groups[k].merged == |groups[k].alternates| + 1
  {
    hide Members, Sites;
    forall c | c in raw
      ensures c.key in groups && c.tier <= groups[c.key].tier
    {
      MemberMeans(raw, c.key, c);
      var ms := Members(raw, c.key);
      var i :| 0 <= i < |ms| && ms[i] == c;
      var j :| IsFirstTop(ms, j) && ms[j] == groups[c.key].(merged := 1, alternates := []);
    }
    forall k | k in groups
      ensures groups[k].key == k && groups[k].(merged := 1, alternates := []) in raw
    {
      var ms := Members(raw, k);
      var j :| IsFirstTop(ms, j) && ms[j] == groups[k].(merged := 1, alternates := []);
      MemberMeans(raw, k, ms[j]);
    }
  }

  /** Same-anchor conflicts are collapsed; the merge counts add up to the raw conflicts. */
  method MergeByAnchor(raw: seq<Candidate>) returns (byAnchor: map<AnchorKey, Candidate>)
    requires forall i :: 0 <= i < |raw| ==> Fresh(raw[i])
    ensures AreGroups(byAnchor, raw)
    ensures TotalMerged(Counts(byAnchor)) == |raw|
  {
    hide Represents, AreGroups, Counts;
    byAnchor := map[];
    NoGroups();
    for i := 0 to |raw|
      invariant AreGroups(byAnchor, raw[..i])
      invariant TotalMerged(Counts(byAnchor)) == i
    {
      var c := raw[i];
      assert raw[..i + 1] == raw[..i] + [c];
      GroupAt(byAnchor, raw[..i], c.key);
      var rep := c;
      if c.key !in byAnchor {
        FirstOfGroup(c);
        assert Members(raw[..i], c.key) + [c] == [c];
      } else {
        var held := byAnchor[c.key];
        if c.tier > held.tier {
          TakesOver(held, Members(raw[..i], c.key), c);
          rep := c.(merged := held.merged + 1, alternates := held.alternates + [held.site]);
        } else {
          JoinsGroup(held, Members(raw[..i], c.key), c);
          rep := held.(merged := held.merged + 1, alternates := held.alternates + [c.site]);
        }
      }
      GroupsGrow(byAnchor, raw[..i], c, rep);
      OneMoreCounted(byAnchor, c.key, rep);
      byAnchor := byAnchor[c.key := rep];
    }
    assert raw[..|raw|] == raw;
  }

  lemma NoGroups()
    ensures AreGroups(map[], []) && TotalMerged(Counts(map[])) == 0
  {
  }

  lemma GroupAt(groups: map<AnchorKey, Candidate>, raw: seq<Candidate>, k: AnchorKey)
    requires AreGroups(groups, raw)
    ensures if k in groups then Represents(groups[k], Members(raw, k)) else Members(raw, k) == []
  {
  }
}
