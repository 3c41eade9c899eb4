/** The loops of the requirement checker. */
module RequirementChecker {
  import opened Options
  import opened HBWalks
  import opened HBGraphs
  import opened Evidence
  import opened ConcurrencyContracts
  import opened OrderingEvidences
  import opened Requirements

  method ObjectsById(objs: seq<SharedObject>, objIndex: map<int, int>) returns (byId: map<int, SharedObject>)
    ensures forall id :: (if id in byId then Some(byId[id]) else None) == ObjectAt(objs, objIndex, id)
  {
    byId := map[];
    for i := 0 to |objs|
      invariant forall id :: (if id in byId then Some(byId[id]) else None) == ObjectAt(objs[..i], objIndex, id)
    {
      assert objs[..i + 1][..i] == objs[..i];
      if objs[i].address in objIndex {
        byId := byId[objIndex[objs[i].address] := objs[i]];
      }
    }
    assert objs[..|objs|] == objs;
  }

  /** The access type recorded first for a node, if there is one. */
  method AccTypeOfNode(o: Option<SharedObject>, node: int) returns (t: Option<AccessType>)
    ensures t == Some(Free) <==> FreedAt(o, node)
  {
    if o.None? {
      return None;
    }
    for i := 0 to |o.value.accesses|
      invariant forall j :: 0 <= j < i ==> o.value.accesses[j].nodeId != node
    {
      if o.value.accesses[i].nodeId == node {
        assert IsFirstAt(o.value.accesses, node, i);
        return Some(o.value.accesses[i].accessType);
      }
    }
    t := None;
  }

  method SameLockCovers(o: Option<SharedObject>, a: int, b: int) returns (r: bool)
    ensures r <==> SameLock(o, a, b)
  {
    if o.None? {
      return false;
    }
    var accs := o.value.accesses;
    var pa: Option<ThreadAccess>, pb: Option<ThreadAccess> := None, None;
    ghost var ka, kb := -1, -1;
    for i := 0 to |accs|
      invariant if pa.Some? then IsLastAt(accs[..i], a, ka) && accs[ka] == pa.value
                else forall j :: 0 <= j < i ==> accs[j].nodeId != a
      invariant if pb.Some? then IsLastAt(accs[..i], b, kb) && accs[kb] == pb.value
                else forall j :: 0 <= j < i ==> accs[j].nodeId != b
    {
      if accs[i].nodeId == a {
        pa, ka := Some(accs[i]), i;
      }
      if accs[i].nodeId == b {
        pb, kb := Some(accs[i]), i;
      }
    }
    assert accs[..|accs|] == accs;
    if pa.None? || pb.None? {
      return false;
    }
    r := pa.value.isLockProtected && pb.value.isLockProtected &&
         pa.value.protectingLock != "" && pa.value.protectingLock == pb.value.protectingLock;
  }

  method CollectConflicts(o: Option<SharedObject>, threads: seq<int>, tid: int) returns (conflicts: seq<int>)
    ensures conflicts == if o.Some? then Conflicts(o.value.accesses, threads, tid) else []
  {
    conflicts := [];
    if o.None? {
      return;
    }
    var accs := o.value.accesses;
    for i := 0 to |accs|
      invariant conflicts == Conflicts(accs[..i], threads, tid)
    {
      assert accs[..i + 1][..i] == accs[..i];
      var acc := accs[i];
      if acc.threadId in threads && acc.threadId != tid {
        if (acc.accessType == Write || acc.accessType == Free) && acc.nodeId >= 0 {
          conflicts := conflicts + [acc.nodeId];
        }
      }
    }
    assert accs[..|accs|] == accs;
  }

  /** No pair in a row before (i, j) fails. */
  ghost predicate HoldsTo(ev: Evidence, o: Option<SharedObject>, r: NodeReq, left: seq<int>, right: seq<int>, i: int,
                          j: int) {
    forall k, l :: 0 <= k < |left| && 0 <= l < |right| && (k < i || (k == i && l < j)) ==>
      !Fails(ev, o, r, left[k], right[l])
  }

  method CheckPrecede(ev: OrderingEvidence, s: Session, tid: int, r: NodeReq, o: Option<SharedObject>)
    returns (c: Option<L2Candidate>)
    requires ev.hb.Valid() && o == ObjectOf(s, r) && r.form == MustPrecede
    ensures Verdict(ev.View(), s, tid, r, c)
  {
    for i := 0 to |r.a|
      invariant HoldsTo(ev.View(), o, r, r.a, r.b, i, 0)
    {
      for j := 0 to |r.b|
        invariant HoldsTo(ev.View(), o, r, r.a, r.b, i, j)
      {
        var ordered := ev.OrdReach(r.a[i], r.b[j]);
        if ordered {
          continue;
        }
        var t := AccTypeOfNode(o, r.b[j]);
        assert IsFirstFailure(ev.View(), o, r, LeftOperands(r), RightOperands(s, tid, r), i, j);
        return Some(L2Candidate(r.objectId, o, r.form, tid, r.a[i], r.b[j], t == Some(Free)));
      }
    }
    c := None;
  }

  method CheckMediated(ev: OrderingEvidence, s: Session, tid: int, r: NodeReq, o: Option<SharedObject>)
    returns (c: Option<L2Candidate>)
    requires ev.hb.Valid() && o == ObjectOf(s, r) && r.form == MustBeMediated
    ensures Verdict(ev.View(), s, tid, r, c)
  {
    for i := 0 to |r.a|
      invariant HoldsTo(ev.View(), o, r, r.a, r.b, i, 0)
    {
      for j := 0 to |r.b|
        invariant HoldsTo(ev.View(), o, r, r.a, r.b, i, j)
      {
        var a, b := r.a[i], r.b[j];
        var forward := ev.OrdReach(a, b);
        var backward := ev.OrdReach(b, a);
        var locked := SameLockCovers(o, a, b);
        if forward || backward || ev.CommonlyExcluded(a, b) || ev.AtomicallyCompatible(a, b) || locked {
          continue;
        }
        var ta := AccTypeOfNode(o, a);
        var tb := AccTypeOfNode(o, b);
        assert IsFirstFailure(ev.View(), o, r, LeftOperands(r), RightOperands(s, tid, r), i, j);
        return Some(L2Candidate(r.objectId, o, r.form, tid, a, b, ta == Some(Free) || tb == Some(Free)));
      }
    }
    c := None;
  }

  /** Some node of the region is protected against the conflicting one. */
  method ExcludedFrom(ev: OrderingEvidence, region: seq<int>, o: Option<SharedObject>, node: int) returns (r: bool)
    requires ev.hb.Valid()
    ensures r <==> exists x :: x in region && Protected(ev.View(), o, x, node)
  {
    for i := 0 to |region|
      invariant forall k :: 0 <= k < i ==> !Protected(ev.View(), o, region[k], node)
    {
      var locked := SameLockCovers(o, region[i], node);
      if ev.CommonlyExcluded(region[i], node) || ev.AtomicallyCompatible(region[i], node) || locked {
        assert region[i] in region && Protected(ev.View(), o, region[i], node);
        return true;
      }
    }
    r := false;
  }

  method CheckAtomic(ev: OrderingEvidence, s: Session, tid: int, r: NodeReq, o: Option<SharedObject>)
    returns (c: Option<L2Candidate>)
    requires ev.hb.Valid() && o == ObjectOf(s, r) && r.form == MustBeAtomic
    ensures Verdict(ev.View(), s, tid, r, c)
  {
    hide Ordered, Protected;
    var conflicts := CollectConflicts(o, s.threads, tid);
    if r.a == [] {
      return None;
    }
    var first, last := r.a[0], r.a[|r.a| - 1];
    for j := 0 to |conflicts|
      invariant HoldsTo(ev.View(), o, r, [first], conflicts, 0, j)
    {
      var node := conflicts[j];
      var before := ev.OrdReach(node, first);
      var after := ev.OrdReach(last, node);
      var excluded := ExcludedFrom(ev, r.a, o, node);
      if before || after || excluded {
        continue;
      }
      var t := AccTypeOfNode(o, node);
      assert IsFirstFailure(ev.View(), o, r, LeftOperands(r), RightOperands(s, tid, r), 0, j);
      return Some(L2Candidate(r.objectId, o, r.form, tid, first, node, t == Some(Free)));
    }
    c := None;
  }

  method CheckRequirement(ev: OrderingEvidence, s: Session, tid: int, r: NodeReq, byId: map<int, SharedObject>)
    returns (c: Option<L2Candidate>)
    requires ev.hb.Valid()
    requires forall id :: (if id in byId then Some(byId[id]) else None) == ObjectAt(s.objs, s.objIndex, id)
    ensures Verdict(ev.View(), s, tid, r, c)
  {
    var o := if r.objectId >= 0 && r.objectId in byId then Some(byId[r.objectId]) else None;
    assert o == ObjectOf(s, r);
    match r.form {
      case MustPrecede => c := CheckPrecede(ev, s, tid, r, o);
      case MustBeMediated => c := CheckMediated(ev, s, tid, r, o);
      case MustBeAtomic => c := CheckAtomic(ev, s, tid, r, o);
      case OtherRequirement => c := None;
    }
  }

  function Appended<T>(ts: seq<T>, t: T, keep: bool): seq<T> {
    if keep then ts + [t] else ts
  }

  lemma ListMore(ev: Evidence, s: Session, which: seq<(nat, nat)>, out: seq<L2Candidate>, w: (nat, nat), c: L2Candidate)
    requires Lists(ev, s, which, out) && CompleteTo(ev, s, which, w)
    requires InSession(s, w) && ReportsFirst(ev, s, s.threads[w.0], ReqAt(s, w), c)
    ensures Lists(ev, s, which + [w], out + [c])
  {
    hide ReportsFirst;
  }

  lemma CompleteMore(ev: Evidence, s: Session, which: seq<(nat, nat)>, w: (nat, nat), listed: bool)
    requires CompleteTo(ev, s, which, w) && (listed || !UndischargedAt(ev, s, w))
    ensures CompleteTo(ev, s, Appended(which, w, listed), (w.0, w.1 + 1))
  {
    var which' := Appended(which, w, listed);
    forall v | UndischargedAt(ev, s, v) && Before(v, (w.0, w.1 + 1))
      ensures v in which'
    {
      if Before(v, w) {
        assert v in which;
      } else {
        assert v == w;
      }
    }
  }

  lemma NextThread(ev: Evidence, s: Session, which: seq<(nat, nat)>, i: nat, n: nat)
    requires CompleteTo(ev, s, which, (i, n))
    requires forall w: (nat, nat) :: InSession(s, w) && w.0 == i ==> w.1 < n
    ensures CompleteTo(ev, s, which, (i + 1, 0))
  {
  }

  /** Every requirement of the session's contracts is checked; the undischarged ones are reported. */
  method CheckRequirements(s: Session, ids: set<int>, hb: HBGraph, policy: SyncPolicy, envDepth: Option<int>)
    returns (out: seq<L2Candidate>)
    requires hb.Valid()
    ensures var cap := if envDepth.Some? then envDepth.value else 64;
            exists which :: IsReport(SessionEvidence(s, hb.outEdges, ids, cap, policy), s, which, out)
  {
    hide Lists, CompleteTo, EvidenceFrom, ReportsFirst, IsReport;
    var ev := BuildEvidence(s.threads, s.contracts, ids, hb, policy, envDepth);
    var byId := ObjectsById(s.objs, s.objIndex);
    ghost var view := ev.View();
    ghost var which: seq<(nat, nat)> := [];
    out := [];
    StartsList(view, s);
    for i := 0 to |s.threads|
      invariant ev.View() == view
      invariant Lists(view, s, which, out) && CompleteTo(view, s, which, (i, 0))
    {
      var reqs := if s.threads[i] in s.contracts then s.contracts[s.threads[i]].nodeReqs else [];
      for j := 0 to |reqs|
        invariant ev.View() == view
        invariant Lists(view, s, which, out) && CompleteTo(view, s, which, (i, j))
      {
        var c := CheckRequirement(ev, s, s.threads[i], reqs[j], byId);
        ghost var w: (nat, nat) := (i, j);
        assert InSession(s, w) && ReqAt(s, w) == reqs[j];
        if c.Some? {
          ListMore(view, s, which, out, w, c.value);
        }
        CompleteMore(view, s, which, w, c.Some?);
        out := if c.Some? then out + [c.value] else out;
        which := Appended(which, w, c.Some?);
      }
      NextThread(view, s, which, i, |reqs|);
    }
    FinishesList(view, s, which, out);
  }

  lemma StartsList(ev: Evidence, s: Session)
    ensures Lists(ev, s, [], []) && CompleteTo(ev, s, [], (0, 0))
  {
  }

  lemma FinishesList(ev: Evidence, s: Session, which: seq<(nat, nat)>, out: seq<L2Candidate>)
    requires Lists(ev, s, which, out) && CompleteTo(ev, s, which, (|s.threads|, 0))
    ensures IsReport(ev, s, which, out)
  {
  }
}
