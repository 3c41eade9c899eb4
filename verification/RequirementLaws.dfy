/** What a report means for the contracts: the laws of the checker in terms of operands, accesses and guarantees. */
module RequirementLaws {
  import opened Options
  import opened HBWalks
  import opened Evidence
  import opened ConcurrencyContracts
  import opened OrderingEvidences
  import opened Requirements

  // ---- Protection, in terms of the guarantees ----

  /** Two nodes exclude each other iff two Exclude guarantees with one token cover them, not both in shared mode. */
  lemma ExclusionMeans(gs: seq<NodeGuar>, m: EdgeMap, ids: set<int>, cap: int, policy: SyncPolicy, a: int, b: int)
    ensures CommonExclusion(EvidenceFrom(gs, m, ids, cap, policy), a, b) <==>
            exists g, h ::
              && g in gs && h in gs && g.form == Exclude && h.form == Exclude && g.token == h.token
              && a in g.a && b in h.a && a in ids && b in ids && !(g.isShared && h.isShared)
  {
    var ev := EvidenceFrom(gs, m, ids, cap, policy);
    if g, h :| g in gs && h in gs && g.form == Exclude && h.form == Exclude && g.token == h.token
               && a in g.a && b in h.a && a in ids && b in ids && !(g.isShared && h.isShared) {
      assert (g.token, a) in (if g.isShared then ev.shared else ev.exclusive);
      assert (g.token, b) in (if h.isShared then ev.shared else ev.exclusive);
    }
  }

  /** Sections that are all in shared mode exclude nothing. */
  lemma SharedExcludesNothing(gs: seq<NodeGuar>, m: EdgeMap, ids: set<int>, cap: int, policy: SyncPolicy,
                              a: int, b: int)
    requires forall g :: g in gs && g.form == Exclude ==> g.isShared
    ensures !CommonExclusion(EvidenceFrom(gs, m, ids, cap, policy), a, b)
  {
    ExclusionMeans(gs, m, ids, cap, policy, a, b);
  }

  /** Two nodes are atomically compatible iff two AtomicOp guarantees with one token cover them. */
  lemma AtomicityMeans(gs: seq<NodeGuar>, m: EdgeMap, ids: set<int>, cap: int, policy: SyncPolicy, a: int, b: int)
    ensures AtomicCompatible(EvidenceFrom(gs, m, ids, cap, policy), a, b) <==>
            exists g, h ::
              && g in gs && h in gs && g.form == AtomicOp && h.form == AtomicOp && g.token == h.token
              && a in g.a && b in h.a && a in ids && b in ids
  {
    var ev := EvidenceFrom(gs, m, ids, cap, policy);
    if g, h :| g in gs && h in gs && g.form == AtomicOp && h.form == AtomicOp && g.token == h.token
               && a in g.a && b in h.a && a in ids && b in ids {
      assert (g.token, a) in ev.atomic && (g.token, b) in ev.atomic;
    }
  }

  /** A common lock is a named one, held by an access at each of the two nodes. */
  lemma LockMeans(o: SharedObject, a: int, b: int)
    requires SameLock(Some(o), a, b)
    ensures exists x, y ::
              && x in o.accesses && y in o.accesses && x.nodeId == a && y.nodeId == b
              && x.isLockProtected && y.isLockProtected && x.protectingLock == y.protectingLock != ""
  {
    var i, j :| IsLastAt(o.accesses, a, i) && IsLastAt(o.accesses, b, j) && CommonLock(o.accesses[i], o.accesses[j]);
    var x, y := o.accesses[i], o.accesses[j];
    assert x in o.accesses && y in o.accesses;
  }

  /** Conversely the last access at each node decides. */
  lemma LastAccessesDecide(o: SharedObject, a: int, b: int, i: nat, j: nat)
    requires i < |o.accesses| && o.accesses[i].nodeId == a && j < |o.accesses| && o.accesses[j].nodeId == b
    requires forall k :: i < k < |o.accesses| ==> o.accesses[k].nodeId != a
    requires forall k :: j < k < |o.accesses| ==> o.accesses[k].nodeId != b
    ensures var x, y := o.accesses[i], o.accesses[j];
            SameLock(Some(o), a, b) <==>
              x.isLockProtected && y.isLockProtected && x.protectingLock != "" && x.protectingLock == y.protectingLock
  {
    assert IsLastAt(o.accesses, a, i) && IsLastAt(o.accesses, b, j);
    forall k, l | IsLastAt(o.accesses, a, k) && IsLastAt(o.accesses, b, l)
      ensures k == i && l == j
    {
    }
  }

  // ---- The object of a requirement ----

  lemma {:induction false} ObjectAtIs(objs: seq<SharedObject>, objIndex: map<int, int>, id: int)
    ensures match ObjectAt(objs, objIndex, id)
            case Some(o) => o in objs && o.address in objIndex && objIndex[o.address] == id
            case None => forall o :: o in objs && o.address in objIndex ==> objIndex[o.address] != id
  {
    if objs != [] {
      var n := |objs| - 1;
      ObjectAtIs(objs[..n], objIndex, id);
      assert objs == objs[..n] + [objs[n]];
    }
  }

  /** It is an object of the session carrying the requirement's index, and is missing only if there is none. */
  lemma ObjectMeans(s: Session, r: NodeReq)
    ensures match ObjectOf(s, r)
            case Some(o) =>
              0 <= r.objectId && o in s.objs && o.address in s.objIndex && s.objIndex[o.address] == r.objectId
            case None =>
              r.objectId < 0 ||
              forall o :: o in s.objs && o.address in s.objIndex ==> s.objIndex[o.address] != r.objectId
  {
    ObjectAtIs(s.objs, s.objIndex, r.objectId);
  }

  /** A write or free of the object by another thread of the session, at a node. */
  predicate Interferes(s: Session, tid: int, acc: ThreadAccess) {
    && acc.threadId in s.threads && acc.threadId != tid
    && (acc.accessType == Write || acc.accessType == Free) && acc.nodeId >= 0
  }

  lemma {:induction false} ConflictsMeans(accesses: seq<ThreadAccess>, s: Session, tid: int, n: int)
    ensures n in Conflicts(accesses, s.threads, tid) <==>
            exists acc :: acc in accesses && Interferes(s, tid, acc) && acc.nodeId == n
  {
    if accesses != [] {
      var k := |accesses| - 1;
      ConflictsMeans(accesses[..k], s, tid, n);
      assert accesses == accesses[..k] + [accesses[k]];
    }
  }

  // ---- What a report says, form by form ----

  /** Entry k of the report is about the requirement at position w. */
  ghost predicate ReportedAs(which: seq<(nat, nat)>, out: seq<L2Candidate>, w: (nat, nat), c: L2Candidate) {
    exists k :: 0 <= k < |which| && k < |out| && which[k] == w && out[k] == c
  }

  /** Candidates name their requirement, and follow the threads and the requirements of each contract in order. */
  lemma ReportNamesRequirements(ev: Evidence, s: Session, which: seq<(nat, nat)>, out: seq<L2Candidate>)
    requires IsReport(ev, s, which, out)
    ensures |which| == |out|
    ensures forall j, k :: 0 <= j < k < |which| ==>
              which[j].0 < which[k].0 || (which[j].0 == which[k].0 && which[j].1 < which[k].1)
    ensures forall k :: 0 <= k < |out| ==>
              var (i, n) := which[k];
              && i < |s.threads| && s.threads[i] in s.contracts && n < |s.contracts[s.threads[i]].nodeReqs|
              && var r := s.contracts[s.threads[i]].nodeReqs[n];
                 out[k].reqTid == s.threads[i] && out[k].objectId == r.objectId && out[k].form == r.form
  {
  }

  /** Nothing is in the report for w iff the requirement is discharged; otherwise one candidate is. */
  lemma ReportEntry(ev: Evidence, s: Session, which: seq<(nat, nat)>, out: seq<L2Candidate>, w: (nat, nat))
    requires IsReport(ev, s, which, out) && InSession(s, w)
    ensures w !in which ==> !Undischarged(ev, s, s.threads[w.0], ReqAt(s, w))
    ensures w in which ==> exists c :: ReportedAs(which, out, w, c)
    ensures forall c :: ReportedAs(which, out, w, c) ==> ReportsFirst(ev, s, s.threads[w.0], ReqAt(s, w), c)
  {
    hide Undischarged, ReportsFirst;
    ListedIffUndischarged(ev, s, which, out, w);
    if w in which {
      var k :| 0 <= k < |which| && which[k] == w;
      assert ReportedAs(which, out, w, out[k]);
    }
  }

  /** The operands a candidate names are those of the first failing pair. */
  lemma FirstPair(ev: Evidence, s: Session, tid: int, r: NodeReq, c: L2Candidate) returns (i: nat, j: nat)
    requires ReportsFirst(ev, s, tid, r, c)
    ensures var o, left, right := ObjectOf(s, r), LeftOperands(r), RightOperands(s, tid, r);
            && i < |left| && j < |right| && c.aNode == left[i] && c.bNode == right[j]
            && Fails(ev, o, r, left[i], right[j])
            && forall k, l :: 0 <= k < |left| && 0 <= l < |right| && (k < i || (k == i && l < j)) ==>
                 !Fails(ev, o, r, left[k], right[l])
  {
    hide Fails;
    i, j :| IsFirstFailure(ev, ObjectOf(s, r), r, LeftOperands(r), RightOperands(s, tid, r), i, j) &&
            c.aNode == LeftOperands(r)[i] && c.bNode == RightOperands(s, tid, r)[j];
  }

  /** MustPrecede goes unreported iff each left operand is ordered before each right one. */
  lemma PrecedeMeans(ev: Evidence, s: Session, which: seq<(nat, nat)>, out: seq<L2Candidate>, w: (nat, nat))
    requires IsReport(ev, s, which, out) && InSession(s, w) && ReqAt(s, w).form == MustPrecede
    ensures w !in which <==> forall a, b :: a in ReqAt(s, w).a && b in ReqAt(s, w).b ==> Ordered(ev, a, b)
  {
    ListedIffUndischarged(ev, s, which, out, w);
    hide Ordered, IsReport, ObjectOf;
    assert forall a, b :: Fails(ev, ObjectOf(s, ReqAt(s, w)), ReqAt(s, w), a, b) <==> !Ordered(ev, a, b);
  }

  /** Its candidate names the first pair in operand order that is not ordered. */
  lemma PrecedeCandidate(ev: Evidence, s: Session, which: seq<(nat, nat)>, out: seq<L2Candidate>, w: (nat, nat),
                         c: L2Candidate)
    returns (i: nat, j: nat)
    requires IsReport(ev, s, which, out) && InSession(s, w) && ReqAt(s, w).form == MustPrecede
    requires ReportedAs(which, out, w, c)
    ensures var r := ReqAt(s, w);
            && i < |r.a| && j < |r.b| && c.aNode == r.a[i] && c.bNode == r.b[j] && !Ordered(ev, r.a[i], r.b[j])
            && forall k, l :: 0 <= k < |r.a| && 0 <= l < |r.b| && (k < i || (k == i && l < j)) ==>
                 Ordered(ev, r.a[k], r.b[l])
  {
    ReportEntry(ev, s, which, out, w);
    hide Ordered, IsReport, ObjectOf, ReportsFirst;
    i, j := FirstPair(ev, s, s.threads[w.0], ReqAt(s, w), c);
  }

  /** Nodes a and b are kept apart: ordered either way, by a common token, or by a common lock of the object. */
  ghost predicate KeptApart(ev: Evidence, o: Option<SharedObject>, a: int, b: int) {
    || Ordered(ev, a, b) || Ordered(ev, b, a)
    || CommonExclusion(ev, a, b) || AtomicCompatible(ev, a, b) || SameLock(o, a, b)
  }

  /** MustBeMediated goes unreported iff every pair is kept apart. */
  lemma MediatedMeans(ev: Evidence, s: Session, which: seq<(nat, nat)>, out: seq<L2Candidate>, w: (nat, nat))
    requires IsReport(ev, s, which, out) && InSession(s, w) && ReqAt(s, w).form == MustBeMediated
    ensures w !in which <==>
            forall a, b :: a in ReqAt(s, w).a && b in ReqAt(s, w).b ==> KeptApart(ev, ObjectOf(s, ReqAt(s, w)), a, b)
  {
    ListedIffUndischarged(ev, s, which, out, w);
    hide Ordered, IsReport, ObjectOf, CommonExclusion, AtomicCompatible, SameLock;
    var r, o := ReqAt(s, w), ObjectOf(s, ReqAt(s, w));
    assert forall a, b :: Fails(ev, o, r, a, b) <==> !KeptApart(ev, o, a, b);
    hide KeptApart;
  }

  /** Its candidate names the first pair in operand order that is not. */
  lemma MediatedCandidate(ev: Evidence, s: Session, which: seq<(nat, nat)>, out: seq<L2Candidate>, w: (nat, nat),
                          c: L2Candidate)
    returns (i: nat, j: nat)
    requires IsReport(ev, s, which, out) && InSession(s, w) && ReqAt(s, w).form == MustBeMediated
    requires ReportedAs(which, out, w, c)
    ensures var r, o := ReqAt(s, w), ObjectOf(s, ReqAt(s, w));
            && i < |r.a| && j < |r.b| && c.aNode == r.a[i] && c.bNode == r.b[j] && !KeptApart(ev, o, r.a[i], r.b[j])
            && forall k, l :: 0 <= k < |r.a| && 0 <= l < |r.b| && (k < i || (k == i && l < j)) ==>
                 KeptApart(ev, o, r.a[k], r.b[l])
  {
    ReportEntry(ev, s, which, out, w);
    hide Ordered, IsReport, ObjectOf, ReportsFirst, CommonExclusion, AtomicCompatible, SameLock;
    i, j := FirstPair(ev, s, s.threads[w.0], ReqAt(s, w), c);
  }

  /** Node n stays out of the region: before its first node, after its last, or protected against some node of it. */
  ghost predicate StaysOut(ev: Evidence, o: Option<SharedObject>, region: seq<int>, n: int)
    requires region != []
  {
    || Ordered(ev, n, region[0]) || Ordered(ev, region[|region| - 1], n)
    || exists x :: x in region && (CommonExclusion(ev, x, n) || AtomicCompatible(ev, x, n) || SameLock(o, x, n))
  }

  lemma RightOperandsMean(s: Session, tid: int, r: NodeReq, n: int)
    requires r.form == MustBeAtomic
    ensures n in RightOperands(s, tid, r) <==>
            ObjectOf(s, r).Some? &&
            exists acc :: acc in ObjectOf(s, r).value.accesses && Interferes(s, tid, acc) && acc.nodeId == n
  {
    if ObjectOf(s, r).Some? {
      ConflictsMeans(ObjectOf(s, r).value.accesses, s, tid, n);
    }
  }

  /** MustBeAtomic goes unreported iff its region is empty, its object missing, or every interfering access stays
      out. */
  lemma AtomicMeans(ev: Evidence, s: Session, which: seq<(nat, nat)>, out: seq<L2Candidate>, w: (nat, nat))
    requires IsReport(ev, s, which, out) && InSession(s, w) && ReqAt(s, w).form == MustBeAtomic
    ensures var r, tid, o := ReqAt(s, w), s.threads[w.0], ObjectOf(s, ReqAt(s, w));
            w !in which <==>
              (r.a == [] || o.None? ||
               forall acc :: acc in o.value.accesses && Interferes(s, tid, acc) ==> StaysOut(ev, o, r.a, acc.nodeId))
  {
    var r, tid := ReqAt(s, w), s.threads[w.0];
    ListedIffUndischarged(ev, s, which, out, w);
    forall n
      ensures n in RightOperands(s, tid, r) <==>
              ObjectOf(s, r).Some? &&
              exists acc :: acc in ObjectOf(s, r).value.accesses && Interferes(s, tid, acc) && acc.nodeId == n
    {
      RightOperandsMean(s, tid, r, n);
    }
    hide Ordered, IsReport, ObjectOf, CommonExclusion, AtomicCompatible, SameLock, RightOperands, Interferes;
    var o := ObjectOf(s, r);
    if r.a != [] {
      assert r.a[0] in LeftOperands(r);
      assert forall n :: Fails(ev, o, r, r.a[0], n) <==> !StaysOut(ev, o, r.a, n);
      hide StaysOut;
    }
  }

  /** Its candidate names the region's first node and the node of an interfering access that does not stay out. */
  lemma AtomicCandidate(ev: Evidence, s: Session, which: seq<(nat, nat)>, out: seq<L2Candidate>, w: (nat, nat),
                        c: L2Candidate)
    requires IsReport(ev, s, which, out) && InSession(s, w) && ReqAt(s, w).form == MustBeAtomic
    requires ReportedAs(which, out, w, c)
    ensures var r, o := ReqAt(s, w), ObjectOf(s, ReqAt(s, w));
            && r.a != [] && o.Some? && c.aNode == r.a[0] && !StaysOut(ev, o, r.a, c.bNode)
            && exists acc :: acc in o.value.accesses && Interferes(s, s.threads[w.0], acc) && acc.nodeId == c.bNode
  {
    ReportEntry(ev, s, which, out, w);
    hide Ordered, IsReport, ObjectOf, ReportsFirst, CommonExclusion, AtomicCompatible, SameLock, RightOperands;
    var i, j := FirstPair(ev, s, s.threads[w.0], ReqAt(s, w), c);
    RightOperandsMean(s, s.threads[w.0], ReqAt(s, w), c.bNode);
  }

  /** Other forms of requirement are never reported. */
  lemma OtherFormsAreSilent(ev: Evidence, s: Session, which: seq<(nat, nat)>, out: seq<L2Candidate>, w: (nat, nat))
    requires IsReport(ev, s, which, out) && InSession(s, w) && ReqAt(s, w).form == OtherRequirement
    ensures w !in which
  {
    ListedIffUndischarged(ev, s, which, out, w);
  }

  /** A candidate counts as a lifetime hazard iff the first access of its object at the right node, or for mediation
      at either node, is a free. */
  lemma LifetimeMeans(ev: Evidence, s: Session, which: seq<(nat, nat)>, out: seq<L2Candidate>, k: nat)
    requires IsReport(ev, s, which, out) && k < |out|
    ensures out[k].obj == ObjectOf(s, ReqAt(s, which[k]))
    ensures out[k].lifetime <==>
              out[k].obj.Some? && exists i ::
                && 0 <= i < |out[k].obj.value.accesses| && out[k].obj.value.accesses[i].accessType == Free
                && var n := out[k].obj.value.accesses[i].nodeId;
                   && (n == out[k].bNode || (n == out[k].aNode && out[k].form == MustBeMediated))
                   && forall j :: 0 <= j < i ==> out[k].obj.value.accesses[j].nodeId != n
  {
    hide Fails, Undischarged, ObjectOf, RightOperands;
    var c, o := out[k], out[k].obj;
    assert ReportsFirst(ev, s, s.threads[which[k].0], ReqAt(s, which[k]), c);
    assert c.lifetime <==> FreedAt(o, c.bNode) || (c.form == MustBeMediated && FreedAt(o, c.aNode));
    if o.Some? {
      assert forall n, i :: 0 <= i < |o.value.accesses| ==>
        (IsFirstAt(o.value.accesses, n, i) <==>
          o.value.accesses[i].nodeId == n && forall j :: 0 <= j < i ==> o.value.accesses[j].nodeId != n);
    }
  }

  // ---- From a guarantee to the report ----

  /** An Order or Wait guarantee discharges the MustPrecede over its own operands, in its own direction. */
  lemma GuaranteeDischarges(s: Session, m: EdgeMap, ids: set<int>, cap: int, policy: SyncPolicy,
                            which: seq<(nat, nat)>, out: seq<L2Candidate>, w: (nat, nat), t: int, g: NodeGuar)
    requires IsReport(SessionEvidence(s, m, ids, cap, policy), s, which, out)
    requires InSession(s, w) && ReqAt(s, w).form == MustPrecede
    requires t in s.threads && t in s.contracts && g in s.contracts[t].nodeGuars && (g.form == Order || g.form == Wait)
    requires forall a :: a in ReqAt(s, w).a ==> a in g.a && a in ids
    requires forall b :: b in ReqAt(s, w).b ==> b in g.b && b in ids
    ensures w !in which
  {
    var ev, r := SessionEvidence(s, m, ids, cap, policy), ReqAt(s, w);
    GuarsOfContains(s.threads, s.contracts, g);
    forall a, b | a in r.a && b in r.b
      ensures Ordered(ev, a, b)
    {
      assert (a, b) in ev.guars;
      assert ChainTo(ev, a, [(a, b)], b) && CfReach(ev, b, b);
    }
    hide Ordered, SessionEvidence, IsReport;
    PrecedeMeans(ev, s, which, out, w);
  }

  /** Without any edge, and with no other guarantee that orders, the opposite MustPrecede is reported. */
  lemma OppositeIsReported(s: Session, m: EdgeMap, ids: set<int>, cap: int, policy: SyncPolicy,
                           which: seq<(nat, nat)>, out: seq<L2Candidate>, w: (nat, nat), g: NodeGuar)
    requires IsReport(SessionEvidence(s, m, ids, cap, policy), s, which, out)
    requires InSession(s, w) && ReqAt(s, w).form == MustPrecede
    requires forall e :: !HasEdge(m, e)
    requires forall t, h :: t in s.threads && t in s.contracts && h in s.contracts[t].nodeGuars ==>
               (h.form == Order || h.form == Wait ==> h == g)
    requires g.a != [] && g.b != [] && forall n :: n in g.a ==> n !in g.b
    requires ReqAt(s, w).a == g.b && ReqAt(s, w).b == g.a
    ensures w in which
  {
    var ev := SessionEvidence(s, m, ids, cap, policy);
    var a, b := g.b[0], g.a[0];
    assert a in g.b && b in g.a;
    forall x, y | x != y
      ensures !CfReach(ev, x, y) && !StaticSync(ev, x, y)
    {
      forall es | es != []
        ensures !IsWalk(m, x, es, y)
      {
        assert !HasEdge(m, es[0]);
      }
    }
    forall h | h in GuarsOf(s.threads, s.contracts) && (h.form == Order || h.form == Wait)
      ensures h == g
    {
      GuarsOfContains(s.threads, s.contracts, h);
    }
    forall c: seq<(int, int)>, x
      ensures !ChainTo(ev, a, c, x)
    {
      if c != [] && c[0] in ev.guars {
        assert c[0].0 in g.a;
      }
    }
    assert !Ordered(ev, a, b);
    hide Ordered, SessionEvidence, IsReport;
    PrecedeMeans(ev, s, which, out, w);
  }
}
