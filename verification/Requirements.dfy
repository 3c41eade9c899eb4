/** The requirement-driven checker: which requirements the evidence discharges. */
module Requirements {
  import opened FiniteSets
  import opened Options
  import opened HBWalks
  import opened HBGraphs
  import opened Evidence
  import opened ConcurrencyContracts
  import opened OrderingEvidences

  datatype L2Candidate = L2Candidate(objectId: int, obj: Option<SharedObject>, form: RequirementForm,
                                     reqTid: int, aNode: int, bNode: int, lifetime: bool)

  /** One thread-set with its objects and contracts. */
  datatype Session = Session(objs: seq<SharedObject>, threads: seq<int>, contracts: map<int, Contract>,
    objIndex: map<int, int>)

  // ---- What a requirement demands ----

  /** The last object of the session carrying the given surface index. */
  ghost function ObjectAt(objs: seq<SharedObject>, objIndex: map<int, int>, id: int): Option<SharedObject> {
    if objs == [] then None
    else
      var o := objs[|objs| - 1];
      if o.address in objIndex && objIndex[o.address] == id then Some(o)
      else ObjectAt(objs[..|objs| - 1], objIndex, id)
  }

  ghost function ObjectOf(s: Session, r: NodeReq): Option<SharedObject> {
    if r.objectId < 0 then None else ObjectAt(s.objs, s.objIndex, r.objectId)
  }

  ghost predicate IsLastAt(accesses: seq<ThreadAccess>, n: int, k: int) {
    && 0 <= k < |accesses| && accesses[k].nodeId == n
    && (forall j :: k < j < |accesses| ==> accesses[j].nodeId != n)
  }

  ghost predicate CommonLock(x: ThreadAccess, y: ThreadAccess) {
    x.isLockProtected && y.isLockProtected && x.protectingLock != "" && x.protectingLock == y.protectingLock
  }

  /** The last accesses of the object at both nodes hold the same named lock. */
  ghost predicate SameLock(o: Option<SharedObject>, a: int, b: int) {
    && o.Some?
    && exists i, j ::
         && IsLastAt(o.value.accesses, a, i) && IsLastAt(o.value.accesses, b, j)
         && CommonLock(o.value.accesses[i], o.value.accesses[j])
  }

  ghost predicate IsFirstAt(accesses: seq<ThreadAccess>, n: int, k: int) {
    && 0 <= k < |accesses| && accesses[k].nodeId == n
    && (forall j :: 0 <= j < k ==> accesses[j].nodeId != n)
  }

  /** The first access of the object at node n is a free. */
  ghost predicate FreedAt(o: Option<SharedObject>, n: int) {
    o.Some? && exists k :: IsFirstAt(o.value.accesses, n, k) && o.value.accesses[k].accessType == Free
  }

  ghost predicate Mediated(ev: Evidence, o: Option<SharedObject>, a: int, b: int) {
    Ordered(ev, a, b) || Ordered(ev, b, a) || Protected(ev, o, a, b)
  }

  ghost predicate Protected(ev: Evidence, o: Option<SharedObject>, a: int, b: int) {
    CommonExclusion(ev, a, b) || AtomicCompatible(ev, a, b) || SameLock(o, a, b)
  }

  /** A node is harmless to a region when it is ordered before or after it, or protected against some part of it. */
  ghost predicate KeptOut(ev: Evidence, o: Option<SharedObject>, region: seq<int>, c: int)
    requires region != []
  {
    || Ordered(ev, c, region[0]) || Ordered(ev, region[|region| - 1], c)
    || exists x :: x in region && Protected(ev, o, x, c)
  }

  predicate IsConflict(acc: ThreadAccess, threads: seq<int>, tid: int) {
    acc.threadId in threads && acc.threadId != tid && acc.accessType in {Write, Free} && acc.nodeId >= 0
  }

  /** The nodes where other threads of the session write or free the object, in access order. */
  ghost function Conflicts(accesses: seq<ThreadAccess>, threads: seq<int>, tid: int): seq<int> {
    if accesses == [] then []
    else
      var acc := accesses[|accesses| - 1];
      Conflicts(accesses[..|accesses| - 1], threads, tid) + (if IsConflict(acc, threads, tid) then [acc.nodeId] else [])
  }

  ghost function LeftOperands(r: NodeReq): seq<int> {
    match r.form
    case MustPrecede | MustBeMediated => r.a
    case MustBeAtomic => if r.a == [] then [] else [r.a[0]]
    case OtherRequirement => []
  }

  ghost function RightOperands(s: Session, tid: int, r: NodeReq): seq<int> {
    match r.form
    case MustPrecede | MustBeMediated => r.b
    case MustBeAtomic =>
      var o := ObjectOf(s, r);
      if o.Some? then Conflicts(o.value.accesses, s.threads, tid) else []
    case OtherRequirement => []
  }

  /** The discharge condition fails for this pair of operands. */
  ghost predicate Fails(ev: Evidence, o: Option<SharedObject>, r: NodeReq, a: int, b: int) {
    match r.form
    case MustPrecede => !Ordered(ev, a, b)
    case MustBeMediated => !Mediated(ev, o, a, b)
    case MustBeAtomic => r.a != [] && !KeptOut(ev, o, r.a, b)
    case OtherRequirement => false
  }

  ghost predicate Undischarged(ev: Evidence, s: Session, tid: int, r: NodeReq) {
    exists a, b :: a in LeftOperands(r) && b in RightOperands(s, tid, r) && Fails(ev, ObjectOf(s, r), r, a, b)
  }

  ghost predicate IsFirstFailure(ev: Evidence, o: Option<SharedObject>, r: NodeReq, left: seq<int>, right: seq<int>,
                                 i: int, j: int) {
    && 0 <= i < |left| && 0 <= j < |right| && Fails(ev, o, r, left[i], right[j])
    && (forall k, l :: 0 <= k < |left| && 0 <= l < |right| && (k < i || (k == i && l < j)) ==>
        !Fails(ev, o, r, left[k], right[l]))
  }

  ghost predicate Lifetime(o: Option<SharedObject>, form: RequirementForm, a: int, b: int) {
    FreedAt(o, b) || (form == MustBeMediated && FreedAt(o, a))
  }

  /** `c` reports requirement r of thread tid by the first operand pair that fails. */
  ghost predicate ReportsFirst(ev: Evidence, s: Session, tid: int, r: NodeReq, c: L2Candidate) {
    var o := ObjectOf(s, r);
    exists i, j :: IsFirstFailure(ev, o, r, LeftOperands(r), RightOperands(s, tid, r), i, j) &&
      c.objectId == r.objectId && c.obj == o && c.form == r.form && c.reqTid == tid &&
      c.aNode == LeftOperands(r)[i] && c.bNode == RightOperands(s, tid, r)[j] &&
      (c.lifetime <==> Lifetime(o, r.form, c.aNode, c.bNode))
  }

  ghost predicate Verdict(ev: Evidence, s: Session, tid: int, r: NodeReq, c: Option<L2Candidate>) {
    match c
    case None => !Undischarged(ev, s, tid, r)
    case Some(cand) => ReportsFirst(ev, s, tid, r, cand)
  }

  lemma ReportedIsUndischarged(ev: Evidence, s: Session, tid: int, r: NodeReq, c: L2Candidate)
    requires ReportsFirst(ev, s, tid, r, c)
    ensures Undischarged(ev, s, tid, r)
  {
  }

  // ---- The laws of discharge ----

  function Swapped(r: NodeReq): NodeReq {
    r.(a := r.b, b := r.a)
  }

  lemma SwapFails(ev: Evidence, s: Session, tid: int, r: NodeReq)
    requires r.form == MustBeMediated && Undischarged(ev, s, tid, r)
    ensures Undischarged(ev, s, tid, Swapped(r))
  {
    var o := ObjectOf(s, r);
    var a, b :| a in r.a && b in r.b && Fails(ev, o, r, a, b);
    ProtectionIsSymmetric(ev, a, b);
    assert Fails(ev, o, Swapped(r), b, a);
    assert b in LeftOperands(Swapped(r)) && a in RightOperands(s, tid, Swapped(r));
  }

  /** Mediation does not care in which order its operands are written. */
  lemma MediationIsSymmetric(ev: Evidence, s: Session, tid: int, r: NodeReq)
    requires r.form == MustBeMediated
    ensures Undischarged(ev, s, tid, r) <==> Undischarged(ev, s, tid, Swapped(r))
  {
    if Undischarged(ev, s, tid, r) {
      SwapFails(ev, s, tid, r);
    }
    if Undischarged(ev, s, tid, Swapped(r)) {
      SwapFails(ev, s, tid, Swapped(r));
    }
  }

  lemma FailsMono(ev: Evidence, ev': Evidence, o: Option<SharedObject>, r: NodeReq, a: int, b: int)
    requires Leq(ev, ev') && Fails(ev', o, r, a, b)
    ensures Fails(ev, o, r, a, b)
  {
    forall x, y
      ensures Ordered(ev, x, y) ==> Ordered(ev', x, y)
      ensures Protected(ev, o, x, y) ==> Protected(ev', o, x, y)
    {
      if Ordered(ev, x, y) {
        OrderedMono(ev, ev', x, y);
      }
      ProtectionMono(ev, ev', x, y);
    }
  }

  /** More evidence never makes a discharged requirement fail. */
  lemma UndischargedMono(ev: Evidence, ev': Evidence, s: Session, s': Session, tid: int, r: NodeReq)
    requires Leq(ev, ev') && Undischarged(ev', s', tid, r)
    requires s'.objs == s.objs && s'.objIndex == s.objIndex && s'.threads == s.threads
    ensures Undischarged(ev, s, tid, r)
  {
    var a, b :| a in LeftOperands(r) && b in RightOperands(s', tid, r) && Fails(ev', ObjectOf(s', r), r, a, b);
    FailsMono(ev, ev', ObjectOf(s, r), r, a, b);
  }

  // ---- The report of a session ----

  ghost predicate InSession(s: Session, w: (nat, nat)) {
    w.0 < |s.threads| && s.threads[w.0] in s.contracts && w.1 < |s.contracts[s.threads[w.0]].nodeReqs|
  }

  ghost function ReqAt(s: Session, w: (nat, nat)): NodeReq
    requires InSession(s, w)
  {
    s.contracts[s.threads[w.0]].nodeReqs[w.1]
  }

  ghost predicate UndischargedAt(ev: Evidence, s: Session, w: (nat, nat)) {
    InSession(s, w) && Undischarged(ev, s, s.threads[w.0], ReqAt(s, w))
  }

  predicate Before(v: (nat, nat), w: (nat, nat)) {
    v.0 < w.0 || (v.0 == w.0 && v.1 < w.1)
  }

  /** `out` reports exactly the requirements at the positions `which`, in contract order, each once. */
  ghost predicate Lists(ev: Evidence, s: Session, which: seq<(nat, nat)>, out: seq<L2Candidate>) {
    && |which| == |out|
    && (forall k :: 0 <= k < |out| ==> InSession(s, which[k]))
    && (forall k :: 0 <= k < |out| ==>
          ReportsFirst(ev, s, s.threads[which[k].0], ReqAt(s, which[k]), out[k]))
    && (forall j, k :: 0 <= j < k < |which| ==> Before(which[j], which[k]))
  }

  /** Every failing requirement before position `upTo` is listed, and nothing from there on. */
  ghost predicate CompleteTo(ev: Evidence, s: Session, which: seq<(nat, nat)>, upTo: (nat, nat)) {
    && (forall w :: UndischargedAt(ev, s, w) && Before(w, upTo) ==> w in which)
    && (forall k :: 0 <= k < |which| ==> Before(which[k], upTo))
  }

  ghost predicate IsReport(ev: Evidence, s: Session, which: seq<(nat, nat)>, out: seq<L2Candidate>) {
    Lists(ev, s, which, out) && forall w :: UndischargedAt(ev, s, w) ==> w in which
  }

  lemma ListedIffUndischarged(ev: Evidence, s: Session, which: seq<(nat, nat)>, out: seq<L2Candidate>, w: (nat, nat))
    requires IsReport(ev, s, which, out)
    ensures w in which <==> UndischargedAt(ev, s, w)
  {
    if k :| 0 <= k < |which| && which[k] == w {
      ReportedIsUndischarged(ev, s, s.threads[w.0], ReqAt(s, w), out[k]);
    }
  }

  /** A session whose contracts differ from those of s only by guarantees added. */
  ghost predicate OnlyGuaranteesAdded(s: Session, s': Session) {
    && s'.objs == s.objs && s'.threads == s.threads && s'.objIndex == s.objIndex
    && s'.contracts.Keys == s.contracts.Keys
    && (forall t :: t in s.contracts ==>
          && s'.contracts[t].nodeReqs == s.contracts[t].nodeReqs
          && (forall g :: g in s.contracts[t].nodeGuars ==> g in s'.contracts[t].nodeGuars))
  }

  ghost function SessionEvidence(s: Session, m: EdgeMap, ids: set<int>, cap: int, policy: SyncPolicy): Evidence {
    EvidenceFrom(GuarsOf(s.threads, s.contracts), m, ids, cap, policy)
  }

  lemma AddedGuaranteesAddEvidence(s: Session, s': Session, m: EdgeMap, ids: set<int>, cap: int, policy: SyncPolicy,
                                   policy': SyncPolicy)
    requires OnlyGuaranteesAdded(s, s') && PolicyLeq(policy, policy')
    ensures Leq(SessionEvidence(s, m, ids, cap, policy), SessionEvidence(s', m, ids, cap, policy'))
  {
    forall g | g in GuarsOf(s.threads, s.contracts)
      ensures g in GuarsOf(s'.threads, s'.contracts)
    {
      GuarsOfContains(s.threads, s.contracts, g);
      GuarsOfContains(s'.threads, s'.contracts, g);
    }
    MoreGuaranteesMoreEvidence(GuarsOf(s.threads, s.contracts), GuarsOf(s'.threads, s'.contracts), m, ids, cap,
      policy, policy');
  }

  /** Adding guarantees, or widening the policy, can only shrink the report of a session. */
  lemma MoreEvidenceFewerReports(s: Session, s': Session, m: EdgeMap, ids: set<int>, cap: int,
                                 policy: SyncPolicy, policy': SyncPolicy,
                                 which: seq<(nat, nat)>, out: seq<L2Candidate>,
                                 which': seq<(nat, nat)>, out': seq<L2Candidate>)
    requires OnlyGuaranteesAdded(s, s') && PolicyLeq(policy, policy')
    requires IsReport(SessionEvidence(s, m, ids, cap, policy), s, which, out)
    requires IsReport(SessionEvidence(s', m, ids, cap, policy'), s', which', out')
    ensures forall w :: w in which' ==> w in which
    ensures |out'| <= |out|
  {
    var ev, ev' := SessionEvidence(s, m, ids, cap, policy), SessionEvidence(s', m, ids, cap, policy');
    AddedGuaranteesAddEvidence(s, s', m, ids, cap, policy, policy');
    forall w | w in which'
      ensures w in which
    {
      ListedIffUndischarged(ev', s', which', out', w);
      UndischargedMono(ev, ev', s, s', s.threads[w.0], ReqAt(s, w));
      ListedIffUndischarged(ev, s, which, out, w);
    }
    DistinctSize(which);
    DistinctSize(which');
    SubsetSize(set w | w in which', set w | w in which);
  }
}
