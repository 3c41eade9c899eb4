/** Passes over a function: the order in which its nodes are processed, what each step does, what that adds up to. */
module LockPasses {
  import opened FiniteSets
  import opened Options
  import opened Paths
  import opened LockEffects

  // ---- The worklist pass over a function ----

  ghost function Universe(order: Edges, entry: int): set<int> {
    {entry} + set e | e in order :: e.1
  }

  /** Processed nodes are pairwise distinct and have queued or processed successors; the worklist is still to do. */
  ghost predicate Processing(order: Edges, entry: int, processed: seq<int>, visited: set<int>, worklist: set<int>) {
    && (forall n :: n in processed <==> n in visited)
    && (forall i, j :: 0 <= i < j < |processed| ==> processed[i] != processed[j])
    && visited !! worklist && entry in visited + worklist
    && visited + worklist <= Universe(order, entry)
    && (forall n :: n in visited + worklist ==> Reach(order, entry, n))
    && (forall e :: e in order && e.0 in visited ==> e.1 in visited + worklist)
  }

  lemma Processed(order: Edges, entry: int, processed: seq<int>, visited: set<int>, worklist: set<int>, n: int)
    requires Processing(order, entry, processed, visited, worklist) && n in worklist
    ensures Processing(order, entry, processed + [n], visited + {n},
                       worklist - {n} + (SuccessorsOf(order, n) - (visited + {n})))
    ensures Universe(order, entry) - (visited + {n}) < Universe(order, entry) - visited
  {
    OneFewer(Universe(order, entry), visited, n);
    var visited', worklist' := visited + {n}, worklist - {n} + (SuccessorsOf(order, n) - (visited + {n}));
    forall m | m in visited' + worklist'
      ensures Reach(order, entry, m) && m in Universe(order, entry)
    {
      if m !in visited && m !in worklist {
        assert (n, m) in order;
        ReachStep(order, entry, n, m);
      }
    }
    forall e | e in order && e.0 in visited'
      ensures e.1 in visited' + worklist'
    {
      if e.0 == n {
        assert e.1 in SuccessorsOf(order, n);
      }
    }
  }

  lemma StartProcessing(order: Edges, entry: int)
    ensures Processing(order, entry, [], {}, {entry})
  {
    ReachSelf(order, entry);
  }

  lemma KeysGrow(visited: set<int>, worklist: set<int>, next: set<int>, node: int)
    requires node in worklist
    ensures visited + worklist + next == visited + {node} + (worklist - {node} + (next - (visited + {node})))
  {
  }

  lemma AllProcessed(order: Edges, entry: int, processed: seq<int>, visited: set<int>)
    requires Processing(order, entry, processed, visited, {})
    ensures forall n :: n in processed <==> Reach(order, entry, n)
  {
    SearchIsReach(order, visited, entry);
  }

  // ---- A pass and its steps ----

  /** The state between two steps. `origin` is where each lock was created. */
  datatype Snapshot = Snapshot(locks: seq<Lock>, origin: seq<int>, sets: LockSetMap)

  /** The nodes of a function in the order they were processed, and the states before, between and after. */
  datatype Pass = Pass(processed: seq<int>, trail: seq<Snapshot>)

  function Elements(s: seq<int>): set<int> {
    set x | x in s
  }

  /** One step: the node's effect on locks and lockset, then its propagation; new locks originate at the node. */
  ghost predicate StepOf(c: Code, n: int, visited: set<int>, s: Snapshot, s': Snapshot) {
    && n in s.sets
    && |s'.origin| == |s'.locks| && |s.origin| <= |s'.origin| && s'.origin[..|s.origin|] == s.origin
    && (forall l :: |s.origin| <= l < |s'.origin| ==> s'.origin[l] == n)
    && var st := Effect(LockState(s.locks, s.sets[n]), KindIn(c, n), CallIn(c, n), c.alias, n);
       s'.locks == st.locks && PassedOn(s.sets[n := st.held], s'.sets, n, SuccessorsOf(c.order, n), visited)
  }

  /** A pass from s so far: it starts at the entry with no lock held, goes on to nodes behind processed ones, and
      each step is one of the node processed. */
  ghost predicate Recorded(c: Code, entry: int, s: Snapshot, p: Pass) {
    && |p.trail| == |p.processed| + 1
    && p.trail[0] == Snapshot(s.locks, s.origin, s.sets[entry := []])
    && (forall i :: 0 <= i < |p.processed| ==>
          StepOf(c, p.processed[i], Elements(p.processed[..i + 1]), p.trail[i], p.trail[i + 1]))
    && (forall i :: 0 <= i < |p.processed| ==> FoundBy(c, entry, p.processed, i))
    && (forall i, j :: 0 <= i < j < |p.processed| ==> p.processed[i] != p.processed[j])
  }

  /** Node i of the pass is the entry, processed first, or a successor of a node processed before it. */
  ghost predicate FoundBy(c: Code, entry: int, processed: seq<int>, i: nat)
    requires i < |processed|
  {
    if i == 0 then processed[0] == entry
    else exists j :: 0 <= j < i && (processed[j], processed[i]) in c.order
  }

  function Last(p: Pass): Snapshot
    requires p.trail != []
  {
    p.trail[|p.trail| - 1]
  }

  ghost predicate IsPass(c: Code, entry: int, s: Snapshot, p: Pass, s': Snapshot) {
    && Recorded(c, entry, s, p) && Last(p) == s'
    && forall n :: n in p.processed <==> Reach(c.order, entry, n)
  }

  /** Queued nodes are the entry, or behind a processed one. */
  ghost predicate Queued(c: Code, entry: int, processed: seq<int>, worklist: set<int>) {
    forall n :: n in worklist ==>
      if processed == [] then n == entry else exists j :: 0 <= j < |processed| && (processed[j], n) in c.order
  }

  lemma QueueMore(c: Code, entry: int, processed: seq<int>, worklist: set<int>, n: int, visited: set<int>)
    requires Queued(c, entry, processed, worklist) && n in worklist && (processed == [] ==> worklist == {entry})
    ensures Queued(c, entry, processed + [n], worklist - {n} + (SuccessorsOf(c.order, n) - visited))
  {
    var processed' := processed + [n];
    forall m | m in worklist - {n} + (SuccessorsOf(c.order, n) - visited)
      ensures exists j :: 0 <= j < |processed'| && (processed'[j], m) in c.order
    {
      if m in SuccessorsOf(c.order, n) {
        assert (processed'[|processed|], m) in c.order;
      } else {
        var j :| 0 <= j < |processed| && (processed[j], m) in c.order;
        assert (processed'[j], m) in c.order;
      }
    }
  }

  lemma StartRecording(c: Code, entry: int, s: Snapshot)
    ensures Recorded(c, entry, s, Pass([], [Snapshot(s.locks, s.origin, s.sets[entry := []])]))
    ensures Queued(c, entry, [], {entry})
  {
  }

  lemma RecordStep(c: Code, entry: int, s: Snapshot, p: Pass, worklist: set<int>, n: int, visited: set<int>,
                   s': Snapshot)
    requires Recorded(c, entry, s, p) && Queued(c, entry, p.processed, worklist) && n in worklist
    requires n !in p.processed && visited == Elements(p.processed) + {n}
    requires StepOf(c, n, visited, Last(p), s')
    ensures Recorded(c, entry, s, Pass(p.processed + [n], p.trail + [s']))
  {
    hide StepOf;
    var processed', trail' := p.processed + [n], p.trail + [s'];
    var k := |p.processed|;
    assert Elements(processed'[..k + 1]) == visited by {
      assert processed'[..k + 1] == processed';
    }
    forall i | 0 <= i < |processed'|
      ensures StepOf(c, processed'[i], Elements(processed'[..i + 1]), trail'[i], trail'[i + 1])
      ensures FoundBy(c, entry, processed', i)
    {
      if i < k {
        assert processed'[..i + 1] == p.processed[..i + 1];
        assert FoundBy(c, entry, p.processed, i);
        if i > 0 {
          var j :| 0 <= j < i && (p.processed[j], p.processed[i]) in c.order;
          assert (processed'[j], processed'[i]) in c.order;
        }
      } else if k > 0 {
        var j :| 0 <= j < k && (p.processed[j], n) in c.order;
        assert (processed'[j], processed'[k]) in c.order;
      }
    }
  }

  // ---- Which locks a pass creates ----

  /** Locks acquired at `added` join, none is lost, and any new release is one of `releasers` and aliases its
      acquire. */
  ghost predicate Changed(before: seq<Lock>, after: seq<Lock>, added: seq<int>, releasers: set<int>,
                          alias: set<(int, int)>)
  {
    && |after| == |before| + |added|
    && (forall k :: 0 <= k < |added| ==> after[|before| + k].acquire == added[k])
    && Grows(before, after)
    && (forall l :: 0 <= l < |after| && after[l].release.Some? ==>
          (l < |before| && before[l].release == after[l].release) ||
          (after[l].release.value in releasers && (after[l].acquire, after[l].release.value) in alias))
  }

  lemma AcquireChanges(st: LockState, alias: set<(int, int)>, acquire: int)
    ensures Changed(st.locks, Acquired(st, acquire).locks, [acquire], {}, alias)
  {
  }

  lemma ReleaseChanges(st: LockState, alias: set<(int, int)>, release: int)
    ensures Changed(st.locks, Released(st, alias, release).locks, [], {release}, alias)
  {
    ReleaseClosesLatest(st, alias, release);
  }

  lemma NothingChanges(locks: seq<Lock>, alias: set<(int, int)>)
    ensures Changed(locks, locks, [], {}, alias)
  {
  }

  lemma ChangedTrans(a: seq<Lock>, b: seq<Lock>, d: seq<Lock>, x: seq<int>, y: seq<int>, r: set<int>, q: set<int>,
                     alias: set<(int, int)>)
    requires Changed(a, b, x, r, alias) && Changed(b, d, y, q, alias)
    ensures Changed(a, d, x + y, r + q, alias)
  {
    forall k | 0 <= k < |x + y|
      ensures d[|a| + k].acquire == (x + y)[k]
    {
      if k >= |x| {
        assert d[|b| + (k - |x|)].acquire == y[k - |x|];
      }
    }
  }

  /** What a node and its callee acquire and release. */
  ghost function OwnAdded(c: Code, n: int): seq<int> {
    if n in c.kinds && c.kinds[n] == Acquire then [n] else []
  }

  ghost function CallAdded(c: Code, n: int): seq<int> {
    if n in c.calls && c.calls[n].AcquiresAt? then [c.calls[n].acquire] else []
  }

  ghost function OwnReleasers(c: Code, n: int): set<int> {
    if n in c.kinds && c.kinds[n] == Release then {n} else {}
  }

  ghost function CallReleasers(c: Code, n: int): set<int> {
    if n in c.calls && c.calls[n].ReleasesAt? then {c.calls[n].release} else {}
  }

  ghost predicate ChangedBy(c: Code, n: int, before: seq<Lock>, after: seq<Lock>) {
    Changed(before, after, OwnAdded(c, n) + CallAdded(c, n), OwnReleasers(c, n) + CallReleasers(c, n), c.alias)
  }

  lemma EffectChanges(c: Code, n: int, st: LockState)
    ensures ChangedBy(c, n, st.locks, Effect(st, KindIn(c, n), CallIn(c, n), c.alias, n).locks)
  {
    hide Changed, Acquired, Released;
    var own := Effect(st, KindIn(c, n), NoEffect, c.alias, n);
    var all := Effect(st, KindIn(c, n), CallIn(c, n), c.alias, n);
    NothingChanges(st.locks, c.alias);
    NothingChanges(own.locks, c.alias);
    AcquireChanges(st, c.alias, n);
    ReleaseChanges(st, c.alias, n);
    assert Changed(st.locks, own.locks, OwnAdded(c, n), OwnReleasers(c, n), c.alias);
    match CallIn(c, n) {
      case NoEffect =>
      case AcquiresAt(a) => AcquireChanges(own, c.alias, a);
      case ReleasesAt(r) => ReleaseChanges(own, c.alias, r);
    }
    assert Changed(own.locks, all.locks, CallAdded(c, n), CallReleasers(c, n), c.alias);
    ChangedTrans(st.locks, own.locks, all.locks, OwnAdded(c, n), CallAdded(c, n),
                 OwnReleasers(c, n), CallReleasers(c, n), c.alias);
  }

  /** What one step does to the locks, in terms of what the node and its callee are. */
  lemma StepLocks(c: Code, n: int, visited: set<int>, s: Snapshot, s': Snapshot)
    requires StepOf(c, n, visited, s, s')
    ensures ChangedBy(c, n, s.locks, s'.locks)
  {
    EffectChanges(c, n, LockState(s.locks, s.sets[n]));
    hide Changed, Effect, PassedOn;
  }

  lemma StepAt(c: Code, entry: int, s: Snapshot, p: Pass, i: nat)
    requires Recorded(c, entry, s, p) && i < |p.processed|
    ensures StepOf(c, p.processed[i], Elements(p.processed[..i + 1]), p.trail[i], p.trail[i + 1])
  {
  }

  lemma ChangedAt(c: Code, entry: int, s: Snapshot, p: Pass, i: nat)
    requires Recorded(c, entry, s, p) && i < |p.processed|
    ensures var n := p.processed[i];
            ChangedBy(c, n, p.trail[i].locks, p.trail[i + 1].locks)
  {
    StepAt(c, entry, s, p, i);
    hide StepOf;
    StepLocks(c, p.processed[i], Elements(p.processed[..i + 1]), p.trail[i], p.trail[i + 1]);
  }

  /** The lock was released at the node, or by the callee of the node, and that release aliases its acquire. */
  ghost predicate IsReleaseOf(c: Code, n: int, lock: Lock) {
    && lock.release.Some? && (lock.acquire, lock.release.value) in c.alias
    && ((n in c.kinds && c.kinds[n] == Release && lock.release.value == n)
        || (n in c.calls && c.calls[n] == ReleasesAt(lock.release.value)))
  }

  /** A lock created at node n: by the node itself, or by the callee of the node. */
  ghost predicate CreatedAt(c: Code, n: int, acquire: int) {
    || (n in c.kinds && c.kinds[n] == Acquire && acquire == n)
    || (n in c.calls && c.calls[n] == AcquiresAt(acquire))
  }

  ghost function Acquirers(c: Code, ns: seq<int>): set<int> {
    set n | n in ns && n in c.kinds && c.kinds[n] == Acquire
  }

  ghost function Callers(c: Code, ns: seq<int>): set<int> {
    set n | n in ns && n in c.calls && c.calls[n].AcquiresAt?
  }

  /** After the nodes ns the locks beyond the first `base` are exactly those created there. */
  ghost predicate Created(c: Code, base: nat, ns: seq<int>, s: Snapshot) {
    && base <= |s.locks| == |s.origin|
    && |s.locks| == base + |Acquirers(c, ns)| + |Callers(c, ns)|
    && (forall l :: base <= l < |s.locks| ==> s.origin[l] in ns && CreatedAt(c, s.origin[l], s.locks[l].acquire))
    && (forall n, a :: n in ns && CreatedAt(c, n, a) ==> HasNewLock(base, s, n, a))
  }

  ghost predicate HasNewLock(base: nat, s: Snapshot, n: int, acquire: int) {
    exists l :: base <= l < |s.locks| && l < |s.origin| && s.origin[l] == n && s.locks[l].acquire == acquire
  }

  lemma AcquirersMore(c: Code, ns: seq<int>, n: int)
    requires n !in ns
    ensures |Acquirers(c, ns + [n])| == |Acquirers(c, ns)| + |OwnAdded(c, n)|
  {
    var extra := if n in c.kinds && c.kinds[n] == Acquire then {n} else {};
    assert Acquirers(c, ns + [n]) == Acquirers(c, ns) + extra;
  }

  lemma CallersMore(c: Code, ns: seq<int>, n: int)
    requires n !in ns
    ensures |Callers(c, ns + [n])| == |Callers(c, ns)| + |CallAdded(c, n)|
  {
    var extra := if n in c.calls && c.calls[n].AcquiresAt? then {n} else {};
    assert Callers(c, ns + [n]) == Callers(c, ns) + extra;
  }

  lemma OriginKept(s: Snapshot, s': Snapshot, l: nat)
    requires l < |s.origin| <= |s'.origin| && s'.origin[..|s.origin|] == s.origin
    ensures s'.origin[l] == s.origin[l]
  {
    assert s'.origin[l] == s'.origin[..|s.origin|][l];
  }

  lemma NewLockComesFrom(c: Code, base: nat, ns: seq<int>, n: int, s: Snapshot, s': Snapshot, l: nat)
    requires base <= |s.locks| == |s.origin| <= |s'.origin| == |s'.locks| && base <= l < |s'.locks|
    requires s'.origin[..|s.origin|] == s.origin && forall k :: |s.origin| <= k < |s'.origin| ==> s'.origin[k] == n
    requires forall k :: base <= k < |s.locks| ==> s.origin[k] in ns && CreatedAt(c, s.origin[k], s.locks[k].acquire)
    requires ChangedBy(c, n, s.locks, s'.locks)
    ensures s'.origin[l] in ns + [n] && CreatedAt(c, s'.origin[l], s'.locks[l].acquire)
  {
    if l < |s.locks| {
      OriginKept(s, s', l);
    } else {
      var k := l - |s.locks|;
      assert s'.locks[|s.locks| + k].acquire == (OwnAdded(c, n) + CallAdded(c, n))[k];
    }
  }

  lemma NewLockIsThere(c: Code, base: nat, n: int, s: Snapshot, s': Snapshot, a: int)
    requires base <= |s.locks| == |s.origin| <= |s'.origin| == |s'.locks|
    requires forall k :: |s.origin| <= k < |s'.origin| ==> s'.origin[k] == n
    requires ChangedBy(c, n, s.locks, s'.locks)
    requires CreatedAt(c, n, a)
    ensures HasNewLock(base, s', n, a)
  {
    var added := OwnAdded(c, n) + CallAdded(c, n);
    var k := if n in c.kinds && c.kinds[n] == Acquire && a == n then 0 else |added| - 1;
    assert added[k] == a && s'.locks[|s.locks| + k].acquire == added[k];
  }

  lemma OldLockIsThere(base: nat, m: int, s: Snapshot, s': Snapshot, a: int)
    requires |s.locks| == |s.origin| <= |s'.origin| == |s'.locks| && s'.origin[..|s.origin|] == s.origin
    requires Grows(s.locks, s'.locks) && HasNewLock(base, s, m, a)
    ensures HasNewLock(base, s', m, a)
  {
    var l :| base <= l < |s.locks| && l < |s.origin| && s.origin[l] == m && s.locks[l].acquire == a;
    OriginKept(s, s', l);
  }

  lemma CreatedMore(c: Code, base: nat, ns: seq<int>, n: int, visited: set<int>, s: Snapshot, s': Snapshot)
    requires Created(c, base, ns, s) && StepOf(c, n, visited, s, s') && n !in ns
    ensures Created(c, base, ns + [n], s')
  {
    StepLocks(c, n, visited, s, s');
    AcquirersMore(c, ns, n);
    CallersMore(c, ns, n);
    hide Acquirers, Callers, Effect, PassedOn, CreatedAt, HasNewLock;
    forall l | base <= l < |s'.locks|
      ensures s'.origin[l] in ns + [n] && CreatedAt(c, s'.origin[l], s'.locks[l].acquire)
    {
      NewLockComesFrom(c, base, ns, n, s, s', l);
    }
    forall m, a | m in ns + [n] && CreatedAt(c, m, a)
      ensures HasNewLock(base, s', m, a)
    {
      if m == n {
        NewLockIsThere(c, base, n, s, s', a);
      } else {
        OldLockIsThere(base, m, s, s', a);
      }
    }
  }

  /** The locks a pass adds are exactly one for each acquiring node and one for each call of an acquiring callee. */
  lemma {:induction false} PassCreates(c: Code, entry: int, s: Snapshot, p: Pass, i: nat)
    requires Recorded(c, entry, s, p) && i <= |p.processed| && |s.locks| == |s.origin|
    ensures Created(c, |s.locks|, p.processed[..i], p.trail[i])
    decreases i
  {
    if i > 0 {
      var ns := p.processed[..i - 1];
      PassCreates(c, entry, s, p, i - 1);
      assert p.processed[..i] == ns + [p.processed[i - 1]];
      assert StepOf(c, p.processed[i - 1], Elements(p.processed[..i - 1 + 1]), p.trail[i - 1], p.trail[i - 1 + 1]);
      hide StepOf, Created;
      CreatedMore(c, |s.locks|, ns, p.processed[i - 1], Elements(p.processed[..i]), p.trail[i - 1], p.trail[i]);
    } else {
      assert p.processed[..0] == [] && Acquirers(c, []) == {} && Callers(c, []) == {};
    }
  }

  // ---- Which locks a pass releases ----

  lemma TrailLength(c: Code, entry: int, s: Snapshot, p: Pass)
    requires Recorded(c, entry, s, p)
    ensures |p.trail| == |p.processed| + 1
  {
  }

  lemma GrowsAt(c: Code, entry: int, s: Snapshot, p: Pass, i: nat)
    requires Recorded(c, entry, s, p) && i < |p.processed|
    ensures |p.trail| == |p.processed| + 1 && Grows(p.trail[i].locks, p.trail[i + 1].locks)
  {
    ChangedAt(c, entry, s, p, i);
    hide StepOf, Grows, FoundBy;
  }

  lemma GrowsSelf(locks: seq<Lock>)
    ensures Grows(locks, locks)
  {
  }

  ghost predicate GrowsInto(trail: seq<Snapshot>, k: nat) {
    k + 1 < |trail| && Grows(trail[k].locks, trail[k + 1].locks)
  }

  lemma {:induction false} GrowsAlong(trail: seq<Snapshot>, i: nat, j: nat)
    requires i <= j < |trail| && forall k :: i <= k < j ==> GrowsInto(trail, k)
    ensures Grows(trail[i].locks, trail[j].locks)
    decreases j
  {
    hide Grows;
    if i < j {
      GrowsAlong(trail, i, j - 1);
      assert GrowsInto(trail, j - 1);
      GrowsTrans(trail[i].locks, trail[j - 1].locks, trail[j].locks);
    } else {
      GrowsSelf(trail[i].locks);
    }
  }

  /** Locks only gain releases along a pass. */
  lemma PassGrows(c: Code, entry: int, s: Snapshot, p: Pass, i: nat, j: nat)
    requires Recorded(c, entry, s, p) && i <= j <= |p.processed|
    ensures i <= j < |p.trail| && Grows(p.trail[i].locks, p.trail[j].locks)
  {
    hide StepOf, Grows, FoundBy;
    forall k: nat | i <= k < j
      ensures GrowsInto(p.trail, k)
    {
      GrowsAt(c, entry, s, p, k);
    }
    GrowsAlong(p.trail, i, j);
  }

  /** Lock l is the last one held that the release at n can match. */
  ghost predicate LatestMatch(c: Code, s: Snapshot, n: int, l: nat) {
    && n in s.sets
    && exists k :: 0 <= k < |s.sets[n]| && s.sets[n][k] == l && Matches(s.locks, c.alias, l, n)
         && forall m :: k < m < |s.sets[n]| ==> !Matches(s.locks, c.alias, s.sets[n][m], n)
  }

  lemma StepReleases(c: Code, n: int, visited: set<int>, t: Snapshot, t': Snapshot, k: nat) returns (l: nat)
    requires StepOf(c, n, visited, t, t') && n in c.kinds && c.kinds[n] == Release
    requires k < |t.sets[n]| && Matches(t.locks, c.alias, t.sets[n][k], n)
    ensures LatestMatch(c, t, n, l) && l < |t'.locks| && l < |t.locks|
    ensures t'.locks[l] == Lock(t.locks[l].acquire, Some(n))
  {
    var st := LockState(t.locks, t.sets[n]);
    var own := Released(st, c.alias, n);
    ReleaseClosesLatest(st, c.alias, n);
    var j :| 0 <= j < |st.held| && Matches(st.locks, c.alias, st.held[j], n)
      && (forall m :: j < m < |st.held| ==> !Matches(st.locks, c.alias, st.held[m], n))
      && own.locks[st.held[j]] == Lock(st.locks[st.held[j]].acquire, Some(n));
    l := st.held[j];
    EffectGrows(own, OtherNode, CallIn(c, n), c.alias, n);
    hide Released, PassedOn;
    assert t'.locks == Effect(own, OtherNode, CallIn(c, n), c.alias, n).locks;
  }

  /** A processed release closes the latest matching lock of its incoming lockset, if there is one, for good. */
  lemma ReleaseTakesPlace(c: Code, entry: int, s: Snapshot, p: Pass, s': Snapshot, i: nat, k: nat) returns (l: nat)
    requires IsPass(c, entry, s, p, s') && i < |p.processed|
    requires var n, t := p.processed[i], p.trail[i];
             && n in c.kinds && c.kinds[n] == Release
             && n in t.sets && k < |t.sets[n]| && t.sets[n][k] < |t.locks|
             && t.locks[t.sets[n][k]].release.None? && (t.locks[t.sets[n][k]].acquire, n) in c.alias
    ensures var n, t := p.processed[i], p.trail[i];
            && LatestMatch(c, t, n, l) && l < |t.locks| && l < |s'.locks|
            && s'.locks[l] == Lock(t.locks[l].acquire, Some(n))
  {
    StepAt(c, entry, s, p, i);
    l := StepReleases(c, p.processed[i], Elements(p.processed[..i + 1]), p.trail[i], p.trail[i + 1], k);
    hide StepOf, LatestMatch;
    PassGrows(c, entry, s, p, i + 1, |p.processed|);
    hide Recorded;
  }

  /** Nothing else releases a lock: each release made during the pass was made by a processed node. */
  lemma {:induction false} PassReleases(c: Code, entry: int, s: Snapshot, p: Pass, i: nat, l: nat)
    requires Recorded(c, entry, s, p) && i <= |p.processed| && l < |p.trail[i].locks|
    requires p.trail[i].locks[l].release.Some?
    ensures (l < |s.locks| && s.locks[l].release == p.trail[i].locks[l].release) ||
            exists k :: 0 <= k < i && IsReleaseOf(c, p.processed[k], p.trail[i].locks[l])
    decreases i
  {
    TrailLength(c, entry, s, p);
    if i > 0 {
      ChangedAt(c, entry, s, p, i - 1);
      hide Recorded;
      var t, t' := p.trail[i - 1], p.trail[i];
      if l < |t.locks| && t.locks[l].release == t'.locks[l].release {
        PassReleases(c, entry, s, p, i - 1, l);
        assert t'.locks[l] == t.locks[l];
      } else {
        ReleasedByNode(c, p.processed[i - 1], t.locks, t'.locks, l);
      }
    }
  }

  lemma ReleasedByNode(c: Code, n: int, before: seq<Lock>, after: seq<Lock>, l: nat)
    requires ChangedBy(c, n, before, after)
    requires l < |after| && after[l].release.Some? && !(l < |before| && before[l].release == after[l].release)
    ensures IsReleaseOf(c, n, after[l])
  {
  }

  // ---- What a pass adds up to ----

  function Now(p: Pass): Snapshot {
    if p.trail == [] then Snapshot([], [], map[]) else Last(p)
  }

  lemma ElementsMore(s: seq<int>, x: int)
    ensures Elements(s + [x]) == Elements(s) + {x}
  {
  }

  lemma OriginAlong(c: Code, entry: int, s: Snapshot, p: Pass, i: nat)
    requires Recorded(c, entry, s, p) && i <= |p.processed| && |s.locks| == |s.origin|
    ensures i < |p.trail| && s.origin <= p.trail[i].origin
    decreases i
  {
    TrailLength(c, entry, s, p);
    if i > 0 {
      OriginAlong(c, entry, s, p, i - 1);
      StepAt(c, entry, s, p, i - 1);
      hide Recorded, Effect, PassedOn;
      assert p.trail[i].origin[..|p.trail[i - 1].origin|] == p.trail[i - 1].origin;
    }
  }

  /** One lock for each acquiring node and each call of an acquiring callee; no release but those of the nodes. */
  lemma PassAddsUp(c: Code, entry: int, s: Snapshot, p: Pass, s': Snapshot)
    requires Recorded(c, entry, s, p) && Now(p) == s' && |s.locks| == |s.origin|
    requires forall n :: n in p.processed <==> Reach(c.order, entry, n)
    ensures IsPass(c, entry, s, p, s') && Grows(s.locks, s'.locks) && s.origin <= s'.origin
    ensures |s'.locks| == |s'.origin|
    ensures |s'.locks| == |s.locks| + |set n | n in p.processed && n in c.kinds && c.kinds[n] == Acquire|
                          + |set n | n in p.processed && n in c.calls && c.calls[n].AcquiresAt?|
    ensures forall l :: |s.locks| <= l < |s'.locks| ==>
              Reach(c.order, entry, s'.origin[l]) && CreatedAt(c, s'.origin[l], s'.locks[l].acquire)
    ensures forall n, a :: Reach(c.order, entry, n) && CreatedAt(c, n, a) ==> HasNewLock(|s.locks|, s', n, a)
    ensures forall l :: 0 <= l < |s'.locks| && s'.locks[l].release.Some? ==>
              (l < |s.locks| && s.locks[l].release == s'.locks[l].release) ||
              exists n :: Reach(c.order, entry, n) && IsReleaseOf(c, n, s'.locks[l])
  {
    hide StepOf, FoundBy, Reach, CreatedAt, HasNewLock, IsReleaseOf, Grows;
    var i := |p.processed|;
    TrailLength(c, entry, s, p);
    PassCreates(c, entry, s, p, i);
    PassGrows(c, entry, s, p, 0, i);
    OriginAlong(c, entry, s, p, i);
    assert p.processed[..i] == p.processed;
    forall l: nat | l < |s'.locks| && s'.locks[l].release.Some?
      ensures (l < |s.locks| && s.locks[l].release == s'.locks[l].release) ||
              exists n :: Reach(c.order, entry, n) && IsReleaseOf(c, n, s'.locks[l])
    {
      PassReleases(c, entry, s, p, i, l);
      if k :| 0 <= k < i && IsReleaseOf(c, p.processed[k], p.trail[i].locks[l]) {
        assert p.processed[k] in p.processed;
      }
    }
  }

  lemma NewLocksMean(s: Snapshot, s': Snapshot)
    requires |s'.locks| == |s'.origin|
    ensures forall n, a :: HasNewLock(|s.locks|, s', n, a) <==>
              exists l :: |s.locks| <= l < |s'.locks| && s'.origin[l] == n && s'.locks[l].acquire == a
  {
  }

  /** New locks stay new locks. */
  lemma NewLocksKept(c: Code, s: Snapshot, t: Snapshot, s': Snapshot)
    requires |t.locks| == |t.origin| && |s'.locks| == |s'.origin| && t.origin <= s'.origin && Grows(t.locks, s'.locks)
    ensures forall n, a :: HasNewLock(|s.locks|, t, n, a) ==> HasNewLock(|s.locks|, s', n, a)
  {
    forall n, a | HasNewLock(|s.locks|, t, n, a)
      ensures HasNewLock(|s.locks|, s', n, a)
    {
      OldLockIsThere(|s.locks|, n, t, s', a);
    }
  }

  lemma NewLocksFound(c: Code, entry: int, s: Snapshot, t: Snapshot, s': Snapshot)
    requires |s.locks| <= |t.locks| && |s'.locks| == |s'.origin|
    requires forall n :: Reach(c.order, entry, n) && n in c.kinds && c.kinds[n] == Acquire ==>
               exists l :: |t.locks| <= l < |s'.locks| && s'.origin[l] == n && s'.locks[l].acquire == n
    ensures forall n :: Reach(c.order, entry, n) && n in c.kinds && c.kinds[n] == Acquire ==>
              HasNewLock(|s.locks|, s', n, n)
  {
    hide Reach;
  }

  // ---- The state of the worklist loop ----

  /** The pass so far, the nodes it has processed, and the ones still to do. */
  ghost predicate Working(c: Code, entry: int, s: Snapshot, p: Pass, now: Snapshot, visited: set<int>,
                          worklist: set<int>)
  {
    && Processing(c.order, entry, p.processed, visited, worklist) && visited == Elements(p.processed)
    && Recorded(c, entry, s, p) && Now(p) == now && Queued(c, entry, p.processed, worklist)
    && now.sets.Keys == s.sets.Keys + (visited + worklist)
    && (p.processed == [] ==> worklist == {entry})
  }

  lemma StartWorking(c: Code, entry: int, s: Snapshot)
    ensures var now := Snapshot(s.locks, s.origin, s.sets[entry := []]);
            Working(c, entry, s, Pass([], [now]), now, {}, {entry})
  {
    StartProcessing(c.order, entry);
    StartRecording(c, entry, s);
  }

  lemma WorkingNode(c: Code, entry: int, s: Snapshot, p: Pass, now: Snapshot, visited: set<int>, worklist: set<int>,
                    n: int)
    requires Working(c, entry, s, p, now, visited, worklist) && n in worklist
    ensures n in now.sets && Universe(c.order, entry) - (visited + {n}) < Universe(c.order, entry) - visited
  {
    Processed(c.order, entry, p.processed, visited, worklist, n);
    hide Recorded, Queued, Processing;
  }

  lemma WorkStep(c: Code, entry: int, s: Snapshot, p: Pass, t: Snapshot, visited: set<int>, worklist: set<int>, n: int,
                 t': Snapshot)
    requires Working(c, entry, s, p, t, visited, worklist) && n in worklist
    requires StepOf(c, n, visited + {n}, t, t') && t'.sets.Keys == t.sets.Keys + SuccessorsOf(c.order, n)
    ensures Working(c, entry, s, Pass(p.processed + [n], p.trail + [t']), t', visited + {n},
                    worklist - {n} + (SuccessorsOf(c.order, n) - (visited + {n})))
  {
    hide StepOf, SuccessorsOf;
    assert n !in p.processed;
    Processed(c.order, entry, p.processed, visited, worklist, n);
    KeysGrow(visited, worklist, SuccessorsOf(c.order, n), n);
    QueueMore(c, entry, p.processed, worklist, n, visited + {n});
    TrailLength(c, entry, s, p);
    RecordStep(c, entry, s, p, worklist, n, visited + {n}, t');
    ElementsMore(p.processed, n);
    hide Recorded, Queued, Processing, Elements;
  }

  lemma DoneWorking(c: Code, entry: int, s: Snapshot, p: Pass, now: Snapshot, visited: set<int>)
    requires Working(c, entry, s, p, now, visited, {})
    ensures Recorded(c, entry, s, p) && Now(p) == now
    ensures forall n :: n in p.processed <==> Reach(c.order, entry, n)
    ensures forall n :: n in now.sets <==> n in s.sets || Reach(c.order, entry, n)
  {
    AllProcessed(c.order, entry, p.processed, visited);
    hide Recorded, Queued, Reach;
  }

  /** The passes of several functions, one after the other. */
  ghost predicate ArePasses(c: Code, entries: seq<int>, s: Snapshot, passes: seq<Pass>, s': Snapshot)
    decreases |entries|
  {
    && |passes| == |entries|
    && if entries == [] then s == s'
       else
         var n := |entries| - 1;
         exists t :: ArePasses(c, entries[..n], s, passes[..n], t) && IsPass(c, entries[n], t, passes[n], s')
  }

  lemma NoPasses(c: Code, s: Snapshot)
    ensures ArePasses(c, [], s, [], s)
  {
  }

  lemma OnePassMore(c: Code, entries: seq<int>, k: nat, s: Snapshot, passes: seq<Pass>, t: Snapshot, p: Pass,
                    s': Snapshot)
    requires k < |entries| && ArePasses(c, entries[..k], s, passes, t) && IsPass(c, entries[k], t, p, s')
    ensures ArePasses(c, entries[..k + 1], s, passes + [p], s')
  {
    hide IsPass;
    assert entries[..k + 1][..k] == entries[..k] && (passes + [p])[..k] == passes;
  }

  // ---- A straight line ----

  /** The nodes of the line have no other successors than the next one. */
  ghost predicate IsLine(c: Code, line: seq<int>) {
    && (forall i, j :: 0 <= i < j < |line| ==> line[i] != line[j])
    && (forall i, n :: 0 <= i < |line| ==> ((line[i], n) in c.order <==> i + 1 < |line| && n == line[i + 1]))
  }

  /** It acquires at its first node, releases that lock at its last, and does nothing to locks in between. */
  ghost predicate LocksOnce(c: Code, line: seq<int>) {
    && |line| >= 2 && KindIn(c, line[0]) == Acquire && KindIn(c, line[|line| - 1]) == Release
    && (line[0], line[|line| - 1]) in c.alias
    && (forall i :: 0 < i < |line| - 1 ==> KindIn(c, line[i]) == OtherNode)
    && (forall i :: 0 <= i < |line| ==> CallIn(c, line[i]) == NoEffect)
  }

  lemma {:induction false} LineInOrder(c: Code, line: seq<int>, s: Snapshot, p: Pass, i: nat)
    requires line != [] && IsLine(c, line) && Recorded(c, line[0], s, p) && i < |p.processed|
    ensures i < |line| && forall k :: 0 <= k <= i ==> p.processed[k] == line[k]
  {
    assert FoundBy(c, line[0], p.processed, i);
    if i > 0 {
      LineInOrder(c, line, s, p, i - 1);
      var j :| 0 <= j < i && (p.processed[j], p.processed[i]) in c.order;
      assert p.processed[j] == line[j];
      var k := j + 1;
      assert p.processed[k] == line[k];
    }
  }

  lemma {:induction false} LineReached(c: Code, line: seq<int>, i: nat)
    requires IsLine(c, line) && i < |line|
    ensures Reach(c.order, line[0], line[i])
  {
    if i == 0 {
      ReachSelf(c.order, line[0]);
    } else {
      LineReached(c, line, i - 1);
      ReachStep(c.order, line[0], line[i - 1], line[i]);
    }
  }

  lemma LineProcessed(c: Code, line: seq<int>, s: Snapshot, p: Pass, s': Snapshot)
    requires line != [] && IsLine(c, line) && IsPass(c, line[0], s, p, s')
    ensures p.processed == line
  {
    if p.processed != [] {
      LineInOrder(c, line, s, p, |p.processed| - 1);
    }
    LineReached(c, line, |line| - 1);
    var k :| 0 <= k < |p.processed| && p.processed[k] == line[|line| - 1];
    assert p.processed[k] == line[k];
  }

  /** Before node i > 0 of the line is processed, the new lock is the only one held at it and at the nodes before. */
  ghost predicate HeldAlong(line: seq<int>, s: Snapshot, t: Snapshot, i: nat)
    requires line != []
  {
    && t.locks == s.locks + [Lock(line[0], None)]
    && (forall k :: 0 <= k <= i && k < |line| ==> line[k] in t.sets && t.sets[line[k]] == [|s.locks|])
  }

  lemma LineStep(c: Code, line: seq<int>, t: Snapshot, t': Snapshot, visited: set<int>, i: nat, st: LockState)
    requires IsLine(c, line) && i < |line| && StepOf(c, line[i], visited, t, t')
    requires line[i] in t.sets
    requires st == Effect(LockState(t.locks, t.sets[line[i]]), KindIn(c, line[i]), CallIn(c, line[i]), c.alias, line[i])
    requires visited == Elements(line[..i + 1])
    ensures t'.locks == st.locks && line[i] in t'.sets && t'.sets[line[i]] == st.held
    ensures i + 1 < |line| ==> line[i + 1] in t'.sets && t'.sets[line[i + 1]] == st.held
    ensures forall k :: 0 <= k < i && line[k] in t.sets ==> line[k] in t'.sets && t'.sets[line[k]] == t.sets[line[k]]
  {
    hide Effect;
    forall n
      ensures n in SuccessorsOf(c.order, line[i]) <==> i + 1 < |line| && n == line[i + 1]
    {
      SuccessorMeans(c.order, line[i], n);
    }
    hide SuccessorsOf;
    if i + 1 < |line| {
      assert line[i + 1] !in line[..i + 1];
    }
  }

  lemma {:induction false} LineHolds(c: Code, line: seq<int>, s: Snapshot, p: Pass, s': Snapshot, i: nat)
    requires IsLine(c, line) && LocksOnce(c, line) && IsPass(c, line[0], s, p, s') && p.processed == line
    requires 0 < i < |line|
    ensures HeldAlong(line, s, p.trail[i], i)
    decreases i
  {
    var n, t := line[i - 1], p.trail[i - 1];
    assert StepOf(c, p.processed[i - 1], Elements(p.processed[..i - 1 + 1]), t, p.trail[i - 1 + 1]);
    if i == 1 {
      LineStep(c, line, t, p.trail[1], Elements(line[..1]), 0, Acquired(LockState(t.locks, []), n));
    } else {
      LineHolds(c, line, s, p, s', i - 1);
      LineStep(c, line, t, p.trail[i], Elements(line[..i]), i - 1, LockState(t.locks, t.sets[n]));
    }
  }

  /** On acquire, other nodes, aliasing release in a row the pass makes one lock, released by the last node; every
      node before the last ends up holding exactly that lock, the last none. */
  lemma LineLocksOnce(c: Code, line: seq<int>, s: Snapshot, p: Pass, s': Snapshot)
    requires IsLine(c, line) && LocksOnce(c, line) && IsPass(c, line[0], s, p, s')
    ensures p.processed == line
    ensures s'.locks == s.locks + [Lock(line[0], Some(line[|line| - 1]))]
    ensures forall k :: 0 <= k < |line| - 1 ==> line[k] in s'.sets && s'.sets[line[k]] == [|s.locks|]
    ensures line[|line| - 1] in s'.sets && s'.sets[line[|line| - 1]] == []
  {
    var i := |line| - 1;
    LineProcessed(c, line, s, p, s');
    LineHolds(c, line, s, p, s', i);
    var n, t := line[i], p.trail[i];
    assert StepOf(c, p.processed[i], Elements(p.processed[..i + 1]), t, p.trail[i + 1]);
    LineReleases(t.locks, s.locks, c.alias, line[0], n);
    LineStep(c, line, t, s', Elements(line[..i + 1]), i,
             LockState(s.locks + [Lock(line[0], Some(n))], []));
  }

  lemma LineReleases(locks: seq<Lock>, before: seq<Lock>, alias: set<(int, int)>, acquire: int, n: int)
    requires locks == before + [Lock(acquire, None)] && (acquire, n) in alias
    ensures Released(LockState(locks, [|before|]), alias, n) == LockState(before + [Lock(acquire, Some(n))], [])
  {
    var st := LockState(locks, [|before|]);
    assert LastMatch(st, alias, n, 1) == 0;
    assert Without([|before|], 0) == [];
    assert locks[|before| := Lock(acquire, Some(n))] == before + [Lock(acquire, Some(n))];
  }
}
