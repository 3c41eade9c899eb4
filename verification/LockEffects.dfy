/** What the nodes of a function do to locks and locksets. */
module LockEffects {
  import opened Options
  import opened Paths

  datatype NodeKind = Acquire | Release | OtherNode

  /** What a call site's callee does to locks: it only acquires, only releases, or neither. */
  datatype CallEffect = NoEffect | AcquiresAt(acquire: int) | ReleasesAt(release: int)

  /** The order edges of the program, what its nodes and calls do, and which acquires a release may match. */
  datatype Code = Code(order: Edges, kinds: map<int, NodeKind>, calls: map<int, CallEffect>, alias: set<(int, int)>)

  function KindIn(c: Code, n: int): NodeKind {
    if n in c.kinds then c.kinds[n] else OtherNode
  }

  function CallIn(c: Code, n: int): CallEffect {
    if n in c.calls then c.calls[n] else NoEffect
  }

  /** A lock knows the node that acquired it and, once matched, the node that released it. */
  datatype Lock = Lock(acquire: int, release: Option<int>)

  /** s without its k-th element. */
  function Without(s: seq<nat>, k: nat): seq<nat>
    requires k < |s|
  {
    s[..k] + s[k + 1..]
  }

  /** Locks are only ever added, and a lock changes only by gaining its release. */
  ghost predicate Grows(before: seq<Lock>, after: seq<Lock>) {
    && |before| <= |after|
    && (forall l :: 0 <= l < |before| ==>
          after[l].acquire == before[l].acquire && (before[l].release.Some? ==> after[l].release == before[l].release))
  }

  /** Lock l is unreleased and its acquire aliases the release. */
  predicate Matches(locks: seq<Lock>, alias: set<(int, int)>, l: nat, release: int) {
    l < |locks| && locks[l].release.None? && (locks[l].acquire, release) in alias
  }

  // ---- What one node does to the locks ----

  /** All locks so far, and the ones held at the node being processed. */
  datatype LockState = LockState(locks: seq<Lock>, held: seq<nat>)

  function Acquired(st: LockState, acquire: int): LockState {
    LockState(st.locks + [Lock(acquire, None)], st.held + [|st.locks|])
  }

  /** The last of the first n held locks that the release matches, or -1. */
  function LastMatch(st: LockState, alias: set<(int, int)>, release: int, n: nat): (k: int)
    requires n <= |st.held|
    ensures -1 <= k < n && (k >= 0 ==> Matches(st.locks, alias, st.held[k], release))
    ensures forall m :: k < m < n ==> !Matches(st.locks, alias, st.held[m], release)
  {
    if n == 0 then -1
    else if Matches(st.locks, alias, st.held[n - 1], release) then n - 1
    else LastMatch(st, alias, release, n - 1)
  }

  function Released(st: LockState, alias: set<(int, int)>, release: int): LockState {
    var k := LastMatch(st, alias, release, |st.held|);
    if k < 0 then st
    else LockState(st.locks[st.held[k] := st.locks[st.held[k]].(release := Some(release))], Without(st.held, k))
  }

  /** The node's own operation, then what its callee does. */
  function Effect(st: LockState, kind: NodeKind, call: CallEffect, alias: set<(int, int)>, node: int): LockState {
    var own := match kind
      case Acquire => Acquired(st, node)
      case Release => Released(st, alias, node)
      case OtherNode => st;
    match call
    case NoEffect => own
    case AcquiresAt(a) => Acquired(own, a)
    case ReleasesAt(r) => Released(own, alias, r)
  }

  /** A release closes at most one lock: held, unreleased, aliasing it, and the latest such one. */
  lemma ReleaseClosesLatest(st: LockState, alias: set<(int, int)>, release: int)
    ensures var st' := Released(st, alias, release);
            || (st' == st && forall k :: 0 <= k < |st.held| ==> !Matches(st.locks, alias, st.held[k], release))
            || exists k :: 0 <= k < |st.held| && Matches(st.locks, alias, st.held[k], release)
                 && (forall m :: k < m < |st.held| ==> !Matches(st.locks, alias, st.held[m], release))
                 && st'.held == Without(st.held, k) && |st'.locks| == |st.locks|
                 && st'.locks[st.held[k]] == Lock(st.locks[st.held[k]].acquire, Some(release))
                 && forall l :: 0 <= l < |st.locks| && l != st.held[k] ==> st'.locks[l] == st.locks[l]
  {
    var k := LastMatch(st, alias, release, |st.held|);
    if k >= 0 {
      assert Released(st, alias, release).held == Without(st.held, k);
    }
  }

  /** Locks are added or gain a release, and only added ones join the held locks. */
  ghost predicate Extends(st: LockState, st': LockState) {
    && Grows(st.locks, st'.locks)
    && (forall l :: l in st'.held ==> l in st.held || |st.locks| <= l < |st'.locks|)
  }

  lemma ReleasedExtends(st: LockState, alias: set<(int, int)>, release: int)
    ensures Extends(st, Released(st, alias, release))
  {
    var k := LastMatch(st, alias, release, |st.held|);
    assert k >= 0 ==> forall l :: l in Without(st.held, k) ==> l in st.held;
  }

  lemma AcquiredExtends(st: LockState, acquire: int)
    ensures Extends(st, Acquired(st, acquire))
  {
  }

  lemma ExtendsTrans(a: LockState, b: LockState, c: LockState)
    requires Extends(a, b) && Extends(b, c)
    ensures Extends(a, c)
  {
  }

  /** A node only adds locks and only sets releases that were missing. */
  lemma EffectGrows(st: LockState, kind: NodeKind, call: CallEffect, alias: set<(int, int)>, node: int)
    ensures Extends(st, Effect(st, kind, call, alias, node))
  {
    var own := Effect(st, kind, NoEffect, alias, node);
    ReleasedExtends(st, alias, node);
    AcquiredExtends(st, node);
    if call.AcquiresAt? {
      AcquiredExtends(own, call.acquire);
    } else if call.ReleasesAt? {
      ReleasedExtends(own, alias, call.release);
    }
    hide Grows, Released, Acquired;
    assert Extends(st, own);
    if !call.NoEffect? {
      ExtendsTrans(st, own, Effect(st, kind, call, alias, node));
    }
  }

  /** The elements of s, each once. */
  function Dedup(s: seq<nat>): (r: seq<nat>)
    ensures forall l :: l in r <==> l in s
    ensures forall i, j :: 0 <= i < j < |r| ==> r[i] != r[j]
  {
    if s == [] then []
    else
      var n := |s| - 1;
      assert s == s[..n] + [s[n]];
      var r := Dedup(s[..n]);
      if s[n] in r then r else r + [s[n]]
  }

  lemma GrowsTrans(a: seq<Lock>, b: seq<Lock>, c: seq<Lock>)
    requires Grows(a, b) && Grows(b, c)
    ensures Grows(a, c)
  {
  }

  type LockSetMap = map<int, seq<nat>>

  function At(m: LockSetMap, n: int): seq<nat> {
    if n in m then m[n] else []
  }

  /** The lockset of `node` has reached the nodes `done`: alone where unvisited, merged with what a visited node
      held. */
  ghost predicate PassedOn(before: LockSetMap, after: LockSetMap, node: int, done: set<int>, visited: set<int>) {
    && node in before && after.Keys == before.Keys + done
    && (forall n :: n in before && n !in done ==> after[n] == before[n])
    && (forall n :: n in done && n !in visited ==> Holds(after[n], before[node]))
    && (forall n :: n in done && n !in visited && node !in done ==> after[n] == before[node])
    && (forall n :: n in done && n in visited ==> Holds(after[n], At(before, n) + before[node]))
  }

  /** s and t hold the same locks. */
  ghost predicate Holds(s: seq<nat>, t: seq<nat>) {
    forall l :: l in s <==> l in t
  }

  lemma NothingPassedOn(before: LockSetMap, node: int, visited: set<int>)
    requires node in before
    ensures PassedOn(before, before, node, {}, visited)
  {
  }

  lemma PassOneOn(before: LockSetMap, now: LockSetMap, node: int, done: set<int>, visited: set<int>, dst: int,
                  merged: seq<nat>)
    requires PassedOn(before, now, node, done, visited) && node in visited && dst !in done
    requires merged == if dst in visited then Dedup(At(now, dst) + now[node]) else now[node]
    ensures PassedOn(before, now[dst := merged], node, done + {dst}, visited)
  {
    assert Holds(now[node], before[node]) by {
      DedupHolds(At(before, node), before[node], before[node]);
    }
    DedupHolds(At(now, dst), now[node], before[node]);
    hide Holds, Dedup;
  }

  lemma DedupHolds(own: seq<nat>, held: seq<nat>, held': seq<nat>)
    requires Holds(held, held')
    ensures Holds(Dedup(own + held), own + held')
    ensures Holds(held, held) && forall x :: Holds(x, held' + held') ==> Holds(x, held')
  {
  }
}
