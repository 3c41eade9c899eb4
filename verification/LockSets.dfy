/** The lockset analysis: one worklist pass per function over its order edges. */
module LockSets {
  import opened Options
  import opened Paths
  import opened LockEffects
  import opened LockPasses

  class LSAnalysis {
    const code: Code
    var locks: seq<Lock>
    var nodeLockSets: LockSetMap
    ghost var origin: seq<int>

    /** `origin` is where each lock was created. A matched release aliases its acquire, and a lock is held only at
        nodes that its origin reaches over order edges. */
    ghost predicate Valid()
      reads this
    {
      && |origin| == |locks|
      && (forall l :: 0 <= l < |locks| && locks[l].release.Some? ==>
            (locks[l].acquire, locks[l].release.value) in code.alias)
      && (forall n :: n in nodeLockSets ==> HeldRightly(n, nodeLockSets[n]))
    }

    ghost predicate HeldRightly(n: int, held: seq<nat>)
      reads this`origin
    {
      forall l :: l in held ==> l < |origin| && Reach(code.order, origin[l], n)
    }

    constructor (code: Code)
      ensures Valid() && this.code == code && locks == [] && nodeLockSets == map[] && origin == []
    {
      this.code := code;
      locks, nodeLockSets, origin := [], map[], [];
    }

    /** A new lock, acquired at a node, joins the lockset of the node being processed. */
    method AddLock(node: int, acquire: int, held: seq<nat>) returns (held': seq<nat>)
      requires Valid() && HeldRightly(node, held)
      modifies this`locks, this`origin
      ensures Valid() && HeldRightly(node, held') && origin == old(origin) + [node]
      ensures LockState(locks, held') == Acquired(LockState(old(locks), held), acquire)
    {
      ReachSelf(code.order, node);
      held' := held + [|locks|];
      locks, origin := locks + [Lock(acquire, None)], origin + [node];
    }

    /** The most recently added unreleased lock of the set that aliases the release is matched with it and dropped. */
    method MatchRelease(ghost node: int, release: int, held: seq<nat>) returns (held': seq<nat>)
      requires Valid() && HeldRightly(node, held)
      modifies this`locks
      ensures Valid() && HeldRightly(node, held')
      ensures LockState(locks, held') == Released(LockState(old(locks), held), code.alias, release)
    {
      var k := |held|;
      while k > 0
        invariant 0 <= k <= |held|
        invariant LastMatch(LockState(locks, held), code.alias, release, |held|) ==
          LastMatch(LockState(locks, held), code.alias, release, k)
      {
        k := k - 1;
        if Matches(locks, code.alias, held[k], release) {
          held' := Without(held, k);
          assert forall x :: x in held' ==> x in held;
          locks := locks[held[k] := locks[held[k]].(release := Some(release))];
          return;
        }
      }
      held' := held;
    }

    /** The lockset after the node itself and the callee it may call. */
    method Transfer(node: int, held: seq<nat>) returns (held': seq<nat>)
      requires Valid() && HeldRightly(node, held)
      modifies this`locks, this`origin
      ensures Valid() && HeldRightly(node, held')
      ensures LockState(locks, held') ==
              Effect(LockState(old(locks), held), KindIn(code, node), CallIn(code, node), code.alias, node)
      ensures |old(origin)| <= |origin| && origin[..|old(origin)|] == old(origin)
      ensures forall l :: |old(origin)| <= l < |origin| ==> origin[l] == node
    {
      hide Acquired, Released;
      held' := held;
      if KindIn(code, node) == Acquire {
        held' := AddLock(node, node, held');
      } else if KindIn(code, node) == Release {
        held' := MatchRelease(node, node, held');
      }
      match CallIn(code, node) {
        case NoEffect =>
        case AcquiresAt(a) => held' := AddLock(node, a, held');
        case ReleasesAt(r) => held' := MatchRelease(node, r, held');
      }
    }

    /** Successors not processed yet inherit the lockset and are queued; the others merge it into theirs. */
    method Propagate(node: int, visited: set<int>, worklist0: set<int>) returns (worklist: set<int>)
      requires Valid() && node in nodeLockSets && node in visited
      modifies this`nodeLockSets
      ensures Valid() && PassedOn(old(nodeLockSets), nodeLockSets, node, SuccessorsOf(code.order, node), visited)
      ensures worklist == worklist0 + (SuccessorsOf(code.order, node) - visited)
    {
      hide PassedOn, HeldRightly, SuccessorsOf;
      ghost var before := nodeLockSets;
      worklist := worklist0;
      var todo := SuccessorsOf(code.order, node);
      NothingPassedOn(before, node, visited);
      assert SuccessorsOf(code.order, node) - todo == {};
      while exists d :: d in todo
        invariant todo <= SuccessorsOf(code.order, node) && Valid() && node in nodeLockSets
        invariant PassedOn(before, nodeLockSets, node, SuccessorsOf(code.order, node) - todo, visited)
        invariant worklist == worklist0 + (SuccessorsOf(code.order, node) - todo - visited)
        decreases todo
      {
        var dst :| dst in todo;
        var current := nodeLockSets[node];
        var merged := if dst in visited then Dedup(At(nodeLockSets, dst) + current) else current;
        NothingHeld(dst);
        Inherited(node, dst, current, At(nodeLockSets, dst), merged);
        PassOneOn(before, nodeLockSets, node, SuccessorsOf(code.order, node) - todo, visited, dst, merged);
        assert SuccessorsOf(code.order, node) - (todo - {dst}) == SuccessorsOf(code.order, node) - todo + {dst};
        nodeLockSets := nodeLockSets[dst := merged];
        worklist := if dst in visited then worklist else worklist + {dst};
        todo := todo - {dst};
      }
      assert SuccessorsOf(code.order, node) - todo == SuccessorsOf(code.order, node);
    }

    lemma NothingHeld(n: int)
      ensures HeldRightly(n, [])
    {
    }

    lemma Inherited(node: int, dst: int, held: seq<nat>, own: seq<nat>, merged: seq<nat>)
      requires HeldRightly(node, held) && HeldRightly(dst, own) && dst in SuccessorsOf(code.order, node)
      requires forall l :: l in merged ==> l in held || l in own
      ensures HeldRightly(dst, merged)
    {
      forall l | l in held
        ensures Reach(code.order, origin[l], dst)
      {
        ReachStep(code.order, origin[l], node, dst);
      }
    }

    /** The whole state, as one step of a pass sees it. */
    ghost function State(): Snapshot
      reads this
    {
      Snapshot(locks, origin, nodeLockSets)
    }

    /** One node: its own effect on the lockset, then its successors. */
    method ProcessNode(node: int, visited: set<int>, worklist0: set<int>) returns (worklist: set<int>)
      requires Valid() && node in nodeLockSets && node in visited
      modifies this
      ensures Valid() && StepOf(code, node, visited, old(State()), State())
      ensures nodeLockSets.Keys == old(nodeLockSets.Keys) + SuccessorsOf(code.order, node)
      ensures worklist == worklist0 + (SuccessorsOf(code.order, node) - visited)
    {
      hide Effect;
      var held := Transfer(node, nodeLockSets[node]);
      nodeLockSets := nodeLockSets[node := held];
      worklist := Propagate(node, visited, worklist0);
    }

    /** One function: starting from its entry with no lock held, every node is processed once, and takes its effect.
        One lock is created for each acquiring node and each call of an acquiring callee, and releases are those of
        processed nodes; `pass` tells the whole course. */
    method AnalyseFunction(entry: int) returns (ghost pass: Pass)
      requires Valid()
      modifies this
      ensures Valid() && Grows(old(locks), locks) && old(origin) <= origin
      ensures IsPass(code, entry, old(State()), pass, State())
      ensures forall n :: n in nodeLockSets <==> n in old(nodeLockSets) || Reach(code.order, entry, n)
      ensures |locks| == |old(locks)| + |set n | n in pass.processed && n in code.kinds && code.kinds[n] == Acquire|
                         + |set n | n in pass.processed && n in code.calls && code.calls[n].AcquiresAt?|
      ensures forall l :: |old(locks)| <= l < |locks| ==>
                var n := origin[l];
                && Reach(code.order, entry, n)
                && ((n in code.kinds && code.kinds[n] == Acquire && locks[l].acquire == n)
                    || (n in code.calls && code.calls[n] == AcquiresAt(locks[l].acquire)))
      ensures forall n :: Reach(code.order, entry, n) && n in code.kinds && code.kinds[n] == Acquire ==>
                exists l :: |old(locks)| <= l < |locks| && origin[l] == n && locks[l].acquire == n
      ensures forall n :: Reach(code.order, entry, n) && n in code.calls && code.calls[n].AcquiresAt? ==>
                exists l :: |old(locks)| <= l < |locks| && origin[l] == n && locks[l].acquire == code.calls[n].acquire
      ensures forall l :: 0 <= l < |locks| && locks[l].release.Some? ==>
                (l < |old(locks)| && old(locks)[l].release == locks[l].release) ||
                exists n :: Reach(code.order, entry, n) &&
                  ((n in code.kinds && code.kinds[n] == Release && locks[l].release == Some(n))
                   || (n in code.calls && code.calls[n] == ReleasesAt(locks[l].release.value)))
    {
      pass := WorkThrough(entry);
      hide Recorded, IsPass, Grows, HeldRightly;
      PassAddsUp(code, entry, old(State()), pass, State());
      assert forall n :: n in code.calls && code.calls[n].AcquiresAt? ==> CreatedAt(code, n, code.calls[n].acquire);
      assert forall n :: n in code.kinds && code.kinds[n] == Acquire ==> CreatedAt(code, n, n);
    }

    /** The worklist loop: nodes are taken until none is left, each into the record of the pass. */
    method WorkThrough(entry: int) returns (ghost pass: Pass)
      requires Valid()
      modifies this
      ensures Valid() && Recorded(code, entry, old(State()), pass) && Now(pass) == State()
      ensures forall n :: n in pass.processed <==> Reach(code.order, entry, n)
      ensures forall n :: n in nodeLockSets <==> n in old(nodeLockSets) || Reach(code.order, entry, n)
    {
      var visited: set<int>, worklist: set<int> := {}, {entry};
      nodeLockSets := nodeLockSets[entry := []];
      pass := Pass([], [State()]);
      StartWorking(code, entry, old(State()));
      hide Working, SuccessorsOf, HeldRightly, StepOf;
      while exists n :: n in worklist
        invariant Valid() && Working(code, entry, old(State()), pass, State(), visited, worklist)
        decreases Universe(code.order, entry) - visited
      {
        var node :| node in worklist;
        WorkingNode(code, entry, old(State()), pass, State(), visited, worklist, node);
        ghost var s, worklist0 := State(), worklist;
        worklist := ProcessNode(node, visited + {node}, worklist - {node});
        WorkStep(code, entry, old(State()), pass, s, visited, worklist0, node, State());
        visited := visited + {node};
        pass := Pass(pass.processed + [node], pass.trail + [State()]);
      }
      DoneWorking(code, entry, old(State()), pass, State(), visited);
    }

    /** All functions, one after the other. */
    method Build(entries: seq<int>) returns (ghost passes: seq<Pass>)
      requires Valid()
      modifies this
      ensures Valid() && Grows(old(locks), locks) && old(origin) <= origin
      ensures ArePasses(code, entries, old(State()), passes, State())
      ensures forall k, n :: 0 <= k < |entries| && Reach(code.order, entries[k], n) ==> n in nodeLockSets
      ensures forall k, n :: 0 <= k < |entries| && Reach(code.order, entries[k], n) ==>
                n in code.kinds && code.kinds[n] == Acquire ==>
                exists l :: |old(locks)| <= l < |locks| && origin[l] == n && locks[l].acquire == n
    {
      hide Grows, IsPass, HeldRightly, ArePasses, HasNewLock, Reach;
      passes := [];
      NoPasses(code, State());
      GrowsSelf(locks);
      for k := 0 to |entries|
        invariant Valid() && Grows(old(locks), locks) && old(origin) <= origin
        invariant ArePasses(code, entries[..k], old(State()), passes, State())
        invariant forall j, n :: 0 <= j < k && Reach(code.order, entries[j], n) ==> n in nodeLockSets
        invariant forall j, n :: 0 <= j < k && Reach(code.order, entries[j], n) ==>
                    n in code.kinds && code.kinds[n] == Acquire ==> HasNewLock(|old(locks)|, State(), n, n)
      {
        ghost var before, s := locks, State();
        ghost var pass := AnalyseFunction(entries[k]);
        GrowsTrans(old(locks), before, locks);
        NewLocksKept(code, old(State()), s, State());
        NewLocksFound(code, entries[k], old(State()), s, State());
        OnePassMore(code, entries, k, old(State()), passes, s, pass, State());
        passes := passes + [pass];
      }
      assert entries[..|entries|] == entries;
      NewLocksMean(old(State()), State());
    }
  }
}
