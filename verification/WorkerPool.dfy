/** The contract workers: a shared counter, a shared map, and any interleaving of their steps. */
module WorkerPool {
  import opened Options

  type Contract = string

  datatype Worker = Fetching | Generating(idx: nat) | Storing(idx: nat, contract: Contract) | Exited

  /** `claims` records which worker drew each index, in order; `done` the indices whose work is over; `generated`
      what the generator answered for an index. */
  datatype State = State(nextTid: nat, workers: seq<Worker>, contracts: map<int, Contract>, claims: seq<nat>,
                         done: set<nat>, generated: map<nat, Contract>)

  function Initial(workers: nat): State {
    State(0, seq(workers, i => Fetching), map[], [], {}, map[])
  }

  /** Worker w draws the next index from the counter, or finds none left and exits. */
  ghost predicate Fetch(tids: seq<int>, s: State, s': State, w: nat) {
    && w < |s.workers| && s.workers[w].Fetching?
    && s' == (if s.nextTid >= |tids| then s.(nextTid := s.nextTid + 1, workers := s.workers[w := Exited])
              else s.(nextTid := s.nextTid + 1, workers := s.workers[w := Generating(s.nextTid)],
                      claims := s.claims + [w]))
  }

  /** The generator answers worker w with a contract to store, or with none. */
  ghost predicate Generate(tids: seq<int>, s: State, s': State, w: nat, answer: Option<Contract>) {
    && w < |s.workers| && s.workers[w].Generating?
    && var i := s.workers[w].idx;
       s' == match answer
             case Some(c) => s.(workers := s.workers[w := Storing(i, c)], generated := s.generated[i := c])
             case None => s.(workers := s.workers[w := Fetching], done := s.done + {i})
  }

  /** Worker w puts its contract into the map, under the lock; an entry already there would stay. */
  ghost predicate Store(tids: seq<int>, s: State, s': State, w: nat) {
    && w < |s.workers| && s.workers[w].Storing? && s.workers[w].idx < |tids|
    && var i, tid := s.workers[w].idx, tids[s.workers[w].idx];
       s' == s.(workers := s.workers[w := Fetching], done := s.done + {i},
                contracts := if tid in s.contracts then s.contracts else s.contracts[tid := s.workers[w].contract])
  }

  datatype Step = FetchStep(w: nat) | GenerateStep(w: nat, answer: Option<Contract>) | StoreStep(w: nat)

  ghost predicate Takes(tids: seq<int>, s: State, s': State, step: Step) {
    match step
    case FetchStep(w) => Fetch(tids, s, s', w)
    case GenerateStep(w, answer) => Generate(tids, s, s', w, answer)
    case StoreStep(w) => Store(tids, s, s', w)
  }

  ghost predicate Next(tids: seq<int>, s: State, s': State) {
    exists step :: Takes(tids, s, s', step)
  }

  // ---- The invariant ----

  predicate Busy(x: Worker) {
    x.Generating? || x.Storing?
  }

  ghost predicate HeldBy(s: State, w: nat, i: nat) {
    w < |s.workers| && Busy(s.workers[w]) && s.workers[w].idx == i
  }

  /** The threads among the finished indices for which a contract was generated. */
  ghost function Served(tids: seq<int>, done: set<nat>, generated: map<nat, Contract>): set<int> {
    set i | i in done && i in generated && i < |tids| :: tids[i]
  }

  /** The contract of t was generated for t. */
  ghost predicate RightlyStored(tids: seq<int>, s: State, t: int)
    requires t in s.contracts
  {
    exists i :: i in s.done && i in s.generated && i < |tids| && tids[i] == t && s.generated[i] == s.contracts[t]
  }

  /** Every index drawn so far is in the hands of exactly the worker that drew it, or done. */
  ghost predicate Claimed(tids: seq<int>, s: State) {
    && |s.claims| == (if s.nextTid <= |tids| then s.nextTid else |tids|)
    && (forall w :: 0 <= w < |s.workers| && Busy(s.workers[w]) ==>
          s.workers[w].idx < |s.claims| && s.workers[w].idx !in s.done && s.claims[s.workers[w].idx] == w)
    && (forall i :: 0 <= i < |s.claims| ==> i in s.done || HeldBy(s, s.claims[i], i))
    && (forall i :: i in s.done ==> i < |s.claims|)
    && s.nextTid == |s.claims| + Exits(s.workers)
  }

  /** A generated contract is in its worker's hands or stored, and nothing else is stored. */
  ghost predicate Accounted(tids: seq<int>, s: State) {
    && (forall w :: 0 <= w < |s.workers| && s.workers[w].Storing? ==>
          s.workers[w].idx in s.generated && s.generated[s.workers[w].idx] == s.workers[w].contract)
    && (forall w :: 0 <= w < |s.workers| && s.workers[w].Generating? ==> s.workers[w].idx !in s.generated)
    && (forall i :: i in s.generated ==> i < |s.claims|)
    && s.contracts.Keys == Served(tids, s.done, s.generated)
    && (forall t :: t in s.contracts ==> RightlyStored(tids, s, t))
  }

  ghost predicate Inv(tids: seq<int>, s: State) {
    Claimed(tids, s) && Accounted(tids, s)
  }

  function Exits(ws: seq<Worker>): nat {
    if ws == [] then 0 else Exits(ws[..|ws| - 1]) + (if ws[|ws| - 1].Exited? then 1 else 0)
  }

  lemma {:induction false} ExitsUpdate(ws: seq<Worker>, w: nat, x: Worker)
    requires w < |ws|
    ensures Exits(ws[w := x]) == Exits(ws) - (if ws[w].Exited? then 1 else 0) + (if x.Exited? then 1 else 0)
  {
    var n := |ws| - 1;
    if w < n {
      assert ws[w := x][..n] == ws[..n][w := x];
      ExitsUpdate(ws[..n], w, x);
    } else {
      assert ws[w := x][..n] == ws[..n];
    }
  }

  lemma FetchKeeps(tids: seq<int>, s: State, s': State, w: nat)
    requires Inv(tids, s) && Fetch(tids, s, s', w)
    ensures Inv(tids, s')
  {
    hide Served, Exits;
    ExitsUpdate(s.workers, w, s'.workers[w]);
    forall i | 0 <= i < |s'.claims|
      ensures i in s'.done || HeldBy(s', s'.claims[i], i)
    {
      if i < |s.claims| && i !in s.done {
        assert HeldBy(s, s.claims[i], i);
      }
    }
    forall t | t in s'.contracts
      ensures RightlyStored(tids, s', t)
    {
      assert RightlyStored(tids, s, t);
    }
  }

  /** A worker that lets go of its index leaves the claims in order. */
  lemma ReleaseKeepsClaimed(tids: seq<int>, s: State, s': State, w: nat)
    requires Claimed(tids, s) && w < |s.workers| && Busy(s.workers[w]) && s'.workers == s.workers[w := Fetching]
    requires s'.done == s.done + {s.workers[w].idx} && s'.claims == s.claims && s'.nextTid == s.nextTid
    ensures Claimed(tids, s')
  {
    hide Exits;
    ExitsUpdate(s.workers, w, Fetching);
    forall i | 0 <= i < |s'.claims|
      ensures i in s'.done || HeldBy(s', s'.claims[i], i)
    {
      if i !in s.done {
        assert HeldBy(s, s.claims[i], i);
      }
    }
  }

  /** A worker that goes on to storing keeps its index. */
  lemma HoldingKeepsClaimed(tids: seq<int>, s: State, s': State, w: nat, c: Contract)
    requires Claimed(tids, s) && w < |s.workers| && s.workers[w].Generating?
    requires s'.workers == s.workers[w := Storing(s.workers[w].idx, c)]
    requires s'.done == s.done && s'.claims == s.claims && s'.nextTid == s.nextTid
    ensures Claimed(tids, s')
  {
    hide Exits;
    ExitsUpdate(s.workers, w, s'.workers[w]);
    forall i | 0 <= i < |s'.claims|
      ensures i in s'.done || HeldBy(s', s'.claims[i], i)
    {
      if i !in s.done {
        assert HeldBy(s, s.claims[i], i);
      }
    }
  }

  lemma ServedMore(tids: seq<int>, done: set<nat>, generated: map<nat, Contract>, i: nat)
    requires i < |tids|
    ensures Served(tids, done + {i}, generated) ==
            Served(tids, done, generated) + (if i in generated then {tids[i]} else {})
  {
    forall t | t in Served(tids, done, generated)
      ensures t in Served(tids, done + {i}, generated)
    {
      var k :| k in done && k in generated && k < |tids| && t == tids[k];
      assert k in done + {i};
    }
    assert i in done + {i};
  }

  lemma ServedSame(tids: seq<int>, done: set<nat>, generated: map<nat, Contract>, i: nat, c: Contract)
    requires i !in done
    ensures Served(tids, done, generated[i := c]) == Served(tids, done, generated)
  {
    forall t | t in Served(tids, done, generated)
      ensures t in Served(tids, done, generated[i := c])
    {
      var k :| k in done && k in generated && k < |tids| && t == tids[k];
      assert k in generated[i := c];
    }
  }

  lemma GenerateKeeps(tids: seq<int>, s: State, s': State, w: nat, answer: Option<Contract>)
    requires Inv(tids, s) && Generate(tids, s, s', w, answer)
    ensures Inv(tids, s')
  {
    hide Served, Exits;
    var i := s.workers[w].idx;
    if answer.Some? {
      HoldingKeepsClaimed(tids, s, s', w, answer.value);
      ServedSame(tids, s.done, s.generated, i, answer.value);
    } else {
      ReleaseKeepsClaimed(tids, s, s', w);
      ServedMore(tids, s.done, s.generated, i);
    }
    forall t | t in s'.contracts
      ensures RightlyStored(tids, s', t)
    {
      assert RightlyStored(tids, s, t);
      var k :| k in s.done && k in s.generated && k < |tids| && tids[k] == t && s.generated[k] == s.contracts[t];
      assert k in s'.done && s'.generated[k] == s.generated[k];
    }
  }

  lemma StoreKeeps(tids: seq<int>, s: State, s': State, w: nat)
    requires Inv(tids, s) && Store(tids, s, s', w)
    ensures Inv(tids, s')
  {
    hide Served, Exits;
    var i := s.workers[w].idx;
    ServedMore(tids, s.done, s.generated, i);
    ReleaseKeepsClaimed(tids, s, s', w);
    forall t | t in s'.contracts
      ensures RightlyStored(tids, s', t)
    {
      if t in s.contracts {
        assert RightlyStored(tids, s, t);
        var k :| k in s.done && k in s.generated && k < |tids| && tids[k] == t && s.generated[k] == s.contracts[t];
        assert k in s'.done;
      } else {
        assert i in s'.done;
      }
    }
  }

  lemma NextKeeps(tids: seq<int>, s: State, s': State)
    requires Inv(tids, s) && Next(tids, s, s')
    ensures Inv(tids, s')
  {
    hide Inv;
    var step :| Takes(tids, s, s', step);
    match step
    case FetchStep(w) => FetchKeeps(tids, s, s', w);
    case GenerateStep(w, answer) => GenerateKeeps(tids, s, s', w, answer);
    case StoreStep(w) => StoreKeeps(tids, s, s', w);
  }

  lemma {:induction false} NoExitsYet(n: nat)
    ensures Exits(seq(n, i => Fetching)) == 0
  {
    if n > 0 {
      var ws := seq(n, i => Fetching);
      assert ws[..n - 1] == seq(n - 1, i => Fetching);
      NoExitsYet(n - 1);
    }
  }

  // ---- Whole runs ----

  ghost predicate IsRun(tids: seq<int>, run: seq<State>, workers: nat) {
    && run != [] && run[0] == Initial(workers)
    && (forall k :: 0 <= k < |run| - 1 ==> Next(tids, run[k], run[k + 1]))
  }

  lemma StepKeepsCrew(tids: seq<int>, s: State, s': State)
    requires Next(tids, s, s')
    ensures |s'.workers| == |s.workers|
  {
  }

  lemma {:induction false} RunKeeps(tids: seq<int>, run: seq<State>, workers: nat, k: nat)
    requires IsRun(tids, run, workers) && k < |run|
    ensures Inv(tids, run[k]) && |run[k].workers| == workers
  {
    hide Next;
    if k == 0 {
      NoExitsYet(workers);
    } else {
      hide Inv;
      RunKeeps(tids, run, workers, k - 1);
      assert Next(tids, run[k - 1], run[k - 1 + 1]);
      NextKeeps(tids, run[k - 1], run[k]);
      StepKeepsCrew(tids, run[k - 1], run[k]);
    }
  }

  ghost predicate AllExited(s: State) {
    forall w :: 0 <= w < |s.workers| ==> s.workers[w].Exited?
  }

  lemma {:induction false} ExitsAll(ws: seq<Worker>)
    requires forall w :: 0 <= w < |ws| ==> ws[w].Exited?
    ensures Exits(ws) == |ws|
  {
    if ws != [] {
      ExitsAll(ws[..|ws| - 1]);
    }
  }

  /** When the futures have joined, every index has been drawn exactly once and is done, each worker drew one
      index too many, and the map holds a contract generated for t, for exactly those threads t that have one. */
  lemma JoinedRun(tids: seq<int>, run: seq<State>, workers: nat)
    requires IsRun(tids, run, workers) && AllExited(run[|run| - 1]) && (|tids| > 0 ==> workers > 0)
    ensures var s := run[|run| - 1];
            && |s.claims| == |tids| && (forall i: nat :: i in s.done <==> i < |tids|)
            && s.nextTid == |tids| + workers
            && (forall t :: t in s.contracts <==> exists i :: i in s.generated && i < |tids| && tids[i] == t)
            && (forall t :: t in s.contracts ==> RightlyStored(tids, s, t))
  {
    var s := run[|run| - 1];
    RunKeeps(tids, run, workers, |run| - 1);
    ExitsAll(s.workers);
    forall i: nat | i < |s.claims|
      ensures i in s.done
    {
      assert !HeldBy(s, s.claims[i], i);
    }
    forall t
      ensures t in s.contracts <==> exists i :: i in s.generated && i < |tids| && tids[i] == t
    {
      assert t in s.contracts <==> t in Served(tids, s.done, s.generated);
    }
  }

  /** The generator answers for exactly the threads in `succeeds`, whichever worker asks and whenever. */
  ghost predicate AnswersFor(tids: seq<int>, s: State, succeeds: set<int>) {
    forall i: nat :: i < |tids| ==> (i in s.generated <==> tids[i] in succeeds)
  }

  /** Then the keys of the map are the same under every schedule and any number of workers. */
  lemma KeysIgnoreSchedule(tids: seq<int>, run: seq<State>, workers: nat, run': seq<State>, workers': nat,
                           succeeds: set<int>)
    requires IsRun(tids, run, workers) && AllExited(run[|run| - 1]) && (|tids| > 0 ==> workers > 0)
    requires IsRun(tids, run', workers') && AllExited(run'[|run'| - 1]) && (|tids| > 0 ==> workers' > 0)
    requires AnswersFor(tids, run[|run| - 1], succeeds) && AnswersFor(tids, run'[|run'| - 1], succeeds)
    ensures run[|run| - 1].contracts.Keys == run'[|run'| - 1].contracts.Keys == set t | t in tids && t in succeeds
  {
    JoinedKeys(tids, run, workers, succeeds);
    JoinedKeys(tids, run', workers', succeeds);
  }

  lemma JoinedKeys(tids: seq<int>, run: seq<State>, workers: nat, succeeds: set<int>)
    requires IsRun(tids, run, workers) && AllExited(run[|run| - 1]) && (|tids| > 0 ==> workers > 0)
    requires AnswersFor(tids, run[|run| - 1], succeeds)
    ensures run[|run| - 1].contracts.Keys == set t | t in tids && t in succeeds
  {
    var s := run[|run| - 1];
    JoinedRun(tids, run, workers);
    hide IsRun;
    forall t
      ensures t in s.contracts <==> t in tids && t in succeeds
    {
      if t in tids && t in succeeds {
        var i :| 0 <= i < |tids| && tids[i] == t;
        assert i in s.generated;
      }
    }
  }

  // ---- Every run ends ----

  function Weight(x: Worker): nat {
    match x
    case Fetching => 1
    case Generating(_) => 3
    case Storing(_, _) => 2
    case Exited => 0
  }

  function WeightSum(ws: seq<Worker>): nat {
    if ws == [] then 0 else WeightSum(ws[..|ws| - 1]) + Weight(ws[|ws| - 1])
  }

  ghost function Remaining(tids: seq<int>, s: State): int {
    WeightSum(s.workers) + 3 * (|tids| - |s.claims|)
  }

  lemma {:induction false} WeightUpdate(ws: seq<Worker>, w: nat, x: Worker)
    requires w < |ws|
    ensures WeightSum(ws[w := x]) == WeightSum(ws) - Weight(ws[w]) + Weight(x)
  {
    var n := |ws| - 1;
    if w < n {
      assert ws[w := x][..n] == ws[..n][w := x];
      WeightUpdate(ws[..n], w, x);
    } else {
      assert ws[w := x][..n] == ws[..n];
    }
  }

  lemma StepsGetFewer(tids: seq<int>, s: State, s': State)
    requires Inv(tids, s) && Next(tids, s, s')
    ensures 0 <= Remaining(tids, s') < Remaining(tids, s)
  {
    hide Accounted, Exits, WeightSum;
    var step :| Takes(tids, s, s', step);
    WeightUpdate(s.workers, step.w, s'.workers[step.w]);
    NextKeeps(tids, s, s');
  }

  lemma {:induction false} InitialWeight(n: nat)
    ensures WeightSum(seq(n, i => Fetching)) == n
  {
    if n > 0 {
      var ws := seq(n, i => Fetching);
      assert ws[..n - 1] == seq(n - 1, i => Fetching);
      InitialWeight(n - 1);
    }
  }

  lemma {:induction false} RunConsumes(tids: seq<int>, run: seq<State>, workers: nat, k: nat)
    requires IsRun(tids, run, workers) && k < |run|
    ensures 0 <= Remaining(tids, run[k]) <= 3 * |tids| + workers - k
  {
    hide Next, Inv;
    if k == 0 {
      InitialWeight(workers);
    } else {
      hide Remaining;
      RunConsumes(tids, run, workers, k - 1);
      RunKeeps(tids, run, workers, k - 1);
      assert Next(tids, run[k - 1], run[k - 1 + 1]);
      StepsGetFewer(tids, run[k - 1], run[k]);
    }
  }

  /** No schedule takes more than three steps for each index and one for each worker. */
  lemma RunIsBounded(tids: seq<int>, run: seq<State>, workers: nat)
    requires IsRun(tids, run, workers)
    ensures |run| <= 3 * |tids| + workers + 1
  {
    hide Next, Remaining;
    RunConsumes(tids, run, workers, |run| - 1);
  }

  /** A state no step leaves is one in which all workers have exited. */
  lemma StuckMeansJoined(tids: seq<int>, s: State)
    requires Inv(tids, s)
    ensures AllExited(s) <==> forall s' :: !Next(tids, s, s')
  {
    if AllExited(s) {
      forall s', step
        ensures !Takes(tids, s, s', step)
      {
        assert step.w < |s.workers| ==> s.workers[step.w].Exited?;
      }
    } else {
      var w :| 0 <= w < |s.workers| && !s.workers[w].Exited?;
      var step := if s.workers[w].Fetching? then FetchStep(w)
        else if s.workers[w].Generating? then GenerateStep(w, None)
        else StoreStep(w);
      var s' := Successor(tids, s, w);
      assert Takes(tids, s, s', step);
      assert Next(tids, s, s');
    }
  }

  ghost function Successor(tids: seq<int>, s: State, w: nat): State
    requires Inv(tids, s) && w < |s.workers| && !s.workers[w].Exited?
  {
    match s.workers[w]
    case Fetching =>
      if s.nextTid >= |tids| then s.(nextTid := s.nextTid + 1, workers := s.workers[w := Exited])
      else s.(nextTid := s.nextTid + 1, workers := s.workers[w := Generating(s.nextTid)], claims := s.claims + [w])
    case Generating(i) => s.(workers := s.workers[w := Fetching], done := s.done + {i})
    case Storing(i, c) =>
      s.(workers := s.workers[w := Fetching], done := s.done + {i},
         contracts := if tids[i] in s.contracts then s.contracts else s.contracts[tids[i] := c])
  }
}
