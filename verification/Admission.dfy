/**
 Query admission: a semaphore of `capacity` permits, request futures that a
 disconnecting client may drop at their await point, and blocking jobs that
 run to their end whether or not anyone still waits for them.  The query
 handlers keep the permit in the future; the index-coverage handler moves it
 into the job.
 */
module Admission {
  import opened Prelude

  datatype Style = Query | Coverage

  /** `Preparing` is the synchronous part before the job is spawned. */
  datatype FutureState = Rejected | Preparing | Waiting | Dropped | Answered

  datatype JobState = Unspawned | Running | Ended

  datatype Request = Request(style: Style, future: FutureState, job: JobState)

  datatype System = System(capacity: nat, free: nat, requests: map<nat, Request>)

  /** `EndJob` covers a job that panics: its permit is released by unwinding. */
  datatype Action =
    | Arrive(id: nat, style: Style)
    | ReturnEarly(id: nat)
    | Spawn(id: nat)
    | DropFuture(id: nat)
    | EndJob(id: nat)
    | Answer(id: nat)

  predicate FutureHolds(r: Request) {
    r.future.Preparing? || (r.style.Query? && r.future.Waiting?)
  }

  predicate JobHolds(r: Request) {
    r.style.Coverage? && r.job.Running?
  }

  predicate HasRunningJob(r: Request) {
    r.job.Running?
  }

  /** A running job whose client is gone and whose permit went with it. */
  predicate IsOrphan(r: Request) {
    r.style.Query? && r.future.Dropped? && r.job.Running?
  }

  /** A permit held by a future whose job is not running: not spawned yet, or ended. */
  predicate IsIdleHolder(r: Request) {
    FutureHolds(r) && !r.job.Running?
  }

  predicate IsUnpermitted(r: Request) {
    r.job.Running? && !FutureHolds(r) && !JobHolds(r)
  }

  function Initial(capacity: nat): System {
    System(capacity, capacity, map[])
  }

  function Update(s: System, id: nat, r: Request, free: nat): System {
    s.(free := free, requests := s.requests[id := r])
  }

  /** One step; `None` when the action is not possible in `s`. */
  function Step(s: System, a: Action): Option<System> {
    if a.Arrive? then
      if a.id in s.requests then None
      else if s.free == 0 then Some(Update(s, a.id, Request(a.style, Rejected, Unspawned), s.free))
      else Some(Update(s, a.id, Request(a.style, Preparing, Unspawned), s.free - 1))
    else if a.id !in s.requests then None
    else
      var r := s.requests[a.id];
      match a
      case ReturnEarly(id) =>
        if r.future.Preparing? && r.style.Query? then Some(Update(s, id, r.(future := Answered), s.free + 1)) else None
      case Spawn(id) =>
        if r.future.Preparing? then Some(Update(s, id, r.(future := Waiting, job := Running), s.free)) else None
      case DropFuture(id) =>
        if r.future.Waiting?
        then Some(Update(s, id, r.(future := Dropped), s.free + if r.style.Query? then 1 else 0)) else None
      case EndJob(id) =>
        if r.job.Running?
        then Some(Update(s, id, r.(job := Ended), s.free + if r.style.Coverage? then 1 else 0)) else None
      case Answer(id) =>
        if r.future.Waiting? && r.job.Ended?
        then Some(Update(s, id, r.(future := Answered), s.free + if r.style.Query? then 1 else 0)) else None
  }

  function Execute(s: System, run: seq<Action>): Option<System>
    decreases |run|
  {
    if run == [] then Some(s)
    else
      match Step(s, run[0])
      case Some(next) => Execute(next, run[1..])
      case None => None
  }

  ghost predicate Reachable(s: System, capacity: nat) {
    exists run :: Execute(Initial(capacity), run) == Some(s)
  }

  // ---------------------------------------------------------------------
  // Counting
  // ---------------------------------------------------------------------

  function Where(m: map<nat, Request>, p: Request -> bool): set<nat> {
    set id | id in m && p(m[id])
  }

  function Count(m: map<nat, Request>, p: Request -> bool): nat {
    |Where(m, p)|
  }

  function Indicator(b: bool): nat {
    if b then 1 else 0
  }

  lemma CountUpdate(m: map<nat, Request>, id: nat, r: Request, p: Request -> bool)
    ensures Count(m[id := r], p) + Indicator(id in m && p(m[id])) == Count(m, p) + Indicator(p(r))
  {
    var was, now := Where(m, p), Where(m[id := r], p);
    assert was - {id} == now - {id};
    CountWithout(was, id);
    CountWithout(now, id);
  }

  lemma CountWithout(ids: set<nat>, id: nat)
    ensures |ids| == |ids - {id}| + Indicator(id in ids)
  {
  }

  // ---------------------------------------------------------------------
  // The invariant
  // ---------------------------------------------------------------------

  /** The job exists exactly from the spawn on, and an answer follows its end. */
  predicate Coherent(r: Request) {
    match r.future
    case Rejected => r.job.Unspawned?
    case Preparing => r.job.Unspawned?
    case Waiting => !r.job.Unspawned?
    case Dropped => !r.job.Unspawned?
    case Answered => r.job.Ended? || (r.job.Unspawned? && r.style.Query?)
  }

  ghost predicate PermitsConserved(s: System) {
    s.free + Count(s.requests, FutureHolds) + Count(s.requests, JobHolds) == s.capacity
  }

  ghost predicate JobsAccounted(s: System) {
    Count(s.requests, HasRunningJob) + s.free + Count(s.requests, IsIdleHolder)
    == s.capacity + Count(s.requests, IsOrphan)
  }

  ghost predicate Invariant(s: System) {
    && (forall id | id in s.requests :: Coherent(s.requests[id]))
    && PermitsConserved(s)
    && JobsAccounted(s)
  }

  lemma StepKeepsInvariant(s: System, a: Action)
    requires Invariant(s) && Step(s, a).Some?
    ensures Invariant(Step(s, a).value) && Step(s, a).value.capacity == s.capacity
  {
    var t := Step(s, a).value;
    var r := t.requests[a.id];
    assert t.requests == s.requests[a.id := r];
    CountUpdate(s.requests, a.id, r, FutureHolds);
    CountUpdate(s.requests, a.id, r, JobHolds);
    CountUpdate(s.requests, a.id, r, HasRunningJob);
    CountUpdate(s.requests, a.id, r, IsIdleHolder);
    CountUpdate(s.requests, a.id, r, IsOrphan);
  }

  lemma {:induction false} ExecuteKeepsInvariant(s: System, run: seq<Action>)
    requires Invariant(s) && Execute(s, run).Some?
    ensures Invariant(Execute(s, run).value) && Execute(s, run).value.capacity == s.capacity
    decreases |run|
  {
    if run != [] {
      StepKeepsInvariant(s, run[0]);
      ExecuteKeepsInvariant(Step(s, run[0]).value, run[1..]);
    }
  }

  lemma ReachableInvariant(s: System, capacity: nat)
    requires Reachable(s, capacity)
    ensures Invariant(s) && s.capacity == capacity
  {
    var run :| Execute(Initial(capacity), run) == Some(s);
    InitialInvariant(capacity);
    ExecuteKeepsInvariant(Initial(capacity), run);
  }

  lemma InitialInvariant(capacity: nat)
    ensures Invariant(Initial(capacity))
  {
    forall p: Request -> bool ensures Count(map[], p) == 0 {
      assert Where(map[], p) == {};
    }
  }

  /** Free permits and permits held by futures and by jobs add up to the capacity. */
  lemma PermitConservation(s: System, capacity: nat)
    requires Reachable(s, capacity)
    ensures s.free + Count(s.requests, FutureHolds) + Count(s.requests, JobHolds) == capacity
  {
    ReachableInvariant(s, capacity);
  }

  /** A request is turned away exactly when every permit is held. */
  lemma RejectedExactlyWhenFull(s: System, capacity: nat, id: nat, style: Style)
    requires Reachable(s, capacity) && id !in s.requests
    ensures Step(s, Arrive(id, style)).Some?
    ensures Step(s, Arrive(id, style)).value.requests[id].future.Rejected?
       <==> Count(s.requests, FutureHolds) + Count(s.requests, JobHolds) == capacity
  {
    ReachableInvariant(s, capacity);
  }

  /** Once nothing is pending every permit is back, however the requests ended. */
  lemma QuiescenceRestoresPermits(s: System, capacity: nat)
    requires Reachable(s, capacity)
    requires Quiet(s)
    ensures s.free == capacity
  {
    ReachableInvariant(s, capacity);
    assert Where(s.requests, FutureHolds) == {};
    assert Where(s.requests, JobHolds) == {};
  }

  // ---------------------------------------------------------------------
  // How many jobs can run
  // ---------------------------------------------------------------------

  /** A job without a permit is an orphan, and only query handlers leave one. */
  lemma UnpermittedIsOrphan(r: Request)
    requires Coherent(r)
    ensures IsOrphan(r) <==> IsUnpermitted(r)
    ensures r.style.Coverage? ==> !IsOrphan(r)
  {
  }

  /**
   How many jobs run, exactly: the capacity and the orphans, less the free
   permits and those of futures whose job is not running.  So the capacity is
   exceeded exactly when the orphans outnumber those permits.
   */
  lemma RunningJobsExact(s: System, capacity: nat)
    requires Reachable(s, capacity)
    ensures Count(s.requests, HasRunningJob) + s.free + Count(s.requests, IsIdleHolder)
         == capacity + Count(s.requests, IsOrphan)
    ensures Count(s.requests, HasRunningJob) <= capacity
       <==> Count(s.requests, IsOrphan) <= s.free + Count(s.requests, IsIdleHolder)
  {
    ReachableInvariant(s, capacity);
  }

  /** The step lets a query future go while its job runs. */
  predicate Abandons(s: System, a: Action) {
    && a.DropFuture? && a.id in s.requests
    && s.requests[a.id].style.Query? && s.requests[a.id].future.Waiting? && s.requests[a.id].job.Running?
  }

  ghost predicate NeverAbandons(s: System, run: seq<Action>)
    decreases |run|
  {
    run == [] ||
    (!Abandons(s, run[0])
     && match Step(s, run[0])
        case Some(next) => NeverAbandons(next, run[1..])
        case None => true)
  }

  ghost predicate AllPermitted(s: System) {
    forall id | id in s.requests :: !IsUnpermitted(s.requests[id])
  }

  /** In no state along the run does a job run without a permit. */
  ghost predicate PermittedThroughout(s: System, run: seq<Action>)
    decreases |run|
  {
    && AllPermitted(s)
    && (run == [] ||
        match Step(s, run[0])
        case Some(next) => PermittedThroughout(next, run[1..])
        case None => true)
  }

  /** A step takes the permit from a running job exactly when it abandons it. */
  lemma StepPermitted(s: System, a: Action)
    requires Invariant(s) && AllPermitted(s) && Step(s, a).Some?
    ensures AllPermitted(Step(s, a).value) <==> !Abandons(s, a)
  {
    var t := Step(s, a).value;
    assert t.requests == s.requests[a.id := t.requests[a.id]];
    if Abandons(s, a) {
      assert IsUnpermitted(t.requests[a.id]);
    }
  }

  lemma {:induction false} PermittedIffNeverAbandons(s: System, run: seq<Action>)
    requires Invariant(s) && AllPermitted(s)
    ensures PermittedThroughout(s, run) <==> NeverAbandons(s, run)
    decreases |run|
  {
    if run != [] && Step(s, run[0]).Some? {
      var next := Step(s, run[0]).value;
      StepKeepsInvariant(s, run[0]);
      StepPermitted(s, run[0]);
      if AllPermitted(next) {
        PermittedIffNeverAbandons(next, run[1..]);
      }
    }
  }

  /**
   When the promise of the coverage handler holds of all handlers: every
   running job keeps a permit, throughout the run, exactly when no step drops
   the future of a query whose job is still running.
   */
  lemma PromiseKeptIffNeverAbandons(capacity: nat, run: seq<Action>)
    ensures PermittedThroughout(Initial(capacity), run) <==> NeverAbandons(Initial(capacity), run)
  {
    InitialInvariant(capacity);
    PermittedIffNeverAbandons(Initial(capacity), run);
  }

  lemma {:induction false} PermittedAtEnd(s: System, run: seq<Action>)
    requires PermittedThroughout(s, run) && Execute(s, run).Some?
    ensures AllPermitted(Execute(s, run).value)
    decreases |run|
  {
    if run != [] {
      PermittedAtEnd(Step(s, run[0]).value, run[1..]);
    }
  }

  /** Without such a drop the capacity bounds the running jobs. */
  lemma CapacityBoundsJobs(capacity: nat, run: seq<Action>)
    requires Execute(Initial(capacity), run).Some?
    requires NeverAbandons(Initial(capacity), run)
    ensures Count(Execute(Initial(capacity), run).value.requests, HasRunningJob) <= capacity
  {
    var s := Execute(Initial(capacity), run).value;
    PromiseKeptIffNeverAbandons(capacity, run);
    PermittedAtEnd(Initial(capacity), run);
    assert Reachable(s, capacity);
    ReachableInvariant(s, capacity);
    forall id | id in s.requests ensures !IsOrphan(s.requests[id]) {
      UnpermittedIsOrphan(s.requests[id]);
    }
    assert Where(s.requests, IsOrphan) == {};
    RunningJobsExact(s, capacity);
  }

  /** Coverage requests alone never abandon a job. */
  lemma {:induction false} CoverageNeverAbandons(s: System, run: seq<Action>)
    requires forall id | id in s.requests :: s.requests[id].style.Coverage?
    requires forall i | 0 <= i < |run| && run[i].Arrive? :: run[i].style.Coverage?
    ensures NeverAbandons(s, run)
    decreases |run|
  {
    if run != [] && Step(s, run[0]).Some? {
      CoverageNeverAbandons(Step(s, run[0]).value, run[1..]);
    }
  }

  /** `n` clients in turn start a query and disconnect while it runs. */
  function Disconnects(n: nat): seq<Action> {
    if n == 0 then [] else Disconnects(n - 1) + [Arrive(n, Query), Spawn(n), DropFuture(n)]
  }

  lemma {:induction false} ExecuteAppend(s: System, a: seq<Action>, b: seq<Action>)
    ensures Execute(s, a + b) == match Execute(s, a) case Some(t) => Execute(t, b) case None => None
    decreases |a|
  {
    if a == [] {
      assert a + b == b;
    } else {
      assert (a + b)[1..] == a[1..] + b;
      if Step(s, a[0]).Some? {
        ExecuteAppend(Step(s, a[0]).value, a[1..], b);
      }
    }
  }

  lemma ThreeSteps(s: System, a: Action, b: Action, c: Action)
    requires Step(s, a).Some? && Step(Step(s, a).value, b).Some?
    ensures Execute(s, [a, b, c]) == Step(Step(Step(s, a).value, b).value, c)
  {
    assert [a, b, c][1..] == [b, c] && [b, c][1..] == [c] && [c][1..] == [];
    var s1 := Step(s, a).value;
    var s2 := Step(s1, b).value;
    assert Execute(s, [a, b, c]) == Execute(s1, [b, c]);
    assert Execute(s1, [b, c]) == Execute(s2, [c]);
    assert Step(s2, c).Some? ==> Execute(Step(s2, c).value, []) == Step(s2, c);
  }

  /**
   With at least one permit the query handlers put no bound on running jobs:
   for every `n` some run ends with `n` of them and all permits free.
   */
  lemma {:induction false} QueryJobsUnbounded(capacity: nat, n: nat)
    requires capacity > 0
    ensures Execute(Initial(capacity), Disconnects(n)).Some?
    ensures
      var s := Execute(Initial(capacity), Disconnects(n)).value;
      && s.free == capacity == s.capacity
      && Count(s.requests, HasRunningJob) == n
      && forall id | id in s.requests :: id <= n
  {
    if n == 0 {
      assert Where(map[], HasRunningJob) == {};
    } else {
      QueryJobsUnbounded(capacity, n - 1);
      var s := Execute(Initial(capacity), Disconnects(n - 1)).value;
      ExecuteAppend(Initial(capacity), Disconnects(n - 1), [Arrive(n, Query), Spawn(n), DropFuture(n)]);
      ThreeSteps(s, Arrive(n, Query), Spawn(n), DropFuture(n));
      var t := Execute(Initial(capacity), Disconnects(n)).value;
      assert t.requests == s.requests[n := Request(Query, Dropped, Running)];
      CountUpdate(s.requests, n, Request(Query, Dropped, Running), HasRunningJob);
    }
  }

  // ---------------------------------------------------------------------
  // Everything admitted can be finished
  // ---------------------------------------------------------------------

  /** Only spawning, ending and answering: nobody arrives, gives up or returns early. */
  ghost predicate OnlyWork(run: seq<Action>) {
    forall i | 0 <= i < |run| :: run[i].Spawn? || run[i].EndJob? || run[i].Answer?
  }

  /** The request with its job run to the end and its client, if it still waits, answered. */
  function Settled(r: Request): Request {
    Request(
      r.style,
      if r.future.Preparing? || r.future.Waiting? then Answered else r.future,
      if r.future.Preparing? || r.job.Running? then Ended else r.job)
  }

  ghost predicate Quiet(s: System) {
    forall id | id in s.requests ::
      !s.requests[id].future.Preparing? && !s.requests[id].future.Waiting? && !s.requests[id].job.Running?
  }

  /** The steps that settle one request. */
  function WorkFor(id: nat, r: Request): seq<Action> {
    (if r.future.Preparing? then [Spawn(id)] else [])
    + (if r.future.Preparing? || r.job.Running? then [EndJob(id)] else [])
    + (if r.future.Preparing? || r.future.Waiting? then [Answer(id)] else [])
  }

  lemma OneStep(s: System, a: Action)
    ensures Execute(s, [a]) == Step(s, a)
  {
    assert [a][1..] == [];
    assert Step(s, a).Some? ==> Execute(Step(s, a).value, []) == Step(s, a);
  }

  lemma SettleOne(s: System, id: nat)
    requires id in s.requests && Coherent(s.requests[id])
    ensures
      var t := Execute(s, WorkFor(id, s.requests[id]));
      t.Some? && t.value.requests == s.requests[id := Settled(s.requests[id])]
  {
    var r := s.requests[id];
    var a, b, c := Spawn(id), EndJob(id), Answer(id);
    var spawn := if r.future.Preparing? then [a] else [];
    var end := if r.future.Preparing? || r.job.Running? then [b] else [];
    var answer := if r.future.Preparing? || r.future.Waiting? then [c] else [];
    ExecuteAppend(s, spawn + end, answer);
    ExecuteAppend(s, spawn, end);
    OneStep(s, a);
    var s1 := if r.future.Preparing? then Step(s, a).value else s;
    assert Execute(s, spawn) == Some(s1);
    OneStep(s1, b);
    var s2 := if r.future.Preparing? || r.job.Running? then Step(s1, b).value else s1;
    assert Execute(s, spawn + end) == Some(s2);
    OneStep(s2, c);
    assert WorkFor(id, r) == spawn + end + answer;
  }

  lemma {:induction false} SettleAll(s: System, ids: set<nat>) returns (run: seq<Action>)
    requires Invariant(s) && ids <= s.requests.Keys
    ensures OnlyWork(run) && Execute(s, run).Some?
    ensures
      var t := Execute(s, run).value;
      && t.requests.Keys == s.requests.Keys
      && forall id | id in s.requests ::
           t.requests[id] == if id in ids then Settled(s.requests[id]) else s.requests[id]
    decreases |ids|
  {
    if ids == {} {
      return [];
    }
    hide Step, Invariant, Settled, Coherent, WorkFor;
    var id :| id in ids;
    var work := WorkFor(id, s.requests[id]);
    CoherentRequest(s, id);
    SettleOne(s, id);
    WorkIsWork(id, s.requests[id]);
    ExecuteKeepsInvariant(s, work);
    var next := Execute(s, work).value;
    var rest := SettleAll(next, ids - {id});
    ExecuteAppend(s, work, rest);
    run := work + rest;
  }

  lemma WorkIsWork(id: nat, r: Request)
    ensures OnlyWork(WorkFor(id, r))
  {
  }

  lemma CoherentRequest(s: System, id: nat)
    requires Invariant(s) && id in s.requests
    ensures Coherent(s.requests[id])
  {
  }

  /**
   From every reachable state some run without arrivals and without dropped
   futures ends every job, answers everyone who still waits, and gives back
   every permit.
   */
  lemma EverythingCanFinish(s: System, capacity: nat) returns (run: seq<Action>)
    requires Reachable(s, capacity)
    ensures OnlyWork(run) && Execute(s, run).Some?
    ensures
      var t := Execute(s, run).value;
      && Quiet(t) && t.free == capacity && t.requests.Keys == s.requests.Keys
      && forall id | id in s.requests ::
           t.requests[id].future.Answered?
           <==> s.requests[id].future.Preparing? || s.requests[id].future.Waiting? || s.requests[id].future.Answered?
  {
    run := Finish(s, capacity);
  }

  /**
   Whoever waits may disconnect, in either style: the job still runs to its end
   and every permit comes back.
   */
  lemma AnyoneMayLeave(s: System, capacity: nat, id: nat) returns (run: seq<Action>)
    requires Reachable(s, capacity) && id in s.requests && s.requests[id].future.Waiting?
    ensures OnlyWork(run) && Execute(s, [DropFuture(id)] + run).Some?
    ensures
      var t := Execute(s, [DropFuture(id)] + run).value;
      Quiet(t) && t.free == capacity && id in t.requests && t.requests[id].future.Dropped? && t.requests[id].job.Ended?
  {
    ReachableInvariant(s, capacity);
    run := FinishAfter(s, capacity, DropFuture(id));
  }

  /** A query that fails before its job is spawned is answered without one. */
  lemma QueryMayReturnEarly(s: System, capacity: nat, id: nat) returns (run: seq<Action>)
    requires Reachable(s, capacity) && id in s.requests
    requires s.requests[id].future.Preparing? && s.requests[id].style.Query?
    ensures OnlyWork(run) && Execute(s, [ReturnEarly(id)] + run).Some?
    ensures
      var t := Execute(s, [ReturnEarly(id)] + run).value;
      Quiet(t) && t.free == capacity && id in t.requests && t.requests[id].future.Answered? && t.requests[id].job.Unspawned?
  {
    ReachableInvariant(s, capacity);
    run := FinishAfter(s, capacity, ReturnEarly(id));
  }

  lemma FinishAfter(s: System, capacity: nat, a: Action) returns (run: seq<Action>)
    requires Reachable(s, capacity) && Step(s, a).Some?
    ensures OnlyWork(run) && Execute(s, [a] + run).Some?
    ensures
      var next, t := Step(s, a).value, Execute(s, [a] + run).value;
      && Quiet(t) && t.free == capacity && t.requests.Keys == next.requests.Keys
      && forall id | id in next.requests :: t.requests[id] == Settled(next.requests[id])
  {
    var start :| Execute(Initial(capacity), start) == Some(s);
    OneStep(s, a);
    ExecuteAppend(Initial(capacity), start, [a]);
    var next := Step(s, a).value;
    assert Reachable(next, capacity);
    run := Finish(next, capacity);
    ExecuteAppend(s, [a], run);
  }

  lemma Finish(s: System, capacity: nat) returns (run: seq<Action>)
    requires Reachable(s, capacity)
    ensures OnlyWork(run) && Execute(s, run).Some?
    ensures
      var t := Execute(s, run).value;
      && Quiet(t) && t.free == capacity && t.requests.Keys == s.requests.Keys
      && forall id | id in s.requests :: t.requests[id] == Settled(s.requests[id])
  {
    ReachableInvariant(s, capacity);
    run := SettleAll(s, s.requests.Keys);
    var start :| Execute(Initial(capacity), start) == Some(s);
    ExecuteAppend(Initial(capacity), start, run);
    var t := Execute(s, run).value;
    assert Reachable(t, capacity);
    forall id | id in t.requests
      ensures !t.requests[id].future.Preparing? && !t.requests[id].future.Waiting? && !t.requests[id].job.Running?
    {
      assert t.requests[id] == Settled(s.requests[id]);
    }
    QuiescenceRestoresPermits(t, capacity);
  }
}
