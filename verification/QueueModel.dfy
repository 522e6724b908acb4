/**
  The execution-run queue (rust-backend/src/main.rs, strategy.rs, actor_runtime.rs) as tables and as the
  effect of each database operation on them.  Every operation runs under one mutex, so a history is a
  sequence of operations; what the planner, the wallets and the executor answer is part of the operation.
*/
module QueueModel {
  import opened Wrappers
  import opened PlannerTypes

  datatype TaskStatus = Pending | Executed | Failed

  datatype Task = Task(run: nat, version: nat, intent: OrderIntent, status: TaskStatus, createdAt: nat)

  datatype Attempt = Attempt(task: nat, run: nat, version: nat, status: TaskStatus)

  datatype RunStatus = Planned | Executing | Replanned | RunCompleted | RunFailed

  datatype Run = Run(user: nat, status: RunStatus, latestVersion: nat, updatedAt: nat)

  datatype Queue = Queue(
    runs: map<nat, Run>,
    tasks: map<nat, Task>,
    attempts: map<nat, Attempt>,
    nextRun: nat,
    nextTask: nat,
    nextAttempt: nat)

  const EMPTY := Queue(map[], map[], map[], 1, 1, 1)

  // ---------------------------------------------------------------- statements

  function CreateRun(q: Queue, user: nat, now: nat): Queue {
    q.(runs := q.runs[q.nextRun := Run(user, Planned, 1, now)], nextRun := q.nextRun + 1)
  }

  function SetRun(q: Queue, run: nat, version: nat, status: RunStatus, now: nat): Queue {
    if run in q.runs
    then q.(runs := q.runs[run := q.runs[run].(latestVersion := version, status := status, updatedAt := now)])
    else q
  }

  predicate InPlan(task: Task, run: nat, version: nat) {
    task.run == run && task.version == version
  }

  /** Deleting a plan's tasks also deletes their attempts. */
  function DeletePlan(q: Queue, run: nat, version: nat): Queue {
    var kept := map t | t in q.tasks && !InPlan(q.tasks[t], run, version) :: q.tasks[t];
    q.(tasks := kept, attempts := map a | a in q.attempts && q.attempts[a].task in kept :: q.attempts[a])
  }

  function InsertTask(q: Queue, run: nat, version: nat, intent: OrderIntent, now: nat): Queue {
    q.(tasks := q.tasks[q.nextTask := Task(run, version, intent, Pending, now)], nextTask := q.nextTask + 1)
  }

  function InsertTasks(q: Queue, run: nat, version: nat, intents: seq<OrderIntent>, now: nat): Queue {
    if intents == [] then q
    else
      var n := |intents| - 1;
      InsertTask(InsertTasks(q, run, version, intents[..n], now), run, version, intents[n], now)
  }

  function ReplaceTasks(q: Queue, run: nat, version: nat, intents: seq<OrderIntent>, now: nat): Queue {
    InsertTasks(DeletePlan(q, run, version), run, version, intents, now)
  }

  /** The outcome of one task is written to the task and to a new attempt. */
  function Record(q: Queue, id: nat, status: TaskStatus): Queue {
    if id in q.tasks then
      var task := q.tasks[id];
      q.(tasks := q.tasks[id := task.(status := status)],
         attempts := q.attempts[q.nextAttempt := Attempt(id, task.run, task.version, status)],
         nextAttempt := q.nextAttempt + 1)
    else q
  }

  // ---------------------------------------------------------------- operations

  /** Orders by update time, then id, both descending: the user's latest run. */
  predicate IsLatest(q: Queue, user: nat, run: nat) {
    && run in q.runs && q.runs[run].user == user
    && forall r :: r in q.runs && q.runs[r].user == user ==>
         q.runs[r].updatedAt < q.runs[run].updatedAt || (q.runs[r].updatedAt == q.runs[run].updatedAt && r <= run)
  }

  /** What a trade request asks for, and what the planner answers each time it is asked. */
  datatype Request = Request(
    valid: bool,
    confirmStrategy: bool,
    confirmPlan: bool,
    symbolsValid: bool,
    delayed: bool,
    initial: Option<seq<OrderIntent>>,
    confirmed: Option<seq<OrderIntent>>,
    refreshed: Option<seq<OrderIntent>>)

  predicate Starts(r: Request) {
    r.valid && r.confirmStrategy && r.initial.Some? && r.confirmPlan && r.confirmed.Some? && r.symbolsValid
  }

  function StartRun(q: Queue, user: nat, intents: seq<OrderIntent>, now: nat): Queue {
    SetRun(ReplaceTasks(CreateRun(q, user, now), q.nextRun, 1, intents, now), q.nextRun, 1, Executing, now)
  }

  function Replan(q: Queue, run: nat, version: nat, intents: seq<OrderIntent>, now: nat): Queue {
    SetRun(ReplaceTasks(q, run, version, intents, now), run, version, Replanned, now)
  }

  function Orchestrated(q: Queue, user: nat, r: Request, now: nat): Queue {
    if !Starts(r) then q
    else
      var started := StartRun(q, user, r.confirmed.value, now);
      if r.delayed && r.refreshed.Some? then Replan(started, q.nextRun, 2, r.refreshed.value, now) else started
  }

  /** A directive replans its run only while that is still the user's latest run. */
  function Directed(q: Queue, user: nat, run: nat, plan: Option<seq<OrderIntent>>, now: nat): Queue {
    if IsLatest(q, user, run) && plan.Some?
    then Replan(q, run, q.runs[run].latestVersion + 1, plan.value, now)
    else q
  }

  predicate IsPending(q: Queue, id: nat, run: nat, version: nat) {
    id in q.tasks && InPlan(q.tasks[id], run, version) && q.tasks[id].status == Pending
  }

  /** Creation time, then id. */
  predicate Before(q: Queue, i: nat, j: nat)
    requires i in q.tasks && j in q.tasks
  {
    q.tasks[i].createdAt < q.tasks[j].createdAt || (q.tasks[i].createdAt == q.tasks[j].createdAt && i < j)
  }

  ghost predicate PendingInOrder(q: Queue, ids: seq<nat>, run: nat, version: nat) {
    && (forall i :: 0 <= i < |ids| ==> IsPending(q, ids[i], run, version))
    && (forall i, j :: 0 <= i < j < |ids| ==> Before(q, ids[i], ids[j]))
  }

  /** The first `limit` pending tasks of a plan in order. */
  ghost predicate IsBatch(q: Queue, ids: seq<nat>, run: nat, version: nat, limit: nat) {
    && |ids| <= limit && PendingInOrder(q, ids, run, version)
    && (forall id :: IsPending(q, id, run, version) && id !in ids ==>
          |ids| == limit && forall i :: 0 <= i < |ids| ==> Before(q, ids[i], id))
  }

  function Recorded(q: Queue, ids: seq<nat>, succeeded: set<nat>): Queue {
    if ids == [] then q
    else
      var last := ids[|ids| - 1];
      Record(Recorded(q, ids[..|ids| - 1], succeeded), last, if last in succeeded then Executed else Failed)
  }

  predicate AnyWith(q: Queue, run: nat, version: nat, status: TaskStatus) {
    exists id :: id in q.tasks && InPlan(q.tasks[id], run, version) && q.tasks[id].status == status
  }

  function StatusAfter(q: Queue, run: nat, version: nat): RunStatus {
    if AnyWith(q, run, version, Failed) then RunFailed
    else if AnyWith(q, run, version, Pending) then Executing
    else RunCompleted
  }

  /**
    A consume call that processed `ids` of its batch: all of it, after which the run's status is set, or
    only the part before a wallet that could not be loaded, after which it returns early.
  */
  function Consumed(q: Queue, run: nat, ids: seq<nat>, succeeded: set<nat>, finished: bool, now: nat): Queue
    requires run in q.runs
  {
    var version := q.runs[run].latestVersion;
    var after := Recorded(q, ids, succeeded);
    if finished then SetRun(after, run, version, StatusAfter(after, run, version), now) else after
  }

  // ---------------------------------------------------------------- the invariant

  ghost predicate TasksValid(q: Queue) {
    forall t :: t in q.tasks ==>
      && t < q.nextTask && q.tasks[t].run in q.runs
      && 1 <= q.tasks[t].version <= q.runs[q.tasks[t].run].latestVersion
  }

  ghost predicate AttemptsValid(q: Queue) {
    forall a :: a in q.attempts ==>
      && a < q.nextAttempt && q.attempts[a].task in q.tasks
      && var task := q.tasks[q.attempts[a].task];
         q.attempts[a] == Attempt(q.attempts[a].task, task.run, task.version, task.status) && task.status != Pending
  }

  /** A task that is not pending has its attempt, and no task has two. */
  ghost predicate OneAttemptEach(q: Queue) {
    && (forall t :: t in q.tasks && q.tasks[t].status != Pending ==>
          exists a :: a in q.attempts && q.attempts[a].task == t)
    && (forall a, b :: a in q.attempts && b in q.attempts && q.attempts[a].task == q.attempts[b].task ==> a == b)
  }

  ghost predicate CompletedMeansExecuted(q: Queue) {
    forall t :: t in q.tasks && q.tasks[t].run in q.runs
                && q.runs[q.tasks[t].run].status == RunCompleted
                && q.tasks[t].version == q.runs[q.tasks[t].run].latestVersion ==>
      q.tasks[t].status == Executed
  }

  ghost predicate RunsValid(q: Queue) {
    forall r :: r in q.runs ==> r < q.nextRun && q.runs[r].latestVersion >= 1
  }

  ghost predicate Valid(q: Queue) {
    RunsValid(q) && TasksValid(q) && AttemptsValid(q) && OneAttemptEach(q) && CompletedMeansExecuted(q)
  }

  ghost predicate RunEvolves(q: Queue, p: Queue, r: nat) {
    r in q.runs ==>
      r in p.runs && p.runs[r].user == q.runs[r].user && p.runs[r].latestVersion >= q.runs[r].latestVersion
  }

  ghost predicate Superseded(q: Queue, t: nat) {
    t in q.tasks && q.tasks[t].run in q.runs && q.tasks[t].version < q.runs[q.tasks[t].run].latestVersion
  }

  ghost predicate TaskEvolves(q: Queue, p: Queue, t: nat) {
    t in q.tasks ==>
      && t in p.tasks && p.tasks[t] == q.tasks[t].(status := p.tasks[t].status)
      && (q.tasks[t].status != Pending || Superseded(q, t) ==> p.tasks[t] == q.tasks[t])
  }

  ghost predicate AttemptEvolves(q: Queue, p: Queue, a: nat) {
    a in q.attempts ==> a in p.attempts && p.attempts[a] == q.attempts[a]
  }

  /**
    What any later queue keeps of an earlier one: runs keep their user and never go back a version; tasks
    and attempts are never deleted; a task's plan and intent never change, its status only leaves Pending,
    and a task of a superseded version does not change at all.
  */
  ghost predicate Evolves(q: Queue, p: Queue) {
    && (forall r :: RunEvolves(q, p, r))
    && (forall t :: TaskEvolves(q, p, t))
    && (forall a :: AttemptEvolves(q, p, a))
  }

  lemma TaskEvolvesOn(q: Queue, p: Queue, o: Queue, t: nat)
    requires forall r :: RunEvolves(q, p, r)
    requires TaskEvolves(q, p, t) && TaskEvolves(p, o, t)
    ensures TaskEvolves(q, o, t)
  {
    if Superseded(q, t) {
      assert RunEvolves(q, p, q.tasks[t].run);
    }
  }

  lemma EvolvesTransitive(q: Queue, p: Queue, o: Queue)
    requires Evolves(q, p) && Evolves(p, o)
    ensures Evolves(q, o)
  {
    forall r ensures RunEvolves(q, o, r) {
      assert RunEvolves(q, p, r) && RunEvolves(p, o, r);
    }
    forall t ensures TaskEvolves(q, o, t) {
      TaskEvolvesOn(q, p, o, t);
    }
    forall a ensures AttemptEvolves(q, o, a) {
      assert AttemptEvolves(q, p, a) && AttemptEvolves(p, o, a);
    }
  }

  // ---------------------------------------------------------------- statements keep it

  /** A plan version that no task has yet: deleting it deletes nothing. */
  ghost predicate Unused(q: Queue, run: nat, version: nat) {
    forall t :: t in q.tasks ==> !InPlan(q.tasks[t], run, version)
  }

  lemma DeletesNothing(q: Queue, run: nat, version: nat)
    requires AttemptsValid(q) && Unused(q, run, version)
    ensures DeletePlan(q, run, version) == q
  {
    assert DeletePlan(q, run, version).tasks == q.tasks;
    assert DeletePlan(q, run, version).attempts == q.attempts;
  }

  /** Inserting tasks only adds pending ones of the given plan. */
  lemma {:induction false} InsertsOnlyAdd(q: Queue, run: nat, version: nat, intents: seq<OrderIntent>, now: nat)
    requires forall t :: t in q.tasks ==> t < q.nextTask
    ensures var p := InsertTasks(q, run, version, intents, now);
            && p == q.(tasks := p.tasks, nextTask := p.nextTask)
            && p.nextTask == q.nextTask + |intents|
            && (forall t :: t in q.tasks ==> t in p.tasks && p.tasks[t] == q.tasks[t])
            && (forall t :: t in p.tasks && t !in q.tasks ==>
                  q.nextTask <= t < p.nextTask
                  && p.tasks[t] == Task(run, version, intents[t - q.nextTask], Pending, now))
            && (forall t :: q.nextTask <= t < p.nextTask ==> t in p.tasks)
  {
    if intents != [] {
      InsertsOnlyAdd(q, run, version, intents[..|intents| - 1], now);
    }
  }

  /** Storing a plan version no task has yet adds pending tasks and leaves everything else alone. */
  lemma StoresOnlyAdd(q: Queue, run: nat, version: nat, intents: seq<OrderIntent>, now: nat)
    requires TasksValid(q) && AttemptsValid(q) && Unused(q, run, version)
    ensures var p := ReplaceTasks(q, run, version, intents, now);
            && p == q.(tasks := p.tasks, nextTask := p.nextTask) && p.nextTask >= q.nextTask
            && (forall t :: t in q.tasks ==> t in p.tasks && p.tasks[t] == q.tasks[t])
            && (forall t :: t in p.tasks && t !in q.tasks ==>
                  t < p.nextTask && InPlan(p.tasks[t], run, version) && p.tasks[t].status == Pending)
  {
    DeletesNothing(q, run, version);
    InsertsOnlyAdd(q, run, version, intents, now);
  }

  lemma NewPlanTasks(q: Queue, run: nat, version: nat, intents: seq<OrderIntent>, status: RunStatus, now: nat)
    requires TasksValid(q) && AttemptsValid(q) && CompletedMeansExecuted(q) && run in q.runs
    requires version >= q.runs[run].latestVersion >= 1 && Unused(q, run, version) && status != RunCompleted
    ensures var p := SetRun(ReplaceTasks(q, run, version, intents, now), run, version, status, now);
            TasksValid(p) && CompletedMeansExecuted(p) && forall t :: TaskEvolves(q, p, t)
  {
    StoresOnlyAdd(q, run, version, intents, now);
  }

  lemma NewPlanAttempts(q: Queue, run: nat, version: nat, intents: seq<OrderIntent>, now: nat)
    requires TasksValid(q) && AttemptsValid(q) && OneAttemptEach(q) && Unused(q, run, version)
    ensures var p := ReplaceTasks(q, run, version, intents, now);
            AttemptsValid(p) && OneAttemptEach(p) && p.attempts == q.attempts
  {
    StoresOnlyAdd(q, run, version, intents, now);
  }

  /** A new, higher plan version for a run, with a status that is not "completed". */
  lemma NewPlan(q: Queue, run: nat, version: nat, intents: seq<OrderIntent>, status: RunStatus, now: nat)
    requires Valid(q) && run in q.runs && version >= q.runs[run].latestVersion && Unused(q, run, version)
    requires status != RunCompleted
    ensures var p := SetRun(ReplaceTasks(q, run, version, intents, now), run, version, status, now);
            && Valid(p) && Evolves(q, p) && p.nextRun == q.nextRun
            && p.runs == q.runs[run := q.runs[run].(latestVersion := version, status := status, updatedAt := now)]
  {
    var stored := ReplaceTasks(q, run, version, intents, now);
    assert stored.runs == q.runs && stored.nextRun == q.nextRun by { StoresOnlyAdd(q, run, version, intents, now); }
    NewPlanTasks(q, run, version, intents, status, now);
    NewPlanAttempts(q, run, version, intents, now);
    var p := SetRun(stored, run, version, status, now);
    assert p.attempts == stored.attempts && p.tasks == stored.tasks && p.nextAttempt == stored.nextAttempt;
  }

  /** The version after the latest is unused. */
  lemma NextUnused(q: Queue, run: nat, version: nat)
    requires TasksValid(q) && (run in q.runs ==> version > q.runs[run].latestVersion)
    ensures Unused(q, run, version)
  {
  }

  lemma Creates(q: Queue, user: nat, now: nat)
    requires Valid(q)
    ensures var p := CreateRun(q, user, now);
            Valid(p) && Evolves(q, p) && p.runs[q.nextRun] == Run(user, Planned, 1, now) && Unused(p, q.nextRun, 1)
  {
    assert q.nextRun !in q.runs;
  }

  lemma StartsSafely(q: Queue, user: nat, intents: seq<OrderIntent>, now: nat)
    requires Valid(q)
    ensures var p := StartRun(q, user, intents, now);
            Valid(p) && Evolves(q, p) && q.nextRun in p.runs && p.runs[q.nextRun].latestVersion == 1
  {
    Creates(q, user, now);
    var created := CreateRun(q, user, now);
    NewPlan(created, q.nextRun, 1, intents, Executing, now);
    EvolvesTransitive(q, created, StartRun(q, user, intents, now));
  }

  lemma ReplansSafely(q: Queue, run: nat, version: nat, intents: seq<OrderIntent>, now: nat)
    requires Valid(q) && run in q.runs && version == q.runs[run].latestVersion + 1
    ensures var p := Replan(q, run, version, intents, now); Valid(p) && Evolves(q, p)
  {
    NextUnused(q, run, version);
    NewPlan(q, run, version, intents, Replanned, now);
  }

  lemma Unchanged(q: Queue)
    ensures Evolves(q, q)
  {
  }

  lemma Orchestrates(q: Queue, user: nat, r: Request, now: nat)
    requires Valid(q)
    ensures Valid(Orchestrated(q, user, r, now)) && Evolves(q, Orchestrated(q, user, r, now))
  {
    if Starts(r) {
      StartsSafely(q, user, r.confirmed.value, now);
      if r.delayed && r.refreshed.Some? {
        var started := StartRun(q, user, r.confirmed.value, now);
        ReplansSafely(started, q.nextRun, 2, r.refreshed.value, now);
        EvolvesTransitive(q, started, Replan(started, q.nextRun, 2, r.refreshed.value, now));
      }
    } else {
      Unchanged(q);
    }
  }

  lemma Directs(q: Queue, user: nat, run: nat, plan: Option<seq<OrderIntent>>, now: nat)
    requires Valid(q)
    ensures Valid(Directed(q, user, run, plan, now)) && Evolves(q, Directed(q, user, run, plan, now))
  {
    if IsLatest(q, user, run) && plan.Some? {
      ReplansSafely(q, run, q.runs[run].latestVersion + 1, plan.value, now);
    } else {
      Unchanged(q);
    }
  }

  /** The tasks of a plan are `first`, `first + 1`, ... with its intents in order, all pending. */
  ghost predicate CarriesPlan(q: Queue, run: nat, version: nat, intents: seq<OrderIntent>, first: nat) {
    && (forall t: nat :: first <= t < first + |intents| <==>
          t in q.tasks && q.tasks[t].run == run && q.tasks[t].version == version)
    && forall t: nat :: first <= t < first + |intents| ==>
         q.tasks[t].intent == intents[t - first] && q.tasks[t].status == Pending
  }

  lemma CarriesStored(q: Queue, run: nat, version: nat, intents: seq<OrderIntent>, status: RunStatus, now: nat)
    requires TasksValid(q) && AttemptsValid(q) && Unused(q, run, version)
    ensures CarriesPlan(SetRun(ReplaceTasks(q, run, version, intents, now), run, version, status, now), run, version,
                        intents, q.nextTask)
  {
    DeletesNothing(q, run, version);
    InsertsOnlyAdd(q, run, version, intents, now);
  }

  lemma StillCarries(q: Queue, run: nat, version: nat, intents: seq<OrderIntent>, first: nat, next: nat,
                     refreshed: seq<OrderIntent>, now: nat)
    requires TasksValid(q) && AttemptsValid(q) && Unused(q, run, next) && next != version
    requires CarriesPlan(q, run, version, intents, first)
    ensures CarriesPlan(Replan(q, run, next, refreshed, now), run, version, intents, first)
  {
    DeletesNothing(q, run, next);
    InsertsOnlyAdd(q, run, next, refreshed, now);
  }

  lemma StartedOutcome(q: Queue, user: nat, intents: seq<OrderIntent>, now: nat)
    requires Valid(q)
    ensures var p := StartRun(q, user, intents, now);
            && Valid(p) && p.runs == q.runs[q.nextRun := Run(user, Executing, 1, now)]
            && p.nextTask == q.nextTask + |intents| && CarriesPlan(p, q.nextRun, 1, intents, q.nextTask)
  {
    var created := CreateRun(q, user, now);
    Creates(q, user, now);
    NewPlan(created, q.nextRun, 1, intents, Executing, now);
    CarriesStored(created, q.nextRun, 1, intents, Executing, now);
    DeletesNothing(created, q.nextRun, 1);
    InsertsOnlyAdd(created, q.nextRun, 1, intents, now);
  }

  lemma ReplannedOutcome(q: Queue, run: nat, intents: seq<OrderIntent>, first: nat, refreshed: seq<OrderIntent>,
                         version: nat, now: nat)
    requires Valid(q) && run in q.runs && version == q.runs[run].latestVersion + 1
    requires CarriesPlan(q, run, q.runs[run].latestVersion, intents, first)
    ensures var p := Replan(q, run, version, refreshed, now);
            && p.runs == q.runs[run := Run(q.runs[run].user, Replanned, version, now)]
            && CarriesPlan(p, run, q.runs[run].latestVersion, intents, first)
            && CarriesPlan(p, run, version, refreshed, q.nextTask)
  {
    NextUnused(q, run, version);
    NewPlan(q, run, version, refreshed, Replanned, now);
    StillCarries(q, run, q.runs[run].latestVersion, intents, first, version, refreshed, now);
    CarriesStored(q, run, version, refreshed, Replanned, now);
  }

  /**
    A fully confirmed request makes a new run of the user that executes the confirmed plan as version 1, or, when it
    was delayed and planned anew, the new plan as version 2; any other request leaves the tables alone.
  */
  lemma OrchestratedOutcome(q: Queue, user: nat, r: Request, now: nat)
    requires Valid(q)
    ensures r.valid && r.confirmStrategy && r.initial.Some? && r.confirmPlan && r.confirmed.Some? && r.symbolsValid ==>
              var p := Orchestrated(q, user, r, now);
              && CarriesPlan(p, q.nextRun, 1, r.confirmed.value, q.nextTask)
              && if r.delayed && r.refreshed.Some?
                 then p.runs == q.runs[q.nextRun := Run(user, Replanned, 2, now)]
                      && CarriesPlan(p, q.nextRun, 2, r.refreshed.value, q.nextTask + |r.confirmed.value|)
                 else p.runs == q.runs[q.nextRun := Run(user, Executing, 1, now)]
    ensures Orchestrated(q, user, r, now) == q
            || (r.valid && r.confirmStrategy && r.initial.Some? && r.confirmPlan && r.confirmed.Some? && r.symbolsValid)
  {
    if Starts(r) {
      StartedOutcome(q, user, r.confirmed.value, now);
      if r.delayed && r.refreshed.Some? {
        var started := StartRun(q, user, r.confirmed.value, now);
        ReplannedOutcome(started, q.nextRun, r.confirmed.value, q.nextTask, r.refreshed.value, 2, now);
      }
    }
  }

  /** A user has at most one latest run; right after a request started one, it is that one. */
  lemma StartedIsLatest(q: Queue, user: nat, r: Request, now: nat, run: nat)
    requires Valid(q) && Starts(r)
    requires forall o :: o in q.runs && q.runs[o].user == user ==> q.runs[o].updatedAt <= now
    ensures IsLatest(Orchestrated(q, user, r, now), user, run) <==> run == q.nextRun
  {
    var p := Orchestrated(q, user, r, now);
    OrchestratedOutcome(q, user, r, now);
    assert p.runs[q.nextRun].user == user && p.runs[q.nextRun].updatedAt == now;
  }

  /** A run written after all others of its user is the user's latest. */
  lemma WrittenIsLatest(q: Queue, run: nat, version: nat, status: RunStatus, now: nat, other: nat)
    requires run in q.runs
    requires forall o :: o in q.runs && o != run && q.runs[o].user == q.runs[run].user ==> q.runs[o].updatedAt < now
    ensures IsLatest(SetRun(q, run, version, status, now), q.runs[run].user, other) <==> other == run
  {
    var p := SetRun(q, run, version, status, now);
    assert p.runs[run].updatedAt == now;
  }

  /** A directive accepted for the latest run becomes its next version, all pending; for any other run it is refused. */
  lemma DirectedOutcome(q: Queue, user: nat, run: nat, plan: Option<seq<OrderIntent>>, now: nat)
    requires Valid(q)
    ensures IsLatest(q, user, run) && plan.Some? ==>
              var p, v := Directed(q, user, run, plan, now), q.runs[run].latestVersion + 1;
              p.runs == q.runs[run := Run(user, Replanned, v, now)] && CarriesPlan(p, run, v, plan.value, q.nextTask)
    ensures !IsLatest(q, user, run) || plan.None? ==> Directed(q, user, run, plan, now) == q
  {
    if IsLatest(q, user, run) && plan.Some? {
      var v := q.runs[run].latestVersion + 1;
      NextUnused(q, run, v);
      NewPlan(q, run, v, plan.value, Replanned, now);
      CarriesStored(q, run, v, plan.value, Replanned, now);
    }
  }

  lemma DeletesOnlyPlan(q: Queue, run: nat, version: nat, t: nat)
    ensures t in DeletePlan(q, run, version).tasks <==>
              t in q.tasks && (q.tasks[t].run != run || q.tasks[t].version != version)
    ensures t in DeletePlan(q, run, version).tasks ==> DeletePlan(q, run, version).tasks[t] == q.tasks[t]
  {
  }

  /** Storing a plan version again replaces its tasks, and the attempts of the old ones go with them. */
  lemma ReplacesPlan(q: Queue, run: nat, version: nat, intents: seq<OrderIntent>, now: nat)
    requires TasksValid(q)
    ensures var p := ReplaceTasks(q, run, version, intents, now);
            && CarriesPlan(p, run, version, intents, q.nextTask)
            && (forall t :: t in q.tasks && (q.tasks[t].run != run || q.tasks[t].version != version) ==>
                  t in p.tasks && p.tasks[t] == q.tasks[t])
            && (forall a :: a in p.attempts <==>
                  a in q.attempts && q.attempts[a].task in DeletePlan(q, run, version).tasks)
  {
    var kept := DeletePlan(q, run, version);
    forall t ensures t in kept.tasks ==> t in q.tasks && kept.tasks[t] == q.tasks[t] {
      DeletesOnlyPlan(q, run, version, t);
    }
    InsertsOnlyAdd(kept, run, version, intents, now);
  }

  lemma PendingHasNoAttempt(q: Queue, id: nat)
    requires AttemptsValid(q) && id in q.tasks && q.tasks[id].status == Pending
    ensures forall a :: a in q.attempts ==> q.attempts[a].task != id
  {
  }

  /** The new attempt is the only one of its task, and every other task keeps its own. */
  lemma RecordKeepsOneEach(q: Queue, id: nat, status: TaskStatus)
    requires AttemptsValid(q) && OneAttemptEach(q) && id in q.tasks && q.tasks[id].status == Pending
    ensures OneAttemptEach(Record(q, id, status))
  {
    var p := Record(q, id, status);
    PendingHasNoAttempt(q, id);
    assert p.attempts[q.nextAttempt].task == id;
    forall t | t in p.tasks && p.tasks[t].status != Pending
      ensures exists a :: a in p.attempts && p.attempts[a].task == t {
      if t != id {
        var a :| a in q.attempts && q.attempts[a].task == t;
        assert a in p.attempts && p.attempts[a].task == t;
      }
    }
  }

  lemma RecordKeepsAttempts(q: Queue, id: nat, status: TaskStatus)
    requires AttemptsValid(q) && id in q.tasks && q.tasks[id].status == Pending && status != Pending
    ensures AttemptsValid(Record(q, id, status))
    ensures forall a :: AttemptEvolves(q, Record(q, id, status), a)
  {
    PendingHasNoAttempt(q, id);
  }

  lemma RecordKeepsTasks(q: Queue, id: nat, status: TaskStatus, run: nat)
    requires RunsValid(q) && TasksValid(q) && CompletedMeansExecuted(q)
    requires run in q.runs && q.runs[run].status != RunCompleted
    requires IsPending(q, id, run, q.runs[run].latestVersion) && status != Pending
    ensures var p := Record(q, id, status); TasksValid(p) && CompletedMeansExecuted(p)
    ensures forall t :: TaskEvolves(q, Record(q, id, status), t)
  {
  }

  /** Recording a pending task's outcome, as long as its run is not marked completed. */
  lemma Records(q: Queue, id: nat, status: TaskStatus, run: nat)
    requires Valid(q) && run in q.runs && q.runs[run].status != RunCompleted
    requires IsPending(q, id, run, q.runs[run].latestVersion) && status != Pending
    ensures Valid(Record(q, id, status)) && Evolves(q, Record(q, id, status))
  {
    RecordKeepsAttempts(q, id, status);
    RecordKeepsOneEach(q, id, status);
    RecordKeepsTasks(q, id, status, run);
    assert Record(q, id, status).runs == q.runs;
  }

  /** Each task of a batch gets its outcome, no other task changes, and no run does. */
  lemma {:induction false} RecordedTasks(q: Queue, ids: seq<nat>, succeeded: set<nat>)
    requires forall i :: 0 <= i < |ids| ==> ids[i] in q.tasks
    ensures var p := Recorded(q, ids, succeeded);
            && p.runs == q.runs && p.tasks.Keys == q.tasks.Keys
            && (forall t :: t in q.tasks ==>
                  p.tasks[t] == if t in ids then q.tasks[t].(status := if t in succeeded then Executed else Failed)
                                else q.tasks[t])
  {
    if ids != [] {
      var front := ids[..|ids| - 1];
      RecordedTasks(q, front, succeeded);
      assert ids == front + [ids[|ids| - 1]];
    }
  }

  lemma {:induction false} RecordsBatch(q: Queue, ids: seq<nat>, succeeded: set<nat>, run: nat)
    requires Valid(q) && run in q.runs && (ids != [] ==> q.runs[run].status != RunCompleted)
    requires forall i :: 0 <= i < |ids| ==> IsPending(q, ids[i], run, q.runs[run].latestVersion)
    requires forall i, j :: 0 <= i < j < |ids| ==> ids[i] != ids[j]
    ensures Valid(Recorded(q, ids, succeeded)) && Evolves(q, Recorded(q, ids, succeeded))
    ensures Recorded(q, ids, succeeded).runs == q.runs
  {
    if ids == [] {
      Unchanged(q);
    } else {
      var front, last := ids[..|ids| - 1], ids[|ids| - 1];
      assert last !in front && IsPending(q, last, run, q.runs[run].latestVersion);
      RecordsBatch(q, front, succeeded, run);
      RecordedTasks(q, front, succeeded);
      var before := Recorded(q, front, succeeded);
      var status := if last in succeeded then Executed else Failed;
      Records(before, last, status, run);
      EvolvesTransitive(q, before, Record(before, last, status));
    }
  }

  /** The task belongs to the run's latest plan. */
  predicate InLatest(q: Queue, run: nat, t: nat) {
    run in q.runs && t in q.tasks && q.tasks[t].run == run && q.tasks[t].version == q.runs[run].latestVersion
  }

  /** The run's status tells how its latest plan stands. */
  ghost predicate StatusFits(q: Queue, run: nat) {
    && run in q.runs
    && (q.runs[run].status == RunFailed <==> exists t :: InLatest(q, run, t) && q.tasks[t].status == Failed)
    && (q.runs[run].status == Executing <==>
          && (exists t :: InLatest(q, run, t) && q.tasks[t].status == Pending)
          && (forall t :: InLatest(q, run, t) ==> q.tasks[t].status != Failed))
    && (q.runs[run].status == RunCompleted <==> forall t :: InLatest(q, run, t) ==> q.tasks[t].status == Executed)
  }

  lemma AnyInLatest(q: Queue, p: Queue, run: nat, status: TaskStatus)
    requires run in q.runs && run in p.runs && p.tasks == q.tasks
    requires p.runs[run].latestVersion == q.runs[run].latestVersion
    ensures AnyWith(q, run, q.runs[run].latestVersion, status)
       <==> exists t :: InLatest(p, run, t) && p.tasks[t].status == status
  {
    var v := q.runs[run].latestVersion;
    if t :| InLatest(p, run, t) && p.tasks[t].status == status {
      assert t in q.tasks && InPlan(q.tasks[t], run, v);
    }
    if AnyWith(q, run, v, status) {
      var t :| t in q.tasks && InPlan(q.tasks[t], run, v) && q.tasks[t].status == status;
      assert InLatest(p, run, t);
    }
  }

  /** After a finished call the run is failed, executing or completed as the tasks of its latest plan say. */
  lemma FinishedStatusFits(q: Queue, run: nat, ids: seq<nat>, succeeded: set<nat>, now: nat)
    requires run in q.runs && forall i :: 0 <= i < |ids| ==> ids[i] in q.tasks
    ensures StatusFits(Consumed(q, run, ids, succeeded, true, now), run)
  {
    var after, p := Recorded(q, ids, succeeded), Consumed(q, run, ids, succeeded, true, now);
    RecordedTasks(q, ids, succeeded);
    AnyInLatest(after, p, run, Failed);
    AnyInLatest(after, p, run, Pending);
  }

  lemma SetsStatus(q: Queue, run: nat, now: nat)
    requires Valid(q) && run in q.runs
    ensures var v := q.runs[run].latestVersion;
            var p := SetRun(q, run, v, StatusAfter(q, run, v), now);
            Valid(p) && Evolves(q, p)
  {
    var v := q.runs[run].latestVersion;
    var p := SetRun(q, run, v, StatusAfter(q, run, v), now);
    forall t | t in p.tasks && InPlan(p.tasks[t], run, v) && p.runs[run].status == RunCompleted
      ensures p.tasks[t].status == Executed {
      assert !AnyWith(q, run, v, Failed) && !AnyWith(q, run, v, Pending);
    }
  }

  /** A completed run has nothing pending, so its batch is empty. */
  lemma BatchOfUnfinished(q: Queue, run: nat, batch: seq<nat>, limit: nat)
    requires Valid(q) && run in q.runs && IsBatch(q, batch, run, q.runs[run].latestVersion, limit)
    ensures batch != [] ==> q.runs[run].status != RunCompleted
    ensures forall i, j :: 0 <= i < j < |batch| ==> batch[i] != batch[j]
  {
    if batch != [] {
      assert IsPending(q, batch[0], run, q.runs[run].latestVersion);
    }
    forall i, j | 0 <= i < j < |batch| ensures batch[i] != batch[j] {
      assert Before(q, batch[i], batch[j]);
    }
  }

  lemma Consumes(q: Queue, run: nat, limit: nat, batch: seq<nat>, done: nat, succeeded: set<nat>, finished: bool,
                 now: nat)
    requires Valid(q) && run in q.runs && IsBatch(q, batch, run, q.runs[run].latestVersion, limit)
    requires done <= |batch|
    ensures var p := Consumed(q, run, batch[..done], succeeded, finished, now);
            Valid(p) && Evolves(q, p)
  {
    var ids := batch[..done];
    BatchOfUnfinished(q, run, batch, limit);
    RecordsBatch(q, ids, succeeded, run);
    if finished {
      var after := Recorded(q, ids, succeeded);
      SetsStatus(after, run, now);
      EvolvesTransitive(q, after, Consumed(q, run, ids, succeeded, finished, now));
    }
  }

  /** A batch is the oldest pending tasks, oldest first, and among tasks of one moment the smaller ids. */
  lemma BatchIsOldestFirst(q: Queue, ids: seq<nat>, run: nat, version: nat, limit: nat, i: nat, id: nat)
    requires IsBatch(q, ids, run, version, limit) && i < |ids|
    requires IsPending(q, id, run, version) && id !in ids[..i + 1]
    ensures ids[i] in q.tasks && q.tasks[ids[i]].createdAt <= q.tasks[id].createdAt
    ensures q.tasks[ids[i]].createdAt == q.tasks[id].createdAt ==> ids[i] < id
  {
    assert IsPending(q, ids[i], run, version);
    if id in ids {
      var later := ids[i + 1..];
      assert ids == ids[..i + 1] + later;
      var k :| 0 <= k < |later| && later[k] == id;
      assert Before(q, ids[i], ids[i + 1 + k]);
    } else {
      assert Before(q, ids[i], id);
    }
  }

  // ---------------------------------------------------------------- histories

  /** One operation of the system, with everything the outside answers. */
  datatype Event =
    | Orchestrate(user: nat, request: Request, time: nat)
    | Direct(directedUser: nat, directedRun: nat, plan: Option<seq<OrderIntent>>, time: nat)
    | Consume(run: nat, limit: nat, batch: seq<nat>, done: nat, succeeded: set<nat>, finished: bool, time: nat)
    | Refuse

  /** The event can happen in this queue: a consume call works on the batch it selects. */
  ghost predicate Enabled(q: Queue, e: Event) {
    e.Consume? ==>
      && e.run in q.runs && IsBatch(q, e.batch, e.run, q.runs[e.run].latestVersion, e.limit)
      && e.done <= |e.batch| && (e.finished ==> e.done == |e.batch| && e.limit > 0)
  }

  /** A refused call changes nothing. */
  ghost function Next(q: Queue, e: Event): Queue
    requires Enabled(q, e)
  {
    match e
    case Orchestrate(user, r, now) => Orchestrated(q, user, r, now)
    case Direct(user, run, plan, now) => Directed(q, user, run, plan, now)
    case Consume(run, _, batch, done, succeeded, finished, now) =>
      Consumed(q, run, batch[..done], succeeded, finished, now)
    case Refuse => q
  }

  lemma PlanningSafe(q: Queue, e: Event)
    requires Valid(q) && (e.Orchestrate? || e.Direct?)
    ensures Valid(Next(q, e)) && Evolves(q, Next(q, e))
  {
    if e.Orchestrate? {
      Orchestrates(q, e.user, e.request, e.time);
    } else {
      Directs(q, e.directedUser, e.directedRun, e.plan, e.time);
    }
  }

  lemma ConsumeSafe(q: Queue, e: Event)
    requires Valid(q) && e.Consume? && Enabled(q, e)
    ensures Valid(Next(q, e)) && Evolves(q, Next(q, e))
  {
    Consumes(q, e.run, e.limit, e.batch, e.done, e.succeeded, e.finished, e.time);
  }

  lemma StepSafe(q: Queue, e: Event)
    requires Valid(q) && Enabled(q, e)
    ensures Valid(Next(q, e)) && Evolves(q, Next(q, e))
  {
    if e.Consume? {
      ConsumeSafe(q, e);
    } else if e.Refuse? {
      Unchanged(q);
    } else {
      PlanningSafe(q, e);
    }
  }

  /** Queues reached one after the other, each by one enabled event. */
  ghost predicate History(qs: seq<Queue>) {
    && qs != [] && qs[0] == EMPTY
    && forall i :: 0 <= i < |qs| - 1 ==> exists e :: Enabled(qs[i], e) && qs[i + 1] == Next(qs[i], e)
  }

  lemma HistoryStep(qs: seq<Queue>, i: nat)
    requires History(qs) && i + 1 < |qs| && Valid(qs[i])
    ensures Valid(qs[i + 1]) && Evolves(qs[i], qs[i + 1])
  {
    var e :| Enabled(qs[i], e) && qs[i + 1] == Next(qs[i], e);
    StepSafe(qs[i], e);
  }

  lemma {:induction false} HistoryValid(qs: seq<Queue>, i: nat)
    requires History(qs) && i < |qs|
    ensures Valid(qs[i])
  {
    if i > 0 {
      HistoryValid(qs, i - 1);
      HistoryStep(qs, i - 1);
    }
  }

  ghost predicate StepsEvolve(qs: seq<Queue>) {
    forall i, j :: 0 <= i && j == i + 1 < |qs| ==> Evolves(qs[i], qs[j])
  }

  lemma HistoryStepsEvolve(qs: seq<Queue>)
    requires History(qs)
    ensures StepsEvolve(qs)
  {
    forall i, j | 0 <= i && j == i + 1 < |qs| ensures Evolves(qs[i], qs[j]) {
      HistoryValid(qs, i);
      HistoryStep(qs, i);
    }
  }

  lemma {:induction false} EvolvesAlong(qs: seq<Queue>, i: nat, j: nat)
    requires StepsEvolve(qs) && i <= j < |qs|
    ensures Evolves(qs[i], qs[j])
  {
    if i == j {
      Unchanged(qs[i]);
    } else {
      EvolvesAlong(qs, i, j - 1);
      EvolvesTransitive(qs[i], qs[j - 1], qs[j]);
    }
  }

  /**
    Safety over every history: at every moment each task is pending without an attempt or has exactly one
    matching attempt, and completed runs have only executed tasks in their latest plan; and from any moment
    to any later one nothing is deleted, no version goes back and superseded or finished tasks stay as they are.
  */
  lemma HistorySafe(qs: seq<Queue>, i: nat, j: nat)
    requires History(qs) && i <= j < |qs|
    ensures Valid(qs[i]) && Evolves(qs[i], qs[j])
  {
    HistoryValid(qs, i);
    HistoryStepsEvolve(qs);
    EvolvesAlong(qs, i, j);
  }

  /** Attempts of one task. */
  function AttemptsOf(q: Queue, t: nat): set<nat> {
    set a | a in q.attempts && q.attempts[a].task == t
  }

  /** The attempt law in numbers: none for a pending task, one with the task's own status otherwise. */
  lemma AttemptCount(q: Queue, t: nat)
    requires Valid(q) && t in q.tasks
    ensures |AttemptsOf(q, t)| == if q.tasks[t].status == Pending then 0 else 1
    ensures forall a :: a in AttemptsOf(q, t) ==> q.attempts[a].status == q.tasks[t].status
  {
    if q.tasks[t].status == Pending {
      assert AttemptsOf(q, t) == {};
    } else {
      var a :| a in q.attempts && q.attempts[a].task == t;
      assert AttemptsOf(q, t) == {a};
    }
  }

  lemma FreshInBatch(q: Queue, b: seq<nat>, run: nat, version: nat, k: nat)
    requires PendingInOrder(q, b, run, version) && k < |b|
    ensures b[k] !in b[..k]
  {
    forall i | 0 <= i < k ensures b[i] != b[k] {
      assert Before(q, b[i], b[k]);
    }
  }

  /** After a common prefix, a's next task does not come after b's. */
  lemma BatchNext(q: Queue, a: seq<nat>, b: seq<nat>, run: nat, version: nat, limit: nat, k: nat)
    requires IsBatch(q, a, run, version, limit) && IsBatch(q, b, run, version, limit)
    requires k < |a| && k < |b| && a[..k] == b[..k]
    ensures a[k] == b[k] || Before(q, a[k], b[k])
  {
    FreshInBatch(q, b, run, version, k);
    if b[k] in a {
      assert a == a[..k] + a[k..];
      var i :| 0 <= i < |a[k..]| && a[k..][i] == b[k];
      assert a[k + i] == b[k];
    }
  }

  lemma {:induction false} BatchPrefix(q: Queue, a: seq<nat>, b: seq<nat>, run: nat, version: nat, limit: nat, k: nat)
    requires IsBatch(q, a, run, version, limit) && IsBatch(q, b, run, version, limit)
    requires k <= |a| && k <= |b|
    ensures a[..k] == b[..k]
  {
    if k > 0 {
      BatchPrefix(q, a, b, run, version, limit, k - 1);
      BatchNext(q, a, b, run, version, limit, k - 1);
      BatchNext(q, b, a, run, version, limit, k - 1);
      assert a[..k] == a[..k - 1] + [a[k - 1]] && b[..k] == b[..k - 1] + [b[k - 1]];
    }
  }

  /** The task after a proper prefix is pending and not in the prefix. */
  lemma LeftOut(q: Queue, a: seq<nat>, b: seq<nat>, run: nat, version: nat)
    requires PendingInOrder(q, b, run, version) && |a| < |b| && b[..|a|] == a
    ensures IsPending(q, b[|a|], run, version) && b[|a|] !in a
  {
    FreshInBatch(q, b, run, version, |a|);
  }

  lemma BatchNotLonger(q: Queue, a: seq<nat>, b: seq<nat>, run: nat, version: nat, limit: nat)
    requires IsBatch(q, a, run, version, limit) && IsBatch(q, b, run, version, limit)
    ensures |b| <= |a|
  {
    BatchPrefix(q, a, b, run, version, limit, if |a| <= |b| then |a| else |b|);
    assert a[..|a|] == a;
    if |a| < |b| {
      LeftOut(q, a, b, run, version);
    }
  }

  /** The order leaves no choice: a consume call can select only one batch. */
  lemma BatchUnique(q: Queue, a: seq<nat>, b: seq<nat>, run: nat, version: nat, limit: nat)
    requires IsBatch(q, a, run, version, limit) && IsBatch(q, b, run, version, limit)
    ensures a == b
  {
    BatchNotLonger(q, a, b, run, version, limit);
    BatchNotLonger(q, b, a, run, version, limit);
    BatchPrefix(q, a, b, run, version, limit, |a|);
    assert a == a[..|a|] && b == b[..|a|];
  }
}
