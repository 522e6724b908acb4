/**
  The queue's database operations as the backend runs them, on a database whose tables are fields.  Each
  method is proved against the table functions of QueueModel, whose safety laws then hold for any history.
*/
module ExecutionQueue {
  import opened Wrappers
  import opened PlannerTypes
  import opened QueueModel

  datatype ConsumeResult = Rejected | WalletUnavailable | Processed(count: nat)

  class Database {
    var runs: map<nat, Run>
    var tasks: map<nat, Task>
    var attempts: map<nat, Attempt>
    var nextRun: nat
    var nextTask: nat
    var nextAttempt: nat

    ghost function Contents(): Queue
      reads this
    {
      Queue(runs, tasks, attempts, nextRun, nextTask, nextAttempt)
    }

    constructor ()
      ensures Contents() == EMPTY
    {
      runs, tasks, attempts := map[], map[], map[];
      nextRun, nextTask, nextAttempt := 1, 1, 1;
    }

    method CreateRunRow(user: nat, now: nat) returns (run: nat)
      modifies this`runs, this`nextRun
      ensures run == old(nextRun) && Contents() == CreateRun(old(Contents()), user, now)
    {
      run := nextRun;
      runs := runs[run := Run(user, Planned, 1, now)];
      nextRun := run + 1;
    }

    method ReplacePlan(run: nat, version: nat, intents: seq<OrderIntent>, now: nat)
      modifies this`tasks, this`attempts, this`nextTask
      ensures Contents() == ReplaceTasks(old(Contents()), run, version, intents, now)
    {
      tasks := map t | t in tasks && !InPlan(tasks[t], run, version) :: tasks[t];
      attempts := map a | a in attempts && attempts[a].task in tasks :: attempts[a];
      ghost var cleared := Contents();
      assert cleared == DeletePlan(old(Contents()), run, version);
      for n := 0 to |intents|
        invariant Contents() == InsertTasks(cleared, run, version, intents[..n], now)
      {
        assert intents[..n + 1][..n] == intents[..n];
        tasks := tasks[nextTask := Task(run, version, intents[n], Pending, now)];
        nextTask := nextTask + 1;
      }
      assert intents[..|intents|] == intents;
    }

    method UpdateRunStatus(run: nat, version: nat, status: RunStatus, now: nat)
      modifies this`runs
      ensures Contents() == SetRun(old(Contents()), run, version, status, now)
    {
      if run in runs {
        runs := runs[run := runs[run].(latestVersion := version, status := status, updatedAt := now)];
      }
    }

    /** Status update of one task, then its attempt row. */
    method RecordOutcome(id: nat, status: TaskStatus)
      requires id in tasks
      modifies this`tasks, this`attempts, this`nextAttempt
      ensures Contents() == Record(old(Contents()), id, status)
    {
      var task := tasks[id];
      tasks := tasks[id := task.(status := status)];
      attempts := attempts[nextAttempt := Attempt(id, task.run, task.version, status)];
      nextAttempt := nextAttempt + 1;
    }

    /** The first pending task, in creation order, among the given ones. */
    method FirstOf(todo: set<nat>) returns (first: nat)
      requires todo != {} && todo <= tasks.Keys
      ensures first in todo && forall id :: id in todo && id != first ==> Before(Contents(), first, id)
    {
      first :| first in todo;
      var rest := todo - {first};
      while rest != {}
        invariant first in todo && first !in rest && rest <= todo
        invariant forall id :: id in todo && id !in rest && id != first ==> Before(Contents(), first, id)
      {
        var id :| id in rest;
        rest := rest - {id};
        if tasks[id].createdAt < tasks[first].createdAt
           || (tasks[id].createdAt == tasks[first].createdAt && id < first) {
          first := id;
        }
      }
    }

    /** SELECT ... ORDER BY created_at, id LIMIT: the batch of a plan. */
    method SelectPending(run: nat, version: nat, limit: nat) returns (ids: seq<nat>)
      ensures IsBatch(Contents(), ids, run, version, limit)
    {
      ids := [];
      var todo := set id | id in tasks && InPlan(tasks[id], run, version) && tasks[id].status == Pending;
      while |ids| < limit && todo != {}
        invariant |ids| <= limit && PendingInOrder(Contents(), ids, run, version)
        invariant forall id :: id in todo ==> IsPending(Contents(), id, run, version)
        invariant forall id :: IsPending(Contents(), id, run, version) ==> id in todo || id in ids
        invariant forall i, id :: 0 <= i < |ids| && id in todo ==> Before(Contents(), ids[i], id)
        decreases limit - |ids|
      {
        var first := FirstOf(todo);
        ids := ids + [first];
        todo := todo - {first};
      }
    }

    method PlanStatus(run: nat, version: nat) returns (status: RunStatus)
      ensures status == StatusAfter(Contents(), run, version)
      ensures status == RunFailed <==>
                exists t :: t in tasks && InPlan(tasks[t], run, version) && tasks[t].status == Failed
      ensures status == RunCompleted <==>
                forall t :: t in tasks && InPlan(tasks[t], run, version) ==> tasks[t].status == Executed
      ensures status == RunFailed || status == RunCompleted || status == Executing
    {
      var pending := set t | t in tasks && InPlan(tasks[t], run, version) && tasks[t].status == Pending;
      var failed := set t | t in tasks && InPlan(tasks[t], run, version) && tasks[t].status == Failed;
      assert pending == WithStatus(Contents(), run, version, Pending);
      assert failed == WithStatus(Contents(), run, version, Failed);
      CountedStatus(Contents(), run, version);
      status := if |pending| == 0 && |failed| == 0 then RunCompleted else if |failed| > 0 then RunFailed else Executing;
    }

    /**
      Processes a run's next batch.  `ready` says that endpoint, key and settings are there, `loadable`
      which accounts' wallets can be loaded, and `succeeded` which tasks the executor completes.  A wallet
      that cannot be loaded ends the call before its task, without setting the run's status.
    */
    method Consume(run: nat, limit: nat, ready: bool, loadable: set<string>, succeeded: set<nat>, now: nat)
      returns (r: ConsumeResult, ghost batch: seq<nat>, ghost done: nat)
      modifies this`runs, this`tasks, this`attempts, this`nextAttempt
      ensures limit == 0 ==> r == Processed(0)
      ensures r == Rejected || limit == 0 ==> Contents() == old(Contents())
      ensures limit > 0 ==> (r == Rejected <==> !ready || run !in old(runs))
      ensures !r.Processed? ==> runs == old(runs)
      ensures limit > 0 && r != Rejected ==>
                && IsBatch(old(Contents()), batch, run, old(runs)[run].latestVersion, limit) && done <= |batch|
                && Contents() == Consumed(old(Contents()), run, batch[..done], succeeded, r.Processed?, now)
                && (forall i :: 0 <= i < done ==> old(tasks)[batch[i]].intent.accountId in loadable)
                && (r.Processed? ==> done == |batch| == r.count)
                && (r.Processed? ==> StatusFits(Contents(), run))
                && (r == WalletUnavailable ==>
                      done < |batch| && old(tasks)[batch[done]].intent.accountId !in loadable)
    {
      batch, done := [], 0;
      if limit == 0 {
        return Processed(0), batch, done;
      }
      if run !in runs {
        return Rejected, batch, done;
      }
      var version := runs[run].latestVersion;
      var ids := SelectPending(run, version, limit);
      batch := ids;
      if !ready {
        return Rejected, batch, done;
      }
      BatchTasks(Contents(), ids, run, version, limit);
      var complete;
      complete, done := ProcessBatch(ids, loadable, succeeded);
      if !complete {
        return WalletUnavailable, batch, done;
      }
      assert ids[..|ids|] == ids;
      var status := PlanStatus(run, version);
      UpdateRunStatus(run, version, status, now);
      FinishedStatusFits(old(Contents()), run, ids, succeeded, now);
      r := Processed(|ids|);
    }

    /** The loop over the batch, up to the first task whose wallet cannot be loaded. */
    method ProcessBatch(ids: seq<nat>, loadable: set<string>, succeeded: set<nat>)
      returns (complete: bool, ghost done: nat)
      requires forall i :: 0 <= i < |ids| ==> ids[i] in tasks
      modifies this`tasks, this`attempts, this`nextAttempt
      ensures done <= |ids| && Contents() == Recorded(old(Contents()), ids[..done], succeeded)
      ensures forall j :: 0 <= j < done ==> old(tasks)[ids[j]].intent.accountId in loadable
      ensures complete ==> done == |ids|
      ensures !complete ==> done < |ids| && old(tasks)[ids[done]].intent.accountId !in loadable
    {
      done := 0;
      for i := 0 to |ids|
        invariant done == i && Contents() == Recorded(old(Contents()), ids[..i], succeeded)
        invariant forall j :: 0 <= j < i ==> old(tasks)[ids[j]].intent.accountId in loadable
      {
        RecordedTasks(old(Contents()), ids[..i], succeeded);
        assert tasks[ids[i]].intent == old(tasks)[ids[i]].intent;
        if tasks[ids[i]].intent.accountId !in loadable {
          return false, done;
        }
        assert ids[..i + 1][..i] == ids[..i];
        RecordOutcome(ids[i], if ids[i] in succeeded then Executed else Failed);
        done := done + 1;
      }
      complete := true;
    }

    /** The confirmed part of a trade request; all earlier answers leave the tables alone. */
    method OrchestrateTrade(user: nat, request: Request, now: nat) returns (started: Option<nat>)
      modifies this`runs, this`tasks, this`attempts, this`nextRun, this`nextTask
      ensures Contents() == Orchestrated(old(Contents()), user, request, now)
      ensures started == if Starts(request) && (request.delayed ==> request.refreshed.Some?)
                         then Some(old(nextRun)) else None
    {
      if !request.valid || !request.confirmStrategy || request.initial.None? || !request.confirmPlan
         || request.confirmed.None? || !request.symbolsValid {
        return None;
      }
      var run := CreateRunRow(user, now);
      ReplacePlan(run, 1, request.confirmed.value, now);
      UpdateRunStatus(run, 1, Executing, now);
      if request.delayed {
        if request.refreshed.None? {
          return None;
        }
        ReplacePlan(run, 2, request.refreshed.value, now);
        UpdateRunStatus(run, 2, Replanned, now);
      }
      started := Some(run);
    }

    /** A directive becomes the run's next plan version, or is refused without a trace. */
    method PersistDirective(user: nat, run: nat, plan: Option<seq<OrderIntent>>, now: nat)
      returns (version: Option<nat>)
      modifies this`runs, this`tasks, this`attempts, this`nextTask
      ensures Contents() == Directed(old(Contents()), user, run, plan, now)
      ensures version.Some? <==> IsLatest(old(Contents()), user, run) && plan.Some?
      ensures version.Some? ==> version.value == old(runs)[run].latestVersion + 1
    {
      if run !in runs || runs[run].user != user
         || exists r :: r in runs && runs[r].user == user && !(runs[r].updatedAt < runs[run].updatedAt
                        || (runs[r].updatedAt == runs[run].updatedAt && r <= run)) {
        return None;
      }
      if plan.None? {
        return None;
      }
      var next := runs[run].latestVersion + 1;
      ReplacePlan(run, next, plan.value, now);
      UpdateRunStatus(run, next, Replanned, now);
      version := Some(next);
    }
  }

  lemma BatchTasks(q: Queue, ids: seq<nat>, run: nat, version: nat, limit: nat)
    requires IsBatch(q, ids, run, version, limit)
    ensures forall i :: 0 <= i < |ids| ==> ids[i] in q.tasks
  {
    forall i | 0 <= i < |ids| ensures ids[i] in q.tasks {
      assert IsPending(q, ids[i], run, version);
    }
  }

  function WithStatus(q: Queue, run: nat, version: nat, status: TaskStatus): set<nat> {
    set t | t in q.tasks && InPlan(q.tasks[t], run, version) && q.tasks[t].status == status
  }

  lemma CountedStatus(q: Queue, run: nat, version: nat)
    ensures forall status :: |WithStatus(q, run, version, status)| > 0 <==> AnyWith(q, run, version, status)
  {
    forall status ensures |WithStatus(q, run, version, status)| > 0 <==> AnyWith(q, run, version, status) {
      if AnyWith(q, run, version, status) {
        var t :| t in q.tasks && InPlan(q.tasks[t], run, version) && q.tasks[t].status == status;
        assert t in WithStatus(q, run, version, status);
      }
      if |WithStatus(q, run, version, status)| > 0 {
        var t :| t in WithStatus(q, run, version, status);
      }
    }
  }
}
