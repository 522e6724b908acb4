/**
  From a stored plan to the consumer: whatever the batch sizes, and wherever calls end early, the intents of a plan
  are executed in the planner's order, each once.
*/
module QueueDrain {
  import opened PlannerTypes
  import opened QueueModel

  function NewIds(first: nat, n: nat): (ids: seq<nat>)
    ensures |ids| == n && forall i :: 0 <= i < n ==> ids[i] == first + i
  {
    if n == 0 then [] else NewIds(first, n - 1) + [first + n - 1]
  }

  function Least(a: nat, b: nat): nat { if a <= b then a else b }

  /** A task of a plan whose tasks are `first`, `first + 1`, ... in the order of its intents, stored at time `at`. */
  predicate IsPlanTask(q: Queue, id: nat, run: nat, version: nat, intents: seq<OrderIntent>, first: nat, at: nat) {
    && first <= id < first + |intents| && id in q.tasks && InPlan(q.tasks[id], run, version)
    && q.tasks[id].intent == intents[id - first] && q.tasks[id].createdAt == at
  }

  ghost predicate PlanStored(q: Queue, run: nat, version: nat, intents: seq<OrderIntent>, first: nat, at: nat) {
    forall id: nat :: first <= id < first + |intents| ==> IsPlanTask(q, id, run, version, intents, first, at)
  }

  ghost predicate PendingExactly(q: Queue, run: nat, version: nat, from: nat, to: nat) {
    forall id: nat :: IsPending(q, id, run, version) <==> from <= id < to
  }

  /** The plan is the run's latest, and exactly its first k tasks are done. */
  ghost predicate Drained(q: Queue, run: nat, version: nat, intents: seq<OrderIntent>, first: nat, at: nat, k: nat) {
    && k <= |intents| && run in q.runs && q.runs[run].latestVersion == version
    && PlanStored(q, run, version, intents, first, at)
    && PendingExactly(q, run, version, first + k, first + |intents|)
  }

  /** A plan stored as a run's latest version. */
  function Stored(q: Queue, run: nat, version: nat, intents: seq<OrderIntent>, status: RunStatus, now: nat): Queue {
    SetRun(ReplaceTasks(q, run, version, intents, now), run, version, status, now)
  }

  lemma StoredTask(q: Queue, run: nat, version: nat, intents: seq<OrderIntent>, status: RunStatus, now: nat, id: nat)
    requires Valid(q) && Unused(q, run, version)
    ensures var p := Stored(q, run, version, intents, status, now);
            && (IsPending(p, id, run, version) <==> q.nextTask <= id < q.nextTask + |intents|)
            && (q.nextTask <= id < q.nextTask + |intents| ==> IsPlanTask(p, id, run, version, intents, q.nextTask, now))
  {
    DeletesNothing(q, run, version);
    InsertsOnlyAdd(q, run, version, intents, now);
    if id in q.tasks { assert !InPlan(q.tasks[id], run, version); }
  }

  /** A stored plan, not yet touched. */
  lemma StoredPlan(q: Queue, run: nat, version: nat, intents: seq<OrderIntent>, status: RunStatus, now: nat)
    requires Valid(q) && Unused(q, run, version) && run in q.runs
    ensures Drained(Stored(q, run, version, intents, status, now), run, version, intents, q.nextTask, now, 0)
  {
    var p := Stored(q, run, version, intents, status, now);
    assert run in p.runs && p.runs[run].latestVersion == version by { StoresOnlyAdd(q, run, version, intents, now); }
    forall id: nat
      ensures IsPending(p, id, run, version) <==> q.nextTask <= id < q.nextTask + |intents|
      ensures q.nextTask <= id < q.nextTask + |intents| ==>
                IsPlanTask(p, id, run, version, intents, q.nextTask, now) {
      StoredTask(q, run, version, intents, status, now, id);
    }
  }

  lemma PartMembers(first: nat, n: nat, k: nat, m: nat, id: nat)
    requires k <= m <= n
    ensures id in NewIds(first, n)[k..m] <==> first + k <= id < first + m
  {
    var part := NewIds(first, n)[k..m];
    if first + k <= id < first + m { assert part[id - first - k] == id; }
  }

  /** Tasks of one plan come in the order of their ids. */
  lemma InOrder(q: Queue, run: nat, version: nat, intents: seq<OrderIntent>, first: nat, at: nat, i: nat, j: nat)
    requires PlanStored(q, run, version, intents, first, at) && first <= i < j < first + |intents|
    ensures i in q.tasks && j in q.tasks && Before(q, i, j)
  {
    assert IsPlanTask(q, i, run, version, intents, first, at) && IsPlanTask(q, j, run, version, intents, first, at);
  }

  /** The next part of the plan is a batch. */
  lemma NextIsBatch(q: Queue, run: nat, version: nat, intents: seq<OrderIntent>, first: nat, at: nat, k: nat,
                    limit: nat)
    requires Drained(q, run, version, intents, first, at, k)
    ensures IsBatch(q, NewIds(first, |intents|)[k..Least(k + limit, |intents|)], run, version, limit)
  {
    var ids, m := NewIds(first, |intents|), Least(k + limit, |intents|);
    var part := ids[k..m];
    forall i: nat | i < |part| ensures IsPending(q, part[i], run, version) && part[i] == first + k + i {
      assert part[i] == ids[k + i];
    }
    forall i, j | 0 <= i < j < |part| ensures Before(q, part[i], part[j]) {
      InOrder(q, run, version, intents, first, at, part[i], part[j]);
    }
    forall id: nat | IsPending(q, id, run, version) && id !in part
      ensures |part| == limit && forall i :: 0 <= i < |part| ==> Before(q, part[i], id) {
      PartMembers(first, |intents|, k, m, id);
      forall i | 0 <= i < |part| ensures Before(q, part[i], id) {
        InOrder(q, run, version, intents, first, at, part[i], id);
      }
    }
  }

  /** Whatever the limit, a call selects the plan's next intents, as many as the limit allows. */
  lemma BatchIsNextPart(q: Queue, run: nat, version: nat, intents: seq<OrderIntent>, first: nat, at: nat, k: nat,
                        limit: nat, batch: seq<nat>)
    requires Drained(q, run, version, intents, first, at, k) && IsBatch(q, batch, run, version, limit)
    ensures batch == NewIds(first, |intents|)[k..Least(k + limit, |intents|)]
  {
    NextIsBatch(q, run, version, intents, first, at, k, limit);
    BatchUnique(q, batch, NewIds(first, |intents|)[k..Least(k + limit, |intents|)], run, version, limit);
  }

  // ---------------------------------------------------------------- consume calls in a row

  /** A consume call that selected `batch` and recorded the first `done` of it before it ended. */
  datatype ConsumeCall = ConsumeCall(limit: nat, batch: seq<nat>, done: nat, succeeded: set<nat>, finished: bool,
                                     at: nat)

  function RecordedBy(c: ConsumeCall): seq<nat> {
    if c.done <= |c.batch| then c.batch[..c.done] else c.batch
  }

  ghost function AfterCalls(q: Queue, run: nat, cs: seq<ConsumeCall>): Queue {
    if cs == [] then q
    else
      var before, c := AfterCalls(q, run, cs[..|cs| - 1]), cs[|cs| - 1];
      if run in before.runs then Consumed(before, run, RecordedBy(c), c.succeeded, c.finished, c.at) else before
  }

  /** Each call works on the batch it selects, and a call that finishes has processed all of it. */
  ghost predicate Calls(q: Queue, run: nat, cs: seq<ConsumeCall>) {
    cs != [] ==>
      var before, c := AfterCalls(q, run, cs[..|cs| - 1]), cs[|cs| - 1];
      && Calls(q, run, cs[..|cs| - 1]) && run in before.runs
      && IsBatch(before, c.batch, run, before.runs[run].latestVersion, c.limit)
      && c.done <= |c.batch| && (c.finished ==> c.done == |c.batch| && c.limit > 0)
  }

  /** All tasks recorded, in the order they were. */
  function RecordedByAll(cs: seq<ConsumeCall>): seq<nat> {
    if cs == [] then [] else RecordedByAll(cs[..|cs| - 1]) + RecordedBy(cs[|cs| - 1])
  }

  /** Attempt rows are numbered in the order the tasks were recorded. */
  ghost predicate AttemptsFrom(q: Queue, p: Queue, ids: seq<nat>) {
    && p.nextAttempt == q.nextAttempt + |ids|
    && forall a: nat :: q.nextAttempt <= a < p.nextAttempt ==>
         a in p.attempts && p.attempts[a].task == ids[a - q.nextAttempt]
  }

  lemma {:induction false} RecordedAttempts(q: Queue, ids: seq<nat>, succeeded: set<nat>)
    requires forall i :: 0 <= i < |ids| ==> ids[i] in q.tasks
    ensures AttemptsFrom(q, Recorded(q, ids, succeeded), ids)
    ensures forall a: nat :: a in q.attempts && a < q.nextAttempt ==>
              a in Recorded(q, ids, succeeded).attempts && Recorded(q, ids, succeeded).attempts[a] == q.attempts[a]
  {
    if ids != [] {
      var front := ids[..|ids| - 1];
      RecordedAttempts(q, front, succeeded);
      RecordedTasks(q, front, succeeded);
      assert ids[|ids| - 1] in Recorded(q, front, succeeded).tasks;
    }
  }

  lemma DrainStep(q: Queue, run: nat, version: nat, intents: seq<OrderIntent>, first: nat, at: nat, k: nat,
                  c: ConsumeCall)
    requires Drained(q, run, version, intents, first, at, k)
    requires IsBatch(q, c.batch, run, version, c.limit) && c.done <= |c.batch|
    ensures k + c.done <= |intents| && RecordedBy(c) == NewIds(first, |intents|)[k..k + c.done]
    ensures Drained(Consumed(q, run, RecordedBy(c), c.succeeded, c.finished, c.at), run, version, intents, first, at,
                    k + c.done)
  {
    var ids, done := NewIds(first, |intents|), RecordedBy(c);
    BatchIsNextPart(q, run, version, intents, first, at, k, c.limit, c.batch);
    assert done == ids[k..k + c.done];
    RecordsPart(q, run, version, intents, first, at, k, done, c.succeeded);
    var after := Recorded(q, done, c.succeeded);
    StatusKeepsDrained(after, run, version, intents, first, at, k + c.done, StatusAfter(after, run, version), c.at);
  }

  lemma StatusKeepsDrained(q: Queue, run: nat, version: nat, intents: seq<OrderIntent>, first: nat, at: nat, k: nat,
                           status: RunStatus, now: nat)
    requires Drained(q, run, version, intents, first, at, k)
    ensures Drained(SetRun(q, run, version, status, now), run, version, intents, first, at, k)
  {
    var p := SetRun(q, run, version, status, now);
    assert p.tasks == q.tasks;
    forall id: nat
      ensures IsPending(p, id, run, version) <==> IsPending(q, id, run, version)
      ensures IsPlanTask(p, id, run, version, intents, first, at)
         <==> IsPlanTask(q, id, run, version, intents, first, at) {}
  }

  /** Recording leaves plan and intent of every task and ends the pending state of exactly the recorded ones. */
  lemma RecordedTask(q: Queue, done: seq<nat>, succeeded: set<nat>, run: nat, version: nat, intents: seq<OrderIntent>,
                     first: nat, at: nat, id: nat)
    requires forall i :: 0 <= i < |done| ==> done[i] in q.tasks
    ensures var p := Recorded(q, done, succeeded);
            && (IsPending(p, id, run, version) <==> IsPending(q, id, run, version) && id !in done)
            && (IsPlanTask(q, id, run, version, intents, first, at) ==>
                  IsPlanTask(p, id, run, version, intents, first, at))
  {
    RecordedTasks(q, done, succeeded);
  }

  lemma PartStored(q: Queue, run: nat, version: nat, intents: seq<OrderIntent>, first: nat, at: nat, k: nat, m: nat)
    requires PlanStored(q, run, version, intents, first, at) && k <= m <= |intents|
    ensures forall i :: 0 <= i < m - k ==> NewIds(first, |intents|)[k..m][i] in q.tasks
  {
    forall i | 0 <= i < m - k ensures NewIds(first, |intents|)[k..m][i] in q.tasks {
      assert IsPlanTask(q, first + k + i, run, version, intents, first, at);
    }
  }

  lemma RecordsPart(q: Queue, run: nat, version: nat, intents: seq<OrderIntent>, first: nat, at: nat, k: nat,
                    done: seq<nat>, succeeded: set<nat>)
    requires Drained(q, run, version, intents, first, at, k) && k + |done| <= |intents|
    requires done == NewIds(first, |intents|)[k..k + |done|]
    ensures Drained(Recorded(q, done, succeeded), run, version, intents, first, at, k + |done|)
  {
    var m, p := k + |done|, Recorded(q, done, succeeded);
    PartStored(q, run, version, intents, first, at, k, m);
    assert p.runs == q.runs by { RecordedTasks(q, done, succeeded); }
    forall id: nat
      ensures IsPending(p, id, run, version) <==> first + m <= id < first + |intents|
      ensures first <= id < first + |intents| ==> IsPlanTask(p, id, run, version, intents, first, at) {
      PartMembers(first, |intents|, k, m, id);
      RecordedTask(q, done, succeeded, run, version, intents, first, at, id);
    }
  }

  /** Attempt rows of one call after those of the calls before. */
  lemma AttemptsContinue(q: Queue, before: Queue, after: Queue, a: seq<nat>, b: seq<nat>)
    requires AttemptsFrom(q, before, a) && AttemptsFrom(before, after, b)
    requires forall x: nat :: x in before.attempts && x < before.nextAttempt ==>
               x in after.attempts && after.attempts[x] == before.attempts[x]
    ensures AttemptsFrom(q, after, a + b)
  {
  }

  lemma CallAttempts(q: Queue, run: nat, version: nat, intents: seq<OrderIntent>, first: nat, at: nat, k: nat,
                     c: ConsumeCall)
    requires Drained(q, run, version, intents, first, at, k)
    requires IsBatch(q, c.batch, run, version, c.limit) && c.done <= |c.batch|
    ensures var p := Consumed(q, run, RecordedBy(c), c.succeeded, c.finished, c.at);
            && AttemptsFrom(q, p, RecordedBy(c))
            && forall x: nat :: x in q.attempts && x < q.nextAttempt ==>
                 x in p.attempts && p.attempts[x] == q.attempts[x]
  {
    forall i | 0 <= i < |RecordedBy(c)| ensures RecordedBy(c)[i] in q.tasks {
      assert IsPending(q, c.batch[i], run, version);
    }
    RecordedAttempts(q, RecordedBy(c), c.succeeded);
  }

  /** From q to p the first tasks of the plan were recorded, in order, with one attempt each in order. */
  ghost predicate DrainedBy(q: Queue, p: Queue, run: nat, version: nat, intents: seq<OrderIntent>, first: nat, at: nat,
                            recorded: seq<nat>) {
    && |recorded| <= |intents| && recorded == NewIds(first, |intents|)[..|recorded|]
    && Drained(p, run, version, intents, first, at, |recorded|)
    && AttemptsFrom(q, p, recorded)
  }

  lemma OneMoreCall(q: Queue, before: Queue, run: nat, version: nat, intents: seq<OrderIntent>, first: nat, at: nat,
                    recorded: seq<nat>, c: ConsumeCall)
    requires DrainedBy(q, before, run, version, intents, first, at, recorded)
    requires IsBatch(before, c.batch, run, version, c.limit) && c.done <= |c.batch|
    ensures DrainedBy(q, Consumed(before, run, RecordedBy(c), c.succeeded, c.finished, c.at), run, version, intents,
                      first, at, recorded + RecordedBy(c))
  {
    var ids, k := NewIds(first, |intents|), |recorded|;
    DrainStep(before, run, version, intents, first, at, k, c);
    assert recorded + RecordedBy(c) == ids[..k + c.done];
    CallAttempts(before, run, version, intents, first, at, k, c);
    AttemptsContinue(q, before, Consumed(before, run, RecordedBy(c), c.succeeded, c.finished, c.at), recorded,
                     RecordedBy(c));
  }

  lemma {:induction false} CallsDrain(q: Queue, run: nat, version: nat, intents: seq<OrderIntent>, first: nat, at: nat,
                                      cs: seq<ConsumeCall>)
    requires Drained(q, run, version, intents, first, at, 0) && Calls(q, run, cs)
    ensures DrainedBy(q, AfterCalls(q, run, cs), run, version, intents, first, at, RecordedByAll(cs))
  {
    if cs != [] {
      var front, c := cs[..|cs| - 1], cs[|cs| - 1];
      CallsDrain(q, run, version, intents, first, at, front);
      OneMoreCall(q, AfterCalls(q, run, front), run, version, intents, first, at, RecordedByAll(front), c);
    }
  }

  /** The batches processed to their end. */
  predicate AllComplete(cs: seq<ConsumeCall>) {
    forall i :: 0 <= i < |cs| ==> cs[i].done == |cs[i].batch|
  }

  function Limits(cs: seq<ConsumeCall>): nat {
    if cs == [] then 0 else Limits(cs[..|cs| - 1]) + cs[|cs| - 1].limit
  }

  lemma {:induction false} CompleteCallsCount(q: Queue, run: nat, version: nat, intents: seq<OrderIntent>, first: nat,
                                              at: nat, cs: seq<ConsumeCall>)
    requires Drained(q, run, version, intents, first, at, 0) && Calls(q, run, cs) && AllComplete(cs)
    ensures |RecordedByAll(cs)| == Least(Limits(cs), |intents|)
  {
    if cs != [] {
      var front, c := cs[..|cs| - 1], cs[|cs| - 1];
      CompleteCallsCount(q, run, version, intents, first, at, front);
      CallsDrain(q, run, version, intents, first, at, front);
      BatchIsNextPart(AfterCalls(q, run, front), run, version, intents, first, at, |RecordedByAll(front)|, c.limit,
                      c.batch);
      assert c.done == |c.batch|;
    }
  }

  /** The recorded tasks carry the first intents of the plan, in order, and none is pending any more. */
  ghost predicate FirstIntentsDone(p: Queue, recorded: seq<nat>, intents: seq<OrderIntent>) {
    && |recorded| <= |intents|
    && (forall i, j :: 0 <= i < j < |recorded| ==> recorded[i] != recorded[j])
    && forall i :: 0 <= i < |recorded| ==>
         recorded[i] in p.tasks && p.tasks[recorded[i]].intent == intents[i] && p.tasks[recorded[i]].status != Pending
  }

  lemma DrainedIntents(q: Queue, p: Queue, run: nat, version: nat, intents: seq<OrderIntent>, first: nat, at: nat,
                       recorded: seq<nat>)
    requires DrainedBy(q, p, run, version, intents, first, at, recorded)
    ensures FirstIntentsDone(p, recorded, intents)
  {
    forall i | 0 <= i < |recorded|
      ensures recorded[i] in p.tasks && p.tasks[recorded[i]].intent == intents[i]
              && p.tasks[recorded[i]].status != Pending {
      assert IsPlanTask(p, recorded[i], run, version, intents, first, at);
      assert !IsPending(p, recorded[i], run, version);
    }
  }

  /**
    After a plan is stored, consume calls in a row, of any limits and wherever they end, record its intents in the
    planner's order, each once, with attempt rows in that order; complete calls record as many as their limits allow.
  */
  lemma PlanIsConsumedInOrder(q: Queue, run: nat, version: nat, intents: seq<OrderIntent>, status: RunStatus, now: nat,
                              cs: seq<ConsumeCall>)
    requires Valid(q) && Unused(q, run, version) && run in q.runs
    requires Calls(Stored(q, run, version, intents, status, now), run, cs)
    ensures var stored := Stored(q, run, version, intents, status, now);
            && FirstIntentsDone(AfterCalls(stored, run, cs), RecordedByAll(cs), intents)
            && AttemptsFrom(stored, AfterCalls(stored, run, cs), RecordedByAll(cs))
    ensures AllComplete(cs) ==> |RecordedByAll(cs)| == Least(Limits(cs), |intents|)
  {
    var stored, first := Stored(q, run, version, intents, status, now), q.nextTask;
    StoredPlan(q, run, version, intents, status, now);
    CallsDrain(stored, run, version, intents, first, now, cs);
    DrainedIntents(stored, AfterCalls(stored, run, cs), run, version, intents, first, now, RecordedByAll(cs));
    if AllComplete(cs) { CompleteCallsCount(stored, run, version, intents, first, now, cs); }
  }

  // ---------------------------------------------------------------- how the run ends

  /** The executor completed the task in the call that recorded it. */
  predicate SucceededIn(cs: seq<ConsumeCall>, id: nat) {
    exists c :: c in cs && id in RecordedBy(c) && id in c.succeeded
  }

  /** Every recorded task is executed or failed, as the executor answered. */
  ghost predicate AsAnswered(p: Queue, recorded: seq<nat>, cs: seq<ConsumeCall>) {
    forall id :: id in recorded ==>
      id in p.tasks && p.tasks[id].status == if SucceededIn(cs, id) then Executed else Failed
  }

  /** No task outside the stored plan has its run and version. */
  ghost predicate OnlyPlan(q: Queue, run: nat, version: nat, first: nat, n: nat) {
    forall t :: t in q.tasks && InPlan(q.tasks[t], run, version) ==> first <= t < first + n
  }

  lemma {:induction false} RecordedBefore(cs: seq<ConsumeCall>, id: nat)
    requires SucceededIn(cs, id)
    ensures id in RecordedByAll(cs)
  {
    var front, last := cs[..|cs| - 1], cs[|cs| - 1];
    assert cs == front + [last];
    if !(id in RecordedBy(last) && id in last.succeeded) {
      var c :| c in cs && id in RecordedBy(c) && id in c.succeeded;
      assert c in front;
      RecordedBefore(front, id);
    }
  }

  lemma OneMoreAnswer(before: Queue, front: seq<ConsumeCall>, c: ConsumeCall, recorded: seq<nat>, id: nat)
    requires AsAnswered(before, recorded, front)
    requires forall i :: 0 <= i < |RecordedBy(c)| ==> RecordedBy(c)[i] in before.tasks
    requires (id in recorded) != (id in RecordedBy(c))
    requires SucceededIn(front, id) ==> id in recorded
    ensures var p := Recorded(before, RecordedBy(c), c.succeeded);
            id in p.tasks && p.tasks[id].status == if SucceededIn(front + [c], id) then Executed else Failed
  {
    RecordedTasks(before, RecordedBy(c), c.succeeded);
    assert SucceededIn(front + [c], id) <==> SucceededIn(front, id) || (id in RecordedBy(c) && id in c.succeeded) by {
      if d :| d in front && id in RecordedBy(d) && id in d.succeeded { assert d in front + [c]; }
      assert c in front + [c];
    }
  }

  lemma PartsApart(first: nat, n: nat, k: nat, m: nat, a: seq<nat>, b: seq<nat>, id: nat)
    requires k <= m <= n && a == NewIds(first, n)[..k] && b == NewIds(first, n)[k..m]
    ensures !(id in a && id in b)
  {
    PartMembers(first, n, k, m, id);
    PartMembers(first, n, 0, k, id);
    assert a == NewIds(first, n)[0..k];
  }

  lemma AnswersStep(q: Queue, before: Queue, run: nat, version: nat, intents: seq<OrderIntent>, first: nat, at: nat,
                    front: seq<ConsumeCall>, c: ConsumeCall)
    requires DrainedBy(q, before, run, version, intents, first, at, RecordedByAll(front))
    requires IsBatch(before, c.batch, run, version, c.limit) && c.done <= |c.batch|
    requires AsAnswered(before, RecordedByAll(front), front)
    ensures AsAnswered(Recorded(before, RecordedBy(c), c.succeeded), RecordedByAll(front) + RecordedBy(c), front + [c])
  {
    var recorded, part := RecordedByAll(front), RecordedBy(c);
    var k := |recorded|;
    DrainStep(before, run, version, intents, first, at, k, c);
    PartStored(before, run, version, intents, first, at, k, k + c.done);
    forall id | id in recorded + part
      ensures var p := Recorded(before, part, c.succeeded);
              id in p.tasks && p.tasks[id].status == if SucceededIn(front + [c], id) then Executed else Failed {
      PartsApart(first, |intents|, k, k + c.done, recorded, part, id);
      if SucceededIn(front, id) { RecordedBefore(front, id); }
      OneMoreAnswer(before, front, c, recorded, id);
    }
  }

  /** After consume calls in a row each recorded task stands as the executor answered it. */
  lemma {:induction false} CallsAnswer(q: Queue, run: nat, version: nat, intents: seq<OrderIntent>, first: nat,
                                       at: nat, cs: seq<ConsumeCall>)
    requires Drained(q, run, version, intents, first, at, 0) && Calls(q, run, cs)
    ensures AsAnswered(AfterCalls(q, run, cs), RecordedByAll(cs), cs)
  {
    if cs != [] {
      var front, c := cs[..|cs| - 1], cs[|cs| - 1];
      var before := AfterCalls(q, run, front);
      CallsAnswer(q, run, version, intents, first, at, front);
      CallsDrain(q, run, version, intents, first, at, front);
      AnswersStep(q, before, run, version, intents, first, at, front, c);
      assert cs == front + [c];
      assert AfterCalls(q, run, cs).tasks == Recorded(before, RecordedBy(c), c.succeeded).tasks;
    }
  }

  lemma {:induction false} CallsKeepOnlyPlan(q: Queue, run: nat, version: nat, intents: seq<OrderIntent>, first: nat,
                                             at: nat, cs: seq<ConsumeCall>)
    requires Drained(q, run, version, intents, first, at, 0) && Calls(q, run, cs)
    requires OnlyPlan(q, run, version, first, |intents|)
    ensures OnlyPlan(AfterCalls(q, run, cs), run, version, first, |intents|)
  {
    if cs != [] {
      var front, c := cs[..|cs| - 1], cs[|cs| - 1];
      var before := AfterCalls(q, run, front);
      CallsKeepOnlyPlan(q, run, version, intents, first, at, front);
      forall i | 0 <= i < |RecordedBy(c)| ensures RecordedBy(c)[i] in before.tasks {
        assert IsPending(before, c.batch[i], run, before.runs[run].latestVersion);
      }
      RecordedTasks(before, RecordedBy(c), c.succeeded);
      assert AfterCalls(q, run, cs).tasks == Recorded(before, RecordedBy(c), c.succeeded).tasks;
    }
  }

  /** A finished last call leaves a status that fits. */
  lemma LastCallFits(q: Queue, run: nat, cs: seq<ConsumeCall>)
    requires Calls(q, run, cs) && cs != [] && cs[|cs| - 1].finished
    ensures StatusFits(AfterCalls(q, run, cs), run)
  {
    var front, c := cs[..|cs| - 1], cs[|cs| - 1];
    var before := AfterCalls(q, run, front);
    forall i | 0 <= i < |RecordedBy(c)| ensures RecordedBy(c)[i] in before.tasks {
      assert IsPending(before, c.batch[i], run, before.runs[run].latestVersion);
    }
    FinishedStatusFits(before, run, RecordedBy(c), c.succeeded, c.at);
  }

  /** With every task of the plan recorded, the run ends completed or failed as the answers were. */
  lemma DrainedStatus(q: Queue, p: Queue, run: nat, version: nat, intents: seq<OrderIntent>, first: nat, at: nat,
                      recorded: seq<nat>, cs: seq<ConsumeCall>)
    requires DrainedBy(q, p, run, version, intents, first, at, recorded) && |recorded| == |intents|
    requires OnlyPlan(p, run, version, first, |intents|) && StatusFits(p, run)
    requires AsAnswered(p, recorded, cs)
    ensures p.runs[run].status
         == if forall id :: id in recorded ==> SucceededIn(cs, id) then RunCompleted else RunFailed
  {
    assert recorded == NewIds(first, |intents|);
    forall t: nat | InLatest(p, run, t) ensures t in recorded {
      assert recorded[t - first] == t;
    }
    if id :| id in recorded && !SucceededIn(cs, id) {
      assert IsPlanTask(p, id, run, version, intents, first, at);
      assert InLatest(p, run, id) && p.tasks[id].status == Failed;
    }
  }

  lemma StoredOnlyPlan(q: Queue, run: nat, version: nat, intents: seq<OrderIntent>, status: RunStatus, now: nat)
    requires Valid(q) && Unused(q, run, version)
    ensures OnlyPlan(Stored(q, run, version, intents, status, now), run, version, q.nextTask, |intents|)
  {
    DeletesNothing(q, run, version);
    InsertsOnlyAdd(q, run, version, intents, now);
  }

  /**
    Complete calls whose limits cover a stored plan, and a finished last call, leave the run completed
    if the executor completed every task, and failed otherwise.
  */
  lemma PlanOutcome(q: Queue, run: nat, version: nat, intents: seq<OrderIntent>, status: RunStatus, now: nat,
                    cs: seq<ConsumeCall>)
    requires Valid(q) && Unused(q, run, version) && run in q.runs
    requires Calls(Stored(q, run, version, intents, status, now), run, cs)
    requires cs != [] && AllComplete(cs) && cs[|cs| - 1].finished && Limits(cs) >= |intents|
    ensures var p := AfterCalls(Stored(q, run, version, intents, status, now), run, cs);
            && |RecordedByAll(cs)| == |intents| && run in p.runs
            && p.runs[run].status
            == if forall id :: id in RecordedByAll(cs) ==> SucceededIn(cs, id) then RunCompleted else RunFailed
  {
    var stored, first := Stored(q, run, version, intents, status, now), q.nextTask;
    StoredPlan(q, run, version, intents, status, now);
    StoredOnlyPlan(q, run, version, intents, status, now);
    CallsDrain(stored, run, version, intents, first, now, cs);
    CallsAnswer(stored, run, version, intents, first, now, cs);
    CallsKeepOnlyPlan(stored, run, version, intents, first, now, cs);
    LastCallFits(stored, run, cs);
    CompleteCallsCount(stored, run, version, intents, first, now, cs);
    DrainedStatus(stored, AfterCalls(stored, run, cs), run, version, intents, first, now, RecordedByAll(cs), cs);
  }
}
