/**
  The endpoint pool of the RPC client (src/backend/workerCore.ts): round-robin rotation per pool key, and the
  failover loop over endpoints and attempts.  What an endpoint answers is arbitrary.
*/
module RpcPool {
  import opened Wrappers
  import opened JsText
  import opened Radix

  // ---------------------------------------------------------------- rotation

  function Rotated<T>(pool: seq<T>, offset: nat): (r: seq<T>)
    ensures |r| == |pool|
  {
    if |pool| <= 1 then pool
    else
      var start := offset % |pool|;
      pool[start..] + pool[..start]
  }

  function OffsetIn(counters: map<string, nat>, pool: seq<string>): nat {
    var key := Join(pool, '|');
    if key in counters then counters[key] else 0
  }

  /** One call's effect on the counters: pools of at most one endpoint keep none. */
  function CountersNext(counters: map<string, nat>, pool: seq<string>): map<string, nat> {
    if |pool| <= 1 then counters else counters[Join(pool, '|') := OffsetIn(counters, pool) + 1]
  }

  /** The counters after calls with the given pools. */
  function CountersAfter(history: seq<seq<string>>): map<string, nat> {
    if history == [] then map[] else CountersNext(CountersAfter(history[..|history| - 1]), history[|history| - 1])
  }

  class RoundRobin {
    var counters: map<string, nat>
    ghost var history: seq<seq<string>>

    /** The counters are those of the calls made so far. */
    ghost predicate Valid()
      reads this
    {
      counters == CountersAfter(history)
    }

    constructor ()
      ensures Valid() && history == [] && counters == map[]
    {
      counters, history := map[], [];
    }

    method Rotate(pool: seq<string>) returns (r: seq<string>)
      requires Valid()
      modifies this
      ensures Valid() && history == old(history) + [pool]
      ensures r == Rotated(pool, OffsetIn(CountersAfter(old(history)), pool))
      ensures counters == CountersNext(old(counters), pool)
    {
      ghost var before := history;
      history := history + [pool];
      assert history[..|history| - 1] == before;
      if |pool| <= 1 {
        return pool;
      }
      var key := Join(pool, '|');
      var next := if key in counters then counters[key] else 0;
      counters := counters[key := next + 1];
      var start := next % |pool|;
      if start == 0 {
        assert pool[0..] + pool[..0] == pool;
        return pool;
      }
      r := pool[start..] + pool[..start];
    }
  }

  /** Rotation only reorders. */
  lemma RotationPermutes<T>(pool: seq<T>, offset: nat)
    ensures multiset(Rotated(pool, offset)) == multiset(pool)
  {
    if |pool| > 1 {
      var start := offset % |pool|;
      assert pool == pool[..start] + pool[start..];
    }
  }

  /** Which endpoint leads the i-th of a run of calls. */
  function LeaderIndex(offset: nat, i: nat, n: nat): (k: nat)
    requires n > 0
    ensures k < n
  {
    (offset + i) % n
  }

  /** The only call, of n consecutive ones, in which endpoint j leads. */
  function Turn(offset: nat, j: nat, n: nat): (i: nat)
    requires j < n
    ensures i < n
  {
    var s := LeaderIndex(offset, 0, n);
    if j >= s then j - s else j + n - s
  }

  lemma LeaderAdvances(offset: nat, i: nat, n: nat)
    requires i < n && n >= 2
    ensures var s := LeaderIndex(offset, 0, n);
            LeaderIndex(offset, i, n) == if s + i < n then s + i else s + i - n
  {
    var s := LeaderIndex(offset, 0, n);
    var q := offset / n;
    DivMod(offset, n);
    if s + i < n {
      DivModOf(q, s + i, n);
    } else {
      MulDistributes(n, q + 1, q);
      DivModOf(q + 1, s + i - n, n);
    }
  }

  /** Failover goes round the pool: behind the leader come the endpoints in the order of the pool. */
  lemma RotatedAt<T>(pool: seq<T>, offset: nat, i: nat)
    requires i < |pool|
    ensures Rotated(pool, offset)[i] == pool[LeaderIndex(offset, i, |pool|)] == pool[(offset + i) % |pool|]
  {
    if |pool| > 1 { LeaderAdvances(offset, i, |pool|); }
  }

  /** Over n consecutive offsets, each of n endpoints leads exactly once. */
  lemma EachLeadsOnce(offset: nat, i: nat, j: nat, n: nat)
    requires i < n && j < n && n >= 2
    ensures LeaderIndex(offset, i, n) == j <==> i == Turn(offset, j, n)
  {
    LeaderAdvances(offset, i, n);
  }

  /**
    Over as many consecutive calls as the pool has endpoints, each endpoint leads exactly one call.  `offset`
    is the counter before the first of them; calls for other keys do not touch it.
  */
  lemma FairRotation(pool: seq<string>, offset: nat, i: nat, j: nat)
    requires i < |pool| && j < |pool| && |pool| > 1
    requires forall a, b :: 0 <= a < b < |pool| ==> pool[a] != pool[b]
    ensures Rotated(pool, offset + i)[0] == pool[j] <==> i == Turn(offset, j, |pool|)
  {
    EachLeadsOnce(offset, i, j, |pool|);
    RotatedAt(pool, offset + i, 0);
  }

  // ---------------------------------------------------------------- rotation over a history of calls

  predicate SharesCounter(p: seq<string>, q: seq<string>) {
    |p| > 1 && |q| > 1 && Join(p, '|') == Join(q, '|')
  }

  /** Pools whose endpoints contain no `|` share a counter only if they are the same pool. */
  lemma CountersDoNotMix(p: seq<string>, q: seq<string>)
    requires SharesCounter(p, q) && AllFree(p, '|') && AllFree(q, '|')
    ensures p == q
  {
    JoinInjective(p, q, '|');
  }

  /** Calls that use the pool's counter, and calls with the pool itself. */
  function CounterUses(history: seq<seq<string>>, pool: seq<string>): nat {
    if history == [] then 0
    else CounterUses(history[..|history| - 1], pool) + if SharesCounter(history[|history| - 1], pool) then 1 else 0
  }

  function CallsOf(history: seq<seq<string>>, pool: seq<string>): nat {
    if history == [] then 0
    else CallsOf(history[..|history| - 1], pool) + if history[|history| - 1] == pool then 1 else 0
  }

  /** A pool's offset counts the earlier calls that share its counter. */
  lemma {:induction false} OffsetCountsCalls(history: seq<seq<string>>, pool: seq<string>)
    requires |pool| > 1
    ensures OffsetIn(CountersAfter(history), pool) == CounterUses(history, pool)
  {
    if history != [] {
      OffsetCountsCalls(history[..|history| - 1], pool);
    }
  }

  /** These are exactly the pool's own calls if and only if no other pool with the same key was used. */
  lemma {:induction false} OwnCallsExactly(history: seq<seq<string>>, pool: seq<string>)
    requires |pool| > 1
    ensures CounterUses(history, pool) >= CallsOf(history, pool)
    ensures CounterUses(history, pool) == CallsOf(history, pool)
       <==> forall k :: 0 <= k < |history| && SharesCounter(history[k], pool) ==> history[k] == pool
  {
    if history != [] {
      var n := |history| - 1;
      OwnCallsExactly(history[..n], pool);
      assert forall k :: 0 <= k < n ==> history[..n][k] == history[k];
    }
  }

  /** In particular for endpoints without the separator. */
  lemma SeparatorFreeCalls(history: seq<seq<string>>, pool: seq<string>)
    requires |pool| > 1 && AllFree(pool, '|') && forall k :: 0 <= k < |history| ==> AllFree(history[k], '|')
    ensures CounterUses(history, pool) == CallsOf(history, pool)
  {
    OwnCallsExactly(history, pool);
    forall k | 0 <= k < |history| && SharesCounter(history[k], pool) ensures history[k] == pool {
      CountersDoNotMix(history[k], pool);
    }
  }

  /**
    Of |pool| consecutive uses of a pool's counter, the i-th counted from any of them is led by endpoint j for
    exactly one i: the leaders are all endpoints, each once.
  */
  lemma EachEndpointLeadsOnce(earlier: seq<seq<string>>, now: seq<seq<string>>, pool: seq<string>, i: nat, j: nat)
    requires i < |pool| && j < |pool| && |pool| > 1
    requires forall a, b :: 0 <= a < b < |pool| ==> pool[a] != pool[b]
    requires CounterUses(now, pool) == CounterUses(earlier, pool) + i
    ensures Rotated(pool, OffsetIn(CountersAfter(now), pool))[0] == pool[j]
       <==> i == Turn(CounterUses(earlier, pool), j, |pool|)
  {
    var before, offset := CounterUses(earlier, pool), OffsetIn(CountersAfter(now), pool);
    assert offset == before + i by { OffsetCountsCalls(now, pool); }
    assert Rotated(pool, before + i)[0] == pool[j] <==> i == Turn(before, j, |pool|) by {
      FairRotation(pool, before, i, j);
    }
  }

  const SHARER_A: seq<string> := ["a|b", "c"]
  const SHARER_B: seq<string> := ["a", "b|c"]

  /** m rounds of one call with each of two pools that share a key. */
  function Alternating(m: nat): (history: seq<seq<string>>)
    ensures |history| == 2 * m
  {
    if m == 0 then [] else Alternating(m - 1) + [SHARER_A] + [SHARER_B]
  }

  lemma SameKey()
    ensures SharesCounter(SHARER_A, SHARER_B) && SharesCounter(SHARER_A, SHARER_A) && SharesCounter(SHARER_B, SHARER_A)
  {
    assert SHARER_A[1..] == ["c"] && SHARER_B[1..] == ["b|c"];
    assert Join(SHARER_A, '|') == "a|b" + ['|'] + "c" == "a|b|c";
    assert Join(SHARER_B, '|') == "a" + ['|'] + "b|c" == "a|b|c";
  }

  lemma {:induction false} AlternatingUses(m: nat)
    ensures CounterUses(Alternating(m), SHARER_A) == 2 * m
  {
    if m > 0 {
      SameKey();
      AlternatingUses(m - 1);
      var h := Alternating(m);
      assert h[..|h| - 1] == Alternating(m - 1) + [SHARER_A];
      assert h[..|h| - 1][..|h| - 2] == Alternating(m - 1);
    }
  }

  /** Two pools that do share a key: called in turns, the first is led by its first endpoint every time. */
  lemma SharedCounterStarves(m: nat)
    ensures Rotated(SHARER_A, OffsetIn(CountersAfter(Alternating(m)), SHARER_A))[0] == SHARER_A[0]
  {
    OffsetCountsCalls(Alternating(m), SHARER_A);
    AlternatingUses(m);
    RotatedAt(SHARER_A, 2 * m, 0);
  }

  // ---------------------------------------------------------------- failover

  const MAX_ATTEMPTS := 3

  datatype Answer<T> = Answered(value: T) | Refused(retryable: bool)

  datatype Request = Request(endpoint: nat, attempt: nat)

  predicate Earlier(a: Request, b: Request) {
    a.endpoint < b.endpoint || (a.endpoint == b.endpoint && a.attempt < b.attempt)
  }

  predicate Retries<T>(answer: Answer<T>) {
    answer.Refused? && answer.retryable
  }

  /** The attempts that may be made: every earlier one on the same endpoint failed in a retryable way. */
  ghost predicate Reachable<T>(answers: Request -> Answer<T>, n: nat, q: Request) {
    && q.endpoint < n && q.attempt < 3
    && forall a: nat :: a < q.attempt ==> Retries(answers(Request(q.endpoint, a)))
  }

  /** The requests made before `end`: exactly the reachable ones, in order, all refused. */
  ghost predicate Tried<T>(answers: Request -> Answer<T>, n: nat, log: seq<Request>, end: Request) {
    && (forall i :: 0 <= i < |log| ==> Reachable(answers, n, log[i]) && Earlier(log[i], end))
    && (forall i :: 0 <= i < |log| ==> answers(log[i]).Refused?)
    && (forall i, j :: 0 <= i < j < |log| ==> Earlier(log[i], log[j]))
    && (forall q :: Reachable(answers, n, q) && Earlier(q, end) ==> q in log)
  }

  /** A retryable failure opens the next attempt. */
  lemma TriedOneMore<T>(answers: Request -> Answer<T>, n: nat, log: seq<Request>, q: Request)
    requires Tried(answers, n, log, q) && Reachable(answers, n, q) && answers(q).Refused?
    ensures Tried(answers, n, log + [q], Request(q.endpoint, q.attempt + 1))
  {
    var end := Request(q.endpoint, q.attempt + 1);
    forall p | Reachable(answers, n, p) && Earlier(p, end) ensures p in log + [q] {
      if !Earlier(p, q) { assert p == q; }
    }
  }

  lemma EarlierReachable<T>(answers: Request -> Answer<T>, n: nat, q: Request, attempt: nat)
    requires Reachable(answers, n, q) && attempt <= q.attempt
    ensures Reachable(answers, n, Request(q.endpoint, attempt))
  {
  }

  /** Any other failure, or the last attempt, closes the endpoint: nothing later on it is reachable. */
  lemma EndpointClosed<T>(answers: Request -> Answer<T>, n: nat, log: seq<Request>, end: Request)
    requires Tried(answers, n, log, end) && !Reachable(answers, n, end)
    ensures Tried(answers, n, log, Request(end.endpoint + 1, 0))
  {
    forall p | Reachable(answers, n, p) && p.endpoint == end.endpoint ensures p.attempt < end.attempt {
      if p.attempt >= end.attempt { EarlierReachable(answers, n, p, end.attempt); }
    }
  }

  /** Requests in order over n endpoints and three attempts are at most 3n. */
  lemma {:induction false} LogLength<T>(answers: Request -> Answer<T>, n: nat, log: seq<Request>, end: Request)
    requires Tried(answers, n, log, end) && end.attempt <= MAX_ATTEMPTS
    ensures |log| <= MAX_ATTEMPTS * end.endpoint + end.attempt
  {
    if log != [] {
      var k := |log| - 1;
      var last := log[k];
      var front := log[..k];
      assert Tried(answers, n, front, last) by {
        forall q | Reachable(answers, n, q) && Earlier(q, last) ensures q in front {
          var i :| 0 <= i < |log| && log[i] == q;
          assert i < k;
          assert front[i] == q;
        }
      }
      LogLength(answers, n, front, last);
    }
  }

  /**
    Endpoints in order, each tried again only after a retryable failure and at most three times.  The requests
    made are the reachable ones up to the first success, whose value is returned; with no success all reachable
    requests were made and refused.
  */
  method SolanaRpc<T>(n: nat, answers: Request -> Answer<T>) returns (r: Option<T>, log: seq<Request>)
    ensures r.None? ==> Tried(answers, n, log, Request(n, 0))
    ensures r.Some? ==>
              && log != []
              && var last := log[|log| - 1];
                 && Reachable(answers, n, last) && answers(last) == Answered(r.value)
                 && Tried(answers, n, log[..|log| - 1], last)
    ensures |log| <= 3 * n
  {
    r, log := None, [];
    for e := 0 to n
      invariant Tried(answers, n, log, Request(e, 0))
    {
      var attempt := 0;
      while attempt < MAX_ATTEMPTS
        invariant attempt < MAX_ATTEMPTS && Reachable(answers, n, Request(e, attempt))
        invariant Tried(answers, n, log, Request(e, attempt))
        decreases MAX_ATTEMPTS - attempt
      {
        var q := Request(e, attempt);
        var answer := answers(q);
        if answer.Answered? {
          LogLength(answers, n, log, q);
          assert (log + [q])[..|log|] == log;
          return Some(answer.value), log + [q];
        }
        TriedOneMore(answers, n, log, q);
        log := log + [q];
        if attempt + 1 < MAX_ATTEMPTS && answer.retryable {
          attempt := attempt + 1;
          continue;
        }
        EndpointClosed(answers, n, log, Request(e, attempt + 1));
        break;
      }
    }
    LogLength(answers, n, log, Request(n, 0));
  }

  /**
    What a call without success asked of one endpoint: a first time in any case, a second time exactly if the first
    failure was retryable, a third time exactly if the second was too, and no fourth time.
  */
  lemma EndpointRequests<T>(answers: Request -> Answer<T>, n: nat, log: seq<Request>, e: nat)
    requires Tried(answers, n, log, Request(n, 0)) && e < n
    ensures Request(e, 0) in log
    ensures Request(e, 1) in log <==> Retries(answers(Request(e, 0)))
    ensures Request(e, 2) in log <==> Retries(answers(Request(e, 0))) && Retries(answers(Request(e, 1)))
    ensures forall a: nat :: a >= 3 ==> Request(e, a) !in log
  {
    forall a: nat ensures Request(e, a) in log <==> Reachable(answers, n, Request(e, a)) {
      if Request(e, a) in log {
        var i :| 0 <= i < |log| && log[i] == Request(e, a);
      }
    }
    assert Reachable(answers, n, Request(e, 1)) <==> Retries(answers(Request(e, 0)));
    assert Reachable(answers, n, Request(e, 2)) <==> Retries(answers(Request(e, 0))) && Retries(answers(Request(e, 1)));
  }
}
