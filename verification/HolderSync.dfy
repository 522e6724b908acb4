/**
  The holder-sync operations as the worker runs them, on a database whose tables are fields.  Each method is
  proved against the table functions of HolderStage, HolderDelta and HolderAggregate, whose laws then hold
  for any sequence of calls.
*/
module HolderSync {
  import opened Reals
  import opened Wrappers
  import opened Tables
  import opened HolderStage
  import opened HolderDelta
  import opened HolderAggregate

  datatype Status = Idle | Running | Completed | Failed

  datatype SyncState = SyncState(
    runId: Option<nat>,
    status: Status,
    nextShardIndex: nat,
    processedShardCount: nat,
    totalShardCount: nat,
    stagedHolderCount: nat)

  datatype Summary = Summary(status: Status, activeHolderCount: nat, upsertedCount: nat, zeroedCount: nat)

  const TOTAL_SHARDS := 512

  /** Positive rows of a token that an overwrite from `sums` sets to zero. */
  function Zeroed(holders: HolderTable, t: nat, keep: set<string>): set<HolderKey> {
    set k | k in holders && k.token == t && holders[k] > 0.0 && k.wallet !in keep
  }

  /** A run that failed or was interrupted is taken up again. */
  predicate Resumable(states: map<nat, SyncState>, t: nat) {
    t in states && states[t].runId.Some? && states[t].nextShardIndex <= states[t].totalShardCount
    && states[t].status in {Running, Failed}
  }

  method SumValues<K(==)>(m: map<K, real>) returns (sum: real)
    ensures sum == SumOf(m)
  {
    sum := 0.0;
    var rest := m;
    while rest != map[]
      invariant rest.Keys <= m.Keys && forall k :: k in rest ==> rest[k] == m[k]
      invariant sum + SumOf(rest) == SumOf(m)
      decreases |rest|
    {
      var k :| k in rest;
      SumRemove(rest, k);
      sum := sum + rest[k];
      rest := rest - {k};
    }
  }

  lemma KeepsOrDrops(table: HolderTable, t: nat, deltas: Balances, done: set<string>, w: string)
    requires w in deltas && w !in done
    ensures HolderKey(t, w) !in KeysOf(t, done)
    ensures KeysOf(t, done + {w}) == KeysOf(t, done) + {HolderKey(t, w)}
  {
  }

  /** The part of the balances already inserted while `todo` is left. */
  function Inserted(balances: Balances, todo: set<string>): Balances {
    map w | w in balances && w !in todo :: balances[w]
  }

  lemma InsertedStep(balances: Balances, todo: set<string>, w: string)
    requires w in todo && todo <= balances.Keys
    ensures Inserted(balances, todo - {w}) == Inserted(balances, todo)[w := balances[w]]
  {
  }

  lemma InsertedAll(balances: Balances)
    ensures Inserted(balances, {}) == balances && Inserted(balances, balances.Keys) == map[]
  {
  }

  lemma NothingInserted(stage: StageTable, t: nat, r: nat, s: nat)
    ensures Restaged(stage, t, r, s, map[]) == WithoutShard(stage, t, r, s)
  {
  }

  lemma InsertOne(stage: StageTable, t: nat, r: nat, s: nat, part: Balances, w: string, v: real)
    ensures Restaged(stage, t, r, s, part)[StageKey(t, r, s, w) := v] == Restaged(stage, t, r, s, part[w := v])
  {
    assert ShardKeys(t, r, s, part[w := v].Keys) == ShardKeys(t, r, s, part.Keys) + {StageKey(t, r, s, w)};
  }

  lemma GroupStep(done: StageTable, k: StageKey, v: real)
    requires k !in done
    ensures Grouped(done[k := v]) == Grouped(done)[k.wallet := v + Amount(Grouped(done), k.wallet)]
  {
    var more := done[k := v];
    assert more - {k} == done;
    GroupedCells(more, done, k);
  }

  lemma LessOne(slice: StageTable, todo: StageTable, k: StageKey)
    requires k in todo && todo.Keys <= slice.Keys
    ensures slice - (todo - {k}).Keys == (slice - todo.Keys)[k := slice[k]]
  {
  }

  lemma GroupLoopStep(slice: StageTable, todo: StageTable, left: StageTable, k: StageKey, sums: Balances)
    requires k in todo && todo.Keys <= slice.Keys && left == todo - {k}
    requires sums == Grouped(slice - todo.Keys)
    ensures sums[k.wallet := slice[k] + Amount(sums, k.wallet)] == Grouped(slice - left.Keys)
  {
    LessOne(slice, todo, k);
    GroupStep(slice - todo.Keys, k, slice[k]);
  }

  /** SUM ... GROUP BY wallet over one run. */
  method GroupSums(stage: StageTable, t: nat, r: nat) returns (sums: Balances)
    ensures sums == Summed(stage, t, r)
  {
    var slice := Slice(stage, t, r);
    var todo := slice;
    sums := map[];
    assert Grouped(slice - slice.Keys) == map[];
    while todo != map[]
      invariant todo.Keys <= slice.Keys
      invariant sums == Grouped(slice - todo.Keys)
      decreases |todo|
    {
      var k :| k in todo;
      var left := todo - {k};
      GroupLoopStep(slice, todo, left, k, sums);
      sums := sums[k.wallet := slice[k] + Amount(sums, k.wallet)];
      todo := left;
    }
    assert slice - todo.Keys == slice;
    SummedIsGrouped(stage, t, r);
  }

  /** The two loops that collect the differences. */
  method CollectDeltas(previous: Balances, balances: Balances) returns (deltas: Balances)
    ensures deltas == Deltas(previous, balances)
  {
    deltas := map[];
    var todo := balances.Keys;
    while todo != {}
      invariant todo <= balances.Keys
      invariant deltas == DeltasOn(previous, balances, balances.Keys - todo)
    {
      var w :| w in todo;
      DeltasOnStep(previous, balances, balances.Keys - todo, w);
      SetStep({}, balances.Keys, todo, w);
      var delta := balances[w] - Amount(previous, w);
      if Abs(delta) > TOLERANCE {
        deltas := deltas[w := delta];
      }
      todo := todo - {w};
    }
    deltas := CollectRemovals(previous, balances, deltas);
  }

  /** The second loop: wallets the shard no longer has. */
  method CollectRemovals(previous: Balances, balances: Balances, first: Balances) returns (deltas: Balances)
    requires first == DeltasOn(previous, balances, balances.Keys)
    ensures deltas == Deltas(previous, balances)
  {
    deltas := first;
    var todo := previous.Keys;
    assert balances.Keys + (previous.Keys - todo) == balances.Keys;
    while todo != {}
      invariant todo <= previous.Keys
      invariant deltas == DeltasOn(previous, balances, balances.Keys + (previous.Keys - todo))
    {
      var w :| w in todo;
      SetStep(balances.Keys, previous.Keys, todo, w);
      if w !in balances {
        DeltasOnStep(previous, balances, balances.Keys + (previous.Keys - todo), w);
        if Abs(previous[w]) > TOLERANCE {
          deltas := deltas[w := -previous[w]];
        }
      } else {
        assert balances.Keys + (previous.Keys - todo) + {w} == balances.Keys + (previous.Keys - todo);
      }
      todo := todo - {w};
    }
    AllDeltas(previous, balances);
  }

  lemma SetStep(base: set<string>, all: set<string>, todo: set<string>, w: string)
    requires w in todo && todo <= all
    ensures base + (all - (todo - {w})) == base + (all - todo) + {w}
    ensures all - (todo - {w}) == all - todo + {w}
  {
  }

  lemma AllDeltas(previous: Balances, balances: Balances)
    ensures DeltasOn(previous, balances, balances.Keys + (previous.Keys - {})) == Deltas(previous, balances)
  {
  }

  function DeltasOn(previous: Balances, balances: Balances, ws: set<string>): Balances {
    map w | w in ws && w in Deltas(previous, balances) :: Deltas(previous, balances)[w]
  }

  lemma DeltasOnStep(previous: Balances, balances: Balances, ws: set<string>, w: string)
    requires w in previous || w in balances
    ensures var delta := Amount(balances, w) - Amount(previous, w);
            DeltasOn(previous, balances, ws + {w})
            == if Abs(delta) > TOLERANCE then DeltasOn(previous, balances, ws)[w := delta]
               else DeltasOn(previous, balances, ws)
  {
  }

  /** The one-shot sync in its two batches: all given rows, then a zero for every other positive row. */
  lemma SyncInTwoBatches(holders: HolderTable, t: nat, balances: Balances)
    ensures holders + (map k | k in KeysOf(t, balances.Keys) :: balances[k.wallet])
                    + (map k | k in Zeroed(holders, t, balances.Keys) :: 0.0)
         == Synced(holders, t, balances)
  {
    forall k: HolderKey ensures k in KeysOf(t, balances.Keys) <==> k.token == t && k.wallet in balances {
      assert k == HolderKey(k.token, k.wallet);
    }
  }

  /** The second update of a finalize: positive rows outside `keep` become zero. */
  function StaleZeroed(holders: HolderTable, t: nat, keep: set<string>): HolderTable {
    map k | k in holders :: if k.token == t && holders[k] > 0.0 && k.wallet !in keep then 0.0 else holders[k]
  }

  lemma OverwriteInTwoUpdates(holders: HolderTable, t: nat, sums: Balances)
    ensures StaleZeroed(holders + PositiveRows(t, sums), t, PositiveWallets(sums)) == Overwritten(holders, t, sums)
  {
    var active := PositiveWallets(sums);
    forall k: HolderKey ensures k in KeysOf(t, active) <==> k.token == t && k.wallet in active {
      assert k == HolderKey(k.token, k.wallet);
    }
  }

  /** The staged rows that survive the end of a run. */
  function WithoutRun(stage: StageTable, t: nat, r: nat): StageTable {
    map k | k in stage && !(k.token == t && k.run == r) :: stage[k]
  }

  /** The counts a sync that keeps the given wallets reports. */
  function Completion(holders: HolderTable, t: nat, keep: set<string>): Summary {
    Summary(Completed, |keep|, |keep|, |Zeroed(holders, t, keep)|)
  }

  function CompletedState(state: SyncState, activeCount: nat): SyncState {
    state.(status := Completed, nextShardIndex := state.totalShardCount,
           processedShardCount := state.totalShardCount, stagedHolderCount := activeCount)
  }

  /** Exactly a running or failed run whose cursor is within its shards is taken up again. */
  lemma ResumesExactly(states: map<nat, SyncState>, t: nat, r: nat, next: nat, total: nat, processed: nat, staged: nat,
                       status: Status)
    requires t in states && states[t] == SyncState(Some(r), status, next, processed, total, staged)
    ensures Resumable(states, t) <==> next <= total && status != Idle && status != Completed
    ensures !Resumable(states[t := CompletedState(states[t], staged)], t)
    ensures !Resumable(states[t := states[t].(runId := None)], t) && !Resumable(states - {t}, t)
  {
  }

  /** The counts are those of the wallets a sync keeps, and of the positive ones it does not keep. */
  lemma SummaryCounts(holders: HolderTable, t: nat, keep: set<string>, zeroed: set<string>)
    requires forall w :: w in zeroed <==>
               HolderKey(t, w) in holders && holders[HolderKey(t, w)] > 0.0 && w !in keep
    ensures Completion(holders, t, keep) == Summary(Completed, |keep|, |keep|, |zeroed|)
  {
    forall k: HolderKey ensures k in Zeroed(holders, t, keep) <==> k in KeysOf(t, zeroed) {
      assert k == HolderKey(k.token, k.wallet);
    }
    assert Zeroed(holders, t, keep) == KeysOf(t, zeroed);
    KeysOfSize(t, zeroed);
  }

  /** A closed run leaves no staged rows, and every other run's rows as they were. */
  lemma RunDropped(stage: StageTable, t: nat, r: nat, u: nat, o: nat)
    ensures Slice(WithoutRun(stage, t, r), u, o) == if u == t && o == r then map[] else Slice(stage, u, o)
  {
  }

  class HolderDb {
    var stage: StageTable
    var holders: HolderTable
    var aggregates: map<nat, Aggregate>
    var states: map<nat, SyncState>

    constructor ()
      ensures stage == map[] && holders == map[] && aggregates == map[] && states == map[]
    {
      stage, holders, aggregates, states := map[], map[], map[], map[];
    }

    /** Takes up a resumable run as it is, or clears the token's stage for a fresh run. */
    method StartOrResume(t: nat, freshRun: nat) returns (state: SyncState)
      modifies this`stage, this`states
      ensures states == old(states)[t := state] && state.status == Running && state.runId.Some?
      ensures Resumable(old(states), t) ==>
                stage == old(stage) && state == old(states)[t].(status := Running)
      ensures !Resumable(old(states), t) ==>
                && state == SyncState(Some(freshRun), Running, 0, 0, 512, 0)
                && (forall r :: Slice(stage, t, r) == map[])
                && (forall k: StageKey :: k.token != t ==>
                      (k in stage <==> k in old(stage)) && Cell(stage, k) == Cell(old(stage), k))
    {
      if t in states {
        var existing := states[t];
        if existing.runId.Some? && existing.nextShardIndex <= existing.totalShardCount
           && (existing.status == Running || existing.status == Failed) {
          state := existing.(status := Running);
          states := states[t := state];
          return;
        }
      }
      stage := map k | k in stage && k.token != t :: stage[k];
      state := SyncState(Some(freshRun), Running, 0, 0, TOTAL_SHARDS, 0);
      states := states[t := state];
    }

    /**
      Delete the shard's rows, then insert the given ones.  At every moment the shard holds a part of the
      balances, which is what an interrupted call leaves behind.
    */
    method StageShard(t: nat, r: nat, s: nat, balances: Balances)
      modifies this`stage
      ensures stage == Restaged(old(stage), t, r, s, balances)
    {
      ghost var before := stage;
      stage := WithoutShard(stage, t, r, s);
      var todo := balances.Keys;
      NothingInserted(before, t, r, s);
      InsertedAll(balances);
      while todo != {}
        invariant todo <= balances.Keys
        invariant stage == Restaged(before, t, r, s, Inserted(balances, todo))
      {
        var w :| w in todo;
        InsertOne(before, t, r, s, Inserted(balances, todo), w, balances[w]);
        InsertedStep(balances, todo, w);
        stage := stage[StageKey(t, r, s, w) := balances[w]];
        todo := todo - {w};
      }
    }

    /** Restage a shard and add the differences to the live table. */
    method ApplyShardDelta(t: nat, r: nat, s: nat, balances: Balances)
      modifies this`stage, this`holders
      ensures stage == Applied(old(Db(stage, holders)), t, r, s, balances).stage
      ensures holders == Applied(old(Db(stage, holders)), t, r, s, balances).holders
    {
      var deltas := CollectDeltas(ShardRows(stage, t, r, s), balances);
      StageShard(t, r, s, balances);
      AddToLive(t, r, deltas);
    }

    /** The upserts, then one statement that zeroes wallets whose staged sum is not positive. */
    method AddToLive(t: nat, r: nat, deltas: Balances)
      modifies this`holders
      ensures holders == NextHolders(old(holders), t, r, deltas, stage)
    {
      if deltas == map[] {
        return;
      }
      MergeDeltas(t, deltas);
      var sums := GroupSums(stage, t, r);
      holders := ZeroedRows(holders, t, sums);
    }

    /** One upsert per difference. */
    method MergeDeltas(t: nat, deltas: Balances)
      modifies this`holders
      ensures holders == WithDeltas(old(holders), t, deltas)
    {
      var todo := deltas.Keys;
      while todo != {}
        invariant todo <= deltas.Keys
        invariant holders.Keys == old(holders).Keys + KeysOf(t, deltas.Keys - todo)
        invariant forall k :: k in holders ==>
                    holders[k] == if k in KeysOf(t, deltas.Keys - todo) then Merged(old(holders), k, deltas[k.wallet])
                                  else old(holders)[k]
      {
        var w :| w in todo;
        KeepsOrDrops(holders, t, deltas, deltas.Keys - todo, w);
        assert deltas.Keys - (todo - {w}) == deltas.Keys - todo + {w};
        var k := HolderKey(t, w);
        holders := holders[k := Merged(holders, k, deltas[w])];
        todo := todo - {w};
      }
    }

    /** The one-shot sync. */
    method SyncBalances(t: nat, balances: Balances) returns (summary: Summary)
      modifies this`holders
      ensures holders == Synced(old(holders), t, balances)
      ensures summary == Completion(old(holders), t, balances.Keys)
    {
      var existing := set k | k in holders && k.token == t && holders[k] > 0.0;
      var zeroed := set k | k in existing && k.wallet !in balances;
      assert zeroed == Zeroed(holders, t, balances.Keys);
      SyncInTwoBatches(holders, t, balances);
      holders := holders + (map k | k in KeysOf(t, balances.Keys) :: balances[k.wallet]);
      holders := holders + (map k | k in zeroed :: 0.0);
      assert |balances| == |balances.Keys|;
      summary := Summary(Completed, |balances|, |balances|, |zeroed|);
    }

    /** Counts and sums over the positive live rows of a token. */
    method RecomputeAggregate(accounts: set<Account>, u: nat, t: nat) returns (aggregate: Aggregate)
      modifies this`aggregates
      ensures aggregate == Recomputed(accounts, u, holders, t)
      ensures aggregates == old(aggregates)[t := aggregate]
    {
      var rows := Positive(holders, t);
      var managed, watched := ManagedRows(accounts, u, rows), WatchedRows(accounts, u, rows);
      var total := SumValues(rows);
      var internalAmount := SumValues(managed);
      var watchedAmount := SumValues(watched);
      aggregate := Aggregate(|rows|, |managed|, |watched|, ClampedDifference(|rows|, |managed|),
                             total, internalAmount, watchedAmount);
      aggregates := aggregates[t := aggregate];
    }

    /** Upsert the positive sums, then zero every other positive row. */
    method OverwriteLive(t: nat, sums: Balances)
      modifies this`holders
      ensures holders == Overwritten(old(holders), t, sums)
    {
      OverwriteInTwoUpdates(holders, t, sums);
      holders := holders + PositiveRows(t, sums);
      holders := StaleZeroed(holders, t, PositiveWallets(sums));
    }

    /** Complete the state and drop the run's staged rows. */
    method CloseRun(t: nat, r: nat, state: SyncState, activeCount: nat)
      modifies this`states, this`stage
      ensures var total := state.totalShardCount;
              states == old(states)[t := SyncState(state.runId, Completed, total, total, total, activeCount)]
      ensures stage == WithoutRun(old(stage), t, r)
    {
      states := states[t := CompletedState(state, activeCount)];
      stage := WithoutRun(stage, t, r);
    }

    /** Overwrite the live table from the stage, recompute the aggregate, complete the state, drop the stage. */
    method Finalize(accounts: set<Account>, u: nat, t: nat, state: SyncState) returns (summary: Summary)
      modifies this
      ensures state.runId.None? ==>
                && stage == old(stage) && holders == old(holders) && aggregates == old(aggregates)
                && states == old(states) && summary.status == Failed
      ensures state.runId.Some? ==>
                var r, sums := state.runId.value, Summed(old(stage), t, state.runId.value);
                && holders == Overwritten(old(holders), t, sums)
                && aggregates == old(aggregates)[t := Recomputed(accounts, u, holders, t)]
                && stage == WithoutRun(old(stage), t, r)
                && states == old(states)[t := CompletedState(state, |PositiveWallets(sums)|)]
                && states[t].status == Completed && states[t].nextShardIndex == state.totalShardCount
                && summary == Completion(old(holders), t, PositiveWallets(sums))
    {
      if state.runId.None? {
        return Summary(Failed, 0, 0, 0);
      }
      var r := state.runId.value;
      var sums := GroupSums(stage, t, r);
      summary := Completion(holders, t, PositiveWallets(sums));
      OverwriteLive(t, sums);
      var _ := RecomputeAggregate(accounts, u, t);
      CloseRun(t, r, state, |PositiveWallets(sums)|);
    }
  }
}
