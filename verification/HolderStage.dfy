/**
  The tables of the token-holder sync (src/backend/tokenHolders.ts) and the effect of its statements on them.
  `stage` is keyed by token, run, shard and wallet, `holders` by token and wallet, as in the schema.
*/
module HolderStage {
  import opened Tables

  datatype StageKey = StageKey(token: nat, run: nat, shard: nat, wallet: string)

  datatype HolderKey = HolderKey(token: nat, wallet: string)

  type Balances = map<string, real>

  type StageTable = map<StageKey, real>

  type HolderTable = map<HolderKey, real>

  const TOLERANCE := 0.000000000001

  function Amount(balances: Balances, w: string): real {
    if w in balances then balances[w] else 0.0
  }

  function Cell(stage: StageTable, k: StageKey): real {
    if k in stage then stage[k] else 0.0
  }

  function Live(holders: HolderTable, k: HolderKey): real {
    if k in holders then holders[k] else 0.0
  }

  /** Rows of one run. */
  function Slice(stage: StageTable, t: nat, r: nat): StageTable {
    map k | k in stage && k.token == t && k.run == r :: stage[k]
  }

  function WalletRows(stage: StageTable, t: nat, r: nat, w: string): StageTable {
    map k | k in stage && k.token == t && k.run == r && k.wallet == w :: stage[k]
  }

  /** SUM(amount_holding) of a wallet in a run. */
  ghost function StagedSum(stage: StageTable, t: nat, r: nat, w: string): real {
    SumOf(WalletRows(stage, t, r, w))
  }

  function Wallets(stage: StageTable, t: nat, r: nat): set<string> {
    set k | k in stage && k.token == t && k.run == r :: k.wallet
  }

  /** GROUP BY wallet_address. */
  ghost function Summed(stage: StageTable, t: nat, r: nat): Balances {
    map w | w in Wallets(stage, t, r) :: StagedSum(stage, t, r, w)
  }

  /** Rows with a positive amount. */
  function Positive(holders: HolderTable, t: nat): HolderTable {
    map k | k in holders && k.token == t && holders[k] > 0.0 :: holders[k]
  }

  // ---------------------------------------------------------------- staging

  function ShardKeys(t: nat, r: nat, s: nat, wallets: set<string>): set<StageKey> {
    set w | w in wallets :: StageKey(t, r, s, w)
  }

  function WithoutShard(stage: StageTable, t: nat, r: nat, s: nat): StageTable {
    map k | k in stage && !(k.token == t && k.run == r && k.shard == s) :: stage[k]
  }

  /** Replace-on-retry: the shard's rows become exactly the given balances. */
  function Restaged(stage: StageTable, t: nat, r: nat, s: nat, balances: Balances): StageTable {
    WithoutShard(stage, t, r, s) + (map k | k in ShardKeys(t, r, s, balances.Keys) :: balances[k.wallet])
  }

  lemma RestagedCells(stage: StageTable, t: nat, r: nat, s: nat, balances: Balances, k: StageKey)
    ensures var next := Restaged(stage, t, r, s, balances);
            if k.token == t && k.run == r && k.shard == s
            then (k in next <==> k.wallet in balances) && Cell(next, k) == Amount(balances, k.wallet)
            else (k in next <==> k in stage) && Cell(next, k) == Cell(stage, k)
  {
    assert k == StageKey(k.token, k.run, k.shard, k.wallet);
  }

  /** Restaging a shard changes a wallet's sum by the difference in that shard. */
  lemma RestagedSum(stage: StageTable, t: nat, r: nat, s: nat, balances: Balances, w: string)
    ensures StagedSum(Restaged(stage, t, r, s, balances), t, r, w)
         == StagedSum(stage, t, r, w) - Cell(stage, StageKey(t, r, s, w)) + Amount(balances, w)
  {
    var k := StageKey(t, r, s, w);
    var next := Restaged(stage, t, r, s, balances);
    var rows, rows' := WalletRows(stage, t, r, w), WalletRows(next, t, r, w);
    forall j { RestagedCells(stage, t, r, s, balances, j); }
    if w in balances {
      assert rows' == rows[k := balances[w]];
      SumUpdate(rows, k, balances[w]);
    } else {
      assert rows' == rows - {k};
      if k in rows {
        SumRemove(rows, k);
      } else {
        assert rows' == rows;
      }
    }
  }

  /** One attempt to stage a shard; an interrupted attempt leaves any part of its rows behind. */
  datatype Write = Write(shard: nat, balances: Balances)

  function AfterWrites(stage: StageTable, t: nat, r: nat, ws: seq<Write>): StageTable {
    if ws == [] then stage
    else
      var last := ws[|ws| - 1];
      Restaged(AfterWrites(stage, t, r, ws[..|ws| - 1]), t, r, last.shard, last.balances)
  }

  /** What was last written to each shard. */
  function LastWritten(ws: seq<Write>): map<nat, Balances> {
    if ws == [] then map[]
    else LastWritten(ws[..|ws| - 1])[ws[|ws| - 1].shard := ws[|ws| - 1].balances]
  }

  function ShardAmounts(last: map<nat, Balances>, w: string): map<nat, real> {
    map s | s in last && w in last[s] :: last[s][w]
  }

  lemma {:induction false} StageHoldsLastWrites(stage: StageTable, t: nat, r: nat, ws: seq<Write>, s: nat, w: string)
    requires Slice(stage, t, r) == map[]
    ensures var after, last := AfterWrites(stage, t, r, ws), LastWritten(ws);
            var k := StageKey(t, r, s, w);
            && (k in after <==> s in last && w in last[s])
            && Cell(after, k) == (if s in last then Amount(last[s], w) else 0.0)
  {
    var k := StageKey(t, r, s, w);
    if ws == [] {
      assert k in stage ==> k in Slice(stage, t, r);
    } else {
      var front := ws[..|ws| - 1];
      StageHoldsLastWrites(stage, t, r, front, s, w);
      RestagedCells(AfterWrites(stage, t, r, front), t, r, ws[|ws| - 1].shard, ws[|ws| - 1].balances, k);
    }
  }

  /**
    For any order, repetition or interruption of staging, a wallet's staged sum is the sum over shards of
    what was last written there.
  */
  lemma {:induction false} StagedSumIsShardSum(stage: StageTable, t: nat, r: nat, ws: seq<Write>, w: string)
    requires Slice(stage, t, r) == map[]
    ensures StagedSum(AfterWrites(stage, t, r, ws), t, r, w) == SumOf(ShardAmounts(LastWritten(ws), w))
  {
    if ws == [] {
      assert forall k :: k in WalletRows(stage, t, r, w) ==> k in Slice(stage, t, r);
      assert WalletRows(stage, t, r, w) == map[];
      assert ShardAmounts(map[], w) == map[];
    } else {
      var front, write := ws[..|ws| - 1], ws[|ws| - 1];
      var before := AfterWrites(stage, t, r, front);
      StagedSumIsShardSum(stage, t, r, front, w);
      StageHoldsLastWrites(stage, t, r, front, write.shard, w);
      RestagedSum(before, t, r, write.shard, write.balances, w);
      ShardAmountsAfter(LastWritten(front), write.shard, write.balances, w);
    }
  }

  lemma ShardAmountsAfter(last: map<nat, Balances>, s: nat, balances: Balances, w: string)
    ensures SumOf(ShardAmounts(last[s := balances], w))
         == SumOf(ShardAmounts(last, w)) - (if s in last then Amount(last[s], w) else 0.0) + Amount(balances, w)
  {
    var before, after := ShardAmounts(last, w), ShardAmounts(last[s := balances], w);
    if w in balances {
      assert after == before[s := balances[w]];
      SumUpdate(before, s, balances[w]);
    } else {
      assert after == before - {s};
      if s in before {
        SumRemove(before, s);
      } else {
        assert after == before;
      }
    }
  }

  // ---------------------------------------------------------------- finalize and one-shot sync

  function KeysOf(t: nat, wallets: set<string>): set<HolderKey> {
    set w | w in wallets :: HolderKey(t, w)
  }

  function PositiveWallets(sums: Balances): set<string> {
    set w | w in sums && sums[w] > 0.0
  }

  /** The live table overwritten from the stage's sums: positive sums in, every other positive row to zero. */
  function Overwritten(holders: HolderTable, t: nat, sums: Balances): HolderTable {
    map k | k in holders.Keys + KeysOf(t, PositiveWallets(sums)) ::
      if k in KeysOf(t, PositiveWallets(sums)) then sums[k.wallet]
      else if k.token == t && holders[k] > 0.0 then 0.0
      else holders[k]
  }

  /** The live table after the one-shot sync: all given rows in, every other positive row to zero. */
  function Synced(holders: HolderTable, t: nat, balances: Balances): HolderTable {
    map k | k in holders.Keys + KeysOf(t, balances.Keys) ::
      if k in KeysOf(t, balances.Keys) then balances[k.wallet]
      else if k.token == t && holders[k] > 0.0 then 0.0
      else holders[k]
  }

  /** Positive rows of a sync, as a table. */
  function PositiveRows(t: nat, sums: Balances): HolderTable {
    map k | k in KeysOf(t, PositiveWallets(sums)) :: sums[k.wallet]
  }

  lemma OverwrittenPositive(holders: HolderTable, t: nat, sums: Balances)
    ensures Positive(Overwritten(holders, t, sums), t) == PositiveRows(t, sums)
  {
  }

  lemma SyncedPositive(holders: HolderTable, t: nat, balances: Balances)
    ensures Positive(Synced(holders, t, balances), t) == PositiveRows(t, balances)
  {
    var rows := Synced(holders, t, balances);
    forall k | k in Positive(rows, t) ensures k in PositiveRows(t, balances) {
      assert k in KeysOf(t, balances.Keys);
    }
  }

  /** The one-shot sync stores every given amount as it is, and zeroes every other positive balance. */
  lemma SyncedRow(holders: HolderTable, t: nat, balances: Balances, w: string)
    ensures var k, after := HolderKey(t, w), Synced(holders, t, balances);
            Live(after, k) == if w in balances then balances[w] else if Live(holders, k) > 0.0 then 0.0
                              else Live(holders, k)
  {
    assert HolderKey(t, w) in KeysOf(t, balances.Keys) <==> w in balances;
  }

  /** Both syncs leave other tokens alone. */
  lemma OtherTokensUntouched(holders: HolderTable, t: nat, sums: Balances, k: HolderKey)
    requires k.token != t
    ensures k in Overwritten(holders, t, sums) <==> k in holders
    ensures k in Synced(holders, t, sums) <==> k in holders
    ensures k in holders ==> Overwritten(holders, t, sums)[k] == holders[k] == Synced(holders, t, sums)[k]
  {
  }

  /**
    Paged sync equals one-shot sync: whatever the live tables held, overwriting from a run's stage and
    syncing the run's sums in one shot leave the same positive balances.
  */
  lemma PagedEqualsOneShot(holders: HolderTable, others: HolderTable, stage: StageTable, t: nat, r: nat)
    ensures Positive(Overwritten(holders, t, Summed(stage, t, r)), t)
         == Positive(Synced(others, t, Summed(stage, t, r)), t)
  {
    OverwrittenPositive(holders, t, Summed(stage, t, r));
    SyncedPositive(others, t, Summed(stage, t, r));
  }

  /** A positive balance becomes zero; others stay. */
  function ZeroedOut(balance: real): real { if balance > 0.0 then 0.0 else balance }

  /**
    After finalizing any history of staging, each wallet's positive balance is the sum over shards of its
    last staged amount, and every other positive balance is zero.
  */
  lemma FinalBalances(holders: HolderTable, stage: StageTable, t: nat, r: nat, ws: seq<Write>, w: string)
    requires Slice(stage, t, r) == map[]
    ensures var after := AfterWrites(stage, t, r, ws);
            var total := SumOf(ShardAmounts(LastWritten(ws), w));
            var final := Overwritten(holders, t, Summed(after, t, r));
            && (total > 0.0 ==> Live(final, HolderKey(t, w)) == total)
            && (total <= 0.0 ==> Live(final, HolderKey(t, w)) == ZeroedOut(Live(holders, HolderKey(t, w))))
  {
    var after := AfterWrites(stage, t, r, ws);
    StagedSumIsShardSum(stage, t, r, ws, w);
    if w !in Wallets(after, t, r) {
      assert WalletRows(after, t, r, w) == map[];
    }
    var final := Overwritten(holders, t, Summed(after, t, r));
    assert HolderKey(t, w) in KeysOf(t, PositiveWallets(Summed(after, t, r)))
      <==> StagedSum(after, t, r, w) > 0.0 && w in Wallets(after, t, r);
  }

  // ---------------------------------------------------------------- the driver's histories

  /** One shard attempt of the driver at its current shard; only a complete one advances the cursor. */
  datatype Attempt = Attempt(balances: Balances, complete: bool)

  function Completed(attempts: seq<Attempt>): seq<Balances> {
    if attempts == [] then []
    else
      var last := attempts[|attempts| - 1];
      Completed(attempts[..|attempts| - 1]) + (if last.complete then [last.balances] else [])
  }

  /** The shard an attempt works on is the number of shards completed before it. */
  function WritesOf(attempts: seq<Attempt>): seq<Write> {
    if attempts == [] then []
    else
      var front := attempts[..|attempts| - 1];
      WritesOf(front) + [Write(|Completed(front)|, attempts[|attempts| - 1].balances)]
  }

  /** Attempts stop when all shards are completed. */
  predicate StopsInTime(attempts: seq<Attempt>, shards: nat) {
    attempts != [] ==>
      var front := attempts[..|attempts| - 1];
      StopsInTime(front, shards) && |Completed(front)| < shards
  }

  /** Completed shards hold exactly their complete attempt; only the current shard may be partial. */
  predicate HoldsCompleted(last: map<nat, Balances>, done: seq<Balances>, shards: nat) {
    && |done| <= shards
    && (forall s: nat :: s < |done| ==> s in last)
    && (forall s: nat :: s < |done| && s in last ==> last[s] == done[s])
    && (forall s: nat :: s in last ==> s < |done| || s == |done| < shards)
  }

  lemma OneMoreAttempt(last: map<nat, Balances>, done: seq<Balances>, shards: nat, a: Attempt)
    requires HoldsCompleted(last, done, shards) && |done| < shards
    ensures HoldsCompleted(last[|done| := a.balances], done + (if a.complete then [a.balances] else []), shards)
  {
  }

  lemma {:induction false} DriverCursor(attempts: seq<Attempt>, shards: nat)
    requires StopsInTime(attempts, shards)
    ensures HoldsCompleted(LastWritten(WritesOf(attempts)), Completed(attempts), shards)
  {
    if attempts != [] {
      var front, a := attempts[..|attempts| - 1], attempts[|attempts| - 1];
      DriverCursor(front, shards);
      var ws := WritesOf(attempts);
      assert ws[..|ws| - 1] == WritesOf(front);
      OneMoreAttempt(LastWritten(WritesOf(front)), Completed(front), shards, a);
      assert LastWritten(ws) == LastWritten(WritesOf(front))[|Completed(front)| := a.balances];
    }
  }

  function AmountsInOrder(done: seq<Balances>, w: string): map<nat, real> {
    map s: nat | s < |done| && w in done[s] :: done[s][w]
  }

  /**
    The driver finalizes only after the last shard.  Whatever attempts were interrupted before, the result
    is then the one-shot result of the complete attempts.
  */
  lemma DriverFinalBalances(holders: HolderTable, stage: StageTable, t: nat, r: nat, attempts: seq<Attempt>,
                            shards: nat, w: string)
    requires Slice(stage, t, r) == map[]
    requires StopsInTime(attempts, shards) && |Completed(attempts)| == shards
    ensures var final := Overwritten(holders, t, Summed(AfterWrites(stage, t, r, WritesOf(attempts)), t, r));
            var total := SumOf(AmountsInOrder(Completed(attempts), w));
            && (total > 0.0 ==> Live(final, HolderKey(t, w)) == total)
            && (total <= 0.0 ==> Live(final, HolderKey(t, w)) == ZeroedOut(Live(holders, HolderKey(t, w))))
  {
    DriverAmounts(attempts, shards, w);
    FinalBalances(holders, stage, t, r, WritesOf(attempts), w);
  }

  lemma DriverAmounts(attempts: seq<Attempt>, shards: nat, w: string)
    requires StopsInTime(attempts, shards) && |Completed(attempts)| == shards
    ensures ShardAmounts(LastWritten(WritesOf(attempts)), w) == AmountsInOrder(Completed(attempts), w)
  {
    DriverCursor(attempts, shards);
    var last, done := LastWritten(WritesOf(attempts)), Completed(attempts);
    forall s: nat ensures s in last <==> s < |done| {
      assert s < |done| ==> s in last;
    }
  }
}
