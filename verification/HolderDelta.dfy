/**
  Progress deltas of the holder sync (src/backend/tokenHolders.ts, dbApplyTokenHolderBalanceShardDelta):
  while a run stages its shards, the differences to what was staged before are added to the live table.
*/
module HolderDelta {
  import opened Reals
  import opened Tables
  import opened HolderStage

  function ShardRows(stage: StageTable, t: nat, r: nat, s: nat): Balances {
    map k | k in stage && k.token == t && k.run == r && k.shard == s :: k.wallet := stage[k]
  }

  /** Differences beyond the tolerance between what a shard held and what it will hold. */
  function Deltas(previous: Balances, next: Balances): Balances {
    map w | w in previous.Keys + next.Keys && Abs(Amount(next, w) - Amount(previous, w)) > TOLERANCE ::
      Amount(next, w) - Amount(previous, w)
  }

  /** One delta merged into a row: added and clamped at zero, or inserted as it is if there is no row. */
  function Merged(holders: HolderTable, k: HolderKey, delta: real): real {
    if k !in holders then delta
    else if holders[k] + delta < 0.0 then 0.0
    else holders[k] + delta
  }

  /** All deltas merged. */
  function WithDeltas(holders: HolderTable, t: nat, deltas: Balances): HolderTable {
    map k | k in holders.Keys + KeysOf(t, deltas.Keys) ::
      if k in KeysOf(t, deltas.Keys) then Merged(holders, k, deltas[k.wallet]) else holders[k]
  }

  /** Rows of wallets whose staged sum is not positive set to zero. */
  function ZeroedRows(holders: HolderTable, t: nat, sums: Balances): HolderTable {
    map k | k in holders ::
      if k.token == t && k.wallet in sums && sums[k.wallet] <= 0.0 then 0.0 else holders[k]
  }

  datatype Db = Db(stage: StageTable, holders: HolderTable)

  /** The live table after the deltas; without any delta beyond the tolerance it is not touched. */
  ghost function NextHolders(holders: HolderTable, t: nat, r: nat, deltas: Balances, stage: StageTable): HolderTable {
    if deltas == map[] then holders
    else ZeroedRows(WithDeltas(holders, t, deltas), t, Summed(stage, t, r))
  }

  /** One delta application. */
  ghost function Applied(db: Db, t: nat, r: nat, s: nat, balances: Balances): Db {
    var stage := Restaged(db.stage, t, r, s, balances);
    Db(stage, NextHolders(db.holders, t, r, Deltas(ShardRows(db.stage, t, r, s), balances), stage))
  }

  ghost function AfterDeltas(db: Db, t: nat, r: nat, ws: seq<Write>): Db {
    if ws == [] then db
    else Applied(AfterDeltas(db, t, r, ws[..|ws| - 1]), t, r, ws[|ws| - 1].shard, ws[|ws| - 1].balances)
  }

  /** How far the live balance of a wallet is from its staged sum. */
  ghost function Drift(db: Db, t: nat, r: nat, w: string): real {
    Live(db.holders, HolderKey(t, w)) - StagedSum(db.stage, t, r, w)
  }

  ghost predicate NonNegativeRun(stage: StageTable, t: nat, r: nat) {
    forall k :: k in stage && k.token == t && k.run == r ==> stage[k] >= 0.0
  }

  predicate NonNegativeWrites(ws: seq<Write>) {
    forall i, w :: 0 <= i < |ws| && w in ws[i].balances ==> ws[i].balances[w] >= 0.0
  }

  lemma ShardRowsAmount(stage: StageTable, t: nat, r: nat, s: nat, w: string)
    ensures Amount(ShardRows(stage, t, r, s), w) == Cell(stage, StageKey(t, r, s, w))
    ensures w in ShardRows(stage, t, r, s) <==> StageKey(t, r, s, w) in stage
  {
    var k := StageKey(t, r, s, w);
    if w in ShardRows(stage, t, r, s) {
      var j :| j in stage && j.token == t && j.run == r && j.shard == s && j.wallet == w;
      assert j == k;
    }
    if k in stage {
      assert k.wallet in ShardRows(stage, t, r, s);
    }
  }

  lemma RestagedNonNegative(stage: StageTable, t: nat, r: nat, s: nat, balances: Balances)
    requires NonNegativeRun(stage, t, r) && forall w :: w in balances ==> balances[w] >= 0.0
    ensures NonNegativeRun(Restaged(stage, t, r, s, balances), t, r)
  {
    forall k | k in Restaged(stage, t, r, s, balances) && k.token == t && k.run == r
      ensures Restaged(stage, t, r, s, balances)[k] >= 0.0 {
      RestagedCells(stage, t, r, s, balances, k);
    }
  }

  lemma StagedSumNonNegative(stage: StageTable, t: nat, r: nat, w: string)
    requires NonNegativeRun(stage, t, r)
    ensures StagedSum(stage, t, r, w) >= 0.0
    ensures w !in Wallets(stage, t, r) ==> StagedSum(stage, t, r, w) == 0.0
  {
    SumNonNegative(WalletRows(stage, t, r, w));
    if w !in Wallets(stage, t, r) {
      assert WalletRows(stage, t, r, w) == map[];
    }
  }

  lemma WithDeltasLive(holders: HolderTable, t: nat, deltas: Balances, w: string)
    ensures var k := HolderKey(t, w);
            && Live(WithDeltas(holders, t, deltas), k)
               == (if w in deltas then Merged(holders, k, deltas[w]) else Live(holders, k))
            && (k in holders ==> k in WithDeltas(holders, t, deltas))
  {
    assert HolderKey(t, w) in KeysOf(t, deltas.Keys) <==> w in deltas;
  }

  lemma NextLive(holders: HolderTable, t: nat, r: nat, deltas: Balances, stage: StageTable, w: string)
    ensures var k, next := HolderKey(t, w), NextHolders(holders, t, r, deltas, stage);
            Live(next, k)
            == if deltas == map[] then Live(holders, k)
               else if w in Wallets(stage, t, r) && StagedSum(stage, t, r, w) <= 0.0 then 0.0
               else if w in deltas then Merged(holders, k, deltas[w]) else Live(holders, k)
  {
    WithDeltasLive(holders, t, deltas, w);
  }

  /** How much a wallet's amount in the shard changes. */
  function Delta(db: Db, t: nat, r: nat, s: nat, balances: Balances, w: string): real {
    Amount(balances, w) - Cell(db.stage, StageKey(t, r, s, w))
  }

  /** Some wallet's amount in the shard changes by more than the tolerance. */
  ghost predicate Touched(db: Db, t: nat, r: nat, s: nat, balances: Balances) {
    exists v :: Abs(Delta(db, t, r, s, balances, v)) > 0.000000000001
  }

  lemma TouchedHasDeltas(db: Db, t: nat, r: nat, s: nat, balances: Balances)
    ensures Touched(db, t, r, s, balances) <==> Deltas(ShardRows(db.stage, t, r, s), balances) != map[]
  {
    var deltas := Deltas(ShardRows(db.stage, t, r, s), balances);
    if v :| Abs(Delta(db, t, r, s, balances, v)) > 0.000000000001 {
      ShardRowsAmount(db.stage, t, r, s, v);
      assert v in deltas;
    }
    if v :| v in deltas {
      ShardRowsAmount(db.stage, t, r, s, v);
      assert Abs(Delta(db, t, r, s, balances, v)) > 0.000000000001;
    }
  }

  /**
    Exactly what one application leaves of a live balance.  If nothing in the shard changes it stays; otherwise it is
    zero where the wallet's rows of the run sum to nothing, and elsewhere moves by the wallet's own difference, down to
    zero at most, or starts at the difference if there was no row.
  */
  lemma AppliedLive(db: Db, t: nat, r: nat, s: nat, balances: Balances, w: string)
    ensures var k, next := HolderKey(t, w), Applied(db, t, r, s, balances);
            var before, delta := Live(db.holders, k), Delta(db, t, r, s, balances, w);
            Live(next.holders, k)
            == if !Touched(db, t, r, s, balances) then before
               else if w in Wallets(next.stage, t, r) && StagedSum(next.stage, t, r, w) <= 0.0 then 0.0
               else if Abs(delta) <= 0.000000000001 then before
               else if k in db.holders && before + delta < 0.0 then 0.0
               else before + delta
  {
    var deltas := Deltas(ShardRows(db.stage, t, r, s), balances);
    TouchedHasDeltas(db, t, r, s, balances);
    ShardRowsAmount(db.stage, t, r, s, w);
    assert w in deltas <==> Abs(Delta(db, t, r, s, balances, w)) > 0.000000000001;
    NextLive(db.holders, t, r, deltas, Restaged(db.stage, t, r, s, balances), w);
  }

  /** The staged sum moves by exactly that difference. */
  lemma AppliedSum(db: Db, t: nat, r: nat, s: nat, balances: Balances, w: string)
    ensures StagedSum(Applied(db, t, r, s, balances).stage, t, r, w)
         == StagedSum(db.stage, t, r, w) + Amount(balances, w) - Cell(db.stage, StageKey(t, r, s, w))
  {
    RestagedSum(db.stage, t, r, s, balances, w);
  }

  /** One step on numbers: live balance x and staged sum y move to x' and y + delta. */
  predicate LiveMoves(x: real, hasRow: bool, y: real, delta: real, x': real) {
    && y + delta >= 0.0 && (!hasRow ==> x == 0.0)
    && (|| (Abs(delta) <= TOLERANCE && x' == x)
        || (y + delta <= 0.0 && x' == 0.0)
        || (Abs(delta) > TOLERANCE && x' == if !hasRow then delta else if x + delta < 0.0 then 0.0 else x + delta))
  }

  lemma LiveStep(x: real, hasRow: bool, y: real, delta: real, x': real)
    requires LiveMoves(x, hasRow, y, delta, x')
    ensures Abs(x' - (y + delta)) <= Abs(x - y) + TOLERANCE
    ensures x == y && (delta == 0.0 || Abs(delta) > TOLERANCE) ==> x' == y + delta
  {
  }

  lemma AppliedMoves(db: Db, t: nat, r: nat, s: nat, balances: Balances, w: string)
    requires NonNegativeRun(db.stage, t, r) && forall v :: v in balances ==> balances[v] >= 0.0
    ensures var k, next := HolderKey(t, w), Applied(db, t, r, s, balances);
            LiveMoves(Live(db.holders, k), k in db.holders, StagedSum(db.stage, t, r, w),
                      Delta(db, t, r, s, balances, w), Live(next.holders, k))
  {
    var next := Applied(db, t, r, s, balances);
    AppliedLive(db, t, r, s, balances, w);
    AppliedSum(db, t, r, s, balances, w);
    RestagedNonNegative(db.stage, t, r, s, balances);
    StagedSumNonNegative(next.stage, t, r, w);
  }

  /**
    One application moves a wallet's drift by at most the tolerance, and keeps it zero if the wallet's
    amount in the shard stays the same or changes by more than the tolerance.
  */
  lemma DriftStep(db: Db, t: nat, r: nat, s: nat, balances: Balances, w: string)
    requires NonNegativeRun(db.stage, t, r) && forall v :: v in balances ==> balances[v] >= 0.0
    ensures Abs(Drift(Applied(db, t, r, s, balances), t, r, w)) <= Abs(Drift(db, t, r, w)) + 0.000000000001
    ensures Drift(db, t, r, w) == 0.0
            && (Delta(db, t, r, s, balances, w) == 0.0 || Abs(Delta(db, t, r, s, balances, w)) > TOLERANCE) ==>
              Drift(Applied(db, t, r, s, balances), t, r, w) == 0.0
  {
    var x, hasRow, y, x' := StepNumbers(db, t, r, s, balances, w);
    LiveStep(x, hasRow, y, Delta(db, t, r, s, balances, w), x');
  }

  lemma StepNumbers(db: Db, t: nat, r: nat, s: nat, balances: Balances, w: string)
    returns (x: real, hasRow: bool, y: real, x': real)
    requires NonNegativeRun(db.stage, t, r) && forall v :: v in balances ==> balances[v] >= 0.0
    ensures LiveMoves(x, hasRow, y, Delta(db, t, r, s, balances, w), x')
    ensures Drift(db, t, r, w) == x - y
    ensures Drift(Applied(db, t, r, s, balances), t, r, w) == x' - (y + Delta(db, t, r, s, balances, w))
  {
    var k, next := HolderKey(t, w), Applied(db, t, r, s, balances);
    x, hasRow, y, x' := Live(db.holders, k), k in db.holders, StagedSum(db.stage, t, r, w), Live(next.holders, k);
    AppliedMoves(db, t, r, s, balances, w);
    assert StagedSum(next.stage, t, r, w) == y + Delta(db, t, r, s, balances, w) by {
      AppliedSum(db, t, r, s, balances, w);
    }
  }

  lemma {:induction false} WritesKeepNonNegative(db: Db, t: nat, r: nat, ws: seq<Write>)
    requires NonNegativeRun(db.stage, t, r) && NonNegativeWrites(ws)
    ensures NonNegativeRun(AfterDeltas(db, t, r, ws).stage, t, r)
  {
    if ws != [] {
      var front, last := ws[..|ws| - 1], ws[|ws| - 1];
      WritesKeepNonNegative(db, t, r, front);
      assert last == ws[|ws| - 1];
      RestagedNonNegative(AfterDeltas(db, t, r, front).stage, t, r, last.shard, last.balances);
    }
  }

  /** After k applications each wallet's drift has grown by at most k times the tolerance of 10^-12. */
  lemma {:induction false} DriftIsBounded(db: Db, t: nat, r: nat, ws: seq<Write>, w: string)
    requires NonNegativeRun(db.stage, t, r) && NonNegativeWrites(ws)
    ensures Abs(Drift(AfterDeltas(db, t, r, ws), t, r, w)) <= Abs(Drift(db, t, r, w)) + |ws| as real * 0.000000000001
  {
    if ws != [] {
      var front, last := ws[..|ws| - 1], ws[|ws| - 1];
      DriftIsBounded(db, t, r, front, w);
      WritesKeepNonNegative(db, t, r, front);
      assert last == ws[|ws| - 1];
      DriftStep(AfterDeltas(db, t, r, front), t, r, last.shard, last.balances, w);
    }
  }

  // ---------------------------------------------------------------- amounts in whole units

  function Multiple(n: int, unit: real): real { n as real * unit }

  ghost predicate IsMultiple(x: real, unit: real) {
    exists n :: x == Multiple(n, unit)
  }

  ghost predicate WholeWrites(ws: seq<Write>, unit: real) {
    forall i, w :: 0 <= i < |ws| && w in ws[i].balances ==> IsMultiple(ws[i].balances[w], unit)
  }

  ghost predicate WholeHistory(ws: seq<Write>, unit: real) {
    NonNegativeWrites(ws) && WholeWrites(ws, unit)
  }

  /** Two multiples of a unit above the tolerance differ by nothing or by more than the tolerance. */
  lemma MultiplesApart(x: real, y: real, unit: real)
    requires unit > TOLERANCE && IsMultiple(x, unit) && IsMultiple(y, unit)
    ensures x == y || Abs(x - y) > TOLERANCE
  {
    var m :| x == Multiple(m, unit);
    var n :| y == Multiple(n, unit);
    assert x - y == (m - n) as real * unit;
    if m > n {
      UnitStep(m - n, unit);
    } else if n > m {
      UnitStep(n - m, unit);
      assert y - x == (n - m) as real * unit;
    }
  }

  lemma UnitStep(n: int, unit: real)
    requires n >= 1 && unit > 0.0
    ensures n as real * unit >= unit
  {
    var d := (n - 1) as real;
    assert d * unit >= 0.0;
    assert n as real * unit == d * unit + unit;
  }

  ghost predicate WholeShard(stage: StageTable, t: nat, r: nat, unit: real) {
    forall k :: k in stage && k.token == t && k.run == r ==> IsMultiple(stage[k], unit)
  }

  lemma {:induction false} WritesKeepWhole(db: Db, t: nat, r: nat, ws: seq<Write>, unit: real)
    requires WholeShard(db.stage, t, r, unit) && WholeWrites(ws, unit)
    ensures WholeShard(AfterDeltas(db, t, r, ws).stage, t, r, unit)
  {
    if ws != [] {
      var front, last := ws[..|ws| - 1], ws[|ws| - 1];
      WritesKeepWhole(db, t, r, front, unit);
      var before := AfterDeltas(db, t, r, front).stage;
      var after := Restaged(before, t, r, last.shard, last.balances);
      assert last == ws[|ws| - 1];
      forall k | k in after && k.token == t && k.run == r ensures IsMultiple(after[k], unit) {
        RestagedCells(before, t, r, last.shard, last.balances, k);
        if k.shard == last.shard { assert IsMultiple(last.balances[k.wallet], unit); }
      }
    }
  }

  lemma AmountWhole(balances: Balances, w: string, unit: real)
    requires w in balances ==> IsMultiple(balances[w], unit)
    ensures IsMultiple(Amount(balances, w), unit)
  {
    if w !in balances { assert 0.0 == Multiple(0, unit); }
  }

  /**
    If all amounts are multiples of one unit above the tolerance, a live table without drift keeps none:
    it shows exactly the staged sums after every application.
  */
  lemma {:induction false} WholeUnitsTrackExactly(db: Db, t: nat, r: nat, ws: seq<Write>, unit: real, w: string)
    requires unit > TOLERANCE
    requires NonNegativeRun(db.stage, t, r) && NonNegativeWrites(ws)
    requires WholeShard(db.stage, t, r, unit) && WholeWrites(ws, unit)
    requires Drift(db, t, r, w) == 0.0
    ensures Drift(AfterDeltas(db, t, r, ws), t, r, w) == 0.0
  {
    if ws != [] {
      var front, last := ws[..|ws| - 1], ws[|ws| - 1];
      WholeUnitsTrackExactly(db, t, r, front, unit, w);
      WritesKeepNonNegative(db, t, r, front);
      WritesKeepWhole(db, t, r, front, unit);
      var before := AfterDeltas(db, t, r, front);
      var k := StageKey(t, r, last.shard, w);
      assert last == ws[|ws| - 1];
      AmountWhole(last.balances, w, unit);
      assert IsMultiple(Cell(before.stage, k), unit) by {
        if k !in before.stage { assert 0.0 == Multiple(0, unit); }
      }
      MultiplesApart(Amount(last.balances, w), Cell(before.stage, k), unit);
      DriftStep(before, t, r, last.shard, last.balances, w);
    }
  }

  /** The live table shows the staged sums after every history of whole-unit writes. */
  ghost predicate TracksAlways(db: Db, t: nat, r: nat, unit: real) {
    forall ws, w :: WholeHistory(ws, unit) ==> Drift(AfterDeltas(db, t, r, ws), t, r, w) == 0.0
  }

  ghost predicate NothingLive(holders: HolderTable, t: nat) {
    forall w :: Live(holders, HolderKey(t, w)) == 0.0
  }

  /**
    A run that starts on an empty stage tracks the stage in every history exactly when no live balance is
    left over: starting a run does not clear the live table, and left-over balances are counted twice.
  */
  lemma TracksExactlyFromEmpty(db: Db, t: nat, r: nat, unit: real)
    requires unit > TOLERANCE && Slice(db.stage, t, r) == map[]
    ensures TracksAlways(db, t, r, unit) <==> NothingLive(db.holders, t)
  {
    if TracksAlways(db, t, r, unit) {
      forall w ensures Live(db.holders, HolderKey(t, w)) == 0.0 {
        assert WholeHistory([], unit);
        assert Drift(AfterDeltas(db, t, r, []), t, r, w) == 0.0;
        EmptyRunDrift(db, t, r, w);
      }
    }
    if NothingLive(db.holders, t) {
      forall ws, w | WholeHistory(ws, unit) ensures Drift(AfterDeltas(db, t, r, ws), t, r, w) == 0.0 {
        assert forall k :: k in db.stage && k.token == t && k.run == r ==> k in Slice(db.stage, t, r);
        EmptyRunDrift(db, t, r, w);
        WholeUnitsTrackExactly(db, t, r, ws, unit, w);
      }
    }
  }

  lemma EmptyRunDrift(db: Db, t: nat, r: nat, w: string)
    requires Slice(db.stage, t, r) == map[]
    ensures Drift(db, t, r, w) == Live(db.holders, HolderKey(t, w))
  {
    EmptyRun(db.stage, t, r, 0, w);
  }

  lemma EmptyRun(stage: StageTable, t: nat, r: nat, s: nat, w: string)
    requires Slice(stage, t, r) == map[]
    ensures StagedSum(stage, t, r, w) == 0.0 && Cell(stage, StageKey(t, r, s, w)) == 0.0
  {
    assert forall k :: k in stage && k.token == t && k.run == r ==> k in Slice(stage, t, r);
    assert WalletRows(stage, t, r, w) == map[];
  }

  /** A second run after a finished one: the live balance 5 and the newly staged 5 add up to 10. */
  lemma SecondRunCountsTwice(t: nat, r: nat, s: nat)
    ensures var db := Db(map[], map[HolderKey(t, "w") := 5.0]);
            var next := Applied(db, t, r, s, map["w" := 5.0]);
            Live(next.holders, HolderKey(t, "w")) == 10.0 && StagedSum(next.stage, t, r, "w") == 5.0
  {
    var db := Db(map[], map[HolderKey(t, "w") := 5.0]);
    var balances := map["w" := 5.0];
    EmptyRun(db.stage, t, r, s, "w");
    AppliedSum(db, t, r, s, balances, "w");
    AppliedLive(db, t, r, s, balances, "w");
    assert Touched(db, t, r, s, balances) by {
      assert Abs(Delta(db, t, r, s, balances, "w")) > 0.000000000001;
    }
  }
}
