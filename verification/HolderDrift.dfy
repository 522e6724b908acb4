/**
  What the progress deltas of the holder sync (src/backend/tokenHolders.ts, dbApplyTokenHolderBalanceShardDelta) show
  when the live table did not start out empty, or when a call is cut off between staging and merging.
*/
module HolderDrift {
  import opened Wrappers
  import opened Tables
  import opened HolderStage
  import opened HolderDelta
  import opened Reals

  /** The worker stages no wallet without a positive amount. */
  predicate PositiveRun(stage: StageTable, t: nat, r: nat) {
    forall k :: k in stage && k.token == t && k.run == r ==> stage[k] > 0.0
  }

  predicate PositiveAmounts(balances: Balances) {
    forall w :: w in balances ==> balances[w] > 0.0
  }

  predicate PositiveWrites(ws: seq<Write>) {
    forall i :: 0 <= i < |ws| ==> PositiveAmounts(ws[i].balances)
  }

  lemma {:induction false} SumPositive<K>(m: map<K, real>)
    requires m != map[] && forall k :: k in m ==> m[k] > 0.0
    ensures SumOf(m) > 0.0
  {
    var k :| k in m;
    SumRemove(m, k);
    SumNonNegative(m - {k});
  }

  lemma RestagedPositive(stage: StageTable, t: nat, r: nat, s: nat, balances: Balances)
    requires PositiveRun(stage, t, r) && PositiveAmounts(balances)
    ensures PositiveRun(Restaged(stage, t, r, s, balances), t, r)
  {
    forall k | k in Restaged(stage, t, r, s, balances) && k.token == t && k.run == r
      ensures Restaged(stage, t, r, s, balances)[k] > 0.0 {
      RestagedCells(stage, t, r, s, balances, k);
    }
  }

  /** In a positive run every staged wallet has a positive sum, so no live row is zeroed. */
  lemma SumsPositive(stage: StageTable, t: nat, r: nat, w: string)
    requires PositiveRun(stage, t, r)
    ensures StagedSum(stage, t, r, w) >= 0.0
    ensures w in Summed(stage, t, r) ==> Summed(stage, t, r)[w] > 0.0
  {
    SumNonNegative(WalletRows(stage, t, r, w));
    if w in Summed(stage, t, r) {
      var k :| k in stage && k.token == t && k.run == r && k.wallet == w;
      assert k in WalletRows(stage, t, r, w);
      SumPositive(WalletRows(stage, t, r, w));
    }
  }

  /** A change the tolerance does not swallow. */
  predicate Noticed(delta: real) {
    delta == 0.0 || Abs(delta) > TOLERANCE
  }

  /** Merging a change does not run into the clamp at zero. */
  predicate Unclamped(live: real, drift: real, delta: real) {
    drift >= 0.0 || (live >= 0.0 && delta >= 0.0)
  }

  /** Without the clamp a merged change moves the live balance in full. */
  lemma MergedKeeps(holders: HolderTable, k: HolderKey, sum: real, delta: real)
    requires sum >= 0.0 && sum + delta >= 0.0 && Unclamped(Live(holders, k), Live(holders, k) - sum, delta)
    ensures Merged(holders, k, delta) == Live(holders, k) + delta
  {
  }

  lemma StepMovesLive(db: Db, t: nat, r: nat, s: nat, balances: Balances, w: string, delta: real)
    requires PositiveRun(db.stage, t, r) && PositiveAmounts(balances)
    requires delta == Delta(db, t, r, s, balances, w) && Noticed(delta)
    requires Merged(db.holders, HolderKey(t, w), delta) == Live(db.holders, HolderKey(t, w)) + delta
    ensures Live(Applied(db, t, r, s, balances).holders, HolderKey(t, w)) == Live(db.holders, HolderKey(t, w)) + delta
  {
    var k, next := HolderKey(t, w), Applied(db, t, r, s, balances);
    var sums := Summed(next.stage, t, r);
    assert w in sums ==> sums[w] > 0.0 by {
      RestagedPositive(db.stage, t, r, s, balances);
      SumsPositive(next.stage, t, r, w);
    }
    assert || (Abs(delta) <= TOLERANCE && Live(next.holders, k) == Live(db.holders, k))
           || (Abs(delta) > TOLERANCE && Live(next.holders, k) == Merged(db.holders, k, delta)) by {
      AppliedLive(db, t, r, s, balances, w);
    }
  }

  lemma StepKeepsDrift(db: Db, t: nat, r: nat, s: nat, balances: Balances, w: string)
    requires PositiveRun(db.stage, t, r) && PositiveAmounts(balances)
    requires Noticed(Delta(db, t, r, s, balances, w))
    requires Unclamped(Live(db.holders, HolderKey(t, w)), Drift(db, t, r, w), Delta(db, t, r, s, balances, w))
    ensures Drift(Applied(db, t, r, s, balances), t, r, w) == Drift(db, t, r, w)
  {
    var delta, sum := Delta(db, t, r, s, balances, w), StagedSum(db.stage, t, r, w);
    assert StagedSum(Restaged(db.stage, t, r, s, balances), t, r, w) == sum + delta by {
      AppliedSum(db, t, r, s, balances, w);
    }
    assert sum >= 0.0 && sum + delta >= 0.0 by {
      SumsPositive(db.stage, t, r, w);
      RestagedPositive(db.stage, t, r, s, balances);
      SumsPositive(Restaged(db.stage, t, r, s, balances), t, r, w);
    }
    MergedKeeps(db.holders, HolderKey(t, w), sum, delta);
    StepMovesLive(db, t, r, s, balances, w, delta);
  }

  // ---------------------------------------------------------------- balances left over

  lemma {:induction false} WritesKeepPositive(db: Db, t: nat, r: nat, ws: seq<Write>)
    requires PositiveRun(db.stage, t, r) && PositiveWrites(ws)
    ensures PositiveRun(AfterDeltas(db, t, r, ws).stage, t, r)
  {
    if ws != [] {
      var n := |ws| - 1;
      assert PositiveAmounts(ws[n].balances);
      WritesKeepPositive(db, t, r, ws[..n]);
      RestagedPositive(AfterDeltas(db, t, r, ws[..n]).stage, t, r, ws[n].shard, ws[n].balances);
    }
  }

  /** Whole-unit amounts change by nothing or by more than the tolerance. */
  lemma WholeIsNoticed(db: Db, t: nat, r: nat, s: nat, balances: Balances, unit: real, w: string)
    requires unit > TOLERANCE && WholeShard(db.stage, t, r, unit)
    requires w in balances ==> IsMultiple(balances[w], unit)
    ensures Noticed(Delta(db, t, r, s, balances, w))
  {
    var k := StageKey(t, r, s, w);
    AmountWhole(balances, w, unit);
    assert IsMultiple(Cell(db.stage, k), unit) by {
      if k !in db.stage { assert 0.0 == Multiple(0, unit); }
    }
    MultiplesApart(Amount(balances, w), Cell(db.stage, k), unit);
  }

  /** A surplus over the staged sum is kept to the unit through every history of positive whole-unit writes. */
  lemma {:induction false} LeftOverStays(db: Db, t: nat, r: nat, ws: seq<Write>, unit: real, w: string)
    requires unit > TOLERANCE
    requires PositiveRun(db.stage, t, r) && PositiveWrites(ws)
    requires WholeShard(db.stage, t, r, unit) && WholeWrites(ws, unit)
    requires Drift(db, t, r, w) >= 0.0
    ensures Drift(AfterDeltas(db, t, r, ws), t, r, w) == Drift(db, t, r, w)
  {
    if ws != [] {
      var n := |ws| - 1;
      var front, last := ws[..n], ws[n];
      assert last == ws[|ws| - 1] && PositiveAmounts(last.balances);
      LeftOverStays(db, t, r, front, unit, w);
      WritesKeepPositive(db, t, r, front);
      WritesKeepWhole(db, t, r, front, unit);
      var before := AfterDeltas(db, t, r, front);
      WholeIsNoticed(before, t, r, last.shard, last.balances, unit, w);
      StepKeepsDrift(before, t, r, last.shard, last.balances, w);
    }
  }

  /**
    A run that starts on an empty stage shows, after every such history, what was left over plus what it staged.
    So no history of it tracks a wallet that had a balance, and every history tracks one that had none.
  */
  lemma LeftOverShowsInFull(db: Db, t: nat, r: nat, ws: seq<Write>, unit: real, w: string)
    requires unit > TOLERANCE && Slice(db.stage, t, r) == map[] && Live(db.holders, HolderKey(t, w)) >= 0.0
    requires PositiveWrites(ws) && WholeWrites(ws, unit)
    ensures var k, after := HolderKey(t, w), AfterDeltas(db, t, r, ws);
            && Live(after.holders, k) == Live(db.holders, k) + StagedSum(after.stage, t, r, w)
            && (Drift(after, t, r, w) == 0.0 <==> Live(db.holders, k) == 0.0)
  {
    assert forall k :: k in db.stage && k.token == t && k.run == r ==> k in Slice(db.stage, t, r);
    EmptyRunDrift(db, t, r, w);
    LeftOverStays(db, t, r, ws, unit, w);
  }

  // ---------------------------------------------------------------- calls cut off before merging

  /** The deltas of the wallets that were merged. */
  function MergedPart(deltas: Balances, merged: set<string>): Balances {
    map w | w in deltas && w in merged :: deltas[w]
  }

  /** A call that staged a shard's rows and was cut off after merging some wallets' deltas; nothing was zeroed. */
  ghost function CutOff(db: Db, t: nat, r: nat, s: nat, staged: Balances, merged: set<string>): Db {
    Db(Restaged(db.stage, t, r, s, staged),
       WithDeltas(db.holders, t, MergedPart(Deltas(ShardRows(db.stage, t, r, s), staged), merged)))
  }

  lemma WithDeltasLive(holders: HolderTable, t: nat, deltas: Balances, w: string)
    ensures var k := HolderKey(t, w);
            Live(WithDeltas(holders, t, deltas), k)
              == if w in deltas then Merged(holders, k, deltas[w]) else Live(holders, k)
  {
    assert HolderKey(t, w) in KeysOf(t, deltas.Keys) <==> w in deltas;
  }

  lemma DeltaOf(stage: StageTable, t: nat, r: nat, s: nat, staged: Balances, w: string)
    ensures var deltas, delta := Deltas(ShardRows(stage, t, r, s), staged),
                                 Amount(staged, w) - Cell(stage, StageKey(t, r, s, w));
            (w in deltas <==> Abs(delta) > TOLERANCE) && (w in deltas ==> deltas[w] == delta)
  {
    ShardRowsAmount(stage, t, r, s, w);
  }

  lemma CutLive(db: Db, t: nat, r: nat, s: nat, staged: Balances, merged: set<string>, w: string)
    ensures var k, delta := HolderKey(t, w), Delta(db, t, r, s, staged, w);
            Live(CutOff(db, t, r, s, staged, merged).holders, k)
              == if w in merged && Abs(delta) > TOLERANCE then Merged(db.holders, k, delta) else Live(db.holders, k)
  {
    var deltas, delta := Deltas(ShardRows(db.stage, t, r, s), staged), Delta(db, t, r, s, staged, w);
    var part := MergedPart(deltas, merged);
    assert (w in part <==> w in merged && Abs(delta) > TOLERANCE) && (w in part ==> part[w] == delta) by {
      DeltaOf(db.stage, t, r, s, staged, w);
    }
    var holders := WithDeltas(db.holders, t, part);
    assert Live(holders, HolderKey(t, w))
        == if w in part then Merged(db.holders, HolderKey(t, w), part[w]) else Live(db.holders, HolderKey(t, w)) by {
      WithDeltasLive(db.holders, t, part, w);
    }
    assert CutOff(db, t, r, s, staged, merged).holders == holders;
  }

  /** What a cut-off call leaves out of the live table. */
  function Lost(db: Db, t: nat, r: nat, s: nat, staged: Balances, merged: set<string>, w: string): real {
    if w in merged then 0.0 else Delta(db, t, r, s, staged, w)
  }

  /** A cut-off call moves the drift by exactly the delta it lost. */
  lemma CutLosesDelta(db: Db, t: nat, r: nat, s: nat, staged: Balances, merged: set<string>, w: string)
    requires PositiveRun(db.stage, t, r) && PositiveAmounts(staged) && Noticed(Delta(db, t, r, s, staged, w))
    requires Unclamped(Live(db.holders, HolderKey(t, w)), Drift(db, t, r, w), Delta(db, t, r, s, staged, w))
    ensures Drift(CutOff(db, t, r, s, staged, merged), t, r, w)
         == Drift(db, t, r, w) - Lost(db, t, r, s, staged, merged, w)
  {
    var delta, sum := Delta(db, t, r, s, staged, w), StagedSum(db.stage, t, r, w);
    assert StagedSum(Restaged(db.stage, t, r, s, staged), t, r, w) == sum + delta by {
      AppliedSum(db, t, r, s, staged, w);
    }
    assert sum >= 0.0 && sum + delta >= 0.0 by {
      SumsPositive(db.stage, t, r, w);
      RestagedPositive(db.stage, t, r, s, staged);
      SumsPositive(Restaged(db.stage, t, r, s, staged), t, r, w);
    }
    MergedKeeps(db.holders, HolderKey(t, w), sum, delta);
    CutLive(db, t, r, s, staged, merged, w);
  }

  /** The retry finds its own rows staged, sees no difference and merges nothing: the loss stays. */
  lemma RetryMergesNothing(db: Db, t: nat, r: nat, s: nat, staged: Balances, merged: set<string>)
    ensures Applied(CutOff(db, t, r, s, staged, merged), t, r, s, staged) == CutOff(db, t, r, s, staged, merged)
  {
    var stage := Restaged(db.stage, t, r, s, staged);
    var rows := ShardRows(stage, t, r, s);
    forall w ensures Amount(rows, w) == Amount(staged, w) {
      ShardRowsAmount(stage, t, r, s, w);
      RestagedCells(db.stage, t, r, s, staged, StageKey(t, r, s, w));
    }
    assert Deltas(rows, staged) == map[];
    RestagedAgain(db.stage, t, r, s, staged);
  }

  lemma RestagedAgain(stage: StageTable, t: nat, r: nat, s: nat, balances: Balances)
    ensures Restaged(Restaged(stage, t, r, s, balances), t, r, s, balances) == Restaged(stage, t, r, s, balances)
  {
    var once := Restaged(stage, t, r, s, balances);
    var twice := Restaged(once, t, r, s, balances);
    forall k: StageKey ensures (k in twice <==> k in once) && (k in once ==> twice[k] == once[k]) {
      RestagedCells(stage, t, r, s, balances, k);
      RestagedCells(once, t, r, s, balances, k);
    }
  }

  datatype Call = Call(write: Write, cut: Option<set<string>>)

  ghost function AfterCall(db: Db, t: nat, r: nat, c: Call): Db {
    match c.cut
    case None => Applied(db, t, r, c.write.shard, c.write.balances)
    case Some(merged) => CutOff(db, t, r, c.write.shard, c.write.balances, merged)
  }

  ghost function AfterCalls(db: Db, t: nat, r: nat, cs: seq<Call>): Db {
    if cs == [] then db else AfterCall(AfterCalls(db, t, r, cs[..|cs| - 1]), t, r, cs[|cs| - 1])
  }

  ghost function LostByCall(db: Db, t: nat, r: nat, c: Call, w: string): real {
    match c.cut
    case None => 0.0
    case Some(merged) => Lost(db, t, r, c.write.shard, c.write.balances, merged, w)
  }

  ghost function LostByCalls(db: Db, t: nat, r: nat, cs: seq<Call>, w: string): real {
    if cs == [] then 0.0
    else
      var front := cs[..|cs| - 1];
      LostByCalls(db, t, r, front, w) + LostByCall(AfterCalls(db, t, r, front), t, r, cs[|cs| - 1], w)
  }

  /** No call lowers the wallet's amount in its shard, and every change is more than the tolerance. */
  ghost predicate Grows(db: Db, t: nat, r: nat, cs: seq<Call>, w: string) {
    cs != [] ==>
      var front, write := cs[..|cs| - 1], cs[|cs| - 1].write;
      var delta := Delta(AfterCalls(db, t, r, front), t, r, write.shard, write.balances, w);
      Grows(db, t, r, front, w) && PositiveAmounts(write.balances) && delta >= 0.0 && Noticed(delta)
  }

  lemma CallKeepsDrift(db: Db, t: nat, r: nat, c: Call, w: string)
    requires PositiveRun(db.stage, t, r) && PositiveAmounts(c.write.balances)
    requires Live(db.holders, HolderKey(t, w)) >= 0.0
    requires var delta := Delta(db, t, r, c.write.shard, c.write.balances, w); delta >= 0.0 && Noticed(delta)
    ensures Drift(AfterCall(db, t, r, c), t, r, w) == Drift(db, t, r, w) - LostByCall(db, t, r, c, w)
  {
    match c.cut
    case None => StepKeepsDrift(db, t, r, c.write.shard, c.write.balances, w);
    case Some(merged) => CutLosesDelta(db, t, r, c.write.shard, c.write.balances, merged, w);
  }

  /** Live balance and staged sum move by amounts the drift law relates, and the sum by the whole delta. */
  lemma CallKeepsLive(db: Db, t: nat, r: nat, c: Call, w: string)
    requires PositiveRun(db.stage, t, r) && PositiveAmounts(c.write.balances)
    requires Live(db.holders, HolderKey(t, w)) >= 0.0
    requires var delta := Delta(db, t, r, c.write.shard, c.write.balances, w); delta >= 0.0 && Noticed(delta)
    ensures Live(AfterCall(db, t, r, c).holders, HolderKey(t, w)) >= 0.0
  {
    var delta, next := Delta(db, t, r, c.write.shard, c.write.balances, w), AfterCall(db, t, r, c);
    assert StagedSum(next.stage, t, r, w) == StagedSum(db.stage, t, r, w) + delta by {
      AppliedSum(db, t, r, c.write.shard, c.write.balances, w);
    }
    assert LostByCall(db, t, r, c, w) <= delta;
    CallKeepsDrift(db, t, r, c, w);
  }

  /** Until the run is finalized the live balance lacks exactly the deltas of the calls that were cut off. */
  lemma {:induction false} LostDeltasStayLost(db: Db, t: nat, r: nat, cs: seq<Call>, w: string)
    requires PositiveRun(db.stage, t, r) && Live(db.holders, HolderKey(t, w)) >= 0.0 && Grows(db, t, r, cs, w)
    ensures PositiveRun(AfterCalls(db, t, r, cs).stage, t, r)
    ensures Live(AfterCalls(db, t, r, cs).holders, HolderKey(t, w)) >= 0.0
    ensures Drift(AfterCalls(db, t, r, cs), t, r, w) == Drift(db, t, r, w) - LostByCalls(db, t, r, cs, w)
  {
    if cs != [] {
      var front := cs[..|cs| - 1];
      LostDeltasStayLost(db, t, r, front, w);
      var before, c := AfterCalls(db, t, r, front), cs[|cs| - 1];
      CallKeepsDrift(before, t, r, c, w);
      CallKeepsLive(before, t, r, c, w);
      RestagedPositive(before.stage, t, r, c.write.shard, c.write.balances);
    }
  }
}
