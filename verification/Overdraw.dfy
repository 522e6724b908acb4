/**
  When a plan spends more from an account than it holds (rust-backend/src/planner.rs).  Net-position slices are
  checked one by one against the untouched pool, and cycling starts from the untouched pool again, so neither
  sees what the other, or an earlier slice, has spent.
*/
module Overdraw {
  import opened Wrappers
  import opened PlannerTypes
  import opened Cycling
  import opened Pools
  import opened CyclingShares
  import opened Planner

  /** What intents spend from entry j on a side. */
  function Spent(pool: seq<AccountSnapshot>, side: OrderSide, intents: seq<OrderIntent>, j: nat): real
    requires j < |pool|
  {
    Total(intents, OneAccount(side, pool[j].accountId))
  }

  predicate Overdrawn(pool: seq<AccountSnapshot>, side: OrderSide, intents: seq<OrderIntent>, j: nat) {
    j < |pool| && Spent(pool, side, intents, j) > Holds(pool, side, j)
  }

  predicate AnyOverdrawn(pool: seq<AccountSnapshot>, side: OrderSide, intents: seq<OrderIntent>) {
    exists j: nat :: j < |pool| && Overdrawn(pool, side, intents, j)
  }

  // ---------------------------------------------------------------- the net position

  /** What slices take from entry j. */
  function TakenFrom(pool: seq<AccountSnapshot>, side: OrderSide, slices: seq<real>, j: nat): real {
    if slices == [] then 0.0
    else
      var k := |slices| - 1;
      TakenFrom(pool, side, slices[..k], j)
      + (if SelectAccount(pool, side, slices[k]) == Some(j) then slices[k] else 0.0)
  }

  lemma {:induction false} NetPerAccount(pool: seq<AccountSnapshot>, side: OrderSide, slices: seq<real>, n: nat, j: nat)
    requires DistinctIds(pool) && AllFundable(pool, side, slices) && j < |pool|
    ensures Spent(pool, side, NetRendered(pool, side, slices, n), j) == TakenFrom(pool, side, slices, j)
  {
    if slices != [] {
      var k := |slices| - 1;
      NetPerAccount(pool, side, slices[..k], n, j);
      var f := SelectAccount(pool, side, slices[k]).value;
      assert pool[f].accountId == pool[j].accountId <==> f == j;
    }
  }

  /** Equal slices all land on one entry. */
  lemma {:induction false} FullOn(pool: seq<AccountSnapshot>, side: OrderSide, slices: seq<real>, hint: real, j: nat)
    requires forall k :: 0 <= k < |slices| ==> slices[k] == hint
    ensures TakenFrom(pool, side, slices, j)
         == if SelectAccount(pool, side, hint) == Some(j) then Sum(slices) else 0.0
  {
    if slices != [] {
      FullOn(pool, side, slices[..|slices| - 1], hint, j);
    }
  }

  /** The last slice of a target. */
  function LastSlice(target: real, hint: real): (last: real)
    requires hint >= 1.0 && target > 0.0
    ensures 0.0 < last <= hint && last <= target && (target <= hint <==> last == target)
    decreases target
  {
    if target <= hint then target else LastSlice(target - hint, hint)
  }

  lemma {:induction false} LastOfTimes(m: nat, last: real, hint: real)
    requires hint >= 1.0 && 0.0 < last <= hint
    ensures Times(m, hint) >= 0.0 && LastSlice(Times(m, hint) + last, hint) == last
  {
    if m > 0 {
      LastOfTimes(m - 1, last, hint);
      assert Times(m, hint) + last - hint == Times(m - 1, hint) + last;
    }
  }

  lemma LastSliceOf(slices: seq<real>, target: real, hint: real)
    requires hint >= 1.0 && target > 0.0 && IsSlicing(slices, target, hint)
    ensures slices[|slices| - 1] == LastSlice(target, hint)
  {
    var n := |slices| - 1;
    SumOfFull(slices[..n], hint);
    LastOfTimes(n, slices[n], hint);
  }

  /** What slicing a target takes from entry j: all full slices fall on one entry, and the last one on one. */
  function NetShare(pool: seq<AccountSnapshot>, side: OrderSide, target: real, hint: real, j: nat): real
    requires hint >= 1.0
  {
    if target <= 0.0 then 0.0
    else
      var last := LastSlice(target, hint);
      (if SelectAccount(pool, side, Min(target, hint)) == Some(j) then target - last else 0.0)
      + (if SelectAccount(pool, side, last) == Some(j) then last else 0.0)
  }

  lemma SlicesTakeShares(pool: seq<AccountSnapshot>, side: OrderSide, slices: seq<real>, target: real, hint: real,
                         j: nat)
    requires hint >= 1.0 && IsSlicing(slices, target, hint)
    ensures TakenFrom(pool, side, slices, j) == NetShare(pool, side, target, hint, j)
  {
    if target > 0.0 {
      var n := |slices| - 1;
      FullOn(pool, side, slices[..n], hint, j);
      LastSliceOf(slices, target, hint);
      assert Sum(slices) == Sum(slices[..n]) + slices[n];
      if n == 0 { assert Sum(slices[..n]) == 0.0; } else { LargestSlice(slices, target, hint); }
    }
  }

  /** The slices of a target together take more from an entry than it holds. */
  predicate NetOverdraws(pool: seq<AccountSnapshot>, side: OrderSide, target: real, hint: real)
    requires hint >= 1.0 && target > 0.0
  {
    var first := SelectAccount(pool, side, Min(target, hint));
    var last := LastSlice(target, hint);
    first.Some?
    && (if SelectAccount(pool, side, last) == first then target else target - last) > pool[first.value].Free(side)
  }

  lemma NetShareOverdraws(pool: seq<AccountSnapshot>, side: OrderSide, target: real, hint: real, j: nat)
    requires hint >= 1.0 && target > 0.0 && j < |pool| && SelectAccount(pool, side, Min(target, hint)).Some?
    ensures NetShare(pool, side, target, hint, j) > Holds(pool, side, j)
       <==> SelectAccount(pool, side, Min(target, hint)) == Some(j) && NetOverdraws(pool, side, target, hint)
  {
  }

  /**
    Some account is overdrawn exactly if the account that can fund the largest slice is: it takes all full
    slices, and the last one too unless an earlier account can fund that.
  */
  lemma NetOverdrawsExactly(pool: seq<AccountSnapshot>, side: OrderSide, slices: seq<real>, target: real, hint: real,
                            n: nat)
    requires DistinctIds(pool) && hint >= 1.0 && target > 0.0 && IsSlicing(slices, target, hint)
    requires AllFundable(pool, side, slices)
    ensures AnyOverdrawn(pool, side, NetRendered(pool, side, slices, n)) <==> NetOverdraws(pool, side, target, hint)
  {
    LargestSlice(slices, target, hint);
    var intents := NetRendered(pool, side, slices, n);
    forall j: nat | j < |pool|
      ensures Overdrawn(pool, side, intents, j)
         <==> SelectAccount(pool, side, Min(target, hint)) == Some(j) && NetOverdraws(pool, side, target, hint) {
      NetPerAccount(pool, side, slices, n, j);
      SlicesTakeShares(pool, side, slices, target, hint, j);
      NetShareOverdraws(pool, side, target, hint, j);
    }
    if NetOverdraws(pool, side, target, hint) {
      assert Overdrawn(pool, side, intents, SelectAccount(pool, side, Min(target, hint)).value);
    }
  }

  /** With one account: exactly the targets above its balance whose largest slice is within it. */
  lemma NetPositionMayOverdraw(a: AccountSnapshot, side: OrderSide, target: real, hint: real, slices: seq<real>, n: nat)
    requires hint >= 1.0 && target > 0.0 && IsSlicing(slices, target, hint)
    ensures AllFundable([a], side, slices) && AnyOverdrawn([a], side, NetRendered([a], side, slices, n))
       <==> a.isAvailable && Min(target, hint) <= a.Free(side) < target
  {
    SlicesFundable([a], side, slices, target, hint);
    assert [a][0].CanFund(side, Min(target, hint)) <==> a.isAvailable && a.Free(side) >= Min(target, hint);
    if AllFundable([a], side, slices) {
      NetOverdrawsExactly([a], side, slices, target, hint, n);
      LargestSlice(slices, target, hint);
    }
  }

  /** Two accounts hold 200 together, yet a target of 150 in slices of 60 takes all of it from the first. */
  lemma NetOverdrawExample(a: AccountSnapshot, b: AccountSnapshot)
    requires a.isAvailable && b.isAvailable && a.accountId != b.accountId && a.quoteFree == b.quoteFree == 100.0
    ensures var slices := [60.0, 60.0, 30.0];
            && IsSlicing(slices, 150.0, 60.0) && AllFundable([a, b], Buy, slices)
            && Spent([a, b], Buy, NetRendered([a, b], Buy, slices, 0), 0) == 150.0
  {
    var pool, slices := [a, b], [60.0, 60.0, 30.0];
    assert slices[..2] == [60.0, 60.0] && slices[..2][..1] == [60.0] && [60.0][..0] == [];
    assert Sum(slices) == 150.0;
    assert pool[0].CanFund(Buy, 60.0) && pool[0].CanFund(Buy, 30.0);
    SlicesTakeShares(pool, Buy, slices, 150.0, 60.0, 0);
    NetPerAccount(pool, Buy, slices, 0, 0);
    LastSliceOf(slices, 150.0, 60.0);
  }

  // ---------------------------------------------------------------- cycling on the pool

  /** What cycling v takes from entry j of the pool. */
  function CycleShare(pool: seq<AccountSnapshot>, side: OrderSide, v: real, j: nat): real
    requires AllUsable(pool) && j < |pool|
  {
    WorkingCopyOf(pool);
    Share(WorkingCopy(pool), side, v, j)
  }

  lemma CyclingPerAccount(pool: seq<AccountSnapshot>, gap: real, hint: real, pairs: seq<Pair>, side: OrderSide,
                          j: nat, v: real)
    requires DistinctIds(pool) && AllUsable(pool) && j < |pool| && hint >= 1.0 && gap >= 0.0
    requires InRange(WorkingCopy(pool), pairs) && GreedyRun(WorkingCopy(pool), gap, hint, pairs)
    requires After(WorkingCopy(pool), gap, pairs).remaining == gap - v * 2.0
    ensures Spent(pool, side, Rendered(WorkingCopy(pool), pairs), j) == CycleShare(pool, side, v, j)
  {
    var start := WorkingCopy(pool);
    WorkingCopyOf(pool);
    var after, id := After(start, gap, pairs).accounts, pool[j].accountId;
    assert SameIds(after, start) by { RunStaysInRange(start, gap, hint, pairs); }
    assert Held(start, side, Some(id)) == start[j].Free(side) by { HeldOnPool(pool, start, side, j); }
    assert Held(after, side, Some(id)) == after[j].Free(side) by { HeldOnPool(pool, after, side, j); }
    assert after[j].Free(side) == start[j].Free(side) - Share(start, side, v, j) by {
      CyclingTakesShares(start, gap, hint, pairs, v);
    }
    RunConserves(start, gap, hint, pairs, side, Some(id));
  }

  // ---------------------------------------------------------------- the whole plan

  function Target(input: TradePlanningInput, side: OrderSide): real {
    if side == Buy then input.targetBuyVolume else input.targetSellVolume
  }

  /** What a plan that cycles v on each side takes from entry j. */
  function PlanShare(planner: TradePlanner, pool: seq<AccountSnapshot>, side: OrderSide, input: TradePlanningInput,
                     v: real, j: nat): real
    requires AllUsable(pool) && j < |pool|
  {
    NetShare(pool, side, Target(input, side), NormalizedHint(planner, input.microTaskSizeHint), j)
    + CycleShare(pool, side, v, j)
  }

  lemma {:induction false} OtherSide(pool: seq<AccountSnapshot>, side: OrderSide, slices: seq<real>, n: nat,
                                     other: OrderSide, j: nat)
    requires AllFundable(pool, side, slices) && other != side && j < |pool|
    ensures Spent(pool, other, NetRendered(pool, side, slices, n), j) == 0.0
  {
    if slices != [] {
      OtherSide(pool, side, slices[..|slices| - 1], n, other, j);
    }
  }

  lemma NetPerEntry(planner: TradePlanner, pool: seq<AccountSnapshot>, input: TradePlanningInput, net: seq<OrderIntent>,
                    buys: seq<real>, sells: seq<real>, side: OrderSide, j: nat)
    requires DistinctIds(pool) && j < |pool| && IsNet(planner, pool, input, net, buys, sells)
    ensures Spent(pool, side, net, j)
         == NetShare(pool, side, Target(input, side), NormalizedHint(planner, input.microTaskSizeHint), j)
  {
    var hint := NormalizedHint(planner, input.microTaskSizeHint);
    var bought, sold := NetRendered(pool, Buy, buys, 0), NetRendered(pool, Sell, sells, |buys|);
    TotalOfConcat(bought, sold, OneAccount(side, pool[j].accountId));
    if side == Buy {
      OtherSide(pool, Sell, sells, |buys|, Buy, j);
      NetPerAccount(pool, Buy, buys, 0, j);
      SlicesTakeShares(pool, Buy, buys, input.targetBuyVolume, hint, j);
    } else {
      OtherSide(pool, Buy, buys, 0, Sell, j);
      NetPerAccount(pool, Sell, sells, |buys|, j);
      SlicesTakeShares(pool, Sell, sells, input.targetSellVolume, hint, j);
    }
  }

  lemma CyclingPerEntry(planner: TradePlanner, pool: seq<AccountSnapshot>, input: TradePlanningInput,
                        cycling: seq<OrderIntent>, pairs: seq<Pair>, side: OrderSide, j: nat)
    requires DistinctIds(pool) && AllUsable(pool) && j < |pool| && IsCycling(planner, pool, input, cycling, pairs)
    ensures Spent(pool, side, cycling, j) == CycleShare(pool, side, Total(cycling, OneSide(Buy)), j)
  {
    var start, gap := WorkingCopy(pool), Gap(input);
    WorkingCopyOf(pool);
    if gap > 0.0 {
      var hint := NormalizedHint(planner, input.microTaskSizeHint);
      RunUsesVolume(start, gap, hint, pairs, Buy);
      CyclingPerAccount(pool, gap, hint, pairs, side, j, Total(cycling, OneSide(Buy)));
    } else {
      NothingDrawn(start);
      assert Share(start, side, 0.0, j) == 0.0;
    }
  }

  /**
    What a plan spends from each account: the slices' share and the share of the volume cycled.  So an account is
    overdrawn exactly if the two shares together exceed what it holds.
  */
  lemma PlanSpends(planner: TradePlanner, pool: seq<AccountSnapshot>, input: TradePlanningInput, parts: Parts,
                   side: OrderSide, j: nat)
    requires DistinctIds(pool) && AllUsable(pool) && j < |pool| && IsPlan(planner, pool, input, parts)
    ensures Spent(pool, side, parts.net + parts.cycling, j)
         == PlanShare(planner, pool, side, input, Total(parts.cycling, OneSide(Buy)), j)
  {
    TotalOfConcat(parts.net, parts.cycling, OneAccount(side, pool[j].accountId));
    NetPerEntry(planner, pool, input, parts.net, parts.buys, parts.sells, side, j);
    CyclingPerEntry(planner, pool, input, parts.cycling, parts.pairs, side, j);
  }

  /** The cycled volume a caller can count on and the most there can be: half the gap, up to the tolerance. */
  function LeastCycled(input: TradePlanningInput): real { Max(Gap(input) - EPSILON, 0.0) / 2.0 }

  function MostCycled(input: TradePlanningInput): real { Max(Gap(input), 0.0) / 2.0 }

  lemma CycledVolume(planner: TradePlanner, pool: seq<AccountSnapshot>, input: TradePlanningInput,
                     cycling: seq<OrderIntent>, pairs: seq<Pair>)
    requires IsCycling(planner, pool, input, cycling, pairs)
    ensures LeastCycled(input) <= Total(cycling, OneSide(Buy)) <= MostCycled(input)
  {
    if Gap(input) > 0.0 {
      var start, hint := WorkingCopy(pool), NormalizedHint(planner, input.microTaskSizeHint);
      RunStaysInRange(start, Gap(input), hint, pairs);
      RunUsesVolume(start, Gap(input), hint, pairs, Buy);
    }
  }

  lemma PlanShareMonotone(planner: TradePlanner, pool: seq<AccountSnapshot>, side: OrderSide,
                          input: TradePlanningInput, v: real, w: real, j: nat)
    requires AllUsable(pool) && j < |pool| && v <= w
    ensures PlanShare(planner, pool, side, input, v, j) <= PlanShare(planner, pool, side, input, w, j)
  {
    WorkingCopyOf(pool);
    ShareMonotone(WorkingCopy(pool), side, v, w, j);
  }

  /**
    What a caller can tell before planning: an account whose shares exceed its balance already at the least
    cycled volume is overdrawn, and one whose shares fit at the most is not.  The two differ by half a tolerance.
  */
  lemma PlanOverdrawPredicted(planner: TradePlanner, pool: seq<AccountSnapshot>, input: TradePlanningInput,
                              parts: Parts, side: OrderSide, j: nat)
    requires DistinctIds(pool) && AllUsable(pool) && j < |pool| && IsPlan(planner, pool, input, parts)
    ensures PlanShare(planner, pool, side, input, LeastCycled(input), j) > Holds(pool, side, j) ==>
              Overdrawn(pool, side, parts.net + parts.cycling, j)
    ensures Overdrawn(pool, side, parts.net + parts.cycling, j) ==>
              PlanShare(planner, pool, side, input, MostCycled(input), j) > Holds(pool, side, j)
  {
    var v := Total(parts.cycling, OneSide(Buy));
    PlanSpends(planner, pool, input, parts, side, j);
    CycledVolume(planner, pool, input, parts.cycling, parts.pairs);
    PlanShareMonotone(planner, pool, side, input, LeastCycled(input), v, j);
    PlanShareMonotone(planner, pool, side, input, v, MostCycled(input), j);
  }

  // ---------------------------------------------------------------- side totals

  function SpentUpTo(pool: seq<AccountSnapshot>, side: OrderSide, intents: seq<OrderIntent>, m: nat): real
    requires m <= |pool|
  {
    if m == 0 then 0.0 else SpentUpTo(pool, side, intents, m - 1) + Spent(pool, side, intents, m - 1)
  }

  function HoldsUpTo(pool: seq<AccountSnapshot>, side: OrderSide, m: nat): real
    requires m <= |pool|
  {
    if m == 0 then 0.0 else HoldsUpTo(pool, side, m - 1) + Holds(pool, side, m - 1)
  }

  predicate OnPool(pool: seq<AccountSnapshot>, intents: seq<OrderIntent>) {
    forall k :: 0 <= k < |intents| ==> HasId(pool, intents[k].accountId)
  }

  predicate HasId(pool: seq<AccountSnapshot>, id: string) {
    exists i: nat :: i < |pool| && pool[i].accountId == id
  }

  lemma {:induction false} SpentOneMore(pool: seq<AccountSnapshot>, side: OrderSide, intents: seq<OrderIntent>, i: nat,
                                        m: nat)
    requires DistinctIds(pool) && intents != [] && i < |pool| && m <= |pool|
    requires intents[|intents| - 1].accountId == pool[i].accountId
    ensures SpentUpTo(pool, side, intents, m)
         == SpentUpTo(pool, side, intents[..|intents| - 1], m)
          + (if i < m && intents[|intents| - 1].side == side then intents[|intents| - 1].amount else 0.0)
  {
    if m > 0 {
      SpentOneMore(pool, side, intents, i, m - 1);
      assert pool[m - 1].accountId == pool[i].accountId <==> m - 1 == i;
    }
  }

  lemma {:induction false} NothingSpent(pool: seq<AccountSnapshot>, side: OrderSide, m: nat)
    requires m <= |pool|
    ensures SpentUpTo(pool, side, [], m) == 0.0
  {
    if m > 0 { NothingSpent(pool, side, m - 1); }
  }

  /** What all accounts spend on a side is what the intents spend on it. */
  lemma {:induction false} SpentByAll(pool: seq<AccountSnapshot>, side: OrderSide, intents: seq<OrderIntent>)
    requires DistinctIds(pool) && OnPool(pool, intents)
    ensures SpentUpTo(pool, side, intents, |pool|) == Total(intents, OneSide(side))
  {
    if intents == [] {
      NothingSpent(pool, side, |pool|);
    } else {
      var n := |intents| - 1;
      var i: nat :| i < |pool| && pool[i].accountId == intents[n].accountId;
      SpentOneMore(pool, side, intents, i, |pool|);
      SpentByAll(pool, side, intents[..n]);
    }
  }

  lemma {:induction false} WithinHoldings(pool: seq<AccountSnapshot>, side: OrderSide, intents: seq<OrderIntent>,
                                          m: nat)
    requires m <= |pool| && forall j: nat :: j < m ==> !Overdrawn(pool, side, intents, j)
    ensures SpentUpTo(pool, side, intents, m) <= HoldsUpTo(pool, side, m)
  {
    if m > 0 {
      WithinHoldings(pool, side, intents, m - 1);
      assert !Overdrawn(pool, side, intents, m - 1);
    }
  }

  lemma {:induction false} AllHold(pool: seq<AccountSnapshot>, side: OrderSide, m: nat)
    requires AllUsable(pool) && m <= |pool|
    ensures HoldsUpTo(pool, side, m) == Held(WorkingCopy(pool[..m]), side, None)
  {
    if m > 0 {
      AllHold(pool, side, m - 1);
      var part := pool[..m];
      assert part[..m - 1] == pool[..m - 1];
      WorkingCopyOf(part);
      WorkingCopyOf(part[..m - 1]);
      assert WorkingCopy(part)[..m - 1] == WorkingCopy(part[..m - 1]);
      assert Holds(part, side, m - 1) == Holds(pool, side, m - 1);
    }
  }

  lemma {:induction false} RenderedOnPool(pool: seq<AccountSnapshot>, pairs: seq<Pair>)
    requires AllUsable(pool) && InRange(WorkingCopy(pool), pairs)
    ensures OnPool(pool, Rendered(WorkingCopy(pool), pairs))
  {
    WorkingCopyOf(pool);
    if pairs != [] {
      var n := |pairs| - 1;
      RenderedOnPool(pool, pairs[..n]);
      assert HasId(pool, pool[pairs[n].buyer].accountId) && HasId(pool, pool[pairs[n].seller].accountId);
    }
  }

  lemma {:induction false} NetOnPool(pool: seq<AccountSnapshot>, side: OrderSide, slices: seq<real>, n: nat)
    requires AllFundable(pool, side, slices)
    ensures OnPool(pool, NetRendered(pool, side, slices, n))
  {
    if slices != [] {
      var k := |slices| - 1;
      NetOnPool(pool, side, slices[..k], n);
      assert HasId(pool, pool[SelectAccount(pool, side, slices[k]).value].accountId);
    }
  }

  /** A side's total: its target and the volume cycled. */
  lemma PlanSideTotal(planner: TradePlanner, pool: seq<AccountSnapshot>, input: TradePlanningInput, parts: Parts,
                      side: OrderSide)
    requires ValidInput(input) && IsPlan(planner, pool, input, parts)
    ensures Total(parts.net + parts.cycling, OneSide(side))
         == Target(input, side) + Total(parts.cycling, OneSide(Buy))
  {
    TotalOfConcat(parts.net, parts.cycling, OneSide(side));
    NetTotals(planner, pool, input, parts.net, parts.buys, parts.sells, side);
    CyclingTotals(planner, pool, input, parts.cycling, parts.pairs);
  }

  lemma PlanOnPool(planner: TradePlanner, pool: seq<AccountSnapshot>, input: TradePlanningInput, parts: Parts)
    requires AllUsable(pool) && IsPlan(planner, pool, input, parts)
    ensures OnPool(pool, parts.net + parts.cycling)
  {
    NetOnPool(pool, Buy, parts.buys, 0);
    NetOnPool(pool, Sell, parts.sells, |parts.buys|);
    RenderedOnPool(pool, parts.pairs);
  }

  /** Together the accounts spend a side's target and the volume cycled. */
  lemma PlanSpentByAll(planner: TradePlanner, pool: seq<AccountSnapshot>, input: TradePlanningInput, parts: Parts,
                       side: OrderSide)
    requires DistinctIds(pool) && AllUsable(pool) && ValidInput(input) && IsPlan(planner, pool, input, parts)
    ensures SpentUpTo(pool, side, parts.net + parts.cycling, |pool|)
         == Target(input, side) + Total(parts.cycling, OneSide(Buy))
  {
    PlanOnPool(planner, pool, input, parts);
    SpentByAll(pool, side, parts.net + parts.cycling);
    PlanSideTotal(planner, pool, input, parts, side);
  }

  /** A side that asks for more than all accounts hold overdraws one of them; the net position is not checked for it. */
  lemma PlanOverdrawsSide(planner: TradePlanner, pool: seq<AccountSnapshot>, input: TradePlanningInput, parts: Parts,
                          side: OrderSide)
    requires DistinctIds(pool) && AllUsable(pool) && ValidInput(input) && IsPlan(planner, pool, input, parts)
    requires Target(input, side) + LeastCycled(input) > Held(WorkingCopy(pool), side, None)
    ensures AnyOverdrawn(pool, side, parts.net + parts.cycling)
  {
    PlanSpentByAll(planner, pool, input, parts, side);
    CycledVolume(planner, pool, input, parts.cycling, parts.pairs);
    AllHold(pool, side, |pool|);
    assert pool[..|pool|] == pool;
    if !AnyOverdrawn(pool, side, parts.net + parts.cycling) {
      WithinHoldings(pool, side, parts.net + parts.cycling, |pool|);
    }
  }

  // ---------------------------------------------------------------- one account

  /** The volume a plan on one account cycles, to the unit. */
  function OneAccountCycled(planner: TradePlanner, a: AccountSnapshot, input: TradePlanningInput): real {
    if Gap(input) <= 0.0 then 0.0
    else OneAccountVolume(CyclingAccount(a.accountId, Max(a.baseFree, 0.0), Max(a.quoteFree, 0.0)), Gap(input),
                          NormalizedHint(planner, input.microTaskSizeHint))
  }

  lemma OneAccountCyclesExactly(planner: TradePlanner, a: AccountSnapshot, input: TradePlanningInput,
                                cycling: seq<OrderIntent>, pairs: seq<Pair>)
    requires a.Usable() && IsCycling(planner, [a], input, cycling, pairs)
    ensures Total(cycling, OneSide(Buy)) == OneAccountCycled(planner, a, input)
  {
    var copy := CyclingAccount(a.accountId, Max(a.baseFree, 0.0), Max(a.quoteFree, 0.0));
    assert [a][..0] == [];
    assert WorkingCopy([a]) == [copy];
    if Gap(input) > 0.0 {
      var hint := NormalizedHint(planner, input.microTaskSizeHint);
      OneAccountCycles(copy, Gap(input), hint, pairs);
      RunUsesVolume([copy], Gap(input), hint, pairs, Buy);
    }
  }

  /** On one account all of the target and all that is cycled is spent from it, so a plan overdraws exactly then. */
  lemma OneAccountPlanOverdraws(planner: TradePlanner, a: AccountSnapshot, input: TradePlanningInput, parts: Parts,
                                side: OrderSide)
    requires a.Usable() && ValidInput(input) && IsPlan(planner, [a], input, parts)
    ensures AnyOverdrawn([a], side, parts.net + parts.cycling)
       <==> Target(input, side) + OneAccountCycled(planner, a, input) > Max(a.Free(side), 0.0)
  {
    var pool, intents := [a], parts.net + parts.cycling;
    assert Spent(pool, side, intents, 0) == Target(input, side) + OneAccountCycled(planner, a, input) by {
      OneAccountCyclesExactly(planner, a, input, parts.cycling, parts.pairs);
      PlanSpentByAll(planner, pool, input, parts, side);
      assert SpentUpTo(pool, side, intents, 1) == SpentUpTo(pool, side, intents, 0) + Spent(pool, side, intents, 0);
    }
    assert AnyOverdrawn(pool, side, intents) <==> Overdrawn(pool, side, intents, 0);
  }

  /** Quote 10 and base 10, to buy 10 out of a total of 30 in slices of 10. */
  predicate IsExample(planner: TradePlanner, a: AccountSnapshot, input: TradePlanningInput) {
    && planner.microTaskFloor == 1.0 && a.Usable() && a.quoteFree == a.baseFree == 10.0 && ValidInput(input)
    && input.targetBuyVolume == 10.0 && input.targetSellVolume == 0.0
    && input.targetTotalVolume == 30.0 && input.microTaskSizeHint == 10.0
  }

  /** One slice of 10 and one pair of 10. */
  function ExampleParts(a: AccountSnapshot): Parts
    requires a.Usable() && a.quoteFree == a.baseFree == 10.0
  {
    ExampleCopy(a);
    var pairs := [Pair(0, 0, 10.0)];
    Parts(NetRendered([a], Buy, [10.0], 0), Rendered(WorkingCopy([a]), pairs), [10.0], [], pairs)
  }

  lemma ExampleCopy(a: AccountSnapshot)
    requires a.Usable() && a.quoteFree == a.baseFree == 10.0
    ensures WorkingCopy([a]) == [CyclingAccount(a.accountId, 10.0, 10.0)]
    ensures AllFundable([a], Buy, [10.0]) && SelectAccount([a], Buy, 10.0) == Some(0)
    ensures InRange(WorkingCopy([a]), [Pair(0, 0, 10.0)])
  {
    assert [a][..0] == [];
    assert [a][0].CanFund(Buy, 10.0);
  }

  lemma ExampleNet(planner: TradePlanner, a: AccountSnapshot, input: TradePlanningInput)
    requires IsExample(planner, a, input)
    ensures var parts := ExampleParts(a); IsNet(planner, [a], input, parts.net, parts.buys, parts.sells)
  {
    ExampleCopy(a);
    assert [10.0][..0] == [];
    assert Sum([10.0]) == 10.0;
    var parts := ExampleParts(a);
    assert parts.net + [] == parts.net;
  }

  lemma ExampleCycling(planner: TradePlanner, a: AccountSnapshot, input: TradePlanningInput)
    requires IsExample(planner, a, input)
    ensures var parts := ExampleParts(a); IsCycling(planner, [a], input, parts.cycling, parts.pairs)
  {
    ExampleCopy(a);
    var start, p := [CyclingAccount(a.accountId, 10.0, 10.0)], Pair(0, 0, 10.0);
    assert Has(start[0], true, true);
    assert GreedyPair(start, 10.0, p);
    assert [p][..0] == [];
    assert After(start, 20.0, []) == State(start, 20.0) && Limit(20.0, 10.0) == 10.0;
    assert GreedyRun(start, 20.0, 10.0, [p]);
    assert After(start, 20.0, [p]).remaining == 0.0;
  }

  /** The slice alone fits and cycling alone fits, but the plan buys 20 on an account that holds 10. */
  lemma PlanOverdrawExample(planner: TradePlanner, a: AccountSnapshot, input: TradePlanningInput)
    requires IsExample(planner, a, input)
    ensures var parts := ExampleParts(a);
            && IsPlan(planner, [a], input, parts)
            && Spent([a], Buy, parts.net, 0) == Spent([a], Buy, parts.cycling, 0) == Holds([a], Buy, 0) == 10.0
            && Spent([a], Buy, parts.net + parts.cycling, 0) == 20.0
  {
    var parts := ExampleParts(a);
    ExampleNet(planner, a, input);
    ExampleCycling(planner, a, input);
    ExampleCopy(a);
    NetPerAccount([a], Buy, [10.0], 0, 0);
    assert [10.0][..0] == [] && parts.pairs[..0] == [];
    var two := PairIntents(WorkingCopy([a]), Pair(0, 0, 10.0), 0);
    TotalOfTwo(two[0], two[1], OneAccount(Buy, a.accountId));
    assert parts.cycling == [] + two && two == [two[0], two[1]];
    TotalOfConcat(parts.net, parts.cycling, OneAccount(Buy, a.accountId));
  }
}
