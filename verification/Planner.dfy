/** The trade planner (rust-backend/src/planner.rs): validation, slicing, account selection and the whole plan. */
module Planner {
  import opened Wrappers
  import opened PlannerTypes
  import opened Decimal
  import opened Cycling
  import opened Pools

  // ---------------------------------------------------------------- input validation

  /** White space as the standard library's `trim` strips it. */
  predicate IsSpace(c: char) {
    var u := c as int;
    9 <= u <= 13 || u == 0x20 || u == 0x85 || u == 0xa0 || u == 0x1680 || 0x2000 <= u <= 0x200a
    || u in {0x2028, 0x2029, 0x202f, 0x205f, 0x3000}
  }

  /** That is 25 code points. */
  lemma SpaceCodePoints(c: char)
    ensures IsSpace(c) <==>
              c as int in {0x09, 0x0a, 0x0b, 0x0c, 0x0d, 0x20, 0x85, 0xa0, 0x1680, 0x2000, 0x2001, 0x2002, 0x2003,
                           0x2004, 0x2005, 0x2006, 0x2007, 0x2008, 0x2009, 0x200a, 0x2028, 0x2029, 0x202f, 0x205f,
                           0x3000}
  {
  }

  predicate IsBlank(s: string) {
    forall i :: 0 <= i < |s| ==> IsSpace(s[i])
  }

  predicate ValidTargets(buy: real, sell: real, total: real) {
    buy >= 0.0 && sell >= 0.0 && total >= 0.0 && total >= buy + sell
  }

  predicate ValidInput(input: TradePlanningInput) {
    && ValidTargets(input.targetBuyVolume, input.targetSellVolume, input.targetTotalVolume)
    && !IsBlank(input.baseAsset.symbol) && !IsBlank(input.quoteAsset.symbol)
    && !IsBlank(input.baseAsset.mint) && !IsBlank(input.quoteAsset.mint)
  }

  // ---------------------------------------------------------------- slicing

  /** A target cut into full slices and one last slice that may be smaller. */
  ghost predicate IsSlicing(slices: seq<real>, target: real, hint: real) {
    if target <= 0.0 then slices == []
    else
      && slices != [] && Sum(slices) == target
      && (forall i :: 0 <= i < |slices| - 1 ==> slices[i] == hint)
      && 0.0 < slices[|slices| - 1] <= hint
  }

  lemma {:induction false} SumOfFull(slices: seq<real>, hint: real)
    requires forall i :: 0 <= i < |slices| ==> slices[i] == hint
    ensures Sum(slices) == Times(|slices|, hint)
  {
    if slices != [] {
      SumOfFull(slices[..|slices| - 1], hint);
    }
  }

  lemma {:induction false} TimesMonotone(m: nat, n: nat, x: real)
    requires m <= n && x >= 0.0
    ensures Times(m, x) <= Times(n, x)
  {
    if m < n {
      TimesMonotone(m, n - 1, x);
    }
  }

  lemma SumOneMore(slices: seq<real>, x: real)
    ensures Sum(slices + [x]) == Sum(slices) + x
  {
    assert (slices + [x])[..|slices|] == slices;
  }

  /** Slicing succeeds exactly when the target fits into the allowed number of full slices. */
  method SliceTargetVolume(planner: TradePlanner, target: real, sizeHint: real)
    returns (r: Result<seq<real>, PlannerError>)
    ensures r.Failure? ==> r == Failure(Unsupported)
    ensures r.Success? <==>
              (target <= 0.0 || target <= MostVolume(planner, NormalizedHint(planner, sizeHint)))
    ensures r.Success? ==> IsSlicing(r.value, target, NormalizedHint(planner, sizeHint))
    ensures r.Success? ==> |r.value| <= planner.maxMicroTasks
  {
    if target <= 0.0 {
      return Success([]);
    }
    var hint := NormalizedHint(planner, sizeHint);
    var remaining := target;
    var slices: seq<real> := [];
    while remaining > 0.0 && |slices| < planner.maxMicroTasks
      invariant 0.0 <= remaining && Sum(slices) + remaining == target
      invariant |slices| <= planner.maxMicroTasks
      invariant remaining > 0.0 ==> forall i :: 0 <= i < |slices| ==> slices[i] == hint
      invariant remaining == 0.0 ==> IsSlicing(slices, target, hint)
      decreases planner.maxMicroTasks - |slices|
    {
      var next := Min(remaining, hint);
      SumOneMore(slices, next);
      slices := slices + [next];
      remaining := remaining - next;
    }
    var most := planner.maxMicroTasks;
    assert Times(most, hint) == MostVolume(planner, hint) by { TimesIsProduct(most, hint); }
    if remaining > 0.0 {
      assert Sum(slices) == Times(most, hint) by { SumOfFull(slices, hint); }
      return Failure(Unsupported);
    }
    assert target <= Times(most, hint) by {
      SlicingBound(slices, target, hint);
      TimesMonotone(|slices|, most, hint);
    }
    r := Success(slices);
  }

  lemma SlicingBound(slices: seq<real>, target: real, hint: real)
    requires target > 0.0 && hint >= 1.0 && IsSlicing(slices, target, hint)
    ensures target <= Times(|slices|, hint)
    ensures target > Times(|slices| - 1, hint)
  {
    SumOfFull(slices[..|slices| - 1], hint);
  }

  /** A target has only one slicing. */
  lemma SlicingUnique(a: seq<real>, b: seq<real>, target: real, hint: real)
    requires hint >= 1.0 && IsSlicing(a, target, hint) && IsSlicing(b, target, hint)
    ensures a == b
  {
    if target > 0.0 {
      SlicingBound(a, target, hint);
      SlicingBound(b, target, hint);
      if |a| < |b| { TimesMonotone(|a|, |b| - 1, hint); }
      if |b| < |a| { TimesMonotone(|b|, |a| - 1, hint); }
      SumOfFull(a[..|a| - 1], hint);
      SumOfFull(b[..|b| - 1], hint);
    }
  }

  /** The largest slice is the smaller of target and hint, and it comes first. */
  lemma LargestSlice(slices: seq<real>, target: real, hint: real)
    requires target > 0.0 && hint >= 1.0 && IsSlicing(slices, target, hint)
    ensures slices[0] == Min(target, hint)
    ensures forall i :: 0 <= i < |slices| ==> 0.0 < slices[i] <= slices[0]
  {
    SlicingBound(slices, target, hint);
    if |slices| == 1 {
      assert Sum(slices) == Sum(slices[..0]) + slices[0];
    } else {
      TimesMonotone(1, |slices| - 1, hint);
      assert Times(1, hint) == Times(0, hint) + hint;
    }
  }

  // ---------------------------------------------------------------- account selection

  predicate NoFunder(pool: seq<AccountSnapshot>, side: OrderSide, amount: real, n: nat)
    requires n <= |pool|
  {
    forall j :: 0 <= j < n ==> !pool[j].CanFund(side, amount)
  }

  predicate IsFirstFunder(pool: seq<AccountSnapshot>, side: OrderSide, amount: real, i: nat) {
    i < |pool| && pool[i].CanFund(side, amount) && NoFunder(pool, side, amount, i)
  }

  function SelectFrom(pool: seq<AccountSnapshot>, side: OrderSide, amount: real, i: nat): (r: Option<nat>)
    requires i <= |pool| && NoFunder(pool, side, amount, i)
    ensures r.Some? ==> IsFirstFunder(pool, side, amount, r.value)
    ensures r.None? ==> NoFunder(pool, side, amount, |pool|)
    decreases |pool| - i
  {
    if i == |pool| then None
    else if pool[i].CanFund(side, amount) then Some(i)
    else SelectFrom(pool, side, amount, i + 1)
  }

  /** The first account of the pool that can fund the amount. */
  function SelectAccount(pool: seq<AccountSnapshot>, side: OrderSide, amount: real): (r: Option<nat>)
    ensures r.Some? ==> IsFirstFunder(pool, side, amount, r.value)
    ensures r.None? ==> NoFunder(pool, side, amount, |pool|)
  {
    SelectFrom(pool, side, amount, 0)
  }

  function NetTag(side: OrderSide): string {
    if side == Buy then "net-buy-" else "net-sell-"
  }

  predicate AllFundable(pool: seq<AccountSnapshot>, side: OrderSide, slices: seq<real>) {
    forall k :: 0 <= k < |slices| ==> SelectAccount(pool, side, slices[k]).Some?
  }

  function NetIntentFor(pool: seq<AccountSnapshot>, side: OrderSide, amount: real, number: nat): OrderIntent
    requires SelectAccount(pool, side, amount).Some?
  {
    var id := pool[SelectAccount(pool, side, amount).value].accountId;
    OrderIntent(IntentId(NetTag(side), id, number), NetPosition, side, amount, id, None)
  }

  /** One net-position intent per slice, each on the first account that can fund it; `n` intents come before. */
  function NetRendered(pool: seq<AccountSnapshot>, side: OrderSide, slices: seq<real>, n: nat): (r: seq<OrderIntent>)
    requires AllFundable(pool, side, slices)
    ensures |r| == |slices|
  {
    if slices == [] then []
    else
      var k := |slices| - 1;
      NetRendered(pool, side, slices[..k], n) + [NetIntentFor(pool, side, slices[k], n + k + 1)]
  }

  lemma NetOneMore(pool: seq<AccountSnapshot>, side: OrderSide, slices: seq<real>, k: nat, n: nat)
    requires k < |slices| && AllFundable(pool, side, slices[..k]) && SelectAccount(pool, side, slices[k]).Some?
    ensures AllFundable(pool, side, slices[..k + 1])
    ensures NetRendered(pool, side, slices[..k + 1], n)
         == NetRendered(pool, side, slices[..k], n) + [NetIntentFor(pool, side, slices[k], n + k + 1)]
  {
    var more := slices[..k + 1];
    assert more[..k] == slices[..k] && more[k] == slices[k];
    forall j | 0 <= j < |more| ensures SelectAccount(pool, side, more[j]).Some? {
      if j < k { assert more[j] == slices[..k][j]; }
    }
  }

  method BuildNetIntents(pool: seq<AccountSnapshot>, side: OrderSide, slices: seq<real>, before: seq<OrderIntent>)
    returns (r: Result<seq<OrderIntent>, PlannerError>)
    ensures r.Success? <==> AllFundable(pool, side, slices)
    ensures r.Success? ==> r.value == before + NetRendered(pool, side, slices, |before|)
    ensures r.Failure? ==> r == Failure(InsufficientLiquidity)
  {
    var intents := before;
    for k := 0 to |slices|
      invariant AllFundable(pool, side, slices[..k])
      invariant intents == before + NetRendered(pool, side, slices[..k], |before|)
    {
      if SelectAccount(pool, side, slices[k]).None? {
        return Failure(InsufficientLiquidity);
      }
      NetOneMore(pool, side, slices, k, |before|);
      intents := intents + [NetIntentFor(pool, side, slices[k], |intents| + 1)];
    }
    assert slices[..|slices|] == slices;
    r := Success(intents);
  }

  lemma {:induction false} NetTotal(pool: seq<AccountSnapshot>, side: OrderSide, slices: seq<real>, n: nat,
                                    scope: Scope)
    requires AllFundable(pool, side, slices) && !scope.OneAccount?
    ensures Total(NetRendered(pool, side, slices, n), scope)
         == if scope == Everything || scope == OneSide(side) then Sum(slices) else 0.0
  {
    if slices != [] {
      NetTotal(pool, side, slices[..|slices| - 1], n, scope);
    }
  }

  /** An intent of the net position: full data, and its account could fund it from the whole pool. */
  ghost predicate NetIntent(pool: seq<AccountSnapshot>, side: OrderSide, amount: real, intent: OrderIntent) {
    && intent.intentType == NetPosition && intent.side == side && intent.amount == amount
    && intent.pairedAccountId == None
    && exists j: nat :: IsFirstFunder(pool, side, amount, j) && pool[j].accountId == intent.accountId
  }

  lemma {:induction false} NetIntents(pool: seq<AccountSnapshot>, side: OrderSide, slices: seq<real>, n: nat)
    requires AllFundable(pool, side, slices)
    ensures forall k :: 0 <= k < |slices| ==> NetIntent(pool, side, slices[k], NetRendered(pool, side, slices, n)[k])
    ensures forall k :: 0 <= k < |slices| ==>
              var intent := NetRendered(pool, side, slices, n)[k];
              intent.intentId
              == IntentId(if side == Buy then "net-buy-" else "net-sell-", intent.accountId, n + k + 1)
  {
    if slices != [] {
      NetIntents(pool, side, slices[..|slices| - 1], n);
    }
  }

  // ---------------------------------------------------------------- the whole plan

  function Gap(input: TradePlanningInput): real {
    input.targetTotalVolume - (input.targetBuyVolume + input.targetSellVolume)
  }

  /** One account can fund the largest slice of a side's target. */
  predicate SideFundable(pool: seq<AccountSnapshot>, side: OrderSide, target: real, hint: real) {
    target <= 0.0 || exists j :: 0 <= j < |pool| && pool[j].CanFund(side, Min(target, hint))
  }

  lemma SlicesFundable(pool: seq<AccountSnapshot>, side: OrderSide, slices: seq<real>, target: real, hint: real)
    requires hint >= 1.0 && IsSlicing(slices, target, hint)
    ensures AllFundable(pool, side, slices) <==> SideFundable(pool, side, target, hint)
  {
    if target > 0.0 {
      LargestSlice(slices, target, hint);
      if AllFundable(pool, side, slices) {
        var j := SelectAccount(pool, side, slices[0]).value;
        assert pool[j].CanFund(side, Min(target, hint));
      }
      if j :| 0 <= j < |pool| && pool[j].CanFund(side, Min(target, hint)) {
        forall k | 0 <= k < |slices| ensures SelectAccount(pool, side, slices[k]).Some? {
          assert pool[j].CanFund(side, slices[k]);
        }
      }
    }
  }

  function MostVolume(planner: TradePlanner, hint: real): real {
    planner.maxMicroTasks as real * hint
  }

  /** Both targets can be sliced within the guardrail. */
  predicate SlicesFit(planner: TradePlanner, input: TradePlanningInput) {
    var most := MostVolume(planner, NormalizedHint(planner, input.microTaskSizeHint));
    && (input.targetBuyVolume <= 0.0 || input.targetBuyVolume <= most)
    && (input.targetSellVolume <= 0.0 || input.targetSellVolume <= most)
  }

  /** The net position can be sliced within the guardrail and every slice can be funded by some account. */
  predicate NetFeasible(planner: TradePlanner, pool: seq<AccountSnapshot>, input: TradePlanningInput) {
    var hint := NormalizedHint(planner, input.microTaskSizeHint);
    && SlicesFit(planner, input)
    && SideFundable(pool, Buy, input.targetBuyVolume, hint)
    && SideFundable(pool, Sell, input.targetSellVolume, hint)
  }

  /** What a caller can check beforehand: the pool can carry every part of the plan. */
  predicate Feasible(planner: TradePlanner, pool: seq<AccountSnapshot>, input: TradePlanningInput) {
    && pool != [] && NetFeasible(planner, pool, input)
    && (Gap(input) > 0.0 ==> Suffices(WorkingCopy(pool), Gap(input)))
  }

  /** The bound on the number of cycling pairs fits the task-count guardrail. */
  predicate GuardrailClear(planner: TradePlanner, pool: seq<AccountSnapshot>, input: TradePlanningInput) {
    Gap(input) > 0.0 ==>
      2 * PairBound(WorkingCopy(pool), Gap(input), NormalizedHint(planner, input.microTaskSizeHint))
        <= planner.maxMicroTasks
  }

  ghost predicate IsNet(planner: TradePlanner, pool: seq<AccountSnapshot>, input: TradePlanningInput,
                        intents: seq<OrderIntent>, buys: seq<real>, sells: seq<real>) {
    var hint := NormalizedHint(planner, input.microTaskSizeHint);
    && IsSlicing(buys, input.targetBuyVolume, hint) && IsSlicing(sells, input.targetSellVolume, hint)
    && AllFundable(pool, Buy, buys) && AllFundable(pool, Sell, sells)
    && intents == NetRendered(pool, Buy, buys, 0) + NetRendered(pool, Sell, sells, |buys|)
  }

  ghost predicate IsCycling(planner: TradePlanner, pool: seq<AccountSnapshot>, input: TradePlanningInput,
                            intents: seq<OrderIntent>, pairs: seq<Pair>) {
    var start := WorkingCopy(pool);
    && InRange(start, pairs) && intents == Rendered(start, pairs)
    && (if Gap(input) > 0.0
        then GreedyRun(start, Gap(input), NormalizedHint(planner, input.microTaskSizeHint), pairs)
             && Finished(After(start, Gap(input), pairs))
        else pairs == [])
  }

  /** The parts a plan is made of: the net position's slices, then the cycling pairs. */
  datatype Parts = Parts(net: seq<OrderIntent>, cycling: seq<OrderIntent>, buys: seq<real>, sells: seq<real>,
                         pairs: seq<Pair>)

  ghost predicate IsPlan(planner: TradePlanner, pool: seq<AccountSnapshot>, input: TradePlanningInput, parts: Parts) {
    && IsNet(planner, pool, input, parts.net, parts.buys, parts.sells)
    && IsCycling(planner, pool, input, parts.cycling, parts.pairs)
  }

  /** A plan is what pool, targets and hint make it: the rules leave no freedom. */
  lemma PlanUnique(planner: TradePlanner, pool: seq<AccountSnapshot>, input: TradePlanningInput, p: Parts, q: Parts)
    requires IsPlan(planner, pool, input, p) && IsPlan(planner, pool, input, q)
    ensures p == q
  {
    NetUnique(planner, pool, input, p, q);
    if Gap(input) > 0.0 {
      var hint := NormalizedHint(planner, input.microTaskSizeHint);
      GreedyRunUnique(WorkingCopy(pool), Gap(input), hint, p.pairs, q.pairs);
    }
  }

  lemma NetUnique(planner: TradePlanner, pool: seq<AccountSnapshot>, input: TradePlanningInput, p: Parts, q: Parts)
    requires IsNet(planner, pool, input, p.net, p.buys, p.sells) && IsNet(planner, pool, input, q.net, q.buys, q.sells)
    ensures p.net == q.net && p.buys == q.buys && p.sells == q.sells
  {
    var hint := NormalizedHint(planner, input.microTaskSizeHint);
    SlicingUnique(p.buys, q.buys, input.targetBuyVolume, hint);
    SlicingUnique(p.sells, q.sells, input.targetSellVolume, hint);
  }

  /**
    Conservation: a plan's net position is exactly the requested one, and its total volume is the target
    total up to the tolerance.
  */
  lemma PlanConserves(planner: TradePlanner, pool: seq<AccountSnapshot>, input: TradePlanningInput, parts: Parts)
    requires ValidInput(input) && IsPlan(planner, pool, input, parts)
    ensures var intents := parts.net + parts.cycling;
            && Total(intents, OneSide(Buy)) - Total(intents, OneSide(Sell))
               == input.targetBuyVolume - input.targetSellVolume
            && input.targetTotalVolume - 0.000001 <= Total(intents, Everything) <= input.targetTotalVolume
  {
    TotalOfConcat(parts.net, parts.cycling, OneSide(Buy));
    TotalOfConcat(parts.net, parts.cycling, OneSide(Sell));
    NetTotals(planner, pool, input, parts.net, parts.buys, parts.sells, Buy);
    NetTotals(planner, pool, input, parts.net, parts.buys, parts.sells, Sell);
    TotalIsBothSides(parts.net + parts.cycling);
    CyclingTotals(planner, pool, input, parts.cycling, parts.pairs);
  }

  lemma SumIsTarget(slices: seq<real>, target: real, hint: real)
    requires target >= 0.0 && IsSlicing(slices, target, hint)
    ensures Sum(slices) == target
  {
  }

  lemma NetTotals(planner: TradePlanner, pool: seq<AccountSnapshot>, input: TradePlanningInput,
                  net: seq<OrderIntent>, buys: seq<real>, sells: seq<real>, side: OrderSide)
    requires ValidInput(input) && IsNet(planner, pool, input, net, buys, sells)
    ensures Total(net, OneSide(side)) == if side == Buy then input.targetBuyVolume else input.targetSellVolume
  {
    var hint := NormalizedHint(planner, input.microTaskSizeHint);
    TotalOfConcat(NetRendered(pool, Buy, buys, 0), NetRendered(pool, Sell, sells, |buys|), OneSide(side));
    NetTotal(pool, Buy, buys, 0, OneSide(side));
    NetTotal(pool, Sell, sells, |buys|, OneSide(side));
    SumIsTarget(buys, input.targetBuyVolume, hint);
    SumIsTarget(sells, input.targetSellVolume, hint);
  }

  lemma CyclingTotals(planner: TradePlanner, pool: seq<AccountSnapshot>, input: TradePlanningInput,
                      cycling: seq<OrderIntent>, pairs: seq<Pair>)
    requires ValidInput(input) && IsCycling(planner, pool, input, cycling, pairs)
    ensures Total(cycling, OneSide(Buy)) == Total(cycling, OneSide(Sell))
    ensures Gap(input) - EPSILON <= Total(cycling, OneSide(Buy)) + Total(cycling, OneSide(Sell)) <= Gap(input)
  {
    if Gap(input) > 0.0 {
      var hint := NormalizedHint(planner, input.microTaskSizeHint);
      RunStaysInRange(WorkingCopy(pool), Gap(input), hint, pairs);
      RunUsesVolume(WorkingCopy(pool), Gap(input), hint, pairs, Buy);
      RunUsesVolume(WorkingCopy(pool), Gap(input), hint, pairs, Sell);
    }
  }

  // ---------------------------------------------------------------- in terms of the provider's pool

  /** A usable entry with enough of what the side spends: quote for a buy, base for a sell. */
  predicate CanPay(a: AccountSnapshot, side: OrderSide, amount: real) {
    && a.isAvailable && a.hasAnyAssetPairEnabled
    && 0.0 < amount <= if side == Buy then a.quoteFree else a.baseFree
  }

  /** The first entry of a pool that covers the amount. */
  predicate IsFirstUsableFunder(pool: seq<AccountSnapshot>, side: OrderSide, amount: real, i: nat) {
    i < |pool| && CanPay(pool[i], side, amount) && forall j :: 0 <= j < i ==> !CanPay(pool[j], side, amount)
  }

  ghost predicate OnFirstFunder(pool: seq<AccountSnapshot>, intent: OrderIntent) {
    exists i: nat :: IsFirstUsableFunder(pool, intent.side, intent.amount, i) && pool[i].accountId == intent.accountId
  }

  /** The first funder among the available entries is the first usable funder of the pool they come from. */
  lemma FunderOfProvider(pool: seq<AccountSnapshot>, side: OrderSide, amount: real, k: nat)
    requires IsFirstFunder(AvailablePool(pool), side, amount, k)
    ensures k < |UsablePositions(pool)|
    ensures IsFirstUsableFunder(pool, side, amount, UsablePositions(pool)[k])
    ensures pool[UsablePositions(pool)[k]] == AvailablePool(pool)[k]
  {
    var kept, ps := AvailablePool(pool), UsablePositions(pool);
    AvailableSelects(pool);
    assert ps[k] in ps && kept[k] == pool[ps[k]];
    forall j | 0 <= j < ps[k] ensures !CanPay(pool[j], side, amount) {
      if pool[j].Usable() {
        var l :| 0 <= l < |ps| && ps[l] == j;
        PositionsInOrder(pool, k, l);
        assert kept[l] == pool[j];
      }
    }
  }

  lemma NetOnFirstFunders(pool: seq<AccountSnapshot>, side: OrderSide, slices: seq<real>, n: nat)
    requires AllFundable(AvailablePool(pool), side, slices)
    ensures forall k :: 0 <= k < |slices| ==> OnFirstFunder(pool, NetRendered(AvailablePool(pool), side, slices, n)[k])
  {
    var available := AvailablePool(pool);
    NetIntents(available, side, slices, n);
    forall k | 0 <= k < |slices| ensures OnFirstFunder(pool, NetRendered(available, side, slices, n)[k]) {
      var intent := NetRendered(available, side, slices, n)[k];
      assert NetIntent(available, side, slices[k], intent);
      var j: nat :| IsFirstFunder(available, side, slices[k], j) && available[j].accountId == intent.accountId;
      FunderOfProvider(pool, side, slices[k], j);
    }
  }

  /** Cycling spends on each account of the pool at most what it holds, and nothing if it is not usable. */
  ghost predicate CyclingWithin(pool: seq<AccountSnapshot>, cycling: seq<OrderIntent>) {
    forall side, j: nat :: j < |pool| ==>
      Total(cycling, OneAccount(side, pool[j].accountId))
        <= Spendable(pool[j], side)
  }

  lemma CyclingWithinOne(planner: TradePlanner, pool: seq<AccountSnapshot>, input: TradePlanningInput,
                         cycling: seq<OrderIntent>, pairs: seq<Pair>, side: OrderSide, j: nat)
    requires DistinctIds(pool) && j < |pool| && IsCycling(planner, AvailablePool(pool), input, cycling, pairs)
    ensures Total(cycling, OneAccount(side, pool[j].accountId))
         <= Spendable(pool[j], side)
  {
    var start, hint := WorkingCopy(AvailablePool(pool)), NormalizedHint(planner, input.microTaskSizeHint);
    HeldByProviderEntry(pool, side, j);
    WorkingCopyOf(AvailablePool(pool));
    if Gap(input) > 0.0 {
      NeverOverdraws(start, Gap(input), hint, pairs, side, pool[j].accountId);
    }
  }

  /** The net position's intents are on first usable funders, and with distinct ids cycling overdraws no account. */
  lemma PlanOnProvider(planner: TradePlanner, pool: seq<AccountSnapshot>, input: TradePlanningInput, parts: Parts)
    requires IsPlan(planner, AvailablePool(pool), input, parts)
    ensures PlansOn(pool, parts)
  {
    NetOnFirstFunders(pool, Buy, parts.buys, 0);
    NetOnFirstFunders(pool, Sell, parts.sells, |parts.buys|);
    if DistinctIds(pool) {
      forall side, j: nat | j < |pool|
        ensures Total(parts.cycling, OneAccount(side, pool[j].accountId))
             <= Spendable(pool[j], side) {
        CyclingWithinOne(planner, pool, input, parts.cycling, parts.pairs, side, j);
      }
    }
  }

  ghost predicate PlansOn(pool: seq<AccountSnapshot>, parts: Parts) {
    && (forall k :: 0 <= k < |parts.net| ==> OnFirstFunder(pool, parts.net[k]))
    && (DistinctIds(pool) ==> CyclingWithin(pool, parts.cycling))
  }

  /** The target fits into the allowed number of slices, and some entry covers the largest slice. */
  predicate SideFeasibleOn(planner: TradePlanner, pool: seq<AccountSnapshot>, side: OrderSide, target: real,
                           hint: real) {
    target <= 0.0
    || (target <= planner.maxMicroTasks as real * hint
        && exists i :: 0 <= i < |pool| && CanPay(pool[i], side, Min(target, hint)))
  }

  /** Feasibility on the available entries, read off the provider's pool. */
  predicate FeasibleOn(planner: TradePlanner, pool: seq<AccountSnapshot>, input: TradePlanningInput) {
    var hint := NormalizedHint(planner, input.microTaskSizeHint);
    && (exists i :: 0 <= i < |pool| && pool[i].isAvailable && pool[i].hasAnyAssetPairEnabled)
    && SideFeasibleOn(planner, pool, Buy, input.targetBuyVolume, hint)
    && SideFeasibleOn(planner, pool, Sell, input.targetSellVolume, hint)
    && (Gap(input) > 0.0 ==>
          Min(UsableTotal(pool, Buy), UsableTotal(pool, Sell)) >= (Gap(input) - 0.000001) / 2.0)
  }

  lemma SideFundableOn(pool: seq<AccountSnapshot>, side: OrderSide, target: real, hint: real)
    requires hint >= 1.0
    ensures SideFundable(AvailablePool(pool), side, target, hint)
       <==> target <= 0.0 || exists i :: 0 <= i < |pool| && CanPay(pool[i], side, Min(target, hint))
  {
    var kept := AvailablePool(pool);
    if target > 0.0 {
      if j :| 0 <= j < |kept| && kept[j].CanFund(side, Min(target, hint)) {
        assert kept[j] in pool;
        var i :| 0 <= i < |pool| && pool[i] == kept[j];
        assert CanPay(pool[i], side, Min(target, hint));
      }
      if i :| 0 <= i < |pool| && CanPay(pool[i], side, Min(target, hint)) {
        assert pool[i] in kept;
        var j :| 0 <= j < |kept| && kept[j] == pool[i];
        assert kept[j].CanFund(side, Min(target, hint));
      }
    }
  }

  lemma SideFeasible(planner: TradePlanner, pool: seq<AccountSnapshot>, side: OrderSide, target: real, hint: real)
    requires hint >= 1.0
    ensures SideFeasibleOn(planner, pool, side, target, hint)
       <==> (target <= 0.0 || target <= MostVolume(planner, hint))
            && SideFundable(AvailablePool(pool), side, target, hint)
  {
    SideFundableOn(pool, side, target, hint);
  }

  lemma AvailableSome(pool: seq<AccountSnapshot>)
    ensures AvailablePool(pool) != []
       <==> exists i :: 0 <= i < |pool| && pool[i].isAvailable && pool[i].hasAnyAssetPairEnabled
  {
    var kept := AvailablePool(pool);
    if i :| 0 <= i < |pool| && pool[i].Usable() { assert pool[i] in kept; }
    if kept != [] {
      assert kept[0] in kept;
      var i :| 0 <= i < |pool| && pool[i] == kept[0];
      assert pool[i].isAvailable;
    }
  }

  lemma FeasibleOnProvider(planner: TradePlanner, pool: seq<AccountSnapshot>, input: TradePlanningInput)
    ensures Feasible(planner, AvailablePool(pool), input) <==> FeasibleOn(planner, pool, input)
  {
    var hint := NormalizedHint(planner, input.microTaskSizeHint);
    AvailableSome(pool);
    SideFeasible(planner, pool, Buy, input.targetBuyVolume, hint);
    SideFeasible(planner, pool, Sell, input.targetSellVolume, hint);
    AvailableCopy(pool);
    CopyHolds(pool, Buy);
    CopyHolds(pool, Sell);
  }

  /** A target that the allowed number of slices cannot carry. */
  predicate TooLarge(planner: TradePlanner, input: TradePlanningInput) {
    var most := planner.maxMicroTasks as real * NormalizedHint(planner, input.microTaskSizeHint);
    || (input.targetBuyVolume > 0.0 && input.targetBuyVolume > most)
    || (input.targetSellVolume > 0.0 && input.targetSellVolume > most)
  }

  lemma TooLargeDoesNotFit(planner: TradePlanner, input: TradePlanningInput)
    ensures TooLarge(planner, input) <==> !SlicesFit(planner, input)
  {
  }

  /** A negative target, targets that do not fit together, or an asset without symbol or mint. */
  predicate Refused(input: TradePlanningInput) {
    || input.targetBuyVolume < 0.0 || input.targetSellVolume < 0.0 || input.targetTotalVolume < 0.0
    || input.targetTotalVolume < input.targetBuyVolume + input.targetSellVolume
    || IsBlank(input.baseAsset.symbol) || IsBlank(input.quoteAsset.symbol)
    || IsBlank(input.baseAsset.mint) || IsBlank(input.quoteAsset.mint)
  }

  /**
    The whole plan.  `provider` is what loading the account pool gave.  Success is decided by `Feasible`
    unless the guardrail cuts the cycling short; the ghost result is what the plan is made of.
  */
  method GeneratePlan(planner: TradePlanner, provider: Result<seq<AccountSnapshot>, PlannerError>,
                      input: TradePlanningInput)
    returns (r: Result<seq<OrderIntent>, PlannerError>, ghost parts: Parts)
    ensures Refused(input) ==> r == Failure(InvalidInput)
    ensures !Refused(input) && provider.Failure? ==> r == Failure(provider.error)
    ensures !Refused(input) && provider.Success? ==>
              var pool := AvailablePool(provider.value);
              && (pool == [] ==> r == Failure(AccountPoolUnavailable))
              && (pool != [] && !NetFeasible(planner, pool, input) ==>
                    r == Failure(if TooLarge(planner, input) then Unsupported else InsufficientLiquidity))
              && (r.Success? ==> IsPlan(planner, pool, input, parts) && r.value == parts.net + parts.cycling)
              && (r.Success? ==> Feasible(planner, pool, input))
              && (Feasible(planner, pool, input) ==> r.Success? || r == Failure(Unsupported))
              && (GuardrailClear(planner, pool, input) && Feasible(planner, pool, input) ==> r.Success?)
    ensures !Refused(input) && provider.Success? ==>
              && (r.Success? ==> FeasibleOn(planner, provider.value, input) && PlansOn(provider.value, parts))
              && (FeasibleOn(planner, provider.value, input) ==> r.Success? || r == Failure(Unsupported))
              && (r.Failure? ==> r.error in {AccountPoolUnavailable, Unsupported, InsufficientLiquidity})
  {
    parts := Parts([], [], [], [], []);
    if !ValidInput(input) {
      return Failure(InvalidInput), parts;
    }
    if provider.Failure? {
      return Failure(provider.error), parts;
    }
    var pool := AvailablePool(provider.value);
    FeasibleOnProvider(planner, provider.value, input);
    TooLargeDoesNotFit(planner, input);
    if |pool| == 0 {
      return Failure(AccountPoolUnavailable), parts;
    }
    ghost var buys, sells, pairs;
    var net, cycling;
    net, buys, sells := PlanNetPosition(planner, pool, input);
    if net.Failure? {
      return net, parts;
    }
    NetPlanned(planner, pool, input, net.value, buys, sells);
    cycling, pairs := PlanCycling(planner, pool, input, Total(net.value, Everything));
    if cycling.Failure? {
      return cycling, parts;
    }
    parts := Parts(net.value, cycling.value, buys, sells, pairs);
    PlanOnProvider(planner, provider.value, input, parts);
    r := Success(net.value + cycling.value);
  }

  /** The rest of the volume target, if the net position leaves any. */
  method PlanCycling(planner: TradePlanner, pool: seq<AccountSnapshot>, input: TradePlanningInput, planned: real)
    returns (r: Result<seq<OrderIntent>, PlannerError>, ghost pairs: seq<Pair>)
    requires pool != [] && planned == input.targetBuyVolume + input.targetSellVolume
    ensures r.Success? ==> IsCycling(planner, pool, input, r.value, pairs)
    ensures r.Success? ==> (Gap(input) > 0.0 ==> Suffices(WorkingCopy(pool), Gap(input)))
    ensures (Gap(input) > 0.0 ==> Suffices(WorkingCopy(pool), Gap(input))) ==> r.Success? || r == Failure(Unsupported)
    ensures GuardrailClear(planner, pool, input) ==> r != Failure(Unsupported)
    ensures r.Failure? ==> r.error in {Unsupported, InsufficientLiquidity}
  {
    pairs := [];
    r := Success([]);
    if planned < input.targetTotalVolume {
      var gap := input.targetTotalVolume - planned;
      assert gap == Gap(input);
      r, pairs := BuildVolumeCyclingIntents(planner, pool, gap, input.microTaskSizeHint);
    }
  }

  /** The net position's part of the plan: both targets are sliced before any account is looked for. */
  method PlanNetPosition(planner: TradePlanner, pool: seq<AccountSnapshot>, input: TradePlanningInput)
    returns (r: Result<seq<OrderIntent>, PlannerError>, ghost buys: seq<real>, ghost sells: seq<real>)
    ensures r.Success? <==> NetFeasible(planner, pool, input)
    ensures r.Success? ==> IsNet(planner, pool, input, r.value, buys, sells)
    ensures r.Failure? ==> r == Failure(if SlicesFit(planner, input) then InsufficientLiquidity else Unsupported)
  {
    buys, sells := [], [];
    var hint := NormalizedHint(planner, input.microTaskSizeHint);
    var buySlices := SliceTargetVolume(planner, input.targetBuyVolume, input.microTaskSizeHint);
    if buySlices.Failure? {
      return Failure(buySlices.error), buys, sells;
    }
    var sellSlices := SliceTargetVolume(planner, input.targetSellVolume, input.microTaskSizeHint);
    if sellSlices.Failure? {
      return Failure(sellSlices.error), buys, sells;
    }
    buys, sells := buySlices.value, sellSlices.value;
    SlicesFundable(pool, Buy, buys, input.targetBuyVolume, hint);
    SlicesFundable(pool, Sell, sells, input.targetSellVolume, hint);
    var bought := BuildNetIntents(pool, Buy, buySlices.value, []);
    if bought.Failure? {
      return bought, buys, sells;
    }
    assert bought.value == NetRendered(pool, Buy, buys, 0);
    r := BuildNetIntents(pool, Sell, sellSlices.value, bought.value);
  }

  lemma NetPlanned(planner: TradePlanner, pool: seq<AccountSnapshot>, input: TradePlanningInput,
                   net: seq<OrderIntent>, buys: seq<real>, sells: seq<real>)
    requires ValidInput(input) && IsNet(planner, pool, input, net, buys, sells)
    ensures Total(net, Everything) == input.targetBuyVolume + input.targetSellVolume
  {
    TotalIsBothSides(net);
    NetTotals(planner, pool, input, net, buys, sells, Buy);
    NetTotals(planner, pool, input, net, buys, sells, Sell);
  }

  // ---------------------------------------------------------------- intent ids

  function IdText(id: IntentId): string {
    id.tag + id.account + "-" + Show(id.number)
  }

  /** Of two splits of one text at a dash, the one with the longer tail has a dash in it. */
  lemma DashInside(a: string, tail: string, b: string, shorter: string)
    requires a + "-" + tail == b + "-" + shorter && |tail| > |shorter|
    ensures '-' in tail
  {
    var text := a + "-" + tail;
    assert text[|b|] == '-';
    assert tail[|b| - |a| - 1] == text[|b|];
  }

  /** Equal texts end in the same number. */
  lemma SameTextSameNumber(x: IntentId, y: IntentId)
    requires IdText(x) == IdText(y)
    ensures x.number == y.number
  {
    var m, n := Show(x.number), Show(y.number);
    if |m| > |n| { DashInside(x.tag + x.account, m, y.tag + y.account, n); }
    if |n| > |m| { DashInside(y.tag + y.account, n, x.tag + x.account, m); }
    var text := IdText(x);
    assert m == text[|text| - |m|..] == n;
    ShowInjective(x.number, y.number);
  }

  /** With the same tag, the same text means the same id. */
  lemma IdTextInjective(x: IntentId, y: IntentId)
    requires x.tag == y.tag && IdText(x) == IdText(y)
    ensures x == y
  {
    SameTextSameNumber(x, y);
    var text, n := IdText(x), |Show(x.number)| + 1;
    assert x.account == text[|x.tag|..|text| - n];
    assert y.account == IdText(y)[|y.tag|..|IdText(y)| - n];
  }

  lemma SameTextSameStart(x: IntentId, y: IntentId)
    requires x.tag != "" && y.tag != "" && IdText(x) == IdText(y)
    ensures x.tag[0] == y.tag[0]
  {
    assert IdText(x)[0] == x.tag[0] && IdText(y)[0] == y.tag[0];
  }

  /** Intents number n + 1, n + 2, ... whose tags all start with the same letter. */
  predicate Numbered(intents: seq<OrderIntent>, first: char, n: nat) {
    forall k :: 0 <= k < |intents| ==>
      var id := intents[k].intentId;
      id.number == n + k + 1 && id.tag != "" && id.tag[0] == first
  }

  lemma {:induction false} NetNumbered(pool: seq<AccountSnapshot>, side: OrderSide, slices: seq<real>, n: nat)
    requires AllFundable(pool, side, slices)
    ensures Numbered(NetRendered(pool, side, slices, n), 'n', n)
  {
    if slices != [] {
      NetNumbered(pool, side, slices[..|slices| - 1], n);
    }
  }

  lemma {:induction false} CyclingNumbered(start: seq<CyclingAccount>, pairs: seq<Pair>)
    requires InRange(start, pairs)
    ensures Numbered(Rendered(start, pairs), 'c', 0)
  {
    if pairs != [] {
      CyclingNumbered(start, pairs[..|pairs| - 1]);
    }
  }

  /** No two intents of a plan share a printed id, although cycling counts from one again. */
  lemma IntentIdsDistinct(planner: TradePlanner, pool: seq<AccountSnapshot>, input: TradePlanningInput, parts: Parts,
                          i: nat, j: nat)
    requires IsPlan(planner, pool, input, parts)
    requires i < j < |parts.net + parts.cycling|
    ensures IdText((parts.net + parts.cycling)[i].intentId) != IdText((parts.net + parts.cycling)[j].intentId)
  {
    NetNumbered(pool, Buy, parts.buys, 0);
    NetNumbered(pool, Sell, parts.sells, |parts.buys|);
    assert Numbered(parts.net, 'n', 0);
    CyclingNumbered(WorkingCopy(pool), parts.pairs);
    var x, y := (parts.net + parts.cycling)[i].intentId, (parts.net + parts.cycling)[j].intentId;
    if IdText(x) == IdText(y) {
      SameTextSameNumber(x, y);
      SameTextSameStart(x, y);
      assert false;
    }
  }
}
