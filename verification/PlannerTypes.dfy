/** Data of the trade planner, and the sums its laws are about.  Amounts are reals. */
module PlannerTypes {
  import opened Wrappers

  datatype OrderSide = Buy | Sell

  datatype IntentType = NetPosition | VolumeCyclingSelf | VolumeCyclingHedge

  datatype AssetDefinition = AssetDefinition(symbol: string, mint: string, decimals: nat)

  datatype TradePlanningInput = TradePlanningInput(
    targetBuyVolume: real,
    targetSellVolume: real,
    targetTotalVolume: real,
    microTaskSizeHint: real,
    baseAsset: AssetDefinition,
    quoteAsset: AssetDefinition)

  datatype AccountSnapshot = AccountSnapshot(
    accountId: string,
    walletAddress: string,
    accountLabel: string,
    isAvailable: bool,
    hasAnyAssetPairEnabled: bool,
    baseFree: real,
    quoteFree: real)
  {
    /** Balance that funds an order on this side: buys spend quote, sells spend base. */
    function Free(side: OrderSide): real {
      if side == Buy then quoteFree else baseFree
    }

    predicate CanFund(side: OrderSide, required: real) {
      isAvailable && required > 0.0 && Free(side) >= required
    }

    predicate Usable() {
      isAvailable && hasAnyAssetPairEnabled
    }
  }

  /** The parts an intent id is printed from; `Planner.IdText` is the printed id. */
  datatype IntentId = IntentId(tag: string, account: string, number: nat)

  datatype OrderIntent = OrderIntent(
    intentId: IntentId,
    intentType: IntentType,
    side: OrderSide,
    amount: real,
    accountId: string,
    pairedAccountId: Option<string>)

  datatype PlannerError = InvalidInput | AccountPoolUnavailable | InsufficientLiquidity | Unsupported

  datatype TradePlanner = TradePlanner(microTaskFloor: real, maxMicroTasks: nat)

  function Max(a: real, b: real): real { if a >= b then a else b }

  function Min(a: real, b: real): real { if a <= b then a else b }

  function Sum(amounts: seq<real>): real {
    if amounts == [] then 0.0 else Sum(amounts[..|amounts| - 1]) + amounts[|amounts| - 1]
  }

  /** The slice size in force: at least the planner's floor and at least 1. */
  function NormalizedHint(planner: TradePlanner, hint: real): (h: real)
    ensures h >= 1.0 && h >= hint && h >= planner.microTaskFloor
    ensures h in {1.0, hint, planner.microTaskFloor}
  {
    Max(Max(hint, planner.microTaskFloor), 1.0)
  }

  /** Which intents a sum ranges over: all, one side, or one side of one account. */
  datatype Scope = Everything | OneSide(side: OrderSide) | OneAccount(accountSide: OrderSide, accountId: string)

  predicate Covers(scope: Scope, intent: OrderIntent) {
    match scope
    case Everything => true
    case OneSide(side) => intent.side == side
    case OneAccount(side, id) => intent.side == side && intent.accountId == id
  }

  function Total(intents: seq<OrderIntent>, scope: Scope): real {
    if intents == [] then 0.0
    else
      var last := intents[|intents| - 1];
      Total(intents[..|intents| - 1], scope) + (if Covers(scope, last) then last.amount else 0.0)
  }

  lemma TotalOfOneMore(intents: seq<OrderIntent>, x: OrderIntent, scope: Scope)
    ensures Total(intents + [x], scope) == Total(intents, scope) + (if Covers(scope, x) then x.amount else 0.0)
  {
    assert (intents + [x])[..|intents|] == intents;
  }

  lemma TotalOfTwo(x: OrderIntent, y: OrderIntent, scope: Scope)
    ensures Total([x, y], scope)
         == (if Covers(scope, x) then x.amount else 0.0) + (if Covers(scope, y) then y.amount else 0.0)
  {
    assert [x, y] == [] + [x] + [y];
    TotalOfOneMore([], x, scope);
    TotalOfOneMore([] + [x], y, scope);
  }

  lemma {:induction false} TotalOfConcat(a: seq<OrderIntent>, b: seq<OrderIntent>, scope: Scope)
    ensures Total(a + b, scope) == Total(a, scope) + Total(b, scope)
  {
    if b == [] {
      assert a + b == a;
    } else {
      var front, last := b[..|b| - 1], b[|b| - 1];
      assert a + b == (a + front) + [last];
      TotalOfOneMore(a + front, last, scope);
      TotalOfConcat(a, front, scope);
    }
  }

  /** Everything is bought or sold. */
  lemma {:induction false} TotalIsBothSides(intents: seq<OrderIntent>)
    ensures Total(intents, Everything) == Total(intents, OneSide(Buy)) + Total(intents, OneSide(Sell))
  {
    if intents != [] {
      TotalIsBothSides(intents[..|intents| - 1]);
    }
  }
}
