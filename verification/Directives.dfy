/**
  Directives of the strategy actor (rust-backend/src/actor_runtime.rs): how an external trade or a change of
  settings becomes a planning input, and what any plan for that input then looks like.
*/
module Directives {
  import opened Reals
  import opened Wrappers
  import opened PlannerTypes
  import opened Cycling
  import opened Planner

  datatype Objective = Accumulation | Distribution | Shakeout

  /** The stored settings the actor reads; the objective's name is already recognised. */
  datatype SettingsState = SettingsState(
    contractAddress: string,
    volumeTarget: real,
    netBuyinTarget: real,
    macroObjective: Objective,
    triggerThresholdUsd: real,
    minOrderSize: real,
    maxOrderSize: real,
    absorbRatio: real,
    followSellRatio: real,
    dumpRatio: real)

  datatype StrategySettings = StrategySettings(
    contractAddress: string,
    volumeTarget: real,
    netBuyinTarget: real,
    objective: Objective,
    triggerThresholdUsd: real,
    minOrderSize: real,
    maxOrderSize: real,
    absorbRatio: real,
    followSellRatio: real,
    dumpRatio: real)

  const SMALLEST_ORDER := 0.000001

  function Trimmed(s: string): (t: string)
    ensures t == "" <==> forall i :: 0 <= i < |s| ==> IsSpace(s[i])
    ensures t != "" ==> !IsSpace(t[0]) && !IsSpace(t[|t| - 1])
    decreases |s|
  {
    if s == "" then s
    else if IsSpace(s[0]) then Trimmed(s[1..])
    else if IsSpace(s[|s| - 1]) then
      assert !IsSpace(s[..|s| - 1][0]);
      Trimmed(s[..|s| - 1])
    else s
  }

  function FromSettings(s: SettingsState): StrategySettings {
    StrategySettings(
      Trimmed(s.contractAddress),
      Max(s.volumeTarget, 0.0),
      s.netBuyinTarget,
      s.macroObjective,
      Max(s.triggerThresholdUsd, 0.0),
      Max(s.minOrderSize, SMALLEST_ORDER),
      Max(Max(s.maxOrderSize, s.minOrderSize), SMALLEST_ORDER),
      Max(s.absorbRatio, 0.0),
      Max(s.followSellRatio, 0.0),
      Max(s.dumpRatio, 0.0))
  }

  datatype ExternalTrade = ExternalTrade(side: OrderSide, amountUsd: real, contractAddress: string, isLossCut: bool,
                                         execute: bool)

  /** The user's latest execution run, as far as a directive needs it. */
  datatype Run = Run(id: nat, baseAsset: AssetDefinition, quoteAsset: AssetDefinition)

  datatype MacroDirective = MacroDirective(
    runId: nat,
    objective: Objective,
    targetNetPos: real,
    targetVolume: real,
    minOrderSize: real,
    maxOrderSize: real,
    baseAsset: AssetDefinition,
    quoteAsset: AssetDefinition,
    execute: bool)

  function ExternalTarget(s: StrategySettings, e: ExternalTrade): real {
    match s.objective
    case Accumulation => if e.side == Sell then e.amountUsd * s.absorbRatio else 0.0
    case Distribution => if e.side == Buy then -(e.amountUsd * s.followSellRatio) else 0.0
    case Shakeout =>
      if e.isLossCut then e.amountUsd
      else if e.side == Buy then -(e.amountUsd * s.dumpRatio) else 0.0
  }

  function ForExternalTrade(s: StrategySettings, e: ExternalTrade, latest: Option<Run>): Option<MacroDirective> {
    if s.contractAddress != "" && s.contractAddress != e.contractAddress then None
    else if e.amountUsd < s.triggerThresholdUsd then None
    else if latest.None? then None
    else
      var run, target := latest.value, ExternalTarget(s, e);
      if Abs(target) < s.minOrderSize then None
      else Some(MacroDirective(run.id, s.objective, target, Abs(target), s.minOrderSize, s.maxOrderSize,
                               run.baseAsset, run.quoteAsset, e.execute))
  }

  function ForSettingsUpdate(s: StrategySettings, latest: Option<Run>): Option<MacroDirective> {
    if latest.None? then None
    else
      var run, net := latest.value, s.netBuyinTarget;
      var volume := Max(s.volumeTarget, Abs(net));
      if volume <= 0.0 && net == 0.0 then None
      else Some(MacroDirective(run.id, s.objective, net, volume, s.minOrderSize, s.maxOrderSize,
                               run.baseAsset, run.quoteAsset, false))
  }

  function ToPlanningInput(d: MacroDirective): TradePlanningInput {
    var buy, sell := Max(d.targetNetPos, 0.0), Max(-d.targetNetPos, 0.0);
    TradePlanningInput(buy, sell, Max(Max(d.targetVolume, buy + sell), d.minOrderSize),
                       Max(d.maxOrderSize, d.minOrderSize), d.baseAsset, d.quoteAsset)
  }

  /** The planner the database uses. */
  const DEFAULT_PLANNER := TradePlanner(1.0, 256)

  /** The side an objective trades on when it reacts to a trade. */
  function ReactionSide(objective: Objective, e: ExternalTrade): OrderSide {
    match objective
    case Accumulation => Buy
    case Distribution => Sell
    case Shakeout => if e.isLossCut then Buy else Sell
  }

  lemma ProductNonNegative(a: real, b: real)
    requires a >= 0.0 && b >= 0.0
    ensures a * b >= 0.0
  {
  }

  /** Every directive for an external trade has the sign of its reaction and is worth at least one order. */
  lemma ExternalDirectiveTarget(raw: SettingsState, e: ExternalTrade, latest: Option<Run>)
    requires ForExternalTrade(FromSettings(raw), e, latest).Some?
    ensures var d := ForExternalTrade(FromSettings(raw), e, latest).value;
            && d.targetVolume == Abs(d.targetNetPos) >= d.minOrderSize >= SMALLEST_ORDER
            && d.maxOrderSize >= d.minOrderSize
            && (d.targetNetPos > 0.0 <==> ReactionSide(d.objective, e) == Buy)
            && (d.targetNetPos < 0.0 <==> ReactionSide(d.objective, e) == Sell)
  {
    var s := FromSettings(raw);
    ProductNonNegative(e.amountUsd, s.absorbRatio);
    ProductNonNegative(e.amountUsd, s.followSellRatio);
    ProductNonNegative(e.amountUsd, s.dumpRatio);
  }

  /** The actor reacts to the trade: its contract is the active one or none is, it is large enough, and a run exists. */
  predicate Heard(raw: SettingsState, e: ExternalTrade, latest: Option<Run>) {
    && ((forall i :: 0 <= i < |raw.contractAddress| ==> IsSpace(raw.contractAddress[i]))
        || Trimmed(raw.contractAddress) == e.contractAddress)
    && e.amountUsd >= Max(raw.triggerThresholdUsd, 0.0) && latest.Some?
  }

  /** A directive with the given target exactly if the trade is heard and the target worth an order. */
  predicate Aims(raw: SettingsState, e: ExternalTrade, latest: Option<Run>, target: real) {
    var directive, least := ForExternalTrade(FromSettings(raw), e, latest), Max(raw.minOrderSize, 0.000001);
    && (directive.Some? <==> Heard(raw, e, latest) && Abs(target) >= least)
    && (directive.Some? ==>
          directive.value
          == MacroDirective(latest.value.id, raw.macroObjective, target, Abs(target), least,
                            Max(Max(raw.maxOrderSize, raw.minOrderSize), 0.000001),
                            latest.value.baseAsset, latest.value.quoteAsset, e.execute))
  }

  lemma AimsAtTarget(raw: SettingsState, e: ExternalTrade, latest: Option<Run>, target: real)
    requires target == ExternalTarget(FromSettings(raw), e)
    ensures Aims(raw, e, latest, target)
  {
  }

  /**
    The position each objective takes on an external trade, on the stored settings.  Accumulation buys a share of what
    others sell, distribution sells a share of what others buy, a shakeout buys as much as a loss cut and sells a
    share of other buys.
  */
  function Reaction(raw: SettingsState, e: ExternalTrade): real {
    if raw.macroObjective == Accumulation && e.side == Sell then e.amountUsd * Max(raw.absorbRatio, 0.0)
    else if raw.macroObjective == Distribution && e.side == Buy then -(e.amountUsd * Max(raw.followSellRatio, 0.0))
    else if raw.macroObjective == Shakeout && e.isLossCut then e.amountUsd
    else if raw.macroObjective == Shakeout && e.side == Buy then -(e.amountUsd * Max(raw.dumpRatio, 0.0))
    else 0.0
  }

  lemma TargetIsReaction(raw: SettingsState, e: ExternalTrade)
    ensures ExternalTarget(FromSettings(raw), e) == Reaction(raw, e)
  {
  }

  /** A trade that is heard makes a directive for exactly that position, if it is worth an order. */
  lemma ExternalTargets(raw: SettingsState, e: ExternalTrade, latest: Option<Run>)
    ensures Aims(raw, e, latest, Reaction(raw, e))
  {
    TargetIsReaction(raw, e);
    AimsAtTarget(raw, e, latest, Reaction(raw, e));
  }

  /** The planning input of an external directive is numerically valid and leaves nothing to cycle. */
  lemma ExternalInput(raw: SettingsState, e: ExternalTrade, latest: Option<Run>)
    requires ForExternalTrade(FromSettings(raw), e, latest).Some?
    ensures var d := ForExternalTrade(FromSettings(raw), e, latest).value;
            var input := ToPlanningInput(d);
            && ValidTargets(input.targetBuyVolume, input.targetSellVolume, input.targetTotalVolume)
            && Gap(input) == 0.0 && input.targetTotalVolume == Abs(d.targetNetPos)
            && input.microTaskSizeHint == d.maxOrderSize
            && input.baseAsset == latest.value.baseAsset && input.quoteAsset == latest.value.quoteAsset
            && (if ReactionSide(d.objective, e) == Buy
                then input.targetSellVolume == 0.0 && input.targetBuyVolume == Abs(d.targetNetPos)
                else input.targetBuyVolume == 0.0 && input.targetSellVolume == Abs(d.targetNetPos))
  {
    ExternalDirectiveTarget(raw, e, latest);
  }

  /** All intents take a position on one side, in slices of at most `most`. */
  ghost predicate OneSided(intents: seq<OrderIntent>, side: OrderSide, most: real) {
    forall k :: 0 <= k < |intents| ==>
      && intents[k].intentType == NetPosition && intents[k].side == side
      && 0.0 < intents[k].amount <= most
  }

  lemma NetOneSided(pool: seq<AccountSnapshot>, side: OrderSide, slices: seq<real>, target: real, hint: real, n: nat)
    requires hint >= 1.0 && IsSlicing(slices, target, hint) && AllFundable(pool, side, slices)
    ensures OneSided(NetRendered(pool, side, slices, n), side, hint)
  {
    NetIntents(pool, side, slices, n);
    if target > 0.0 {
      LargestSlice(slices, target, hint);
    }
    forall k | 0 <= k < |slices|
      ensures var intent := NetRendered(pool, side, slices, n)[k];
              intent.intentType == NetPosition && intent.side == side && 0.0 < intent.amount <= hint {
      assert NetIntent(pool, side, slices[k], NetRendered(pool, side, slices, n)[k]);
    }
  }

  /**
    A plan for an external directive is one-sided: only net-position intents, on the side of the reaction,
    worth exactly the directive's target, in slices of at most max(1, max order size), and no cycling.
  */
  lemma ExternalPlanIsOneSided(raw: SettingsState, e: ExternalTrade, latest: Option<Run>, pool: seq<AccountSnapshot>,
                               parts: Parts)
    requires ForExternalTrade(FromSettings(raw), e, latest).Some?
    requires var d := ForExternalTrade(FromSettings(raw), e, latest).value;
             ValidInput(ToPlanningInput(d)) && IsPlan(TradePlanner(1.0, 256), pool, ToPlanningInput(d), parts)
    ensures var d := ForExternalTrade(FromSettings(raw), e, latest).value;
            && parts.cycling == []
            && OneSided(parts.net, ReactionSide(d.objective, e), Max(1.0, d.maxOrderSize))
            && Total(parts.net, Everything) == Abs(d.targetNetPos)
  {
    var d := ForExternalTrade(FromSettings(raw), e, latest).value;
    var input := ToPlanningInput(d);
    ExternalInput(raw, e, latest);
    var hint := NormalizedHint(DEFAULT_PLANNER, input.microTaskSizeHint);
    NetPlanned(DEFAULT_PLANNER, pool, input, parts.net, parts.buys, parts.sells);
    if ReactionSide(d.objective, e) == Buy {
      assert parts.sells == [];
      NetOneSided(pool, Buy, parts.buys, input.targetBuyVolume, hint, 0);
    } else {
      assert parts.buys == [];
      NetOneSided(pool, Sell, parts.sells, input.targetSellVolume, hint, |parts.buys|);
    }
  }

  /**
    A plan for a settings directive nets to the requested position exactly and reaches the larger of the
    volume target, the position and one order, up to the tolerance.
  */
  lemma SettingsPlan(raw: SettingsState, latest: Option<Run>, pool: seq<AccountSnapshot>, parts: Parts)
    requires ForSettingsUpdate(FromSettings(raw), latest).Some?
    requires var input := ToPlanningInput(ForSettingsUpdate(FromSettings(raw), latest).value);
             ValidInput(input) && IsPlan(TradePlanner(1.0, 256), pool, input, parts)
    ensures var intents := parts.net + parts.cycling;
            var position, order := Abs(raw.netBuyinTarget), Max(raw.minOrderSize, 0.000001);
            var volume := Max(Max(Max(raw.volumeTarget, 0.0), position), order);
            && Total(intents, OneSide(Buy)) - Total(intents, OneSide(Sell)) == raw.netBuyinTarget
            && volume - 0.000001 <= Total(intents, Everything) <= volume
  {
    PlanConserves(DEFAULT_PLANNER, pool, ToPlanningInput(ForSettingsUpdate(FromSettings(raw), latest).value), parts);
  }

  /**
    A change of settings makes a directive exactly if there is a run and something to do, and never one that asks for a
    numerically invalid plan or executes it at once.
  */
  lemma SettingsInputValid(raw: SettingsState, latest: Option<Run>)
    ensures ForSettingsUpdate(FromSettings(raw), latest).Some? <==>
              latest.Some? && (raw.volumeTarget > 0.0 || raw.netBuyinTarget != 0.0)
    ensures ForSettingsUpdate(FromSettings(raw), latest).Some? ==>
              var d := ForSettingsUpdate(FromSettings(raw), latest).value;
              var input := ToPlanningInput(d);
              && !d.execute && d.runId == latest.value.id
              && ValidTargets(input.targetBuyVolume, input.targetSellVolume, input.targetTotalVolume)
              && input.targetTotalVolume > 0.0
              && input.microTaskSizeHint == Max(Max(raw.maxOrderSize, raw.minOrderSize), 0.000001)
              && input.baseAsset == latest.value.baseAsset && input.quoteAsset == latest.value.quoteAsset
  {
  }
}
