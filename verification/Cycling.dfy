/**
  Volume cycling (rust-backend/src/planner.rs, build_volume_cycling_intents): balanced buy/sell pairs that
  use up a volume gap while drawing down a mutable copy of the account balances.
*/
module Cycling {
  import opened Wrappers
  import opened PlannerTypes

  /** The working copy of one account's balances. */
  datatype CyclingAccount = CyclingAccount(accountId: string, baseFree: real, quoteFree: real) {
    function Free(side: OrderSide): real {
      if side == Buy then quoteFree else baseFree
    }
  }

  /** One pair: the buying entry, the selling entry and the common amount. */
  datatype Pair = Pair(buyer: nat, seller: nat, amount: real)

  const EPSILON := 0.000001

  function WorkingCopy(pool: seq<AccountSnapshot>): (accounts: seq<CyclingAccount>)
    ensures forall i, side :: 0 <= i < |accounts| ==> accounts[i].Free(side) >= 0.0
  {
    if pool == [] then []
    else
      var rest := WorkingCopy(pool[..|pool| - 1]);
      var last := pool[|pool| - 1];
      if last.Usable()
      then rest + [CyclingAccount(last.accountId, Max(last.baseFree, 0.0), Max(last.quoteFree, 0.0))]
      else rest
  }

  // ---------------------------------------------------------------- held balances

  /** Total balance that can fund a side, over all entries or over the entries of one account id. */
  function Held(accounts: seq<CyclingAccount>, side: OrderSide, id: Option<string>): real {
    if accounts == [] then 0.0
    else
      var last := accounts[|accounts| - 1];
      Held(accounts[..|accounts| - 1], side, id)
      + (if id.None? || last.accountId == id.value then last.Free(side) else 0.0)
  }

  function ScopeOf(side: OrderSide, id: Option<string>): Scope {
    if id.None? then OneSide(side) else OneAccount(side, id.value)
  }

  lemma {:induction false} HeldAfterUpdate(accounts: seq<CyclingAccount>, i: nat, a: CyclingAccount, side: OrderSide,
                                           id: Option<string>)
    requires i < |accounts| && a.accountId == accounts[i].accountId
    ensures Held(accounts[i := a], side, id) == Held(accounts, side, id)
         + (if id.None? || a.accountId == id.value then a.Free(side) - accounts[i].Free(side) else 0.0)
  {
    var n := |accounts| - 1;
    if i == n {
      assert accounts[i := a][..n] == accounts[..n];
    } else {
      assert accounts[i := a][..n] == accounts[..n][i := a];
      HeldAfterUpdate(accounts[..n], i, a, side, id);
    }
  }

  lemma {:induction false} HeldNonNegative(accounts: seq<CyclingAccount>, side: OrderSide, id: Option<string>)
    requires forall i :: 0 <= i < |accounts| ==> accounts[i].Free(side) >= 0.0
    ensures Held(accounts, side, id) >= 0.0
  {
    if accounts != [] {
      HeldNonNegative(accounts[..|accounts| - 1], side, id);
    }
  }

  /** No entry can fund the side: nothing is held. */
  lemma {:induction false} HeldNothing(accounts: seq<CyclingAccount>, side: OrderSide)
    requires forall i :: 0 <= i < |accounts| ==> accounts[i].Free(side) == 0.0
    ensures Held(accounts, side, None) == 0.0
  {
    if accounts != [] {
      HeldNothing(accounts[..|accounts| - 1], side);
    }
  }

  /** Number of balances that are still positive; an account counts once per asset. */
  function PositiveBalances(accounts: seq<CyclingAccount>): nat {
    if accounts == [] then 0
    else
      var last := accounts[|accounts| - 1];
      PositiveBalances(accounts[..|accounts| - 1])
      + (if last.baseFree > 0.0 then 1 else 0) + (if last.quoteFree > 0.0 then 1 else 0)
  }

  lemma {:induction false} PositiveAfterUpdate(accounts: seq<CyclingAccount>, i: nat, a: CyclingAccount)
    requires i < |accounts|
    ensures PositiveBalances(accounts[i := a]) == PositiveBalances(accounts)
         + (if a.baseFree > 0.0 then 1 else 0) + (if a.quoteFree > 0.0 then 1 else 0)
         - (if accounts[i].baseFree > 0.0 then 1 else 0) - (if accounts[i].quoteFree > 0.0 then 1 else 0)
  {
    var n := |accounts| - 1;
    if i == n {
      assert accounts[i := a][..n] == accounts[..n];
    } else {
      assert accounts[i := a][..n] == accounts[..n][i := a];
      PositiveAfterUpdate(accounts[..n], i, a);
    }
  }

  // ---------------------------------------------------------------- the greedy rule

  /** Taking an amount from the balance that funds one side. */
  function Spend(accounts: seq<CyclingAccount>, side: OrderSide, i: nat, amount: real): (r: seq<CyclingAccount>)
    requires i < |accounts|
    ensures |r| == |accounts| && r[i].accountId == accounts[i].accountId
    ensures r[i].Free(side) == accounts[i].Free(side) - amount
    ensures forall other :: other != side ==> r[i].Free(other) == accounts[i].Free(other)
    ensures forall j :: 0 <= j < |accounts| && j != i ==> r[j] == accounts[j]
  {
    var a := accounts[i];
    accounts[i := if side == Buy then a.(quoteFree := a.quoteFree - amount) else a.(baseFree := a.baseFree - amount)]
  }

  /** Taking a pair's amount from the buyer's quote and from the seller's base. */
  function Draw(accounts: seq<CyclingAccount>, p: Pair): (r: seq<CyclingAccount>)
    requires p.buyer < |accounts| && p.seller < |accounts|
    ensures |r| == |accounts|
  {
    Spend(Spend(accounts, Buy, p.buyer, p.amount), Sell, p.seller, p.amount)
  }

  predicate Has(a: CyclingAccount, quote: bool, base: bool) {
    (quote ==> a.quoteFree > 0.0) && (base ==> a.baseFree > 0.0)
  }

  /** i is the first entry with the wanted balances. */
  predicate IsFirst(accounts: seq<CyclingAccount>, i: nat, quote: bool, base: bool) {
    i < |accounts| && Has(accounts[i], quote, base) && forall j :: 0 <= j < i ==> !Has(accounts[j], quote, base)
  }

  predicate NoneHas(accounts: seq<CyclingAccount>, quote: bool, base: bool) {
    forall j :: 0 <= j < |accounts| ==> !Has(accounts[j], quote, base)
  }

  /**
    The pair the planner must choose: the first entry holding both assets cycles with itself; only when
    there is none does the first quote holder buy from the first base holder.  The amount is the largest
    one within the limit that both balances allow.
  */
  predicate GreedyPair(accounts: seq<CyclingAccount>, limit: real, p: Pair) {
    && p.buyer < |accounts| && p.seller < |accounts|
    && (if NoneHas(accounts, true, true)
        then IsFirst(accounts, p.buyer, true, false) && IsFirst(accounts, p.seller, false, true)
        else p.buyer == p.seller && IsFirst(accounts, p.buyer, true, true))
    && p.amount == Min(Min(limit, accounts[p.buyer].quoteFree), accounts[p.seller].baseFree)
  }

  datatype State = State(accounts: seq<CyclingAccount>, remaining: real)

  function Limit(remaining: real, hint: real): real { Min(remaining / 2.0, hint) }

  /** Balances and volume left after a list of pairs. */
  ghost function After(accounts: seq<CyclingAccount>, gap: real, pairs: seq<Pair>): (s: State)
    ensures |s.accounts| == |accounts|
  {
    if pairs == [] then State(accounts, gap)
    else
      var s := After(accounts, gap, pairs[..|pairs| - 1]);
      var p := pairs[|pairs| - 1];
      if p.buyer < |accounts| && p.seller < |accounts|
      then State(Draw(s.accounts, p), Max(s.remaining - p.amount * 2.0, 0.0)) else s
  }

  /** Every pair is the greedy choice at its turn, made while volume is left. */
  ghost predicate GreedyRun(accounts: seq<CyclingAccount>, gap: real, hint: real, pairs: seq<Pair>) {
    pairs != [] ==>
      var front := pairs[..|pairs| - 1];
      var s := After(accounts, gap, front);
      && GreedyRun(accounts, gap, hint, front)
      && s.remaining > EPSILON
      && GreedyPair(s.accounts, Limit(s.remaining, hint), pairs[|pairs| - 1])
  }

  lemma GreedyPairUnique(accounts: seq<CyclingAccount>, limit: real, p: Pair, q: Pair)
    requires GreedyPair(accounts, limit, p) && GreedyPair(accounts, limit, q)
    ensures p == q
  {
  }

  lemma {:induction false} GreedyPrefix(accounts: seq<CyclingAccount>, gap: real, hint: real, pairs: seq<Pair>, k: nat)
    requires GreedyRun(accounts, gap, hint, pairs) && k < |pairs|
    ensures GreedyRun(accounts, gap, hint, pairs[..k])
    ensures After(accounts, gap, pairs[..k]).remaining > EPSILON
    ensures GreedyPair(After(accounts, gap, pairs[..k]).accounts,
                       Limit(After(accounts, gap, pairs[..k]).remaining, hint), pairs[k])
  {
    if k < |pairs| - 1 {
      var front := pairs[..|pairs| - 1];
      GreedyPrefix(accounts, gap, hint, front, k);
      assert front[..k] == pairs[..k] && front[k] == pairs[k];
    }
  }

  lemma NextPairAgrees(accounts: seq<CyclingAccount>, gap: real, hint: real, p: seq<Pair>, q: seq<Pair>, k: nat)
    requires GreedyRun(accounts, gap, hint, p) && GreedyRun(accounts, gap, hint, q)
    requires k < |p| && k < |q| && p[..k] == q[..k]
    ensures p[k] == q[k]
  {
    GreedyPrefix(accounts, gap, hint, p, k);
    GreedyPrefix(accounts, gap, hint, q, k);
    var s := After(accounts, gap, p[..k]);
    GreedyPairUnique(s.accounts, Limit(s.remaining, hint), p[k], q[k]);
  }

  /** The rule leaves no freedom: of two greedy runs one is a prefix of the other. */
  lemma {:induction false} GreedyRunsAgree(accounts: seq<CyclingAccount>, gap: real, hint: real, p: seq<Pair>,
                                           q: seq<Pair>, k: nat)
    requires GreedyRun(accounts, gap, hint, p) && GreedyRun(accounts, gap, hint, q)
    requires k <= |p| && k <= |q|
    ensures p[..k] == q[..k]
  {
    if k > 0 {
      GreedyRunsAgree(accounts, gap, hint, p, q, k - 1);
      NextPairAgrees(accounts, gap, hint, p, q, k - 1);
      assert p[..k] == p[..k - 1] + [p[k - 1]];
      assert q[..k] == q[..k - 1] + [q[k - 1]];
    }
  }

  /** Nothing more can be paired: no entry can buy or no entry can sell. */
  ghost predicate Stuck(s: State) {
    s.remaining > EPSILON && (NoneHas(s.accounts, true, false) || NoneHas(s.accounts, false, true))
  }

  ghost predicate Finished(s: State) {
    s.remaining <= EPSILON
  }

  /**
    A run that has come to an end is the only one: two greedy runs of which each is finished or stuck are
    equal, so the planner's answer is a function of the balances, the gap and the hint.
  */
  lemma GreedyRunUnique(accounts: seq<CyclingAccount>, gap: real, hint: real, p: seq<Pair>, q: seq<Pair>)
    requires GreedyRun(accounts, gap, hint, p) && GreedyRun(accounts, gap, hint, q)
    requires var s := After(accounts, gap, p); Finished(s) || Stuck(s)
    requires var s := After(accounts, gap, q); Finished(s) || Stuck(s)
    ensures p == q
  {
    EndedIsNotLonger(accounts, gap, hint, p, q);
    EndedIsNotLonger(accounts, gap, hint, q, p);
    GreedyRunsAgree(accounts, gap, hint, p, q, |p|);
    assert p[..|p|] == p && q[..|p|] == q;
  }

  lemma EndedIsNotLonger(accounts: seq<CyclingAccount>, gap: real, hint: real, ended: seq<Pair>, other: seq<Pair>)
    requires GreedyRun(accounts, gap, hint, ended) && GreedyRun(accounts, gap, hint, other)
    requires var s := After(accounts, gap, ended); Finished(s) || Stuck(s)
    ensures |other| <= |ended|
  {
    if |ended| < |other| {
      GreedyRunsAgree(accounts, gap, hint, ended, other, |ended|);
      assert other[..|ended|] == ended[..|ended|] == ended;
      GreedyPrefix(accounts, gap, hint, other, |ended|);
    }
  }

  // ---------------------------------------------------------------- intents

  /** The buy and the sell that one pair becomes; `n` intents come before them. */
  function PairIntents(accounts: seq<CyclingAccount>, p: Pair, n: nat): seq<OrderIntent>
    requires p.buyer < |accounts| && p.seller < |accounts|
  {
    var buyer, seller := accounts[p.buyer].accountId, accounts[p.seller].accountId;
    if p.buyer == p.seller then
      [OrderIntent(IntentId("cycle-self-buy-", buyer, n + 1), VolumeCyclingSelf, Buy, p.amount, buyer, Some(buyer)),
       OrderIntent(IntentId("cycle-self-sell-", buyer, n + 2), VolumeCyclingSelf, Sell, p.amount, buyer, None)]
    else
      [OrderIntent(IntentId("cycle-hedge-buy-", buyer, n + 1), VolumeCyclingHedge, Buy, p.amount, buyer, Some(seller)),
       OrderIntent(IntentId("cycle-hedge-sell-", seller, n + 2), VolumeCyclingHedge, Sell, p.amount, seller, None)]
  }

  predicate InRange(accounts: seq<CyclingAccount>, pairs: seq<Pair>) {
    forall k :: 0 <= k < |pairs| ==> pairs[k].buyer < |accounts| && pairs[k].seller < |accounts|
  }

  /** Adjacent buy/sell intents, pair by pair. */
  function Rendered(accounts: seq<CyclingAccount>, pairs: seq<Pair>): (intents: seq<OrderIntent>)
    requires InRange(accounts, pairs)
    ensures |intents| == 2 * |pairs|
  {
    if pairs == [] then []
    else
      var n := |pairs| - 1;
      Rendered(accounts, pairs[..n]) + PairIntents(accounts, pairs[n], 2 * n)
  }

  // ---------------------------------------------------------------- one pair's effect

  predicate NonNegative(accounts: seq<CyclingAccount>) {
    forall i, side :: 0 <= i < |accounts| ==> accounts[i].Free(side) >= 0.0
  }

  predicate SameIds(accounts: seq<CyclingAccount>, start: seq<CyclingAccount>) {
    |accounts| == |start| && forall i :: 0 <= i < |start| ==> accounts[i].accountId == start[i].accountId
  }

  predicate Concerns(side: OrderSide, id: Option<string>, spentSide: OrderSide, spentId: string) {
    side == spentSide && (id.None? || id.value == spentId)
  }

  lemma SpendHeld(accounts: seq<CyclingAccount>, spent: OrderSide, i: nat, amount: real, side: OrderSide,
                  id: Option<string>)
    requires i < |accounts|
    ensures Held(Spend(accounts, spent, i, amount), side, id)
         == Held(accounts, side, id) - (if Concerns(side, id, spent, accounts[i].accountId) then amount else 0.0)
  {
    HeldAfterUpdate(accounts, i, Spend(accounts, spent, i, amount)[i], side, id);
    assert Spend(accounts, spent, i, amount) == accounts[i := Spend(accounts, spent, i, amount)[i]];
  }

  lemma PairTotal(accounts: seq<CyclingAccount>, p: Pair, n: nat, side: OrderSide, id: Option<string>)
    requires p.buyer < |accounts| && p.seller < |accounts|
    ensures Total(PairIntents(accounts, p, n), ScopeOf(side, id))
         == (if Concerns(side, id, Buy, accounts[p.buyer].accountId) then p.amount else 0.0)
          + (if Concerns(side, id, Sell, accounts[p.seller].accountId) then p.amount else 0.0)
  {
    var two := PairIntents(accounts, p, n);
    TotalOfTwo(two[0], two[1], ScopeOf(side, id));
  }

  /** What is drawn from an account is what its intents spend, on either side. */
  lemma PairConserves(accounts: seq<CyclingAccount>, start: seq<CyclingAccount>, p: Pair, n: nat, side: OrderSide,
                      id: Option<string>)
    requires SameIds(accounts, start)
    requires p.buyer < |accounts| && p.seller < |accounts|
    ensures Held(Draw(accounts, p), side, id) + Total(PairIntents(start, p, n), ScopeOf(side, id))
         == Held(accounts, side, id)
  {
    var bought := Spend(accounts, Buy, p.buyer, p.amount);
    SpendHeld(accounts, Buy, p.buyer, p.amount, side, id);
    SpendHeld(bought, Sell, p.seller, p.amount, side, id);
    assert bought[p.seller].accountId == start[p.seller].accountId;
    PairTotal(start, p, n, side, id);
  }

  lemma SpendPositive(accounts: seq<CyclingAccount>, side: OrderSide, i: nat, amount: real)
    requires i < |accounts| && 0.0 < amount <= accounts[i].Free(side)
    ensures PositiveBalances(Spend(accounts, side, i, amount))
         == PositiveBalances(accounts) - (if amount == accounts[i].Free(side) then 1 else 0)
  {
    var r := Spend(accounts, side, i, amount);
    PositiveAfterUpdate(accounts, i, r[i]);
    assert r == accounts[i := r[i]];
  }

  lemma SpendNonNegative(accounts: seq<CyclingAccount>, side: OrderSide, i: nat, amount: real)
    requires NonNegative(accounts) && i < |accounts| && amount <= accounts[i].Free(side)
    ensures NonNegative(Spend(accounts, side, i, amount)) && SameIds(Spend(accounts, side, i, amount), accounts)
  {
    var r := Spend(accounts, side, i, amount);
    forall j, other | 0 <= j < |r| ensures r[j].Free(other) >= 0.0 {
      assert accounts[j].Free(other) >= 0.0;
    }
  }

  /** The chosen entries hold what is taken: a positive amount, which empties one balance unless it is the limit. */
  lemma GreedyPairAmount(accounts: seq<CyclingAccount>, limit: real, p: Pair)
    requires limit > 0.0 && GreedyPair(accounts, limit, p)
    ensures 0.0 < p.amount <= limit
    ensures p.amount <= accounts[p.buyer].Free(Buy) && p.amount <= accounts[p.seller].Free(Sell)
    ensures p.amount in {limit, accounts[p.buyer].Free(Buy), accounts[p.seller].Free(Sell)}
  {
    assert Has(accounts[p.buyer], true, false) && Has(accounts[p.seller], false, true);
  }

  /** A greedy pair keeps balances non-negative, and empties one unless its amount is the limit. */
  lemma GreedyPairEffect(accounts: seq<CyclingAccount>, limit: real, p: Pair)
    requires NonNegative(accounts) && limit > 0.0 && GreedyPair(accounts, limit, p)
    ensures 0.0 < p.amount <= limit
    ensures NonNegative(Draw(accounts, p)) && SameIds(Draw(accounts, p), accounts)
    ensures PositiveBalances(Draw(accounts, p)) <= PositiveBalances(accounts)
    ensures p.amount == limit || PositiveBalances(Draw(accounts, p)) < PositiveBalances(accounts)
  {
    GreedyPairAmount(accounts, limit, p);
    var bought := Spend(accounts, Buy, p.buyer, p.amount);
    SpendPositive(accounts, Buy, p.buyer, p.amount);
    SpendNonNegative(accounts, Buy, p.buyer, p.amount);
    assert bought[p.seller].Free(Sell) == accounts[p.seller].Free(Sell);
    SpendPositive(bought, Sell, p.seller, p.amount);
    SpendNonNegative(bought, Sell, p.seller, p.amount);
  }

  /** No entry can fund one side while volume is left: that side's total is zero. */
  lemma StuckHoldsNothing(s: State)
    requires NonNegative(s.accounts) && Stuck(s)
    ensures Held(s.accounts, Buy, None) == 0.0 || Held(s.accounts, Sell, None) == 0.0
  {
    if NoneHas(s.accounts, true, false) {
      forall i | 0 <= i < |s.accounts| ensures s.accounts[i].Free(Buy) == 0.0 {
        assert !Has(s.accounts[i], true, false);
        assert s.accounts[i].Free(Buy) >= 0.0;
      }
      HeldNothing(s.accounts, Buy);
    } else {
      forall i | 0 <= i < |s.accounts| ensures s.accounts[i].Free(Sell) == 0.0 {
        assert !Has(s.accounts[i], false, true);
        assert s.accounts[i].Free(Sell) >= 0.0;
      }
      HeldNothing(s.accounts, Sell);
    }
  }

  // ---------------------------------------------------------------- invariants of every greedy run

  lemma {:induction false} RunInRange(accounts: seq<CyclingAccount>, gap: real, hint: real, pairs: seq<Pair>)
    requires GreedyRun(accounts, gap, hint, pairs)
    ensures InRange(accounts, pairs)
  {
    if pairs != [] {
      RunInRange(accounts, gap, hint, pairs[..|pairs| - 1]);
    }
  }

  /** The state after one greedy pair. */
  lemma StepStaysInRange(s: State, hint: real, p: Pair)
    requires NonNegative(s.accounts) && hint >= 1.0 && s.remaining > EPSILON
    requires GreedyPair(s.accounts, Limit(s.remaining, hint), p)
    ensures 0.0 < p.amount <= Limit(s.remaining, hint)
    ensures NonNegative(Draw(s.accounts, p)) && SameIds(Draw(s.accounts, p), s.accounts)
    ensures 0.0 <= s.remaining - p.amount * 2.0 <= s.remaining
    ensures Max(s.remaining - p.amount * 2.0, 0.0) == s.remaining - p.amount * 2.0
  {
    GreedyPairEffect(s.accounts, Limit(s.remaining, hint), p);
  }

  /** Balances never go negative and the volume left stays between zero and the gap. */
  lemma {:induction false} RunStaysInRange(accounts: seq<CyclingAccount>, gap: real, hint: real, pairs: seq<Pair>)
    requires NonNegative(accounts) && hint >= 1.0 && gap >= 0.0
    requires GreedyRun(accounts, gap, hint, pairs)
    ensures var s := After(accounts, gap, pairs);
            NonNegative(s.accounts) && SameIds(s.accounts, accounts) && 0.0 <= s.remaining <= gap
  {
    if pairs != [] {
      var front := pairs[..|pairs| - 1];
      RunStaysInRange(accounts, gap, hint, front);
      StepStaysInRange(After(accounts, gap, front), hint, pairs[|pairs| - 1]);
    }
  }

  /** Conservation: on either side, for all accounts together and for each id, held plus spent is what was held. */
  lemma {:induction false} RunConserves(accounts: seq<CyclingAccount>, gap: real, hint: real, pairs: seq<Pair>,
                                        side: OrderSide, id: Option<string>)
    requires NonNegative(accounts) && hint >= 1.0 && gap >= 0.0
    requires GreedyRun(accounts, gap, hint, pairs) && InRange(accounts, pairs)
    ensures Held(After(accounts, gap, pairs).accounts, side, id) + Total(Rendered(accounts, pairs), ScopeOf(side, id))
         == Held(accounts, side, id)
  {
    if pairs != [] {
      var n := |pairs| - 1;
      var front := pairs[..n];
      RunStaysInRange(accounts, gap, hint, front);
      RunConserves(accounts, gap, hint, front, side, id);
      PairConserves(After(accounts, gap, front).accounts, accounts, pairs[n], 2 * n, side, id);
      TotalOfConcat(Rendered(accounts, front), PairIntents(accounts, pairs[n], 2 * n), ScopeOf(side, id));
    }
  }

  /** The volume books: each side carries half of the volume used up. */
  lemma {:induction false} RunUsesVolume(accounts: seq<CyclingAccount>, gap: real, hint: real, pairs: seq<Pair>,
                                         side: OrderSide)
    requires NonNegative(accounts) && hint >= 1.0 && gap >= 0.0
    requires GreedyRun(accounts, gap, hint, pairs) && InRange(accounts, pairs)
    ensures Total(Rendered(accounts, pairs), OneSide(side)) * 2.0 == gap - After(accounts, gap, pairs).remaining
  {
    if pairs != [] {
      var n := |pairs| - 1;
      var front := pairs[..n];
      RunStaysInRange(accounts, gap, hint, front);
      RunUsesVolume(accounts, gap, hint, front, side);
      var s := After(accounts, gap, front);
      GreedyPairAmount(s.accounts, Limit(s.remaining, hint), pairs[n]);
      PairTotal(accounts, pairs[n], 2 * n, side, None);
      TotalOfConcat(Rendered(accounts, front), PairIntents(accounts, pairs[n], 2 * n), OneSide(side));
    }
  }

  // ---------------------------------------------------------------- the main laws

  /** Passes that used the full slice size. */
  ghost function FullPasses(pairs: seq<Pair>, hint: real): nat {
    if pairs == [] then 0
    else FullPasses(pairs[..|pairs| - 1], hint) + (if pairs[|pairs| - 1].amount == hint then 1 else 0)
  }

  /** One pass uses a full slice, or finishes the volume, or empties a balance. */
  lemma PassEffect(s: State, hint: real, p: Pair)
    requires NonNegative(s.accounts) && hint >= 1.0 && s.remaining > EPSILON
    requires GreedyPair(s.accounts, Limit(s.remaining, hint), p)
    ensures p.amount == hint || p.amount * 2.0 == s.remaining
         || PositiveBalances(Draw(s.accounts, p)) < PositiveBalances(s.accounts)
    ensures PositiveBalances(Draw(s.accounts, p)) <= PositiveBalances(s.accounts)
  {
    GreedyPairEffect(s.accounts, Limit(s.remaining, hint), p);
  }

  lemma {:induction false} PassCount(accounts: seq<CyclingAccount>, gap: real, hint: real, pairs: seq<Pair>)
    requires NonNegative(accounts) && hint >= 1.0 && gap >= 0.0
    requires GreedyRun(accounts, gap, hint, pairs)
    ensures var s := After(accounts, gap, pairs);
            |pairs| <= FullPasses(pairs, hint) + PositiveBalances(accounts) - PositiveBalances(s.accounts)
                       + (if s.remaining > EPSILON then 0 else 1)
  {
    if pairs != [] {
      var front, p := pairs[..|pairs| - 1], pairs[|pairs| - 1];
      PassCount(accounts, gap, hint, front);
      RunStaysInRange(accounts, gap, hint, front);
      PassEffect(After(accounts, gap, front), hint, p);
    }
  }

  lemma {:induction false} FullPassVolume(accounts: seq<CyclingAccount>, gap: real, hint: real, pairs: seq<Pair>)
    requires NonNegative(accounts) && hint >= 1.0 && gap >= 0.0
    requires GreedyRun(accounts, gap, hint, pairs)
    ensures Times(FullPasses(pairs, hint), 2.0 * hint) <= gap - After(accounts, gap, pairs).remaining
  {
    if pairs != [] {
      var front, p := pairs[..|pairs| - 1], pairs[|pairs| - 1];
      FullPassVolume(accounts, gap, hint, front);
      RunStaysInRange(accounts, gap, hint, front);
      StepStaysInRange(After(accounts, gap, front), hint, p);
    }
  }

  /** n * x as a repeated sum. */
  function Times(n: nat, x: real): real {
    if n == 0 then 0.0 else Times(n - 1, x) + x
  }

  lemma {:induction false} TimesBound(n: nat, x: real, y: real)
    requires x > 0.0 && Times(n, x) <= y
    ensures n <= (y / x).Floor
  {
    TimesIsProduct(n, x);
    var q := y / x;
    assert q * x == y;
    ProductSign(n as real - q, x);
  }

  lemma {:induction false} TimesIsProduct(n: nat, x: real)
    ensures Times(n, x) == n as real * x
  {
    if n > 0 {
      TimesIsProduct(n - 1, x);
      var m := n - 1;
      assert (m as real + 1.0) * x == m as real * x + x;
    }
  }

  lemma ProductSign(a: real, b: real)
    requires b > 0.0
    ensures a > 0.0 ==> a * b > 0.0
  {
  }

  /** Most pairs a run can need: full slices in the gap, one more, and one per balance that can run out. */
  function PairBound(accounts: seq<CyclingAccount>, gap: real, hint: real): int
    requires hint >= 1.0
  {
    (gap / (2.0 * hint)).Floor + 1 + PositiveBalances(accounts)
  }

  lemma RunLength(accounts: seq<CyclingAccount>, gap: real, hint: real, pairs: seq<Pair>)
    requires NonNegative(accounts) && hint >= 1.0 && gap >= 0.0
    requires GreedyRun(accounts, gap, hint, pairs)
    ensures |pairs| <= PairBound(accounts, gap, hint)
    ensures !Finished(After(accounts, gap, pairs)) ==> |pairs| < PairBound(accounts, gap, hint)
  {
    PassCount(accounts, gap, hint, pairs);
    FullPassVolume(accounts, gap, hint, pairs);
    RunStaysInRange(accounts, gap, hint, pairs);
    TimesBound(FullPasses(pairs, hint), 2.0 * hint, gap);
  }

  /** What both sides hold together suffices for the gap, up to the tolerance. */
  predicate Suffices(accounts: seq<CyclingAccount>, gap: real) {
    Min(Held(accounts, Buy, None), Held(accounts, Sell, None)) >= (gap - EPSILON) / 2.0
  }

  /** Greedy is complete: a run finishes only if both totals suffice, and gets stuck only if one does not. */
  lemma GreedyIsComplete(accounts: seq<CyclingAccount>, gap: real, hint: real, pairs: seq<Pair>)
    requires NonNegative(accounts) && hint >= 1.0 && gap >= 0.0
    requires GreedyRun(accounts, gap, hint, pairs)
    ensures Finished(After(accounts, gap, pairs)) ==> Suffices(accounts, gap)
    ensures Stuck(After(accounts, gap, pairs)) ==> !Suffices(accounts, gap)
  {
    var s := After(accounts, gap, pairs);
    RunInRange(accounts, gap, hint, pairs);
    RunStaysInRange(accounts, gap, hint, pairs);
    forall side ensures Held(s.accounts, side, None) >= 0.0
      && (gap - s.remaining) / 2.0 + Held(s.accounts, side, None) == Held(accounts, side, None) {
      RunConserves(accounts, gap, hint, pairs, side, None);
      RunUsesVolume(accounts, gap, hint, pairs, side);
      HeldNonNegative(s.accounts, side, None);
    }
    if Stuck(s) {
      StuckHoldsNothing(s);
    }
  }

  /** Cycling never overdraws: per side and account id, the intents spend at most what the id's entries held. */
  lemma NeverOverdraws(accounts: seq<CyclingAccount>, gap: real, hint: real, pairs: seq<Pair>,
                       side: OrderSide, id: string)
    requires NonNegative(accounts) && hint >= 1.0 && gap >= 0.0
    requires GreedyRun(accounts, gap, hint, pairs) && InRange(accounts, pairs)
    ensures Total(Rendered(accounts, pairs), OneAccount(side, id)) <= Held(accounts, side, Some(id))
  {
    RunStaysInRange(accounts, gap, hint, pairs);
    RunConserves(accounts, gap, hint, pairs, side, Some(id));
    HeldNonNegative(After(accounts, gap, pairs).accounts, side, Some(id));
  }

  /** One pair as the planner emits it. */
  predicate IsBalanced(accounts: seq<CyclingAccount>, p: Pair, hint: real, buy: OrderIntent, sell: OrderIntent)
    requires p.buyer < |accounts| && p.seller < |accounts|
  {
    && buy.side == Buy && sell.side == Sell && buy.amount == sell.amount && 0.0 < buy.amount <= hint
    && buy.accountId == accounts[p.buyer].accountId && sell.accountId == accounts[p.seller].accountId
    && buy.pairedAccountId == Some(sell.accountId) && sell.pairedAccountId == None
    && buy.intentType == sell.intentType == if p.buyer == p.seller then VolumeCyclingSelf else VolumeCyclingHedge
  }

  /** Ids name kind, side and account, and count the intents from one. */
  predicate IdsCount(p: Pair, k: nat, buy: OrderIntent, sell: OrderIntent) {
    if p.buyer == p.seller
    then buy.intentId == IntentId("cycle-self-buy-", buy.accountId, 2 * k + 1)
         && sell.intentId == IntentId("cycle-self-sell-", sell.accountId, 2 * k + 2)
    else buy.intentId == IntentId("cycle-hedge-buy-", buy.accountId, 2 * k + 1)
         && sell.intentId == IntentId("cycle-hedge-sell-", sell.accountId, 2 * k + 2)
  }

  lemma {:induction false} RenderedAt(accounts: seq<CyclingAccount>, pairs: seq<Pair>, k: nat)
    requires InRange(accounts, pairs) && k < |pairs|
    ensures Rendered(accounts, pairs)[2 * k] == PairIntents(accounts, pairs[k], 2 * k)[0]
    ensures Rendered(accounts, pairs)[2 * k + 1] == PairIntents(accounts, pairs[k], 2 * k)[1]
  {
    var front := pairs[..|pairs| - 1];
    if k < |front| {
      RenderedAt(accounts, front, k);
    }
  }

  lemma {:induction false} PairAmountInRange(accounts: seq<CyclingAccount>, gap: real, hint: real,
                                             pairs: seq<Pair>, k: nat)
    requires NonNegative(accounts) && hint >= 1.0 && gap >= 0.0
    requires GreedyRun(accounts, gap, hint, pairs) && k < |pairs|
    ensures 0.0 < pairs[k].amount <= hint
  {
    var front := pairs[..|pairs| - 1];
    if k < |front| {
      PairAmountInRange(accounts, gap, hint, front, k);
    } else {
      RunStaysInRange(accounts, gap, hint, front);
      StepStaysInRange(After(accounts, gap, front), hint, pairs[k]);
    }
  }

  /** Intents come in adjacent pairs of equal amount: self pairs on one entry, hedge pairs on two. */
  lemma IntentsComeInPairs(accounts: seq<CyclingAccount>, gap: real, hint: real, pairs: seq<Pair>, k: nat)
    requires NonNegative(accounts) && hint >= 1.0 && gap >= 0.0
    requires GreedyRun(accounts, gap, hint, pairs) && InRange(accounts, pairs) && k < |pairs|
    ensures var intents := Rendered(accounts, pairs);
            && IsBalanced(accounts, pairs[k], hint, intents[2 * k], intents[2 * k + 1])
            && IdsCount(pairs[k], k, intents[2 * k], intents[2 * k + 1])
  {
    RenderedAt(accounts, pairs, k);
    PairAmountInRange(accounts, gap, hint, pairs, k);
  }

  // ---------------------------------------------------------------- the planner's loop

  function FindFirst(accounts: seq<CyclingAccount>, quote: bool, base: bool, i: nat := 0): (r: Option<nat>)
    requires i <= |accounts| && forall j :: 0 <= j < i ==> !Has(accounts[j], quote, base)
    ensures r.Some? ==> IsFirst(accounts, r.value, quote, base)
    ensures r.None? ==> NoneHas(accounts, quote, base)
    decreases |accounts| - i
  {
    if i == |accounts| then None
    else if Has(accounts[i], quote, base) then Some(i)
    else FindFirst(accounts, quote, base, i + 1)
  }

  /** How a call on a non-empty pool and a positive gap may end. */
  ghost predicate Outcome(planner: TradePlanner, accounts: seq<CyclingAccount>, gap: real, hint: real,
                          r: Result<seq<OrderIntent>, PlannerError>, pairs: seq<Pair>) {
    && InRange(accounts, pairs) && GreedyRun(accounts, gap, hint, pairs)
    && var s := After(accounts, gap, pairs);
       match r
       case Success(intents) =>
         Finished(s) && intents == Rendered(accounts, pairs) && |intents| <= planner.maxMicroTasks
       case Failure(InsufficientLiquidity) => Stuck(s) && 2 * |pairs| + 2 <= planner.maxMicroTasks
       case Failure(Unsupported) => !Finished(s) && 2 * |pairs| + 2 > planner.maxMicroTasks
       case _ => false
  }

  /**
    The ghost result `pairs` is the run behind the intents.  Success means exactly that the totals suffice,
    unless the task-count guardrail cuts the run short, which it cannot do when the bound on the number of
    pairs fits the guardrail.
  */
  method BuildVolumeCyclingIntents(planner: TradePlanner, pool: seq<AccountSnapshot>, gap: real, sizeHint: real)
    returns (r: Result<seq<OrderIntent>, PlannerError>, ghost pairs: seq<Pair>)
    ensures pool == [] ==> r == Failure(AccountPoolUnavailable)
    ensures pool != [] && gap <= 0.0 ==> r == Success([])
    ensures pool != [] && gap > 0.0 ==>
              Outcome(planner, WorkingCopy(pool), gap, NormalizedHint(planner, sizeHint), r, pairs)
    ensures pool != [] && gap > 0.0 && r != Failure(Unsupported) ==>
              (r.Success? <==> Suffices(WorkingCopy(pool), gap))
    ensures pool != [] && gap > 0.0
            && 2 * PairBound(WorkingCopy(pool), gap, NormalizedHint(planner, sizeHint)) <= planner.maxMicroTasks ==>
              r != Failure(Unsupported)
    ensures r.Success? && gap > 0.0 ==>
              forall side :: gap - 0.000001 <= Total(r.value, OneSide(side)) * 2.0 <= gap
    ensures r.Success? ==>
              forall side, id :: Total(r.value, OneAccount(side, id)) <= Held(WorkingCopy(pool), side, Some(id))
  {
    pairs := [];
    if |pool| == 0 {
      return Failure(AccountPoolUnavailable), pairs;
    }
    if gap <= 0.0 {
      forall side, id { HeldNonNegative(WorkingCopy(pool), side, Some(id)); }
      return Success([]), pairs;
    }
    ghost var start := WorkingCopy(pool);
    var hint := NormalizedHint(planner, sizeHint);
    r, pairs := CycleLoop(planner, WorkingCopy(pool), gap, hint);
    OutcomeMeans(planner, start, gap, hint, r, pairs);
  }

  /** What an outcome says about totals, guardrail, volume and balances. */
  lemma OutcomeMeans(planner: TradePlanner, accounts: seq<CyclingAccount>, gap: real, hint: real,
                     r: Result<seq<OrderIntent>, PlannerError>, pairs: seq<Pair>)
    requires NonNegative(accounts) && gap > 0.0 && hint >= 1.0
    requires Outcome(planner, accounts, gap, hint, r, pairs)
    ensures r != Failure(Unsupported) ==> (r.Success? <==> Suffices(accounts, gap))
    ensures 2 * PairBound(accounts, gap, hint) <= planner.maxMicroTasks ==> r != Failure(Unsupported)
    ensures r.Success? ==> forall side :: gap - 0.000001 <= Total(r.value, OneSide(side)) * 2.0 <= gap
    ensures r.Success? ==> forall side, id :: Total(r.value, OneAccount(side, id)) <= Held(accounts, side, Some(id))
  {
    GreedyIsComplete(accounts, gap, hint, pairs);
    RunLength(accounts, gap, hint, pairs);
    if r.Success? {
      RunStaysInRange(accounts, gap, hint, pairs);
      forall side { RunUsesVolume(accounts, gap, hint, pairs, side); }
      forall side, id { NeverOverdraws(accounts, gap, hint, pairs, side, id); }
    }
  }

  /** The choice of one pass; the exits on a non-positive amount are dead. */
  method ChoosePair(accounts: seq<CyclingAccount>, remaining: real, hint: real) returns (p: Option<Pair>)
    requires NonNegative(accounts) && remaining > EPSILON && hint >= 1.0
    ensures p.Some? ==> GreedyPair(accounts, Limit(remaining, hint), p.value)
    ensures p.None? ==> Stuck(State(accounts, remaining))
  {
    var limit := Limit(remaining, hint);
    if limit <= 0.0 {
      assert false;
    }
    var both := FindFirst(accounts, true, true);
    if both.Some? {
      var amount := Min(Min(limit, accounts[both.value].quoteFree), accounts[both.value].baseFree);
      if amount <= 0.0 {
        assert false;
      }
      return Some(Pair(both.value, both.value, amount));
    }
    var buyer := FindFirst(accounts, true, false);
    var seller := FindFirst(accounts, false, true);
    if buyer.None? || seller.None? {
      return None;
    }
    var amount := Min(Min(limit, accounts[buyer.value].quoteFree), accounts[seller.value].baseFree);
    if amount <= 0.0 {
      assert false;
    }
    return Some(Pair(buyer.value, seller.value, amount));
  }

  /** What the loop variables mean in terms of the run so far. */
  ghost predicate Reached(start: seq<CyclingAccount>, gap: real, hint: real, pairs: seq<Pair>,
                          accounts: seq<CyclingAccount>, remaining: real, intents: seq<OrderIntent>) {
    && InRange(start, pairs) && GreedyRun(start, gap, hint, pairs)
    && After(start, gap, pairs) == State(accounts, remaining)
    && NonNegative(accounts) && SameIds(accounts, start)
    && intents == Rendered(start, pairs)
  }

  lemma ReachedOneMore(start: seq<CyclingAccount>, gap: real, hint: real, pairs: seq<Pair>,
                       accounts: seq<CyclingAccount>, remaining: real, intents: seq<OrderIntent>, p: Pair)
    requires Reached(start, gap, hint, pairs, accounts, remaining, intents)
    requires hint >= 1.0 && remaining > EPSILON && GreedyPair(accounts, Limit(remaining, hint), p)
    ensures Reached(start, gap, hint, pairs + [p], Draw(accounts, p), Max(remaining - p.amount * 2.0, 0.0),
                    intents + PairIntents(start, p, |intents|))
  {
    StepStaysInRange(State(accounts, remaining), hint, p);
    AfterOneMore(start, gap, hint, pairs, p);
    RenderedOneMore(start, pairs, p);
  }

  method CycleLoop(planner: TradePlanner, start: seq<CyclingAccount>, gap: real, hint: real)
    returns (r: Result<seq<OrderIntent>, PlannerError>, ghost pairs: seq<Pair>)
    requires NonNegative(start) && gap > 0.0 && hint >= 1.0
    ensures Outcome(planner, start, gap, hint, r, pairs)
  {
    pairs := [];
    var accounts := start;
    var remaining := gap;
    var intents: seq<OrderIntent> := [];
    while remaining > EPSILON
      invariant Reached(start, gap, hint, pairs, accounts, remaining, intents)
      invariant |intents| <= planner.maxMicroTasks
      invariant |pairs| <= PairBound(start, gap, hint)
      decreases PairBound(start, gap, hint) - |pairs|
    {
      if |intents| + 2 > planner.maxMicroTasks {
        return Failure(Unsupported), pairs;
      }
      var choice := ChoosePair(accounts, remaining, hint);
      if choice.None? {
        return Failure(InsufficientLiquidity), pairs;
      }
      var p := choice.value;
      ReachedOneMore(start, gap, hint, pairs, accounts, remaining, intents, p);
      intents := intents + PairIntents(start, p, |intents|);
      accounts := Draw(accounts, p);
      remaining := Max(remaining - p.amount * 2.0, 0.0);
      pairs := pairs + [p];
      RunLength(start, gap, hint, pairs);
    }
    r := Success(intents);
  }

  lemma AfterOneMore(start: seq<CyclingAccount>, gap: real, hint: real, pairs: seq<Pair>, p: Pair)
    requires InRange(start, pairs) && GreedyRun(start, gap, hint, pairs)
    requires var s := After(start, gap, pairs);
             s.remaining > EPSILON && GreedyPair(s.accounts, Limit(s.remaining, hint), p)
    ensures InRange(start, pairs + [p]) && GreedyRun(start, gap, hint, pairs + [p])
    ensures var s := After(start, gap, pairs);
            After(start, gap, pairs + [p]) == State(Draw(s.accounts, p), Max(s.remaining - p.amount * 2.0, 0.0))
  {
    var more := pairs + [p];
    assert more[..|more| - 1] == pairs && more[|more| - 1] == p;
  }

  lemma RenderedOneMore(start: seq<CyclingAccount>, pairs: seq<Pair>, p: Pair)
    requires InRange(start, pairs) && InRange(start, pairs + [p])
    ensures p.buyer < |start| && p.seller < |start|
    ensures Rendered(start, pairs + [p]) == Rendered(start, pairs) + PairIntents(start, p, 2 * |pairs|)
  {
    var more := pairs + [p];
    assert more[..|more| - 1] == pairs && more[|more| - 1] == p;
  }
}
