/**
  Choosing the account of a trade (src/backend/userStore.ts): candidates are sorted least recently used first,
  and the first that has cooled down, may trade the pair and can pay is taken.
*/
module AccountPicker {
  import opened Wrappers
  import opened JsText
  import opened Tables

  const MIN_SOL_RESERVE := 0.01
  const USDC_MINT := "EPjFWdd5AufqSSqeM2qN1xzybapC8G4wEGGkZwyTDt1v"

  datatype Action = Buy | Sell
  datatype TokenPair = TokenPair(baseMint: string, quoteMint: string)
  datatype TokenBalance = TokenBalance(mint: string, amount: Option<real>)

  /** Amounts that are not finite numbers are None. */
  datatype Wallet = Wallet(sol: Option<real>, usdc: Option<real>, tokens: seq<TokenBalance>)

  datatype Account = Account(id: int, createdAt: int, lastTradedAt: Option<int>,
                             capabilityBase: Option<string>, capabilityQuote: Option<string>, wallet: Wallet)

  /** Seconds become milliseconds.  A missing time becomes 0, as null does in JavaScript arithmetic. */
  function NormalizeTimestampMs(value: Option<int>): int {
    match value
    case None => 0
    case Some(t) => if t >= 1_000_000_000_000 then t else t * 1000
  }

  // ---------------------------------------------------------------- the order

  datatype Key = Key(lastTradedAt: Option<int>, createdAt: int, id: int)

  function CompareLeastRecentlyUsed(left: Key, right: Key): int {
    if left.lastTradedAt.None? && right.lastTradedAt.Some? then -1
    else if left.lastTradedAt.Some? && right.lastTradedAt.None? then 1
    else if left.lastTradedAt.Some? && right.lastTradedAt.Some?
         && left.lastTradedAt.value != right.lastTradedAt.value then
      left.lastTradedAt.value - right.lastTradedAt.value
    else if left.createdAt != right.createdAt then left.createdAt - right.createdAt
    else left.id - right.id
  }

  /** The comparator is a total order of the keys. */
  lemma CompareIsTotalOrder(a: Key, b: Key, c: Key)
    ensures CompareLeastRecentlyUsed(a, b) == 0 <==> a == b
    ensures CompareLeastRecentlyUsed(a, b) < 0 <==> CompareLeastRecentlyUsed(b, a) > 0
    ensures CompareLeastRecentlyUsed(a, b) <= 0 && CompareLeastRecentlyUsed(b, c) <= 0 ==>
              CompareLeastRecentlyUsed(a, c) <= 0
  {
  }

  function KeyOf(a: Account): Key {
    Key(Some(NormalizeTimestampMs(a.lastTradedAt)), a.createdAt, a.id)
  }

  predicate NotAfter(a: Account, b: Account) {
    CompareLeastRecentlyUsed(KeyOf(a), KeyOf(b)) <= 0
  }

  predicate Ordered(s: seq<Account>) {
    forall i, j :: 0 <= i < j < |s| ==> NotAfter(s[i], s[j])
  }

  function Insert(a: Account, s: seq<Account>): (r: seq<Account>)
    requires Ordered(s)
    ensures multiset(r) == multiset(s) + multiset{a}
    ensures Ordered(r)
  {
    if s == [] then [a]
    else if NotAfter(a, s[0]) then
      FirstPrecedesAll(a, s);
      assert multiset([a] + s) == multiset{a} + multiset(s);
      [a] + s
    else
      assert s == [s[0]] + s[1..];
      var rest := Insert(a, s[1..]);
      StillPrecedesAll(s, a, rest);
      assert multiset([s[0]] + rest) == multiset{s[0]} + multiset(rest);
      [s[0]] + rest
  }

  lemma FirstPrecedesAll(a: Account, s: seq<Account>)
    requires s != [] && Ordered(s) && NotAfter(a, s[0])
    ensures Ordered([a] + s)
  {
    forall j | 0 <= j < |s| ensures NotAfter(a, s[j]) {
      CompareIsTotalOrder(KeyOf(a), KeyOf(s[0]), KeyOf(s[j]));
      if j > 0 { assert NotAfter(s[0], s[j]); }
    }
  }

  lemma StillPrecedesAll(s: seq<Account>, a: Account, rest: seq<Account>)
    requires s != [] && Ordered(s) && !NotAfter(a, s[0])
    requires multiset(rest) == multiset(s[1..]) + multiset{a} && Ordered(rest)
    ensures Ordered([s[0]] + rest)
  {
    forall j | 0 <= j < |rest| ensures NotAfter(s[0], rest[j]) {
      assert rest[j] in multiset(rest);
      CompareIsTotalOrder(KeyOf(a), KeyOf(s[0]), KeyOf(s[0]));
      if rest[j] != a {
        assert rest[j] in s[1..];
      }
    }
  }

  /** The sort of the candidates; ids are unique, so the comparator leaves no ties and there is one result. */
  function Sorted(accounts: seq<Account>): (r: seq<Account>)
    ensures multiset(r) == multiset(accounts)
    ensures Ordered(r)
  {
    if accounts == [] then []
    else
      assert accounts == accounts[..|accounts| - 1] + [accounts[|accounts| - 1]];
      Insert(accounts[|accounts| - 1], Sorted(accounts[..|accounts| - 1]))
  }

  /**
    The comparator would put a missing time first, but it never sees one: an account that never traded comes
    before a traded one exactly if the trade's time is positive, or is 0 and the account is the older one.
  */
  lemma NeverTradedOrder(never: Account, traded: Account)
    requires never.lastTradedAt.None? && traded.lastTradedAt.Some?
    ensures !NotAfter(traded, never)
       <==> traded.lastTradedAt.value > 0
            || (traded.lastTradedAt.value == 0
                && (never.createdAt < traded.createdAt
                    || (never.createdAt == traded.createdAt && never.id < traded.id)))
    ensures CompareLeastRecentlyUsed(Key(None, never.createdAt, never.id), KeyOf(traded)) < 0
  {
  }

  // ---------------------------------------------------------------- eligibility

  predicate Cooling(a: Account, cooldownMs: int, now: int) {
    cooldownMs > 0 && now - NormalizeTimestampMs(a.lastTradedAt) < cooldownMs
  }

  predicate CapabilityMatches(a: Account, pair: TokenPair) {
    var base := if a.capabilityBase.Some? then Trim(a.capabilityBase.value) else "";
    var quote := if a.capabilityQuote.Some? then Trim(a.capabilityQuote.value) else "";
    (base == "" && quote == "") || (base == pair.baseMint && quote == pair.quoteMint)
  }

  function Finite(amount: Option<real>): real {
    if amount.Some? then amount.value else 0.0
  }

  /** The balance of the first entry for the mint. */
  function TokenAmount(tokens: seq<TokenBalance>, mint: string): real {
    if tokens == [] then 0.0
    else if tokens[0].mint == mint then Finite(tokens[0].amount)
    else TokenAmount(tokens[1..], mint)
  }

  function QuoteAmount(wallet: Wallet, pair: TokenPair): real {
    if pair.quoteMint == USDC_MINT then Finite(wallet.usdc) else TokenAmount(wallet.tokens, pair.quoteMint)
  }

  predicate HasAnyPairBalance(wallet: Wallet, pair: TokenPair) {
    TokenAmount(wallet.tokens, pair.baseMint) > 0.0 || QuoteAmount(wallet, pair) > 0.0
  }

  predicate HasSufficientBalance(action: Action, amount: real, pair: TokenPair, wallet: Wallet) {
    Finite(wallet.sol) >= MIN_SOL_RESERVE
    && match action
       case Buy =>
         if pair.quoteMint == USDC_MINT then QuoteAmount(wallet, pair) >= amount else QuoteAmount(wallet, pair) > 0.0
       case Sell => TokenAmount(wallet.tokens, pair.baseMint) >= amount
  }

  datatype Request = Request(action: Action, amount: real, pair: TokenPair, cooldownMs: int, now: int)

  predicate CanTrade(q: Request, a: Account) {
    CapabilityMatches(a, q.pair) && HasAnyPairBalance(a.wallet, q.pair)
    && HasSufficientBalance(q.action, q.amount, q.pair, a.wallet)
  }

  predicate Eligible(q: Request, a: Account) {
    !Cooling(a, q.cooldownMs, q.now) && CanTrade(q, a)
  }

  /** The least recently used of the eligible accounts. */
  predicate IsPick(q: Request, accounts: seq<Account>, a: Account) {
    a in accounts && Eligible(q, a) && forall b :: b in accounts && Eligible(q, b) ==> NotAfter(a, b)
  }

  // ---------------------------------------------------------------- the same, on the account's fields

  /** The entry that counts for a mint. */
  predicate IsFirstEntry(tokens: seq<TokenBalance>, mint: string, i: nat) {
    i < |tokens| && tokens[i].mint == mint && forall j :: 0 <= j < i ==> tokens[j].mint != mint
  }

  lemma {:induction false} FirstEntryCounts(tokens: seq<TokenBalance>, mint: string)
    ensures forall i: nat :: IsFirstEntry(tokens, mint, i) ==> TokenAmount(tokens, mint) == Finite(tokens[i].amount)
    ensures TokenAmount(tokens, mint) == 0.0 || exists i: nat :: IsFirstEntry(tokens, mint, i)
  {
    if tokens != [] {
      var rest := tokens[1..];
      FirstEntryCounts(rest, mint);
      forall i: nat | IsFirstEntry(tokens, mint, i) ensures TokenAmount(tokens, mint) == Finite(tokens[i].amount) {
        if i > 0 { assert IsFirstEntry(rest, mint, i - 1); }
      }
      if tokens[0].mint == mint {
        assert IsFirstEntry(tokens, mint, 0);
        assert forall j: nat :: IsFirstEntry(tokens, mint, j) ==> j == 0;
      } else if i: nat :| IsFirstEntry(rest, mint, i) {
        assert IsFirstEntry(tokens, mint, i + 1);
      }
    }
  }

  /** The first entry of the mint is a finite amount of at least `least`. */
  ghost predicate HoldsAtLeast(tokens: seq<TokenBalance>, mint: string, least: real) {
    exists i: nat :: IsFirstEntry(tokens, mint, i) && tokens[i].amount.Some? && tokens[i].amount.value >= least
  }

  ghost predicate HoldsSome(tokens: seq<TokenBalance>, mint: string) {
    exists i: nat :: IsFirstEntry(tokens, mint, i) && tokens[i].amount.Some? && tokens[i].amount.value > 0.0
  }

  lemma HoldsMeans(tokens: seq<TokenBalance>, mint: string, least: real)
    requires least > 0.0
    ensures HoldsAtLeast(tokens, mint, least) <==> TokenAmount(tokens, mint) >= least
    ensures HoldsSome(tokens, mint) <==> TokenAmount(tokens, mint) > 0.0
  {
    FirstEntryCounts(tokens, mint);
  }

  /** A reserve of 0.01 SOL, and what the trade gives away. */
  ghost predicate Pays(q: Request, w: Wallet) {
    && w.sol.Some? && w.sol.value >= 0.01
    && (q.action == Sell ==> HoldsAtLeast(w.tokens, q.pair.baseMint, q.amount))
    && (q.action == Buy ==>
          if q.pair.quoteMint == "EPjFWdd5AufqSSqeM2qN1xzybapC8G4wEGGkZwyTDt1v"
          then w.usdc.Some? && w.usdc.value >= q.amount
          else HoldsSome(w.tokens, q.pair.quoteMint))
  }

  predicate Blank(mint: Option<string>) {
    mint.None? || AllSpace(mint.value)
  }

  predicate Names(capability: Option<string>, mint: string) {
    (capability.None? && mint == "") || (capability.Some? && Trim(capability.value) == mint)
  }

  /** No capability at all, or the one for this pair. */
  predicate MayTrade(q: Request, a: Account) {
    || (Blank(a.capabilityBase) && Blank(a.capabilityQuote))
    || (Names(a.capabilityBase, q.pair.baseMint) && Names(a.capabilityQuote, q.pair.quoteMint))
  }

  predicate Rested(q: Request, a: Account) {
    q.cooldownMs <= 0 || NormalizeTimestampMs(a.lastTradedAt) + q.cooldownMs <= q.now
  }

  ghost predicate Serves(q: Request, a: Account) {
    Rested(q, a) && MayTrade(q, a) && Pays(q, a.wallet)
  }

  lemma PaysExactly(q: Request, w: Wallet)
    requires q.amount > 0.0
    ensures Pays(q, w) <==> HasSufficientBalance(q.action, q.amount, q.pair, w)
    ensures Pays(q, w) ==> HasAnyPairBalance(w, q.pair)
  {
    HoldsMeans(w.tokens, q.pair.baseMint, q.amount);
    HoldsMeans(w.tokens, q.pair.quoteMint, q.amount);
  }

  /**
    An account can be picked exactly if it has rested, may trade the pair and can pay: for a positive amount the test
    for some balance of the pair never decides.
  */
  lemma EligibleExactly(q: Request, a: Account)
    requires q.amount > 0.0
    ensures Eligible(q, a) <==> Serves(q, a)
  {
    PaysExactly(q, a.wallet);
  }

  /** Seconds and milliseconds of one moment are told apart by size, from September 2001 on. */
  lemma SecondsOrMilliseconds(t: int)
    requires 1_000_000_000 <= t < 1_000_000_000_000
    ensures NormalizeTimestampMs(Some(t)) == t * 1000 == NormalizeTimestampMs(Some(t * 1000))
  {
  }

  /** Last trade earlier, or then older account, or then smaller id. */
  predicate UsedNoLater(a: Account, b: Account) {
    var x, y := NormalizeTimestampMs(a.lastTradedAt), NormalizeTimestampMs(b.lastTradedAt);
    x < y || (x == y && (a.createdAt < b.createdAt || (a.createdAt == b.createdAt && a.id <= b.id)))
  }

  lemma NoneServes(q: Request, accounts: seq<Account>)
    requires q.amount > 0.0 && forall a :: a in accounts ==> !Eligible(q, a)
    ensures forall a :: a in accounts ==> !Serves(q, a)
  {
    forall a | a in accounts ensures !Serves(q, a) {
      EligibleExactly(q, a);
    }
  }

  lemma PickServes(q: Request, accounts: seq<Account>, pick: Account)
    requires q.amount > 0.0 && IsPick(q, accounts, pick)
    ensures pick in accounts && Serves(q, pick)
    ensures forall b :: b in accounts && Serves(q, b) ==> UsedNoLater(pick, b)
  {
    EligibleExactly(q, pick);
    forall b | b in accounts && Serves(q, b) ensures UsedNoLater(pick, b) {
      EligibleExactly(q, b);
      assert NotAfter(pick, b);
    }
  }

  /**
    There is a pick exactly when the request is tradable and some account serves it.  The pick serves it, and of all
    accounts that do it is the least recently used.
  */
  method GetAvailableAccount(q: Request, accounts: seq<Account>) returns (r: Option<Account>)
    ensures r.Some? <==>
              && q.amount > 0.0 && (q.action == Sell ==> q.pair.baseMint != "" && q.pair.baseMint != q.pair.quoteMint)
              && exists a :: a in accounts && Serves(q, a)
    ensures r.Some? ==> r.value in accounts && Serves(q, r.value)
    ensures r.Some? ==> forall b :: b in accounts && Serves(q, b) ==> UsedNoLater(r.value, b)
    ensures r.Some? ==> IsPick(q, accounts, r.value)
  {
    if q.amount <= 0.0 {
      return None;
    }
    if q.action.Sell? && (q.pair.baseMint == "" || q.pair.baseMint == q.pair.quoteMint) {
      return None;
    }
    var candidates := Sorted(accounts);
    SameMembers(candidates, accounts);
    var k := FirstEligible(q, candidates);
    if k == |candidates| {
      NoneServes(q, candidates);
      return None;
    }
    FirstEligibleIsPick(q, accounts, candidates, k);
    PickServes(q, accounts, candidates[k]);
    r := Some(candidates[k]);
  }

  /** The scan, with its tests in order. */
  method FirstEligible(q: Request, candidates: seq<Account>) returns (k: nat)
    ensures k <= |candidates| && forall j :: 0 <= j < k ==> !Eligible(q, candidates[j])
    ensures k < |candidates| ==> Eligible(q, candidates[k])
  {
    k := 0;
    while k < |candidates|
      invariant k <= |candidates| && forall j :: 0 <= j < k ==> !Eligible(q, candidates[j])
    {
      var candidate := candidates[k];
      var lastTradedAtMs := NormalizeTimestampMs(candidate.lastTradedAt);
      if !(q.cooldownMs > 0 && q.now - lastTradedAtMs < q.cooldownMs)
         && CapabilityMatches(candidate, q.pair)
         && HasAnyPairBalance(candidate.wallet, q.pair)
         && HasSufficientBalance(q.action, q.amount, q.pair, candidate.wallet) {
        return;
      }
      k := k + 1;
    }
  }

  lemma SameMembers(a: seq<Account>, b: seq<Account>)
    requires multiset(a) == multiset(b)
    ensures forall x :: x in a <==> x in b
  {
    forall x ensures x in a <==> x in b {
      assert x in a <==> x in multiset(a);
      assert x in b <==> x in multiset(b);
    }
  }

  lemma FirstEligibleIsPick(q: Request, accounts: seq<Account>, candidates: seq<Account>, k: nat)
    requires multiset(candidates) == multiset(accounts) && Ordered(candidates)
    requires k < |candidates| && Eligible(q, candidates[k])
    requires forall j :: 0 <= j < k ==> !Eligible(q, candidates[j])
    ensures IsPick(q, accounts, candidates[k])
  {
    SameMembers(candidates, accounts);
    forall b | b in accounts && Eligible(q, b) ensures NotAfter(candidates[k], b) {
      assert b in candidates;
      var j :| 0 <= j < |candidates| && candidates[j] == b;
      if j == k { CompareIsTotalOrder(KeyOf(b), KeyOf(b), KeyOf(b)); }
    }
  }

  /** Unique ids leave one pick. */
  lemma PickIsUnique(q: Request, accounts: seq<Account>, a: Account, b: Account)
    requires IsPick(q, accounts, a) && IsPick(q, accounts, b)
    requires forall x, y :: x in accounts && y in accounts && x.id == y.id ==> x == y
    ensures a == b
  {
    CompareIsTotalOrder(KeyOf(a), KeyOf(b), KeyOf(a));
  }

  lemma LeastRecentlyUsedFirst(a: Account, b: Account)
    requires NotAfter(a, b)
    ensures NormalizeTimestampMs(a.lastTradedAt) <= NormalizeTimestampMs(b.lastTradedAt)
  {
  }

  /** The cooldown drops a tail of the sorted candidates. */
  lemma CooldownDropsASuffix(accounts: seq<Account>, cooldownMs: int, now: int, i: nat, j: nat)
    requires i <= j < |Sorted(accounts)|
    requires Cooling(Sorted(accounts)[i], cooldownMs, now)
    ensures Cooling(Sorted(accounts)[j], cooldownMs, now)
  {
    if i < j { LeastRecentlyUsedFirst(Sorted(accounts)[i], Sorted(accounts)[j]); }
  }

  // ---------------------------------------------------------------- fairness

  /** One pick and the trade logged after it: the account at index `picked` gets the time `logged`. */
  datatype Turn = Turn(request: Request, accounts: seq<Account>, picked: nat, logged: int)

  function LastMs(t: Turn, x: nat): int
    requires x < |t.accounts|
  {
    NormalizeTimestampMs(t.accounts[x].lastTradedAt)
  }

  /** All accounts are eligible, the pick is the one the scan makes, and the logged time is a later one. */
  predicate LegalTurn(t: Turn) {
    && t.picked < |t.accounts|
    && (forall x :: 0 <= x < |t.accounts| ==> Eligible(t.request, t.accounts[x]))
    && IsPick(t.request, t.accounts, t.accounts[t.picked])
    && (forall x :: 0 <= x < |t.accounts| ==> LastMs(t, x) < NormalizeTimestampMs(Some(t.logged)))
  }

  /** The next turn sees the logged trade; wallets may have changed. */
  predicate Follows(t: Turn, u: Turn) {
    && |u.accounts| == |t.accounts|
    && forall x: nat :: x < |t.accounts| ==>
         u.accounts[x].lastTradedAt == if x == t.picked then Some(t.logged) else t.accounts[x].lastTradedAt
  }

  predicate IsRun(turns: seq<Turn>, k: nat) {
    && (forall i :: 0 <= i < |turns| ==> LegalTurn(turns[i]) && |turns[i].accounts| == k)
    && (forall i: nat :: i + 1 < |turns| ==> Follows(turns[i], turns[i + 1]))
  }

  lemma PickedIsLeast(t: Turn, x: nat)
    requires LegalTurn(t) && x < |t.accounts|
    ensures LastMs(t, t.picked) <= LastMs(t, x)
  {
    assert t.accounts[x] in t.accounts;
    LeastRecentlyUsedFirst(t.accounts[t.picked], t.accounts[x]);
  }

  /** Only the picked account's time changes, and it grows. */
  lemma TimesAfterTurn(t: Turn, u: Turn, x: nat)
    requires LegalTurn(t) && Follows(t, u) && x < |t.accounts|
    ensures x != t.picked ==> LastMs(u, x) == LastMs(t, x) < LastMs(u, t.picked)
    ensures LastMs(t, x) <= LastMs(u, x)
  {
  }

  /** Times in order of turns: a turn leaves all but the picked time alone and makes that one the latest. */
  predicate Advances(before: seq<int>, after: seq<int>, picked: nat) {
    && |before| == |after| && picked < |before|
    && forall x :: 0 <= x < |before| ==>
         before[x] <= after[x] && (x != picked ==> after[x] == before[x] && before[x] < after[picked])
  }

  ghost predicate AllAdvance(times: seq<seq<int>>, picks: seq<nat>) {
    |times| == |picks| && forall i, j :: 0 <= i && i + 1 == j < |times| ==> Advances(times[i], times[j], picks[i])
  }

  function PickedFrom(picks: seq<nat>, i: nat, j: nat): (s: set<nat>)
    requires i <= j <= |picks|
    ensures |s| <= j - i
    decreases j
  {
    if i == j then {} else PickedFrom(picks, i, j - 1) + {picks[j - 1]}
  }

  /** From a pick of p on, every account not picked since is less recently used than p. */
  lemma {:induction false} NotPickedSince(times: seq<seq<int>>, picks: seq<nat>, i: nat, j: nat, x: nat)
    requires AllAdvance(times, picks) && i < j < |times| && x < |times[i]|
    requires x != picks[i] && x !in PickedFrom(picks, i + 1, j)
    ensures |times[j]| == |times[i]| && picks[i] < |times[i]| && times[j][x] < times[j][picks[i]]
    decreases j
  {
    assert Advances(times[j - 1], times[j], picks[j - 1]);
    if i + 1 < j {
      NotPickedSince(times, picks, i, j - 1, x);
    }
  }

  function TimesOf(t: Turn): seq<int> {
    seq(|t.accounts|, x requires 0 <= x < |t.accounts| => LastMs(t, x))
  }

  function AllTimes(turns: seq<Turn>): (times: seq<seq<int>>)
    ensures |times| == |turns| && forall i :: 0 <= i < |turns| ==> times[i] == TimesOf(turns[i])
  {
    if turns == [] then [] else AllTimes(turns[..|turns| - 1]) + [TimesOf(turns[|turns| - 1])]
  }

  function AllPicks(turns: seq<Turn>): (picks: seq<nat>)
    ensures |picks| == |turns| && forall i :: 0 <= i < |turns| ==> picks[i] == turns[i].picked
  {
    if turns == [] then [] else AllPicks(turns[..|turns| - 1]) + [turns[|turns| - 1].picked]
  }

  lemma TurnAdvances(t: Turn, u: Turn)
    requires LegalTurn(t) && Follows(t, u)
    ensures Advances(TimesOf(t), TimesOf(u), t.picked)
  {
    forall x: nat | x < |t.accounts|
      ensures LastMs(t, x) <= LastMs(u, x)
      ensures x != t.picked ==> LastMs(u, x) == LastMs(t, x) < LastMs(u, t.picked)
    {
      TimesAfterTurn(t, u, x);
    }
  }

  lemma RunAdvances(turns: seq<Turn>, k: nat)
    requires IsRun(turns, k)
    ensures AllAdvance(AllTimes(turns), AllPicks(turns))
  {
    forall i, j | 0 <= i && i + 1 == j < |turns|
      ensures Advances(TimesOf(turns[i]), TimesOf(turns[j]), turns[i].picked) {
      TurnAdvances(turns[i], turns[j]);
    }
  }

  function Indices(k: nat): (s: set<nat>)
    ensures |s| == k && forall x: nat :: x in s <==> x < k
  {
    if k == 0 then {} else Indices(k - 1) + {k - 1}
  }

  /** Least recently used is round robin: of k accounts, any k consecutive picks are distinct. */
  lemma ConsecutivePicksDistinct(turns: seq<Turn>, k: nat, i: nat, j: nat)
    requires IsRun(turns, k) && i < j < |turns| && j - i < k
    ensures turns[i].picked != turns[j].picked
  {
    var p, picks := turns[i].picked, AllPicks(turns);
    RunAdvances(turns, k);
    var others, since := Indices(k) - {p}, PickedFrom(picks, i + 1, j);
    if others <= since {
      SubsetSize(others, since);
    } else {
      var x :| x in others && x !in since;
      NotPickedSince(AllTimes(turns), picks, i, j, x);
      PickedIsLeast(turns[j], x);
    }
  }
}
