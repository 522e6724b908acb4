/**
  Who pays for volume cycling.  The greedy loop's pairs depend on the size hint, but what it takes from each
  account depends on the cycled volume alone: entries are filled in pool order, first up to what they hold of
  both assets, then up to the rest of each asset.
*/
module CyclingShares {
  import opened Wrappers
  import opened PlannerTypes
  import opened Cycling

  predicate AllNonNegative(caps: seq<real>) {
    forall i :: 0 <= i < |caps| ==> caps[i] >= 0.0
  }

  /** What reaches container i when a volume is poured into containers of these sizes in order. */
  function Fill(v: real, caps: seq<real>, i: nat): real
    requires i < |caps|
  {
    Max(0.0, Min(caps[i], v - Sum(caps[..i])))
  }

  predicate FilledUpTo(v: real, caps: seq<real>, i: nat)
    requires i <= |caps|
  {
    forall k :: 0 <= k < i ==> Fill(v, caps, k) >= caps[k]
  }

  lemma PrefixSum(caps: seq<real>, i: nat)
    requires i < |caps|
    ensures Sum(caps[..i + 1]) == Sum(caps[..i]) + caps[i]
  {
    assert caps[..i + 1][..i] == caps[..i];
  }

  lemma {:induction false} SumMonotone(caps: seq<real>, i: nat, j: nat)
    requires AllNonNegative(caps) && i <= j <= |caps|
    ensures Sum(caps[..i]) <= Sum(caps[..j])
    decreases j
  {
    if i < j {
      SumMonotone(caps, i, j - 1);
      PrefixSum(caps, j - 1);
    }
  }

  /** Full containers in front have taken their sizes. */
  lemma {:induction false} FilledFront(v: real, caps: seq<real>, i: nat)
    requires AllNonNegative(caps) && v >= 0.0 && i <= |caps| && FilledUpTo(v, caps, i)
    ensures v >= Sum(caps[..i])
  {
    if i > 0 {
      FilledFront(v, caps, i - 1);
      PrefixSum(caps, i - 1);
      assert Fill(v, caps, i - 1) >= caps[i - 1];
    }
  }

  lemma FilledByMore(v: real, caps: seq<real>, i: nat)
    requires AllNonNegative(caps) && i < |caps| && v >= Sum(caps[..i + 1])
    ensures Fill(v, caps, i) == caps[i]
  {
    PrefixSum(caps, i);
  }

  lemma EmptyBehind(v: real, caps: seq<real>, i: nat)
    requires AllNonNegative(caps) && i < |caps| && v <= Sum(caps[..i])
    ensures Fill(v, caps, i) == 0.0
  {
  }

  /** Pouring on into the first container that is not full fills only that one. */
  lemma FillStep(v: real, x: real, caps: seq<real>, i: nat, j: nat)
    requires AllNonNegative(caps) && v >= 0.0 && i < |caps| && j < |caps|
    requires FilledUpTo(v, caps, i) && x >= 0.0 && Fill(v, caps, i) + x <= caps[i] && Fill(v, caps, i) < caps[i]
    ensures Fill(v + x, caps, j) == Fill(v, caps, j) + (if j == i then x else 0.0)
    ensures v + x <= Sum(caps[..i + 1]) <= Sum(caps[..|caps|])
  {
    FilledFront(v, caps, i);
    PrefixSum(caps, i);
    SumMonotone(caps, i + 1, |caps|);
    if j < i {
      SumMonotone(caps, j + 1, i);
      FilledByMore(v, caps, j);
      FilledByMore(v + x, caps, j);
    } else if j > i {
      SumMonotone(caps, i + 1, j);
      EmptyBehind(v, caps, j);
      EmptyBehind(v + x, caps, j);
    }
  }

  // ---------------------------------------------------------------- shares

  function SelfCap(a: CyclingAccount): real {
    Min(a.quoteFree, a.baseFree)
  }

  function SelfCaps(accounts: seq<CyclingAccount>): (caps: seq<real>)
    ensures |caps| == |accounts| && forall i :: 0 <= i < |caps| ==> caps[i] == SelfCap(accounts[i])
  {
    seq(|accounts|, i requires 0 <= i < |accounts| => SelfCap(accounts[i]))
  }

  function RestCaps(accounts: seq<CyclingAccount>, side: OrderSide): (caps: seq<real>)
    ensures |caps| == |accounts|
    ensures forall i :: 0 <= i < |caps| ==> caps[i] == accounts[i].Free(side) - SelfCap(accounts[i])
  {
    seq(|accounts|, i requires 0 <= i < |accounts| => accounts[i].Free(side) - SelfCap(accounts[i]))
  }

  function SelfTotal(accounts: seq<CyclingAccount>): real {
    Sum(SelfCaps(accounts)[..|accounts|])
  }

  /** What cycling a volume v takes from entry i on one side. */
  function Share(accounts: seq<CyclingAccount>, side: OrderSide, v: real, i: nat): real
    requires i < |accounts|
  {
    Fill(v, SelfCaps(accounts), i) + Fill(v - SelfTotal(accounts), RestCaps(accounts, side), i)
  }

  ghost predicate Drawn(start: seq<CyclingAccount>, accounts: seq<CyclingAccount>, v: real) {
    && |accounts| == |start|
    && forall side, i: nat :: i < |start| ==>
         accounts[i].Free(side) == start[i].Free(side) - Share(start, side, v, i)
  }

  lemma CapsNonNegative(accounts: seq<CyclingAccount>)
    requires NonNegative(accounts)
    ensures AllNonNegative(SelfCaps(accounts))
    ensures forall side :: AllNonNegative(RestCaps(accounts, side))
  {
    forall i | 0 <= i < |accounts| ensures accounts[i].quoteFree >= 0.0 && accounts[i].baseFree >= 0.0 {
      assert accounts[i].Free(Buy) >= 0.0 && accounts[i].Free(Sell) >= 0.0;
    }
  }

  /** While both assets are held somewhere, only the common part has been used. */
  lemma SelfPhase(start: seq<CyclingAccount>, v: real, i: nat, side: OrderSide)
    requires NonNegative(start) && v <= SelfTotal(start) && i < |start|
    ensures Share(start, side, v, i) == Fill(v, SelfCaps(start), i)
  {
    CapsNonNegative(start);
    SumMonotone(RestCaps(start, side), 0, i);
    EmptyBehind(v - SelfTotal(start), RestCaps(start, side), i);
  }

  lemma RestPhase(start: seq<CyclingAccount>, v: real, i: nat, side: OrderSide)
    requires NonNegative(start) && v >= SelfTotal(start) && i < |start|
    ensures Share(start, side, v, i) == SelfCap(start[i]) + Fill(v - SelfTotal(start), RestCaps(start, side), i)
  {
    CapsNonNegative(start);
    SumMonotone(SelfCaps(start), i + 1, |start|);
    FilledByMore(v, SelfCaps(start), i);
  }

  /** An entry holds both assets only in the first phase, and then exactly if its common part is not used up. */
  lemma HoldsBoth(start: seq<CyclingAccount>, accounts: seq<CyclingAccount>, v: real, i: nat)
    requires NonNegative(start) && Drawn(start, accounts, v) && i < |start|
    ensures Has(accounts[i], true, true) ==> v < SelfTotal(start)
    ensures v <= SelfTotal(start) ==>
              (Has(accounts[i], true, true) <==> Fill(v, SelfCaps(start), i) < SelfCap(start[i]))
  {
    var a := accounts[i];
    assert a.Free(Buy) == a.quoteFree && a.Free(Sell) == a.baseFree;
    if v >= SelfTotal(start) {
      RestPhase(start, v, i, Buy);
      RestPhase(start, v, i, Sell);
    }
    if v <= SelfTotal(start) {
      SelfPhase(start, v, i, Buy);
      SelfPhase(start, v, i, Sell);
    }
  }

  function EntryOf(p: Pair, side: OrderSide): nat {
    if side == Buy then p.buyer else p.seller
  }

  lemma DrawAt(accounts: seq<CyclingAccount>, p: Pair, side: OrderSide, j: nat)
    requires p.buyer < |accounts| && p.seller < |accounts| && j < |accounts|
    ensures Draw(accounts, p)[j].Free(side)
         == accounts[j].Free(side) - (if j == EntryOf(p, side) then p.amount else 0.0)
  {
    var bought := Spend(accounts, Buy, p.buyer, p.amount);
    assert bought[j].Free(side) == accounts[j].Free(side) - (if side == Buy && j == p.buyer then p.amount else 0.0);
  }

  /** Cycling w instead of v on a side takes the difference from entry i. */
  ghost predicate Moved(start: seq<CyclingAccount>, side: OrderSide, v: real, w: real, i: nat) {
    forall j: nat :: j < |start| ==>
      Share(start, side, w, j) == Share(start, side, v, j) + (if j == i then w - v else 0.0)
  }

  lemma DrawnStep(start: seq<CyclingAccount>, accounts: seq<CyclingAccount>, v: real, w: real, p: Pair)
    requires Drawn(start, accounts, v) && p.buyer < |start| && p.seller < |start| && w == v + p.amount
    requires Moved(start, Buy, v, w, p.buyer) && Moved(start, Sell, v, w, p.seller)
    ensures Drawn(start, Draw(accounts, p), w)
  {
    forall side, j: nat | j < |start|
      ensures Draw(accounts, p)[j].Free(side) == start[j].Free(side) - Share(start, side, w, j) {
      DrawAt(accounts, p, side, j);
      assert side == Buy || side == Sell;
    }
  }

  lemma SelfShareStep(start: seq<CyclingAccount>, v: real, w: real, i: nat, side: OrderSide, j: nat)
    requires NonNegative(start) && 0.0 <= v <= SelfTotal(start) && i < |start| && j < |start|
    requires FilledUpTo(v, SelfCaps(start), i) && Fill(v, SelfCaps(start), i) < SelfCap(start[i])
    requires v <= w && Fill(v, SelfCaps(start), i) + w - v <= SelfCap(start[i])
    ensures Share(start, side, w, j) == Share(start, side, v, j) + (if j == i then w - v else 0.0)
  {
    CapsNonNegative(start);
    FillStep(v, w - v, SelfCaps(start), i, j);
    assert v + (w - v) == w;
    SelfPhase(start, v, j, side);
    SelfPhase(start, w, j, side);
  }

  lemma SelfStep(start: seq<CyclingAccount>, accounts: seq<CyclingAccount>, v: real, w: real, p: Pair)
    requires NonNegative(start) && Drawn(start, accounts, v) && v >= 0.0
    requires p.buyer == p.seller && IsFirst(accounts, p.buyer, true, true)
    requires 0.0 <= p.amount <= accounts[p.buyer].quoteFree && p.amount <= accounts[p.buyer].baseFree
    requires w == v + p.amount
    ensures Drawn(start, Draw(accounts, p), w)
  {
    var i, caps := p.buyer, SelfCaps(start);
    HoldsBoth(start, accounts, v, i);
    assert FilledUpTo(v, caps, i) by {
      forall k: nat | k < i ensures Fill(v, caps, k) >= caps[k] {
        HoldsBoth(start, accounts, v, k);
      }
    }
    assert Fill(v, caps, i) + p.amount <= SelfCap(start[i]) by {
      SelfPhase(start, v, i, Buy);
      SelfPhase(start, v, i, Sell);
      assert accounts[i].Free(Buy) == accounts[i].quoteFree && accounts[i].Free(Sell) == accounts[i].baseFree;
    }
    forall side ensures Moved(start, side, v, w, i) {
      forall j: nat | j < |start|
        ensures Share(start, side, w, j) == Share(start, side, v, j) + (if j == i then w - v else 0.0) {
        SelfShareStep(start, v, w, i, side, j);
      }
    }
    DrawnStep(start, accounts, v, w, p);
  }

  /** With no entry holding both assets the common parts are used up. */
  lemma SelfUsedUp(start: seq<CyclingAccount>, accounts: seq<CyclingAccount>, v: real)
    requires NonNegative(start) && Drawn(start, accounts, v) && v >= 0.0 && NoneHas(accounts, true, true)
    ensures v >= SelfTotal(start)
  {
    if v < SelfTotal(start) {
      CapsNonNegative(start);
      forall k: nat | k < |start| ensures Fill(v, SelfCaps(start), k) >= SelfCaps(start)[k] {
        HoldsBoth(start, accounts, v, k);
      }
      FilledFront(v, SelfCaps(start), |start|);
    }
  }

  lemma RestShareStep(start: seq<CyclingAccount>, v: real, w: real, i: nat, side: OrderSide, j: nat)
    requires NonNegative(start) && SelfTotal(start) <= v <= w && i < |start| && j < |start|
    requires var rest, caps := v - SelfTotal(start), RestCaps(start, side);
             FilledUpTo(rest, caps, i) && Fill(rest, caps, i) < caps[i] && Fill(rest, caps, i) + w - v <= caps[i]
    ensures Share(start, side, w, j) == Share(start, side, v, j) + (if j == i then w - v else 0.0)
  {
    CapsNonNegative(start);
    var rest := v - SelfTotal(start);
    FillStep(rest, w - v, RestCaps(start, side), i, j);
    assert rest + (w - v) == w - SelfTotal(start);
    RestPhase(start, v, j, side);
    RestPhase(start, w, j, side);
  }

  /** What an entry holds in the second phase. */
  lemma HoldsRest(start: seq<CyclingAccount>, accounts: seq<CyclingAccount>, v: real, side: OrderSide, k: nat)
    requires NonNegative(start) && Drawn(start, accounts, v) && v >= SelfTotal(start) && k < |start|
    ensures accounts[k].Free(side)
         == RestCaps(start, side)[k] - Fill(v - SelfTotal(start), RestCaps(start, side), k)
  {
    RestPhase(start, v, k, side);
  }

  lemma FirstHolder(accounts: seq<CyclingAccount>, p: Pair, side: OrderSide)
    requires IsFirst(accounts, p.buyer, true, false) && IsFirst(accounts, p.seller, false, true)
    ensures var i := EntryOf(p, side);
            i < |accounts| && accounts[i].Free(side) > 0.0 && forall k :: 0 <= k < i ==> accounts[k].Free(side) <= 0.0
  {
    forall k | 0 <= k < EntryOf(p, side) ensures accounts[k].Free(side) <= 0.0 {
      assert !Has(accounts[k], side == Buy, side == Sell);
    }
  }

  lemma FrontUsedUp(start: seq<CyclingAccount>, accounts: seq<CyclingAccount>, v: real, side: OrderSide, i: nat)
    requires NonNegative(start) && Drawn(start, accounts, v) && v >= SelfTotal(start) && i < |start|
    requires forall k :: 0 <= k < i ==> accounts[k].Free(side) <= 0.0
    ensures FilledUpTo(v - SelfTotal(start), RestCaps(start, side), i)
  {
    forall k: nat | k < i
      ensures Fill(v - SelfTotal(start), RestCaps(start, side), k) >= RestCaps(start, side)[k] {
      HoldsRest(start, accounts, v, side, k);
    }
  }

  /** One side of a hedge pair. */
  lemma HedgeSide(start: seq<CyclingAccount>, accounts: seq<CyclingAccount>, v: real, w: real, side: OrderSide, i: nat)
    requires NonNegative(start) && Drawn(start, accounts, v) && SelfTotal(start) <= v <= w
    requires i < |start| && accounts[i].Free(side) > 0.0 && w - v <= accounts[i].Free(side)
    requires forall k :: 0 <= k < i ==> accounts[k].Free(side) <= 0.0
    ensures Moved(start, side, v, w, i)
  {
    FrontUsedUp(start, accounts, v, side, i);
    HoldsRest(start, accounts, v, side, i);
    forall j: nat | j < |start|
      ensures Share(start, side, w, j) == Share(start, side, v, j) + (if j == i then w - v else 0.0) {
      RestShareStep(start, v, w, i, side, j);
    }
  }

  lemma HedgeStep(start: seq<CyclingAccount>, accounts: seq<CyclingAccount>, v: real, w: real, p: Pair)
    requires NonNegative(start) && Drawn(start, accounts, v) && v >= SelfTotal(start)
    requires IsFirst(accounts, p.buyer, true, false) && IsFirst(accounts, p.seller, false, true)
    requires 0.0 <= p.amount <= accounts[p.buyer].Free(Buy) && p.amount <= accounts[p.seller].Free(Sell)
    requires w == v + p.amount
    ensures Drawn(start, Draw(accounts, p), w)
  {
    assert Moved(start, Buy, v, w, p.buyer) by {
      FirstHolder(accounts, p, Buy);
      HedgeSide(start, accounts, v, w, Buy, p.buyer);
    }
    assert Moved(start, Sell, v, w, p.seller) by {
      FirstHolder(accounts, p, Sell);
      HedgeSide(start, accounts, v, w, Sell, p.seller);
    }
    DrawnStep(start, accounts, v, w, p);
  }

  lemma HedgePair(start: seq<CyclingAccount>, accounts: seq<CyclingAccount>, v: real, w: real, limit: real, p: Pair)
    requires NonNegative(start) && Drawn(start, accounts, v) && v >= 0.0 && w == v + p.amount
    requires limit > 0.0 && GreedyPair(accounts, limit, p) && NoneHas(accounts, true, true)
    ensures Drawn(start, Draw(accounts, p), w)
  {
    GreedyPairAmount(accounts, limit, p);
    SelfUsedUp(start, accounts, v);
    HedgeStep(start, accounts, v, w, p);
  }

  lemma SelfPair(start: seq<CyclingAccount>, accounts: seq<CyclingAccount>, v: real, w: real, limit: real, p: Pair)
    requires NonNegative(start) && Drawn(start, accounts, v) && v >= 0.0 && w == v + p.amount
    requires limit > 0.0 && GreedyPair(accounts, limit, p) && !NoneHas(accounts, true, true)
    ensures Drawn(start, Draw(accounts, p), w)
  {
    GreedyPairAmount(accounts, limit, p);
    SelfStep(start, accounts, v, w, p);
  }

  lemma NothingDrawn(start: seq<CyclingAccount>)
    requires NonNegative(start)
    ensures Drawn(start, start, 0.0)
  {
    CapsNonNegative(start);
    forall side, i: nat | i < |start| ensures Share(start, side, 0.0, i) == 0.0 {
      SumMonotone(SelfCaps(start), 0, i);
      SumMonotone(SelfCaps(start), 0, |start|);
      SelfPhase(start, 0.0, i, side);
      EmptyBehind(0.0, SelfCaps(start), i);
    }
  }

  lemma LastPair(s: State, hint: real, p: Pair)
    requires hint >= 1.0 && s.remaining > EPSILON && GreedyPair(s.accounts, Limit(s.remaining, hint), p)
    ensures Max(s.remaining - p.amount * 2.0, 0.0) == s.remaining - p.amount * 2.0
  {
    GreedyPairAmount(s.accounts, Limit(s.remaining, hint), p);
  }

  /** A greedy run that cycles v on each side takes from every entry exactly its share of v, whatever the hint. */
  lemma {:induction false} CyclingTakesShares(accounts: seq<CyclingAccount>, gap: real, hint: real, pairs: seq<Pair>,
                                              v: real)
    requires NonNegative(accounts) && hint >= 1.0 && gap >= 0.0 && GreedyRun(accounts, gap, hint, pairs)
    requires After(accounts, gap, pairs).remaining == gap - v * 2.0
    ensures Drawn(accounts, After(accounts, gap, pairs).accounts, v)
  {
    if pairs == [] {
      NothingDrawn(accounts);
    } else {
      var front, p := pairs[..|pairs| - 1], pairs[|pairs| - 1];
      var s, u := After(accounts, gap, front), v - p.amount;
      assert s.remaining == gap - u * 2.0 by { LastPair(s, hint, p); }
      assert Drawn(accounts, s.accounts, u) by { CyclingTakesShares(accounts, gap, hint, front, u); }
      assert u >= 0.0 by { RunStaysInRange(accounts, gap, hint, front); }
      assert u + p.amount == v;
      assert Drawn(accounts, Draw(s.accounts, p), v) by {
        if NoneHas(s.accounts, true, true) {
          HedgePair(accounts, s.accounts, u, v, Limit(s.remaining, hint), p);
        } else {
          SelfPair(accounts, s.accounts, u, v, Limit(s.remaining, hint), p);
        }
      }
    }
  }

  /** Cycling more never takes less from an entry. */
  lemma ShareMonotone(accounts: seq<CyclingAccount>, side: OrderSide, v: real, w: real, i: nat)
    requires v <= w && i < |accounts|
    ensures Share(accounts, side, v, i) <= Share(accounts, side, w, i)
  {
  }

  // ---------------------------------------------------------------- the volume one account cycles

  /** What full slices leave of a gap and the loop no longer bothers with; anything more is cycled to the end. */
  function Leftover(gap: real, hint: real): (rest: real)
    requires hint >= 1.0 && gap >= 0.0
    ensures 0.0 <= rest <= gap && rest <= EPSILON && (gap > 2.0 * hint ==> rest <= gap - 2.0 * hint)
    decreases gap
  {
    if gap > 2.0 * hint then Leftover(gap - 2.0 * hint, hint) else if gap <= EPSILON then gap else 0.0
  }

  /** The volume a single account cycles: all it holds of both assets, or what full slices make of half the gap. */
  function OneAccountVolume(a: CyclingAccount, gap: real, hint: real): real
    requires hint >= 1.0 && gap >= 0.0
  {
    Min(SelfCap(a), (gap - Leftover(gap, hint)) / 2.0)
  }

  /** Before the account is empty the volume left has the same leftover; once it is, that much at least is left. */
  predicate OnTrack(a: CyclingAccount, now: CyclingAccount, gap: real, hint: real, remaining: real)
    requires hint >= 1.0 && gap >= 0.0 && remaining >= 0.0
  {
    && now.quoteFree == a.quoteFree - (gap - remaining) / 2.0 && now.baseFree == a.baseFree - (gap - remaining) / 2.0
    && (gap - remaining) / 2.0 <= SelfCap(a)
    && (|| Leftover(remaining, hint) == Leftover(gap, hint)
        || ((gap - remaining) / 2.0 == SelfCap(a) && remaining >= Leftover(gap, hint)))
  }

  lemma OnePairOn(accounts: seq<CyclingAccount>, limit: real, p: Pair)
    requires |accounts| == 1 && GreedyPair(accounts, limit, p)
    ensures p.buyer == p.seller == 0 && Has(accounts[0], true, true)
    ensures p.amount == Min(limit, SelfCap(accounts[0]))
    ensures Draw(accounts, p)[0].quoteFree == accounts[0].quoteFree - p.amount
    ensures Draw(accounts, p)[0].baseFree == accounts[0].baseFree - p.amount
  {
    assert Has(accounts[0], true, true);
  }

  lemma StaysOnTrack(a: CyclingAccount, now: CyclingAccount, gap: real, hint: real, remaining: real, x: real,
                     next: CyclingAccount)
    requires hint >= 1.0 && EPSILON < remaining <= gap && OnTrack(a, now, gap, hint, remaining)
    requires Has(now, true, true) && x == Min(Limit(remaining, hint), SelfCap(now))
    requires next.quoteFree == now.quoteFree - x && next.baseFree == now.baseFree - x
    ensures remaining - x * 2.0 >= 0.0 && OnTrack(a, next, gap, hint, remaining - x * 2.0)
  {
    var left := remaining - x * 2.0;
    assert SelfCap(now) == SelfCap(a) - (gap - remaining) / 2.0;
    if x == Limit(remaining, hint) {
      assert Leftover(left, hint) == Leftover(remaining, hint);
    }
  }

  lemma {:induction false} OneAccountOnTrack(a: CyclingAccount, gap: real, hint: real, pairs: seq<Pair>)
    requires NonNegative([a]) && hint >= 1.0 && gap >= 0.0 && GreedyRun([a], gap, hint, pairs)
    ensures var s := After([a], gap, pairs);
            0.0 <= s.remaining <= gap && OnTrack(a, s.accounts[0], gap, hint, s.remaining)
  {
    if pairs == [] {
      assert [a][0].Free(Buy) >= 0.0 && [a][0].Free(Sell) >= 0.0;
    } else {
      var front, p := pairs[..|pairs| - 1], pairs[|pairs| - 1];
      var s := After([a], gap, front);
      OneAccountOnTrack(a, gap, hint, front);
      OnePairOn(s.accounts, Limit(s.remaining, hint), p);
      StaysOnTrack(a, s.accounts[0], gap, hint, s.remaining, p.amount, Draw(s.accounts, p)[0]);
    }
  }

  /** A finished run on one account cycles exactly that volume. */
  lemma OneAccountCycles(a: CyclingAccount, gap: real, hint: real, pairs: seq<Pair>)
    requires NonNegative([a]) && hint >= 1.0 && gap >= 0.0 && GreedyRun([a], gap, hint, pairs)
    requires Finished(After([a], gap, pairs))
    ensures After([a], gap, pairs).remaining == gap - OneAccountVolume(a, gap, hint) * 2.0
  {
    OneAccountOnTrack(a, gap, hint, pairs);
  }
}
