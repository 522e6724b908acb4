/**
  The request limiter of one RPC endpoint (src/backend/workerCore.ts, reserveSolanaRpcRequestSlot and
  pushSolanaRpcRequestCooldown).  Every call appends to a promise chain; a link runs when the link before it
  has resolved, computes its slot from the clock and the resolved time, and resolves no earlier than its slot.
  Calls, clock ticks and links may interleave in any way.
*/
module RpcSlots {
  import opened Radix

  /** A link of the chain, with the time of the call that appended it. */
  datatype Link = Reserve(calledAt: nat) | Cooldown(calledAt: nat, ms: nat)

  datatype Slot = Slot(link: nat, at: nat)

  datatype Release = Release(link: nat, at: nat)

  /**
    `resolved` links are done and `available` is what the last of them resolved to.  `waiting` says that
    link number `resolved` has been given the last slot and its caller still waits.
  */
  datatype Chain = Chain(
    clock: nat,
    links: seq<Link>,
    resolved: nat,
    available: nat,
    waiting: bool,
    slots: seq<Slot>,
    releases: seq<Release>)

  datatype Step =
    | Tick(ms: nat)
    | CallReserve
    | CallCooldown(cooldown: nat)
    | Schedule
    | Resolve

  function Max(a: nat, b: nat): nat { if a >= b then a else b }

  function Start(now: nat): Chain {
    Chain(now, [], 0, 0, false, [], [])
  }

  predicate Enabled(c: Chain, s: Step) {
    match s
    case Schedule => !c.waiting && c.resolved < |c.links| && c.links[c.resolved].Reserve?
    case Resolve =>
      && c.resolved < |c.links|
      && (c.links[c.resolved].Reserve? ==> c.waiting && c.slots != [] && c.clock >= c.slots[|c.slots| - 1].at)
    case _ => true
  }

  /** The first call of all starts the chain at the current time. */
  function Appended(c: Chain, link: Link): Chain {
    c.(links := c.links + [link], available := if c.links == [] then c.clock else c.available)
  }

  function Next(c: Chain, s: Step, interval: nat): Chain
    requires Enabled(c, s)
  {
    match s
    case Tick(ms) => c.(clock := c.clock + ms)
    case CallReserve => Appended(c, Reserve(c.clock))
    case CallCooldown(cooldown) => Appended(c, Cooldown(c.clock, cooldown))
    case Schedule => c.(waiting := true, slots := c.slots + [Slot(c.resolved, Max(c.clock, c.available))])
    case Resolve =>
      var link := c.links[c.resolved];
      if link.Reserve? then
        c.(waiting := false, resolved := c.resolved + 1, available := c.slots[|c.slots| - 1].at + interval,
           releases := c.releases + [Release(c.resolved, c.clock)])
      else
        c.(resolved := c.resolved + 1, available := Max(c.available, link.calledAt + link.ms))
  }

  // ---------------------------------------------------------------- the invariant

  ghost predicate Shape(c: Chain) {
    && c.resolved <= |c.links|
    && (c.waiting ==> c.resolved < |c.links| && c.links[c.resolved].Reserve?
                      && c.slots != [] && c.slots[|c.slots| - 1].link == c.resolved)
    && (forall i :: 0 <= i < |c.links| ==> c.links[i].calledAt <= c.clock)
    && (forall i :: 0 <= i < |c.slots| ==>
          && c.slots[i].link < c.resolved + (if c.waiting then 1 else 0) && c.slots[i].link < |c.links|
          && c.links[c.slots[i].link].Reserve? && c.links[c.slots[i].link].calledAt <= c.slots[i].at)
    && (!c.waiting && c.slots != [] ==> c.slots[|c.slots| - 1].link < c.resolved)
  }

  /** Slots follow the queue and are an interval apart; the chain's time is an interval after the last one. */
  ghost predicate Spaced(c: Chain, interval: nat) {
    && (forall i :: 0 <= i < |c.slots| - 1 ==>
          c.slots[i].link < c.slots[i + 1].link && c.slots[i].at + interval <= c.slots[i + 1].at)
    && (c.slots != [] ==>
          if c.waiting then c.available <= c.slots[|c.slots| - 1].at
          else c.slots[|c.slots| - 1].at + interval <= c.available)
  }

  predicate IsCooldown(c: Chain, i: nat) {
    i < |c.links| && c.links[i].Cooldown?
  }

  function CooldownEnd(c: Chain, i: nat): nat
    requires IsCooldown(c, i)
  {
    c.links[i].calledAt + c.links[i].ms
  }

  /** A cooldown holds back every slot behind it. */
  ghost predicate Cooled(c: Chain) {
    && (forall i: nat :: IsCooldown(c, i) && i < c.resolved ==> CooldownEnd(c, i) <= c.available)
    && (forall i: nat, k :: IsCooldown(c, i) && 0 <= k < |c.slots| && i < c.slots[k].link ==>
          CooldownEnd(c, i) <= c.slots[k].at)
  }

  ghost predicate HasSlot(c: Chain, i: int) {
    exists k :: 0 <= k < |c.slots| && c.slots[k].link == i
  }

  /** Every resolved reservation had its slot. */
  ghost predicate Slotted(c: Chain) {
    forall i :: 0 <= i < c.resolved <= |c.links| && c.links[i].Reserve? ==> HasSlot(c, i)
  }

  ghost predicate HasSlotBy(c: Chain, r: Release) {
    exists k :: 0 <= k < |c.slots| && c.slots[k].link == r.link && c.slots[k].at <= r.at
  }

  /** Every released caller had a slot no later than its release. */
  ghost predicate Released(c: Chain) {
    forall m :: 0 <= m < |c.releases| ==> c.releases[m].link < c.resolved && HasSlotBy(c, c.releases[m])
  }

  ghost predicate Served(c: Chain) {
    Slotted(c) && Released(c)
  }

  ghost predicate Inv(c: Chain, interval: nat) {
    Shape(c) && Spaced(c, interval) && Cooled(c) && Served(c)
  }

  lemma ShapeKept(c: Chain, s: Step, interval: nat)
    requires Shape(c) && Enabled(c, s)
    ensures Shape(Next(c, s, interval))
  {
  }

  lemma SpacedKept(c: Chain, s: Step, interval: nat)
    requires Shape(c) && Spaced(c, interval) && Enabled(c, s)
    ensures Spaced(Next(c, s, interval), interval)
  {
  }

  lemma CooledKept(c: Chain, s: Step, interval: nat)
    requires Shape(c) && Spaced(c, interval) && Cooled(c) && Enabled(c, s)
    ensures Cooled(Next(c, s, interval))
  {
    var n := Next(c, s, interval);
    forall i: nat | IsCooldown(n, i) && i < n.resolved ensures CooldownEnd(n, i) <= n.available {
      if i < |c.links| {
        assert IsCooldown(c, i) && CooldownEnd(n, i) == CooldownEnd(c, i);
      }
    }
    forall i: nat, k | IsCooldown(n, i) && 0 <= k < |n.slots| && i < n.slots[k].link
      ensures CooldownEnd(n, i) <= n.slots[k].at {
      assert IsCooldown(c, i) && CooldownEnd(n, i) == CooldownEnd(c, i);
    }
  }

  lemma SlottedKept(c: Chain, s: Step, interval: nat)
    requires Shape(c) && Slotted(c) && Enabled(c, s)
    ensures Slotted(Next(c, s, interval))
  {
    var n := Next(c, s, interval);
    assert forall k :: 0 <= k < |c.slots| ==> n.slots[k] == c.slots[k];
    forall i | 0 <= i < n.resolved <= |n.links| && n.links[i].Reserve? ensures HasSlot(n, i) {
      if i == c.resolved {
        assert n.slots[|n.slots| - 1].link == i;
      } else {
        assert n.links[i] == c.links[i] && HasSlot(c, i);
        var k :| 0 <= k < |c.slots| && c.slots[k].link == i;
        assert n.slots[k].link == i;
      }
    }
  }

  lemma ReleasedKept(c: Chain, s: Step, interval: nat)
    requires Shape(c) && Released(c) && Enabled(c, s)
    ensures Released(Next(c, s, interval))
  {
    var n := Next(c, s, interval);
    assert forall k :: 0 <= k < |c.slots| ==> n.slots[k] == c.slots[k];
    forall m | 0 <= m < |n.releases| ensures n.releases[m].link < n.resolved && HasSlotBy(n, n.releases[m]) {
      var r := n.releases[m];
      if m < |c.releases| {
        assert r == c.releases[m] && HasSlotBy(c, r);
        var k :| 0 <= k < |c.slots| && c.slots[k].link == r.link && c.slots[k].at <= r.at;
        assert n.slots[k].link == r.link && n.slots[k].at <= r.at;
      } else {
        var k := |n.slots| - 1;
        assert n.slots[k].link == r.link && n.slots[k].at <= r.at;
      }
    }
  }

  ghost predicate Steps(c: Chain, d: Chain, interval: nat) {
    exists s :: Enabled(c, s) && d == Next(c, s, interval)
  }

  /** Chains that follow one another, each by one enabled step. */
  ghost predicate Run(cs: seq<Chain>, interval: nat) {
    && cs != [] && cs[0] == Start(cs[0].clock)
    && forall i, j :: 0 <= i && j == i + 1 < |cs| ==> Steps(cs[i], cs[j], interval)
  }

  lemma StepKeepsInv(c: Chain, s: Step, interval: nat)
    requires Inv(c, interval) && Enabled(c, s)
    ensures Inv(Next(c, s, interval), interval)
  {
    ShapeKept(c, s, interval);
    SpacedKept(c, s, interval);
    CooledKept(c, s, interval);
    SlottedKept(c, s, interval);
    ReleasedKept(c, s, interval);
  }

  lemma StepsKeepInv(c: Chain, d: Chain, interval: nat)
    requires Inv(c, interval) && Steps(c, d, interval)
    ensures Inv(d, interval)
  {
    var s :| Enabled(c, s) && d == Next(c, s, interval);
    StepKeepsInv(c, s, interval);
  }

  lemma {:induction false} RunKeepsInv(cs: seq<Chain>, interval: nat, i: nat)
    requires Run(cs, interval) && i < |cs|
    ensures Inv(cs[i], interval)
  {
    if i > 0 {
      RunKeepsInv(cs, interval, i - 1);
      StepsKeepInv(cs[i - 1], cs[i], interval);
    }
  }

  // ---------------------------------------------------------------- the promises

  lemma {:induction false} SlotsApart(c: Chain, interval: nat, i: nat, k: nat)
    requires Spaced(c, interval) && i + k < |c.slots|
    ensures c.slots[i].at + k * interval <= c.slots[i + k].at
    ensures k > 0 ==> c.slots[i].link < c.slots[i + k].link
  {
    if k > 0 {
      SlotsApart(c, interval, i, k - 1);
      MulDistributes(interval, k, 1);
      assert c.slots[i + k - 1].at + interval <= c.slots[(i + k - 1) + 1].at;
    }
  }

  /** Under any interleaving, slots follow the order of the calls and are at least the interval apart. */
  lemma SlotSpacing(cs: seq<Chain>, interval: nat, n: nat, i: nat, k: nat)
    requires Run(cs, interval) && n < |cs| && i + k < |cs[n].slots|
    ensures k > 0 ==> cs[n].slots[i].link < cs[n].slots[i + k].link
    ensures cs[n].slots[i].at + k * interval <= cs[n].slots[i + k].at
  {
    RunKeepsInv(cs, interval, n);
    SlotsApart(cs[n], interval, i, k);
  }

  /** Two calls at time 0, the first of them served at once and the second waiting for its slot. */
  function TwoCallers(interval: nat): seq<Chain> {
    var links := [Reserve(0), Reserve(0)];
    [Start(0),
     Chain(0, [Reserve(0)], 0, 0, false, [], []),
     Chain(0, links, 0, 0, false, [], []),
     Chain(0, links, 0, 0, true, [Slot(0, 0)], []),
     Chain(0, links, 1, interval, false, [Slot(0, 0)], [Release(0, 0)]),
     Chain(0, links, 1, interval, true, [Slot(0, 0), Slot(1, interval)], [Release(0, 0)])]
  }

  /** The distance is tight: of two callers at once, the second waits exactly one interval. */
  lemma SpacingIsTight(interval: nat)
    ensures var cs := TwoCallers(interval);
            Run(cs, interval) && cs[5].slots == [Slot(0, 0), Slot(1, interval)]
  {
    var cs := TwoCallers(interval);
    assert cs[1] == Next(cs[0], CallReserve, interval);
    assert cs[2] == Next(cs[1], CallReserve, interval);
    assert cs[3] == Next(cs[2], Schedule, interval);
    assert cs[4] == Next(cs[3], Resolve, interval);
    assert cs[5] == Next(cs[4], Schedule, interval);
    forall i, j | 0 <= i && j == i + 1 < 6 ensures Steps(cs[i], cs[j], interval) {
      assert i == 0 || i == 1 || i == 2 || i == 3 || i == 4;
    }
  }

  /** What the chain's time is: the first call's, an interval after the last slot, or the end of a resolved cooldown. */
  ghost predicate Attained(c: Chain, interval: nat) {
    c.links != [] && !c.waiting ==>
      || c.available == c.links[0].calledAt
      || (c.slots != [] && c.available == c.slots[|c.slots| - 1].at + interval)
      || exists i: nat :: i < c.resolved && IsCooldown(c, i) && c.available == c.links[i].calledAt + c.links[i].ms
  }

  lemma AttainedKept(c: Chain, s: Step, interval: nat)
    requires Shape(c) && Attained(c, interval) && Enabled(c, s)
    ensures Attained(Next(c, s, interval), interval)
  {
    var n := Next(c, s, interval);
    if c.links != [] && !c.waiting {
      if i: nat :| i < c.resolved && IsCooldown(c, i) && c.available == c.links[i].calledAt + c.links[i].ms {
        assert IsCooldown(n, i) && n.links[i] == c.links[i];
      }
    }
    if s.Resolve? && c.links[c.resolved].Cooldown? {
      assert IsCooldown(n, c.resolved);
    }
  }

  lemma StepsKeepAttained(c: Chain, d: Chain, interval: nat)
    requires Shape(c) && Attained(c, interval) && Steps(c, d, interval)
    ensures Attained(d, interval)
  {
    var s :| Enabled(c, s) && d == Next(c, s, interval);
    AttainedKept(c, s, interval);
  }

  lemma {:induction false} RunAttained(cs: seq<Chain>, interval: nat, n: nat)
    requires Run(cs, interval) && n < |cs|
    ensures Attained(cs[n], interval)
  {
    if n > 0 {
      RunAttained(cs, interval, n - 1);
      RunKeepsInv(cs, interval, n - 1);
      StepsKeepAttained(cs[n - 1], cs[n], interval);
    }
  }

  /**
    No slot is later than it must be: it is given for the current time, or exactly an interval after the slot before,
    or for exactly the end of a cooldown in front of it.
  */
  lemma SlotIsEarliest(cs: seq<Chain>, interval: nat, n: nat, slot: Slot)
    requires Run(cs, interval) && n + 1 < |cs| && cs[n + 1].slots == cs[n].slots + [slot]
    ensures var c := cs[n];
            || slot.at == c.clock
            || (c.slots != [] && slot.at == c.slots[|c.slots| - 1].at + interval)
            || exists i: nat :: i < slot.link && IsCooldown(c, i) && slot.at == c.links[i].calledAt + c.links[i].ms
  {
    var c, d := cs[n], cs[n + 1];
    RunKeepsInv(cs, interval, n);
    RunAttained(cs, interval, n);
    assert Steps(c, d, interval);
    var s :| Enabled(c, s) && d == Next(c, s, interval);
    assert |d.slots| == |c.slots| + 1 && d.slots[|c.slots|] == slot;
    assert s.Schedule?;
    assert c.links[0].calledAt <= c.clock;
  }

  /** At one time a call is made and served, a cooldown pushed, and another call made, which waits for both. */
  function CooledCaller(now: nat, interval: nat, ms: nat): seq<Chain> {
    var links := [Reserve(now), Cooldown(now, ms), Reserve(now)];
    var slots := [Slot(0, now), Slot(2, now + Max(interval, ms))];
    [Start(now),
     Chain(now, links[..1], 0, now, false, [], []),
     Chain(now, links[..2], 0, now, false, [], []),
     Chain(now, links, 0, now, false, [], []),
     Chain(now, links, 0, now, true, slots[..1], []),
     Chain(now, links, 1, now + interval, false, slots[..1], [Release(0, now)]),
     Chain(now, links, 2, now + Max(interval, ms), false, slots[..1], [Release(0, now)]),
     Chain(now, links, 2, now + Max(interval, ms), true, slots, [Release(0, now)])]
  }

  /** The caller behind a cooldown waits exactly for its end, or for the interval if that is longer. */
  lemma CooldownIsTight(now: nat, interval: nat, ms: nat)
    ensures var cs := CooledCaller(now, interval, ms);
            && Run(cs, interval)
            && cs[7].slots == [Slot(0, now), Slot(2, now + if ms >= interval then ms else interval)]
  {
    var cs := CooledCaller(now, interval, ms);
    assert cs[1] == Next(cs[0], CallReserve, interval);
    assert cs[2] == Next(cs[1], CallCooldown(ms), interval);
    assert cs[3] == Next(cs[2], CallReserve, interval);
    assert cs[4] == Next(cs[3], Schedule, interval);
    assert cs[5] == Next(cs[4], Resolve, interval);
    assert cs[6] == Next(cs[5], Resolve, interval);
    assert cs[7] == Next(cs[6], Schedule, interval);
    forall i, j | 0 <= i && j == i + 1 < 8 ensures Steps(cs[i], cs[j], interval) {
      assert i == 0 || i == 1 || i == 2 || i == 3 || i == 4 || i == 5 || i == 6;
    }
  }

  lemma QuotientBound(k: nat, interval: nat, t: nat)
    requires interval > 0 && k * interval <= t
    ensures k <= t / interval
  {
    if interval > 1 {
      DivMod(t, interval);
      if k > t / interval {
        MulMonotone(interval, t / interval + 1, k);
        MulDistributes(interval, t / interval, 1);
      }
    }
  }

  /** Any closed window of t milliseconds holds at most t / interval + 1 slots: here k + 1 of them from the i-th on. */
  lemma WindowBound(cs: seq<Chain>, interval: nat, n: nat, from: nat, t: nat, i: nat, k: nat)
    requires Run(cs, interval) && interval > 0 && n < |cs| && i + k < |cs[n].slots|
    requires from <= cs[n].slots[i].at && cs[n].slots[i + k].at <= from + t
    ensures k + 1 <= t / interval + 1
  {
    WindowSpan(cs, interval, n, from, t, i, k);
    QuotientBound(k, interval, t);
  }

  lemma WindowSpan(cs: seq<Chain>, interval: nat, n: nat, from: nat, t: nat, i: nat, k: nat)
    requires Run(cs, interval) && n < |cs| && i + k < |cs[n].slots|
    requires from <= cs[n].slots[i].at && cs[n].slots[i + k].at <= from + t
    ensures k * interval <= t
  {
    SlotSpacing(cs, interval, n, i, k);
  }

  lemma OneSlotPerLink(c: Chain, interval: nat, j: nat, k: nat)
    requires Spaced(c, interval) && j < |c.slots| && k < |c.slots| && c.slots[j].link == c.slots[k].link
    ensures j == k
  {
    if j < k { SlotsApart(c, interval, j, k - j); } else if k < j { SlotsApart(c, interval, k, j - k); }
  }

  /** No caller is released before its slot. */
  lemma ReleasedAfterSlot(cs: seq<Chain>, interval: nat, n: nat, m: nat, k: nat)
    requires Run(cs, interval) && n < |cs| && m < |cs[n].releases| && k < |cs[n].slots|
    requires cs[n].slots[k].link == cs[n].releases[m].link
    ensures cs[n].slots[k].at <= cs[n].releases[m].at
  {
    RunKeepsInv(cs, interval, n);
    var c := cs[n];
    var j :| 0 <= j < |c.slots| && c.slots[j].link == c.releases[m].link && c.slots[j].at <= c.releases[m].at;
    OneSlotPerLink(c, interval, j, k);
  }

  /** A reservation queued behind a cooldown of c pushed at time t is scheduled at or after t + c. */
  lemma CooldownRespected(cs: seq<Chain>, interval: nat, n: nat, i: nat, k: nat)
    requires Run(cs, interval) && n < |cs| && IsCooldown(cs[n], i)
    requires k < |cs[n].slots| && i < cs[n].slots[k].link
    ensures CooldownEnd(cs[n], i) <= cs[n].slots[k].at
  {
    RunKeepsInv(cs, interval, n);
  }

  /** Every resolved reservation had exactly one slot, not before its call. */
  lemma ServedOnce(cs: seq<Chain>, interval: nat, n: nat, i: nat)
    requires Run(cs, interval) && n < |cs| && i < cs[n].resolved <= |cs[n].links| && cs[n].links[i].Reserve?
    ensures exists k :: 0 <= k < |cs[n].slots| && cs[n].slots[k].link == i
                        && cs[n].links[i].calledAt <= cs[n].slots[k].at
    ensures forall j, k :: 0 <= j < |cs[n].slots| && 0 <= k < |cs[n].slots| ==>
                             (cs[n].slots[j].link == i == cs[n].slots[k].link ==> j == k)
  {
    var c := cs[n];
    RunKeepsInv(cs, interval, n);
    var k :| 0 <= k < |c.slots| && c.slots[k].link == i;
    assert c.links[c.slots[k].link].calledAt <= c.slots[k].at;
    forall j, k | 0 <= j < |c.slots| && 0 <= k < |c.slots| && c.slots[j].link == i == c.slots[k].link ensures j == k {
      OneSlotPerLink(c, interval, j, k);
    }
  }

  // ---------------------------------------------------------------- intervals in force

  datatype Provider = Helius | Alchemy | Other

  function RequestsPerSecond(p: Provider): (n: nat)
    ensures n > 0
  {
    match p
    case Helius => 3
    case Alchemy => 20
    case Other => 20
  }

  function CeilDiv(a: nat, b: nat): nat
    requires b > 0
  {
    (a + b - 1) / b
  }

  function IntervalMs(p: Provider): nat { CeilDiv(1000, RequestsPerSecond(p)) }

  /**
    Helius gets at most one request in 334 milliseconds and any other provider one in 50, which keeps every second's
    closed window within the provider's rate plus one.
  */
  lemma RateRespected(p: Provider, cs: seq<Chain>, n: nat, from: nat, i: nat, k: nat)
    requires Run(cs, IntervalMs(p)) && n < |cs| && i + k < |cs[n].slots|
    requires from <= cs[n].slots[i].at && cs[n].slots[i + k].at <= from + 1000
    ensures IntervalMs(p) == if p == Helius then 334 else 50
    ensures k + 1 <= (if p == Helius then 3 else 20) + 1
  {
    assert IntervalMs(p) == if p == Helius then 334 else 50;
    WindowBound(cs, IntervalMs(p), n, from, 1000, i, k);
  }
}
