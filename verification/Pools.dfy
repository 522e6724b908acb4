/** Account pools (rust-backend/src/planner.rs): which entries a plan may use, and what they hold. */
module Pools {
  import opened Wrappers
  import opened PlannerTypes
  import opened Cycling

  /** Account ids are the key of the account table. */
  predicate DistinctIds(pool: seq<AccountSnapshot>) {
    forall i, j :: 0 <= i < j < |pool| ==> pool[i].accountId != pool[j].accountId
  }

  function Holds(pool: seq<AccountSnapshot>, side: OrderSide, j: nat): real
    requires j < |pool|
  {
    Max(pool[j].Free(side), 0.0)
  }

  /** What planning leaves in the pool. */
  predicate AllUsable(pool: seq<AccountSnapshot>) {
    forall i :: 0 <= i < |pool| ==> pool[i].Usable()
  }

  lemma {:induction false} WorkingCopyOf(pool: seq<AccountSnapshot>)
    requires AllUsable(pool)
    ensures var accounts := WorkingCopy(pool);
            |accounts| == |pool| && NonNegative(accounts)
            && forall i :: 0 <= i < |pool| ==>
                 accounts[i].accountId == pool[i].accountId
                 && forall side :: accounts[i].Free(side) == Holds(pool, side, i)
  {
    if pool != [] {
      var front := pool[..|pool| - 1];
      WorkingCopyOf(front);
      forall i, side | 0 <= i < |front| ensures Holds(pool, side, i) == Holds(front, side, i) {
        assert pool[i] == front[i];
      }
    }
  }

  lemma {:induction false} HeldByOthers(accounts: seq<CyclingAccount>, side: OrderSide, id: string)
    requires forall i :: 0 <= i < |accounts| ==> accounts[i].accountId != id
    ensures Held(accounts, side, Some(id)) == 0.0
  {
    if accounts != [] {
      HeldByOthers(accounts[..|accounts| - 1], side, id);
    }
  }

  /** With distinct ids, what an id holds is what its entry holds. */
  lemma {:induction false} HeldByEntry(accounts: seq<CyclingAccount>, side: OrderSide, j: nat)
    requires forall i, k :: 0 <= i < k < |accounts| ==> accounts[i].accountId != accounts[k].accountId
    requires j < |accounts|
    ensures Held(accounts, side, Some(accounts[j].accountId)) == accounts[j].Free(side)
  {
    var n := |accounts| - 1;
    if j < n {
      HeldByEntry(accounts[..n], side, j);
    } else {
      HeldByOthers(accounts[..n], side, accounts[j].accountId);
    }
  }

  lemma HeldOnPool(pool: seq<AccountSnapshot>, accounts: seq<CyclingAccount>, side: OrderSide, j: nat)
    requires DistinctIds(pool) && AllUsable(pool) && SameIds(accounts, WorkingCopy(pool)) && j < |pool|
    ensures j < |accounts| && Held(accounts, side, Some(pool[j].accountId)) == accounts[j].Free(side)
  {
    WorkingCopyOf(pool);
    HeldByEntry(accounts, side, j);
  }

  // ---------------------------------------------------------------- the usable entries of a provider's pool

  function AvailablePool(pool: seq<AccountSnapshot>): (available: seq<AccountSnapshot>)
    ensures forall a :: a in available <==> a in pool && a.Usable()
  {
    if pool == [] then []
    else
      var last := pool[|pool| - 1];
      AvailablePool(pool[..|pool| - 1]) + (if last.Usable() then [last] else [])
  }

  /** Positions in the pool, one for each entry kept. */
  ghost predicate Selects(pool: seq<AccountSnapshot>, kept: seq<AccountSnapshot>, positions: seq<nat>) {
    && |positions| == |kept|
    && (forall k :: 0 <= k < |kept| ==> positions[k] < |pool| && kept[k] == pool[positions[k]])
    && (forall k, l :: 0 <= k < l < |kept| ==> positions[k] < positions[l])
    && (forall i: nat :: i < |pool| ==>
          (i in positions <==> pool[i].isAvailable && pool[i].hasAnyAssetPairEnabled))
  }

  function UsablePositions(pool: seq<AccountSnapshot>): seq<nat> {
    if pool == [] then []
    else
      var n := |pool| - 1;
      UsablePositions(pool[..n]) + (if pool[n].Usable() then [n] else [])
  }

  lemma PositionsBelow(pool: seq<AccountSnapshot>, kept: seq<AccountSnapshot>, positions: seq<nat>, i: nat)
    requires Selects(pool, kept, positions) && i in positions
    ensures i < |pool|
  {
    var k :| 0 <= k < |positions| && positions[k] == i;
  }

  lemma SelectsOneMore(front: seq<AccountSnapshot>, last: AccountSnapshot, kept: seq<AccountSnapshot>,
                       positions: seq<nat>)
    requires Selects(front, kept, positions)
    ensures var n := |front|;
            if last.Usable() then Selects(front + [last], kept + [last], positions + [n])
            else Selects(front + [last], kept, positions)
  {
    var n, pool := |front|, front + [last];
    assert pool[n] == last && n !in positions by {
      if n in positions { PositionsBelow(front, kept, positions, n); }
    }
    forall i: nat | i < n ensures i in positions <==> pool[i].isAvailable && pool[i].hasAnyAssetPairEnabled {
      assert pool[i] == front[i];
    }
    forall k | 0 <= k < |kept| ensures positions[k] < n && kept[k] == pool[positions[k]] {
      assert kept[k] == front[positions[k]];
    }
  }

  /** The entries kept are the usable ones of the pool in its order, each once. */
  lemma {:induction false} AvailableSelects(pool: seq<AccountSnapshot>)
    ensures Selects(pool, AvailablePool(pool), UsablePositions(pool))
  {
    if pool != [] {
      var front, last := pool[..|pool| - 1], pool[|pool| - 1];
      var kept, positions := AvailablePool(front), UsablePositions(front);
      assert Selects(front, kept, positions) by { AvailableSelects(front); }
      assert pool == front + [last];
      assert AvailablePool(pool) == if last.Usable() then kept + [last] else kept;
      assert UsablePositions(pool) == if last.Usable() then positions + [|front|] else positions;
      SelectsOneMore(front, last, kept, positions);
    }
  }

  lemma PositionsInOrder(pool: seq<AccountSnapshot>, k: nat, l: nat)
    requires k < |AvailablePool(pool)| && l < |AvailablePool(pool)|
    ensures |UsablePositions(pool)| == |AvailablePool(pool)|
    ensures UsablePositions(pool)[l] < UsablePositions(pool)[k] <==> l < k
  {
    AvailableSelects(pool);
  }

  /** So distinct ids stay distinct. */
  lemma AvailableDistinct(pool: seq<AccountSnapshot>)
    requires DistinctIds(pool)
    ensures DistinctIds(AvailablePool(pool)) && AllUsable(AvailablePool(pool))
  {
    AvailableSelects(pool);
    var kept, ps := AvailablePool(pool), UsablePositions(pool);
    forall k, l | 0 <= k < l < |kept| ensures kept[k].accountId != kept[l].accountId {
      assert ps[k] < ps[l];
    }
  }

  /** The working copy makes the same selection, so cycling works on the provider's usable entries. */
  lemma {:induction false} AvailableCopy(pool: seq<AccountSnapshot>)
    ensures WorkingCopy(AvailablePool(pool)) == WorkingCopy(pool)
  {
    if pool != [] {
      var n := |pool| - 1;
      AvailableCopy(pool[..n]);
      if pool[n].Usable() {
        var kept := AvailablePool(pool);
        assert kept[..|kept| - 1] == AvailablePool(pool[..n]);
      } else {
        assert AvailablePool(pool) == AvailablePool(pool[..n]);
      }
    }
  }

  /** What planning may spend of an entry: a usable one's quote balance on buys, and its base balance on sells. */
  function Spendable(a: AccountSnapshot, side: OrderSide): real {
    if a.isAvailable && a.hasAnyAssetPairEnabled then Max(if side == Buy then a.quoteFree else a.baseFree, 0.0) else 0.0
  }

  /** What the working copy holds under the id of a provider's entry: its balance if it is usable, else nothing. */
  lemma HeldByProviderEntry(pool: seq<AccountSnapshot>, side: OrderSide, j: nat)
    requires DistinctIds(pool) && j < |pool|
    ensures Held(WorkingCopy(AvailablePool(pool)), side, Some(pool[j].accountId))
         == Spendable(pool[j], side)
  {
    var kept, ps, start := AvailablePool(pool), UsablePositions(pool), WorkingCopy(AvailablePool(pool));
    AvailableSelects(pool);
    AvailableDistinct(pool);
    WorkingCopyOf(kept);
    if pool[j].Usable() {
      assert j in ps;
      var k :| 0 <= k < |ps| && ps[k] == j;
      assert kept[k] == pool[j] && Holds(kept, side, k) == Max(pool[j].Free(side), 0.0);
      HeldOnPool(kept, start, side, k);
    } else {
      forall k | 0 <= k < |start| ensures start[k].accountId != pool[j].accountId {
        assert kept[k] == pool[ps[k]] && ps[k] in ps && ps[k] != j;
      }
      HeldByOthers(start, side, pool[j].accountId);
    }
  }

  /** What the usable entries of a pool hold together. */
  function UsableTotal(pool: seq<AccountSnapshot>, side: OrderSide): real {
    if pool == [] then 0.0
    else
      var n := |pool| - 1;
      UsableTotal(pool[..n], side) + Spendable(pool[n], side)
  }

  lemma HeldOneMore(accounts: seq<CyclingAccount>, a: CyclingAccount, side: OrderSide)
    ensures Held(accounts + [a], side, None) == Held(accounts, side, None) + a.Free(side)
  {
    assert (accounts + [a])[..|accounts|] == accounts;
  }

  lemma {:induction false} CopyHolds(pool: seq<AccountSnapshot>, side: OrderSide)
    ensures Held(WorkingCopy(pool), side, None) == UsableTotal(pool, side)
  {
    if pool != [] {
      var n := |pool| - 1;
      var last := pool[n];
      CopyHolds(pool[..n], side);
      HeldOneMore(WorkingCopy(pool[..n]),
                  CyclingAccount(last.accountId, Max(last.baseFree, 0.0), Max(last.quoteFree, 0.0)), side);
    }
  }
}
