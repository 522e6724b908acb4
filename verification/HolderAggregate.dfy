/**
  Holder aggregates (src/backend/tokenHolders.ts): the one recomputed from the live table, which looks
  wallets up in grouped accounts, and the preview computed from the stage, which joins the accounts as they are.
*/
module HolderAggregate {
  import opened Wrappers
  import opened Tables
  import opened HolderStage

  datatype AccountKind = Managed | Watch

  /** Imported accounts; the schema keeps user, type and wallet unique together. */
  datatype Account = Account(user: nat, kind: AccountKind, wallet: string)

  datatype Aggregate = Aggregate(
    active: nat,
    internal: nat,
    watched: nat,
    outsiders: nat,
    total: real,
    internalAmount: real,
    watchedAmount: real)

  predicate IsKind(accounts: set<Account>, u: nat, w: string, kind: AccountKind) {
    Account(u, kind, w) in accounts
  }

  // ---------------------------------------------------------------- recomputed from the live table

  function ManagedRows(accounts: set<Account>, u: nat, rows: HolderTable): HolderTable {
    map k | k in rows && IsKind(accounts, u, k.wallet, Managed) :: rows[k]
  }

  function WatchedRows(accounts: set<Account>, u: nat, rows: HolderTable): HolderTable {
    map k | k in rows && !IsKind(accounts, u, k.wallet, Managed) && IsKind(accounts, u, k.wallet, Watch) :: rows[k]
  }

  function ClampedDifference(a: nat, b: nat): nat { if a >= b then a - b else 0 }

  /** From the positive rows of a token; a wallet imported both ways counts as managed. */
  ghost function FromRows(accounts: set<Account>, u: nat, rows: HolderTable): Aggregate {
    var managed, watched := ManagedRows(accounts, u, rows), WatchedRows(accounts, u, rows);
    Aggregate(|rows|, |managed|, |watched|, ClampedDifference(|rows|, |managed|),
              SumOf(rows), SumOf(managed), SumOf(watched))
  }

  ghost function Recomputed(accounts: set<Account>, u: nat, holders: HolderTable, t: nat): Aggregate {
    FromRows(accounts, u, Positive(holders, t))
  }

  lemma SubtableSize<K, V>(m: map<K, V>, a: map<K, V>, b: map<K, V>)
    requires a.Keys !! b.Keys && a.Keys <= m.Keys && b.Keys <= m.Keys
    ensures |a| + |b| <= |m|
  {
    var both := a.Keys + b.Keys;
    assert |both| == |a.Keys| + |b.Keys|;
    SubsetSize(both, m.Keys);
  }

  /** Internal and watched holders are disjoint parts of the active ones, and outsiders need no clamping. */
  lemma AggregateBounds(accounts: set<Account>, u: nat, holders: HolderTable, t: nat)
    ensures var a := Recomputed(accounts, u, holders, t);
            && a.internal + a.watched <= a.active && a.outsiders == a.active - a.internal
            && a.internalAmount >= 0.0 && a.watchedAmount >= 0.0 && a.internalAmount + a.watchedAmount <= a.total
  {
    var rows := Positive(holders, t);
    var managed, watched := ManagedRows(accounts, u, rows), WatchedRows(accounts, u, rows);
    SubtableSize(rows, managed, watched);
    SumNonNegative(managed);
    SumNonNegative(watched);
    var rest := rows - managed.Keys;
    SumSplit(rows, managed.Keys);
    assert managed == (map k | k in managed.Keys && k in rows :: rows[k]);
    SumOfPart(rest, watched);
  }

  /** A sum splits along any set of keys. */
  lemma {:induction false} SumSplit<K>(m: map<K, real>, keys: set<K>)
    ensures SumOf(m) == SumOf(map k | k in keys && k in m :: m[k]) + SumOf(m - keys)
    decreases |m|
  {
    var part := map k | k in keys && k in m :: m[k];
    if m == map[] {
      assert part == map[] && m - keys == map[];
    } else {
      var k :| k in m;
      SumRemove(m, k);
      SumSplit(m - {k}, keys);
      var part' := map j | j in keys && j in m - {k} :: (m - {k})[j];
      if k in keys {
        SumRemove(part, k);
        assert part' == part - {k};
        assert m - {k} - keys == m - keys;
      } else {
        SumRemove(m - keys, k);
        assert part' == part;
        assert m - {k} - keys == (m - keys) - {k};
      }
    }
  }

  // ---------------------------------------------------------------- totals of a stage

  function ByWallet(rows: StageTable, w: string): StageTable {
    map k | k in rows && k.wallet == w :: rows[k]
  }

  function WalletSet(rows: StageTable): set<string> {
    set k | k in rows :: k.wallet
  }

  ghost function Grouped(rows: StageTable): Balances {
    map w | w in WalletSet(rows) :: SumOf(ByWallet(rows, w))
  }

  /** Grouping keeps the total. */
  lemma {:induction false} GroupedTotal(rows: StageTable)
    ensures SumOf(Grouped(rows)) == SumOf(rows)
    decreases |rows|
  {
    if rows == map[] {
      assert Grouped(rows) == map[];
    } else {
      var k :| k in rows;
      var rest := rows - {k};
      GroupedTotal(rest);
      SumRemove(rows, k);
      GroupedOneMore(rows, rest, k);
    }
  }

  lemma GroupedOneMore(rows: StageTable, rest: StageTable, k: StageKey)
    requires k in rows && rest == rows - {k}
    ensures SumOf(Grouped(rows)) == SumOf(Grouped(rest)) + rows[k]
  {
    var less, w := Grouped(rest), k.wallet;
    var sum := rows[k] + Amount(less, w);
    assert Grouped(rows) == less[w := sum] by { GroupedCells(rows, rest, k); }
    assert SumOf(less[w := sum]) == SumOf(less) + rows[k] by { SumUpdate(less, w, sum); }
  }

  lemma GroupedCells(rows: StageTable, rest: StageTable, k: StageKey)
    requires k in rows && rest == rows - {k}
    ensures WalletSet(rows) == WalletSet(rest) + {k.wallet}
    ensures Grouped(rows)[k.wallet] == rows[k] + Amount(Grouped(rest), k.wallet)
    ensures forall w :: w in WalletSet(rest) && w != k.wallet ==> Grouped(rows)[w] == Grouped(rest)[w]
  {
    forall w | w in WalletSet(rows) && w != k.wallet ensures w in WalletSet(rest) {
      var j :| j in rows && j.wallet == w;
      assert j in rest;
    }
    forall w | w != k.wallet ensures ByWallet(rows, w) == ByWallet(rest, w) {}
    var with := ByWallet(rows, k.wallet);
    SumRemove(with, k);
    assert with - {k} == ByWallet(rest, k.wallet);
    if k.wallet !in WalletSet(rest) {
      assert ByWallet(rest, k.wallet) == map[];
    }
  }

  lemma SummedIsGrouped(stage: StageTable, t: nat, r: nat)
    ensures Summed(stage, t, r) == Grouped(Slice(stage, t, r))
  {
    var slice := Slice(stage, t, r);
    forall w ensures WalletRows(stage, t, r, w) == ByWallet(slice, w) {}
    assert Wallets(stage, t, r) == WalletSet(slice);
  }

  function Chosen(sums: Balances, ws: set<string>): Balances {
    map w | w in ws && w in sums :: sums[w]
  }

  /** Positive rows of a token carry the same total as the positive sums they come from. */
  lemma RowsTotal(t: nat, sums: Balances, ws: set<string>)
    requires ws <= sums.Keys
    ensures var rows := map k | k in KeysOf(t, ws) :: sums[k.wallet];
            SumOf(rows) == SumOf(Chosen(sums, ws)) && |rows| == |ws|
  {
    var rows: HolderTable := map k | k in KeysOf(t, ws) :: sums[k.wallet];
    var to: map<HolderKey, string> := map k | k in KeysOf(t, ws) :: k.wallet;
    assert to.Values == Chosen(sums, ws).Keys by {
      forall w | w in ws ensures w in to.Values {
        assert HolderKey(t, w) in to && to[HolderKey(t, w)] == w;
      }
    }
    SumRenamed(rows, Chosen(sums, ws), to);
    KeysOfSize(t, ws);
    assert rows.Keys == KeysOf(t, ws);
  }

  lemma {:induction false} KeysOfSize(t: nat, ws: set<string>)
    ensures |KeysOf(t, ws)| == |ws|
    decreases |ws|
  {
    if ws != {} {
      var w :| w in ws;
      KeysOfSize(t, ws - {w});
      assert KeysOf(t, ws) == KeysOf(t, ws - {w}) + {HolderKey(t, w)};
    } else {
      assert KeysOf(t, ws) == {};
    }
  }

  /**
    Right after finalizing non-negative stage rows, the recomputed aggregate counts the wallets the summary
    counts, and its total is the sum of all staged rows.
  */
  lemma FinalAggregate(accounts: set<Account>, u: nat, holders: HolderTable, stage: StageTable, t: nat, r: nat)
    requires forall k :: k in stage && k.token == t && k.run == r ==> stage[k] >= 0.0
    ensures var sums := Summed(stage, t, r);
            var a := Recomputed(accounts, u, Overwritten(holders, t, sums), t);
            && a.active == |PositiveWallets(sums)|
            && a.total == SumOf(Slice(stage, t, r))
  {
    var sums := Summed(stage, t, r);
    var ws := PositiveWallets(sums);
    OverwrittenPositive(holders, t, sums);
    RowsTotal(t, sums, ws);
    forall w | w in sums ensures sums[w] >= 0.0 {
      SumNonNegative(WalletRows(stage, t, r, w));
    }
    SumDropsZeros(sums, Chosen(sums, ws));
    SummedIsGrouped(stage, t, r);
    GroupedTotal(Slice(stage, t, r));
  }

  /** The balances are those of the wallets with a positive live row. */
  ghost predicate ArePositive(balances: Balances, holders: HolderTable, t: nat) {
    && (forall w :: w in balances <==> HolderKey(t, w) in holders && holders[HolderKey(t, w)] > 0.0)
    && forall w :: w in balances ==> balances[w] == holders[HolderKey(t, w)]
  }

  /** The part belongs to the wallets the user has a managed row of. */
  ghost predicate AreManaged(part: Balances, balances: Balances, accounts: set<Account>, u: nat) {
    && (forall w :: w in part <==> w in balances && Account(u, Managed, w) in accounts)
    && forall w :: w in part ==> part[w] == balances[w]
  }

  /** The part belongs to the wallets the user has a watch row of, and no managed one. */
  ghost predicate AreWatched(part: Balances, balances: Balances, accounts: set<Account>, u: nat) {
    && (forall w :: w in part <==>
          w in balances && Account(u, Watch, w) in accounts && Account(u, Managed, w) !in accounts)
    && forall w :: w in part ==> part[w] == balances[w]
  }

  lemma RowsOfWallets(rows: HolderTable, t: nat, balances: Balances)
    requires rows.Keys == KeysOf(t, balances.Keys)
    requires forall w :: w in balances ==> rows[HolderKey(t, w)] == balances[w]
    ensures |rows| == |balances| && SumOf(rows) == SumOf(balances)
  {
    RowsTotal(t, balances, balances.Keys);
    assert Chosen(balances, balances.Keys) == balances;
    assert rows == map k | k in KeysOf(t, balances.Keys) :: balances[k.wallet];
  }

  lemma SameKeys(rows: HolderTable, t: nat, ws: set<string>)
    requires forall k :: k in rows ==> k.token == t
    requires forall w :: w in ws <==> HolderKey(t, w) in rows
    ensures rows.Keys == KeysOf(t, ws)
  {
    forall k: HolderKey ensures k in rows <==> k in KeysOf(t, ws) {
      assert k == HolderKey(k.token, k.wallet);
    }
  }

  /**
    The recomputed aggregate on the account rows: internal holders are the positive wallets with a managed row of the
    user, watched ones those with a watch row and no managed one, each with the sum of their balances.
  */
  lemma AggregateCounts(accounts: set<Account>, u: nat, holders: HolderTable, t: nat,
                        positive: Balances, managed: Balances, watched: Balances)
    requires ArePositive(positive, holders, t)
    requires AreManaged(managed, positive, accounts, u) && AreWatched(watched, positive, accounts, u)
    ensures var a := Recomputed(accounts, u, holders, t);
            && a.active == |positive| && a.total == SumOf(positive)
            && a.internal == |managed| && a.internalAmount == SumOf(managed)
            && a.watched == |watched| && a.watchedAmount == SumOf(watched)
            && a.outsiders == |positive| - |managed|
  {
    var rows := Positive(holders, t);
    SameKeys(rows, t, positive.Keys);
    RowsOfWallets(rows, t, positive);
    SameKeys(ManagedRows(accounts, u, rows), t, managed.Keys);
    RowsOfWallets(ManagedRows(accounts, u, rows), t, managed);
    SameKeys(WatchedRows(accounts, u, rows), t, watched.Keys);
    RowsOfWallets(WatchedRows(accounts, u, rows), t, watched);
    AggregateBounds(accounts, u, holders, t);
  }

  /** After a finalize the positive balances are the positive sums of the staged rows. */
  lemma FinalPositive(holders: HolderTable, sums: Balances, t: nat, positive: Balances)
    requires forall w :: w in positive <==> w in sums && sums[w] > 0.0
    requires forall w :: w in positive ==> positive[w] == sums[w]
    ensures ArePositive(positive, Overwritten(holders, t, sums), t)
  {
    var after := Overwritten(holders, t, sums);
    OverwrittenPositive(holders, t, sums);
    forall w
      ensures w in positive <==> HolderKey(t, w) in after && after[HolderKey(t, w)] > 0.0
      ensures w in positive ==> positive[w] == after[HolderKey(t, w)] {
      assert HolderKey(t, w) in Positive(after, t) <==> HolderKey(t, w) in PositiveRows(t, sums);
      assert w in positive ==> Positive(after, t)[HolderKey(t, w)] == PositiveRows(t, sums)[HolderKey(t, w)];
    }
  }

  /** The same after a finalize, on the sums of the staged rows. */
  lemma FinalCounts(accounts: set<Account>, u: nat, holders: HolderTable, sums: Balances, t: nat,
                    positive: Balances, managed: Balances, watched: Balances)
    requires forall w :: w in positive <==> w in sums && sums[w] > 0.0
    requires forall w :: w in positive ==> positive[w] == sums[w]
    requires AreManaged(managed, positive, accounts, u) && AreWatched(watched, positive, accounts, u)
    ensures var a := Recomputed(accounts, u, Overwritten(holders, t, sums), t);
            && a.active == |positive| && a.total == SumOf(positive)
            && a.internal == |managed| && a.internalAmount == SumOf(managed)
            && a.watched == |watched| && a.watchedAmount == SumOf(watched)
            && a.outsiders == |positive| - |managed|
  {
    FinalPositive(holders, sums, t, positive);
    AggregateCounts(accounts, u, Overwritten(holders, t, sums), t, positive, managed, watched);
  }

  // ---------------------------------------------------------------- previewed from the stage

  /** A row of the left join: a wallet with one matching account type, or with none. */
  datatype JoinRow = JoinRow(wallet: string, kind: Option<AccountKind>)

  predicate Joins(accounts: set<Account>, u: nat, row: JoinRow) {
    if row.kind.None?
    then !IsKind(accounts, u, row.wallet, Managed) && !IsKind(accounts, u, row.wallet, Watch)
    else IsKind(accounts, u, row.wallet, row.kind.value)
  }

  const KINDS: set<Option<AccountKind>> := {None, Some(Managed), Some(Watch)}

  function JoinRows(accounts: set<Account>, u: nat, ws: set<string>, kinds: set<Option<AccountKind>>): set<JoinRow> {
    set w, kind | w in ws && kind in kinds && Joins(accounts, u, JoinRow(w, kind)) :: JoinRow(w, kind)
  }

  function JoinAmounts(rows: set<JoinRow>, sums: Balances): map<JoinRow, real> {
    map row | row in rows && row.wallet in sums :: sums[row.wallet]
  }

  /** The preview; there is none when no row is active. */
  ghost function Previewed(accounts: set<Account>, u: nat, stage: StageTable, t: nat, r: nat): Option<Aggregate> {
    var sums := Summed(stage, t, r);
    var ws := PositiveWallets(sums);
    var rows := JoinRows(accounts, u, ws, KINDS);
    var managed, watched := JoinRows(accounts, u, ws, {Some(Managed)}), JoinRows(accounts, u, ws, {Some(Watch)});
    if |rows| == 0 then None
    else Some(Aggregate(|rows|, |managed|, |watched|, ClampedDifference(|rows|, |managed|),
                        SumOf(JoinAmounts(rows, sums)), SumOf(JoinAmounts(managed, sums)),
                        SumOf(JoinAmounts(watched, sums))))
  }

  function OfKind(accounts: set<Account>, u: nat, ws: set<string>, kind: AccountKind): set<string> {
    set w | w in ws && IsKind(accounts, u, w, kind)
  }

  function Both(accounts: set<Account>, u: nat, ws: set<string>): set<string> {
    OfKind(accounts, u, ws, Managed) * OfKind(accounts, u, ws, Watch)
  }

  function RowsWith(ws: set<string>, kind: Option<AccountKind>): set<JoinRow> {
    set w | w in ws :: JoinRow(w, kind)
  }

  lemma {:induction false} RowsWithSize(ws: set<string>, kind: Option<AccountKind>)
    ensures |RowsWith(ws, kind)| == |ws|
    decreases |ws|
  {
    if ws != {} {
      var w :| w in ws;
      RowsWithSize(ws - {w}, kind);
      assert RowsWith(ws, kind) == RowsWith(ws - {w}, kind) + {JoinRow(w, kind)};
    } else {
      assert RowsWith(ws, kind) == {};
    }
  }

  lemma JoinRowsOfKind(accounts: set<Account>, u: nat, ws: set<string>, kind: AccountKind)
    ensures JoinRows(accounts, u, ws, {Some(kind)}) == RowsWith(OfKind(accounts, u, ws, kind), Some(kind))
    ensures |JoinRows(accounts, u, ws, {Some(kind)})| == |OfKind(accounts, u, ws, kind)|
  {
    RowsWithSize(OfKind(accounts, u, ws, kind), Some(kind));
  }

  lemma JoinParts(accounts: set<Account>, u: nat, ws: set<string>)
    ensures var m, v := OfKind(accounts, u, ws, Managed), OfKind(accounts, u, ws, Watch);
            JoinRows(accounts, u, ws, KINDS)
              == RowsWith(ws - m - v, None) + RowsWith(m, Some(Managed)) + RowsWith(v, Some(Watch))
  {
  }

  lemma ThreeParts<T>(a: set<T>, b: set<T>, c: set<T>)
    requires a !! b && (a + b) !! c
    ensures |a + b + c| == |a| + |b| + |c|
  {
  }

  /** The join has one row per wallet and one more for each wallet imported both ways. */
  lemma JoinSize(accounts: set<Account>, u: nat, ws: set<string>)
    ensures |JoinRows(accounts, u, ws, KINDS)| == |ws| + |Both(accounts, u, ws)|
  {
    var m, v := OfKind(accounts, u, ws, Managed), OfKind(accounts, u, ws, Watch);
    var a, b, c := RowsWith(ws - m - v, None), RowsWith(m, Some(Managed)), RowsWith(v, Some(Watch));
    JoinParts(accounts, u, ws);
    ThreeParts(a, b, c);
    RowsWithSize(ws - m - v, None);
    RowsWithSize(m, Some(Managed));
    RowsWithSize(v, Some(Watch));
    PartsOf(ws, m, v);
  }

  lemma PartsOf<T>(all: set<T>, m: set<T>, v: set<T>)
    requires m <= all && v <= all
    ensures |all - m - v| + |m| + |v| == |all| + |m * v|
  {
    var neither := all - m - v;
    assert |m + v| == |m| + |v| - |m * v|;
    assert all == neither + (m + v) && neither !! (m + v);
  }

  /** Rows of distinct wallets carry those wallets' total. */
  lemma JoinTotal(rows: set<JoinRow>, sums: Balances, ws: set<string>)
    requires ws <= sums.Keys
    requires forall row :: row in rows ==> row.wallet in ws
    requires forall w :: w in ws ==> exists row :: row in rows && row.wallet == w
    requires forall a, b :: a in rows && b in rows && a.wallet == b.wallet ==> a == b
    ensures SumOf(JoinAmounts(rows, sums)) == SumOf(Chosen(sums, ws))
  {
    var to: map<JoinRow, string> := map row | row in rows :: row.wallet;
    assert to.Values == ws by {
      forall w | w in ws ensures w in to.Values {
        var row :| row in rows && row.wallet == w;
        assert to[row] == w;
      }
    }
    SumRenamed(JoinAmounts(rows, sums), Chosen(sums, ws), to);
  }

  lemma KindTotal(accounts: set<Account>, u: nat, sums: Balances, ws: set<string>, kind: AccountKind)
    requires ws <= sums.Keys
    ensures SumOf(JoinAmounts(JoinRows(accounts, u, ws, {Some(kind)}), sums))
         == SumOf(Chosen(sums, OfKind(accounts, u, ws, kind)))
  {
    var rows := JoinRows(accounts, u, ws, {Some(kind)});
    JoinRowsOfKind(accounts, u, ws, kind);
    forall w | w in OfKind(accounts, u, ws, kind) ensures exists row :: row in rows && row.wallet == w {
      assert JoinRow(w, Some(kind)) in rows;
    }
    JoinTotal(rows, sums, OfKind(accounts, u, ws, kind));
  }

  /** The preview counts more holders than the recomputed aggregate by exactly the wallets imported both ways. */
  lemma PreviewCount(accounts: set<Account>, u: nat, holders: HolderTable, stage: StageTable, t: nat, r: nat)
    ensures var sums := Summed(stage, t, r);
            var a := Recomputed(accounts, u, Overwritten(holders, t, sums), t);
            var preview := Previewed(accounts, u, stage, t, r);
            && (preview.None? <==> PositiveWallets(sums) == {})
            && (preview.Some? ==> preview.value.active == a.active + |Both(accounts, u, PositiveWallets(sums))|)
  {
    var sums := Summed(stage, t, r);
    var ws := PositiveWallets(sums);
    JoinSize(accounts, u, ws);
    OverwrittenPositive(holders, t, sums);
    RowsTotal(t, sums, ws);
    if |JoinRows(accounts, u, ws, KINDS)| == 0 { assert ws == {}; }
  }

  /** The preview's parts: every positive wallet with a row of the kind counts, whether or not it has the other too. */
  lemma PreviewParts(accounts: set<Account>, u: nat, stage: StageTable, t: nat, r: nat, sums: Balances,
                     managed: set<string>, watched: set<string>)
    requires sums == Summed(stage, t, r) && Previewed(accounts, u, stage, t, r).Some?
    requires forall w :: w in managed <==> w in sums && sums[w] > 0.0 && Account(u, Managed, w) in accounts
    requires forall w :: w in watched <==> w in sums && sums[w] > 0.0 && Account(u, Watch, w) in accounts
    ensures var a := Previewed(accounts, u, stage, t, r).value;
            && a.internal == |managed| && a.internalAmount == SumOf(Chosen(sums, managed))
            && a.watched == |watched| && a.watchedAmount == SumOf(Chosen(sums, watched))
  {
    var ws := PositiveWallets(sums);
    assert OfKind(accounts, u, ws, Managed) == managed && OfKind(accounts, u, ws, Watch) == watched;
    JoinRowsOfKind(accounts, u, ws, Managed);
    JoinRowsOfKind(accounts, u, ws, Watch);
    KindTotal(accounts, u, sums, ws, Managed);
    KindTotal(accounts, u, sums, ws, Watch);
  }

  /** What both aggregates come to when no positive wallet is imported both ways. */
  ghost function Plain(accounts: set<Account>, u: nat, sums: Balances): Aggregate {
    var ws := PositiveWallets(sums);
    var m, v := OfKind(accounts, u, ws, Managed), OfKind(accounts, u, ws, Watch);
    Aggregate(|ws|, |m|, |v|, ClampedDifference(|ws|, |m|),
              SumOf(Chosen(sums, ws)), SumOf(Chosen(sums, m)), SumOf(Chosen(sums, v)))
  }

  lemma RecomputedIsPlain(accounts: set<Account>, u: nat, holders: HolderTable, sums: Balances, t: nat)
    requires Both(accounts, u, PositiveWallets(sums)) == {}
    ensures Recomputed(accounts, u, Overwritten(holders, t, sums), t) == Plain(accounts, u, sums)
  {
    var ws := PositiveWallets(sums);
    var m, v := OfKind(accounts, u, ws, Managed), OfKind(accounts, u, ws, Watch);
    OverwrittenPositive(holders, t, sums);
    RowsTotal(t, sums, ws);
    RowsTotal(t, sums, m);
    RowsTotal(t, sums, v);
    ManagedRowsAre(accounts, u, sums, t);
    WatchedRowsAre(accounts, u, sums, t);
  }

  lemma ManagedRowsAre(accounts: set<Account>, u: nat, sums: Balances, t: nat)
    ensures var m := OfKind(accounts, u, PositiveWallets(sums), Managed);
            ManagedRows(accounts, u, PositiveRows(t, sums)) == map k | k in KeysOf(t, m) :: sums[k.wallet]
  {
  }

  lemma WatchedRowsAre(accounts: set<Account>, u: nat, sums: Balances, t: nat)
    requires Both(accounts, u, PositiveWallets(sums)) == {}
    ensures var v := OfKind(accounts, u, PositiveWallets(sums), Watch);
            WatchedRows(accounts, u, PositiveRows(t, sums)) == map k | k in KeysOf(t, v) :: sums[k.wallet]
  {
    var ws := PositiveWallets(sums);
    forall w | w in OfKind(accounts, u, ws, Watch) ensures !IsKind(accounts, u, w, Managed) {
      assert IsKind(accounts, u, w, Managed) ==> w in Both(accounts, u, ws);
    }
  }

  lemma PreviewIsPlain(accounts: set<Account>, u: nat, stage: StageTable, t: nat, r: nat)
    requires Both(accounts, u, PositiveWallets(Summed(stage, t, r))) == {}
    requires PositiveWallets(Summed(stage, t, r)) != {}
    ensures Previewed(accounts, u, stage, t, r) == Some(Plain(accounts, u, Summed(stage, t, r)))
  {
    var sums := Summed(stage, t, r);
    var ws := PositiveWallets(sums);
    JoinSize(accounts, u, ws);
    JoinRowsOfKind(accounts, u, ws, Managed);
    JoinRowsOfKind(accounts, u, ws, Watch);
    KindTotal(accounts, u, sums, ws, Managed);
    KindTotal(accounts, u, sums, ws, Watch);
    AllRowsTotal(accounts, u, sums, ws);
  }

  lemma AllRowsTotal(accounts: set<Account>, u: nat, sums: Balances, ws: set<string>)
    requires ws <= sums.Keys && Both(accounts, u, ws) == {}
    ensures SumOf(JoinAmounts(JoinRows(accounts, u, ws, KINDS), sums)) == SumOf(Chosen(sums, ws))
  {
    var rows := JoinRows(accounts, u, ws, KINDS);
    forall w | w in ws ensures exists row :: row in rows && row.wallet == w {
      var kind := if IsKind(accounts, u, w, Managed) then Some(Managed)
                  else if IsKind(accounts, u, w, Watch) then Some(Watch) else None;
      assert Joins(accounts, u, JoinRow(w, kind));
      assert JoinRow(w, kind) in rows;
    }
    forall a, b | a in rows && b in rows && a.wallet == b.wallet ensures a == b {
      assert a.wallet !in Both(accounts, u, ws);
    }
    JoinTotal(rows, sums, ws);
  }

  /**
    Preview and recomputed aggregate agree in every count and sum exactly when no positive wallet is
    imported both as managed and as watch-only, provided there is a positive wallet.
  */
  lemma PreviewAgrees(accounts: set<Account>, u: nat, holders: HolderTable, stage: StageTable, t: nat, r: nat)
    requires PositiveWallets(Summed(stage, t, r)) != {}
    ensures Previewed(accounts, u, stage, t, r)
         == Some(Recomputed(accounts, u, Overwritten(holders, t, Summed(stage, t, r)), t))
       <==> Both(accounts, u, PositiveWallets(Summed(stage, t, r))) == {}
  {
    var sums := Summed(stage, t, r);
    PreviewCount(accounts, u, holders, stage, t, r);
    if Both(accounts, u, PositiveWallets(sums)) == {} {
      RecomputedIsPlain(accounts, u, holders, sums, t);
      PreviewIsPlain(accounts, u, stage, t, r);
    }
  }

  lemma OneWallet(t: nat, r: nat, s: nat, w: string, v: real)
    requires v > 0.0
    ensures PositiveWallets(Summed(map[StageKey(t, r, s, w) := v], t, r)) == {w}
  {
    var k := StageKey(t, r, s, w);
    var stage: StageTable := map[k := v];
    assert WalletRows(stage, t, r, w) == stage;
    SumRemove(stage, k);
    assert stage - {k} == map[];
    assert Wallets(stage, t, r) == {w} by { assert k in stage; }
  }

  function BothWays(u: nat, w: string): set<Account> {
    {Account(u, Managed, w), Account(u, Watch, w)}
  }

  /** One staged wallet, imported both ways: the preview counts two holders, the aggregate one. */
  lemma PreviewCountsTwice(u: nat, t: nat, r: nat, s: nat, holders: HolderTable)
    ensures var stage: StageTable := map[StageKey(t, r, s, "w") := 5.0];
            var preview := Previewed(BothWays(u, "w"), u, stage, t, r);
            && preview.Some? && preview.value.active == 2
            && Recomputed(BothWays(u, "w"), u, Overwritten(holders, t, Summed(stage, t, r)), t).active == 1
  {
    var accounts, w := BothWays(u, "w"), "w";
    var stage: StageTable := map[StageKey(t, r, s, w) := 5.0];
    var ws := PositiveWallets(Summed(stage, t, r));
    assert ws == {w} by { OneWallet(t, r, s, w, 5.0); }
    assert Both(accounts, u, ws) == {w};
    assert Recomputed(accounts, u, Overwritten(holders, t, Summed(stage, t, r)), t).active == 1 by {
      FinalAggregate(accounts, u, holders, stage, t, r);
    }
    PreviewCount(accounts, u, holders, stage, t, r);
  }
}
