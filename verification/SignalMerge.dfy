/**
  Merging the details known about a signal's transaction (src/backend/workerCore.ts).  A record that came from
  the RPC node is preferred: its values overwrite.  Any other record only fills gaps.
*/
module SignalMerge {
  import opened Wrappers

  datatype Action = BUY | SELL | TRANSFER
  datatype Source = Webhook | Reconcile
  datatype Status = PENDING | CONFIRMED | FAILED
  datatype Detail = Payload | Rpc | PayloadAndRpc | Unknown

  /** A partial record; None is a missing or null field. */
  datatype Partial = Partial(token: Option<string>, fromWallet: Option<string>, toWallet: Option<string>,
                             primary: Option<string>, action: Option<Action>, usdc: Option<real>,
                             tokenAmount: Option<real>, fee: Option<real>, source: Option<Source>,
                             status: Option<Status>, detail: Option<Detail>)

  datatype Stored = Stored(token: Option<string>, fromWallet: Option<string>, toWallet: Option<string>,
                           primary: Option<string>, action: Option<Action>, usdc: Option<real>,
                           tokenAmount: Option<real>, fee: Option<real>, source: Source,
                           status: Status, detail: Detail)

  const EMPTY := Stored(None, None, None, None, None, None, None, None, Webhook, PENDING, Unknown)

  /** A stored record passed back in. */
  function AsPartial(m: Stored): Partial {
    Partial(m.token, m.fromWallet, m.toWallet, m.primary, m.action, m.usdc, m.tokenAmount, m.fee,
            Some(m.source), Some(m.status), Some(m.detail))
  }

  predicate Prefers(e: Partial) {
    e.detail in {Some(Rpc), Some(PayloadAndRpc)} || e.source == Some(Reconcile)
  }

  // ---------------------------------------------------------------- one field

  /** What an entry does to a field: replace it, fill it if empty, or leave it. */
  datatype Offer<T> = Override(value: T) | Fill(value: T) | Nothing

  function Take<T>(held: Option<T>, offer: Offer<T>): Option<T> {
    match offer
    case Override(v) => Some(v)
    case Fill(v) => if held.Some? then held else Some(v)
    case Nothing => held
  }

  function Taken<T>(held: Option<T>, offers: seq<Offer<T>>): Option<T> {
    if offers == [] then held else Take(Taken(held, offers[..|offers| - 1]), offers[|offers| - 1])
  }

  predicate NoOverrideFrom<T>(offers: seq<Offer<T>>, i: nat) {
    forall j :: i <= j < |offers| ==> !offers[j].Override?
  }

  predicate IsLastOverride<T>(offers: seq<Offer<T>>, i: nat) {
    i < |offers| && offers[i].Override? && NoOverrideFrom(offers, i + 1)
  }

  predicate IsFirstFill<T>(offers: seq<Offer<T>>, i: nat) {
    i < |offers| && offers[i].Fill? && forall j :: 0 <= j < i ==> !offers[j].Fill?
  }

  predicate NoFill<T>(offers: seq<Offer<T>>) {
    forall j :: 0 <= j < |offers| ==> !offers[j].Fill?
  }

  /** The last override wins; with none, what was held, or else the first filling value. */
  lemma {:induction false} FieldClosedForm<T>(held: Option<T>, offers: seq<Offer<T>>, i: nat)
    ensures IsLastOverride(offers, i) ==> Taken(held, offers) == Some(offers[i].value)
    ensures NoOverrideFrom(offers, 0) && held.Some? ==> Taken(held, offers) == held
    ensures NoOverrideFrom(offers, 0) && held.None? && IsFirstFill(offers, i) ==>
              Taken(held, offers) == Some(offers[i].value)
    ensures NoOverrideFrom(offers, 0) && held.None? && NoFill(offers) ==> Taken(held, offers) == None
  {
    if offers != [] {
      var front, last := offers[..|offers| - 1], offers[|offers| - 1];
      FieldClosedForm(held, front, i);
      if last.Fill? && NoOverrideFrom(offers, 0) && IsFirstFill(offers, i) && i == |front| {
        assert NoFill(front);
      }
    }
  }

  lemma {:induction false} TakenConcat<T>(held: Option<T>, a: seq<Offer<T>>, b: seq<Offer<T>>)
    ensures Taken(held, a + b) == Taken(Taken(held, a), b)
  {
    if b == [] {
      assert a + b == a;
    } else {
      var k := |b| - 1;
      TakenConcat(held, a, b[..k]);
      assert (a + b)[..|a + b| - 1] == a + b[..k];
    }
  }

  // ---------------------------------------------------------------- the fields of an entry

  /** Wallet fields overwrite only with a non-empty text. */
  function TextOffer(e: Partial, v: Option<string>): Offer<string> {
    if v.None? then Nothing
    else if !Prefers(e) then Fill(v.value)
    else if v.value != "" then Override(v.value)
    else Nothing
  }

  function ValueOffer<T>(e: Partial, v: Option<T>): Offer<T> {
    if v.None? then Nothing else if Prefers(e) then Override(v.value) else Fill(v.value)
  }

  /** The token address is never overwritten. */
  function TokenOffer(v: Option<string>): Offer<string> {
    if v.None? then Nothing else Fill(v.value)
  }

  datatype Texts = FromWallet | ToWallet | PrimaryWallet
  datatype Numbers = Usdc | TokenAmount | Fee

  function TextIn(e: Partial, f: Texts): Option<string> {
    match f case FromWallet => e.fromWallet case ToWallet => e.toWallet case PrimaryWallet => e.primary
  }

  function NumberIn(e: Partial, f: Numbers): Option<real> {
    match f case Usdc => e.usdc case TokenAmount => e.tokenAmount case Fee => e.fee
  }

  function TextOffers(es: seq<Partial>, f: Texts): seq<Offer<string>> {
    seq(|es|, i requires 0 <= i < |es| => TextOffer(es[i], TextIn(es[i], f)))
  }

  function NumberOffers(es: seq<Partial>, f: Numbers): seq<Offer<real>> {
    seq(|es|, i requires 0 <= i < |es| => ValueOffer(es[i], NumberIn(es[i], f)))
  }

  function ActionOffers(es: seq<Partial>): seq<Offer<Action>> {
    seq(|es|, i requires 0 <= i < |es| => ValueOffer(es[i], es[i].action))
  }

  function TokenOffers(es: seq<Partial>): seq<Offer<string>> {
    seq(|es|, i requires 0 <= i < |es| => TokenOffer(es[i].token))
  }

  // ---------------------------------------------------------------- status and origin

  function NextStatus(held: Status, e: Option<Status>): Status {
    if e == Some(FAILED) then FAILED
    else if held != FAILED && e == Some(PENDING) then PENDING
    else if held == PENDING && e == Some(CONFIRMED) then CONFIRMED
    else held
  }

  function StatusAfter(held: Status, es: seq<Partial>): Status {
    if es == [] then held else NextStatus(StatusAfter(held, es[..|es| - 1]), es[|es| - 1].status)
  }

  function NextDetail(held: Detail, e: Option<Detail>): Detail {
    if e.None? then held else if held == Unknown then e.value else if held == e.value then held else PayloadAndRpc
  }

  function DetailAfter(held: Detail, es: seq<Partial>): Detail {
    if es == [] then held else NextDetail(DetailAfter(held, es[..|es| - 1]), es[|es| - 1].detail)
  }

  function NextSource(held: Source, e: Option<Source>): Source {
    if e == Some(Reconcile) then Reconcile else held
  }

  function SourceAfter(held: Source, es: seq<Partial>): Source {
    if es == [] then held else NextSource(SourceAfter(held, es[..|es| - 1]), es[|es| - 1].source)
  }

  /** FAILED is absorbing. */
  lemma {:induction false} FailedIsAbsorbing(es: seq<Partial>)
    ensures StatusAfter(PENDING, es) == FAILED <==> exists j :: 0 <= j < |es| && es[j].status == Some(FAILED)
  {
    if es != [] {
      var front := es[..|es| - 1];
      FailedIsAbsorbing(front);
      if StatusAfter(PENDING, front) == FAILED {
        var j :| 0 <= j < |front| && front[j].status == Some(FAILED);
        assert es[j].status == Some(FAILED);
      } else {
        assert forall j :: 0 <= j < |front| ==> es[j] == front[j];
      }
    }
  }

  /** Otherwise the last status given stands, and PENDING if none is. */
  lemma {:induction false} LastStatusStands(es: seq<Partial>, i: nat)
    requires StatusAfter(PENDING, es) != FAILED
    ensures i < |es| && es[i].status.Some? && (forall j :: i < j < |es| ==> es[j].status.None?) ==>
              es[i].status == Some(StatusAfter(PENDING, es))
    ensures (forall j :: 0 <= j < |es| ==> es[j].status.None?) ==> StatusAfter(PENDING, es) == PENDING
  {
    if es != [] {
      var front := es[..|es| - 1];
      LastStatusStands(front, i);
      if i == |front| && es[i].status.Some? {
        GivenStatusStands(StatusAfter(PENDING, front), es[i].status.value);
      }
    }
  }

  lemma GivenStatusStands(held: Status, given: Status)
    requires NextStatus(held, Some(given)) != FAILED
    ensures NextStatus(held, Some(given)) == given
  {
    match given
    case PENDING =>
    case CONFIRMED =>
    case FAILED =>
  }

  /** The first known origin, unless any later origin given differs from it, be it `unknown`: then both. */
  lemma {:induction false} DetailClosedForm(es: seq<Partial>, i: nat)
    requires i < |es| && es[i].detail.Some? && es[i].detail != Some(Unknown)
    requires forall j :: 0 <= j < i ==> es[j].detail in {None, Some(Unknown)}
    ensures DetailAfter(Unknown, es)
            == if forall j :: i < j < |es| ==> es[j].detail in {None, es[i].detail} then es[i].detail.value
               else PayloadAndRpc
  {
    var front := es[..|es| - 1];
    if i == |es| - 1 {
      AllUnknown(front);
    } else {
      DetailClosedForm(front, i);
      assert forall j :: i < j < |front| ==> front[j] == es[j];
    }
  }

  lemma {:induction false} AllUnknown(es: seq<Partial>)
    requires forall j :: 0 <= j < |es| ==> es[j].detail in {None, Some(Unknown)}
    ensures DetailAfter(Unknown, es) == Unknown
  {
    if es != [] { AllUnknown(es[..|es| - 1]); }
  }

  lemma {:induction false} SourceClosedForm(es: seq<Partial>)
    ensures SourceAfter(Webhook, es) == Reconcile <==> exists j :: 0 <= j < |es| && es[j].source == Some(Reconcile)
  {
    if es != [] {
      var front := es[..|es| - 1];
      SourceClosedForm(front);
      assert forall j :: 0 <= j < |front| ==> front[j] == es[j];
      if j :| 0 <= j < |front| && front[j].source == Some(Reconcile) {
        assert es[j].source == Some(Reconcile);
      }
      if j :| 0 <= j < |es| && es[j].source == Some(Reconcile) && j < |front| {
        assert front[j].source == Some(Reconcile);
      }
    }
  }

  // ---------------------------------------------------------------- the whole record

  function MergedOnto(m: Stored, es: seq<Partial>): Stored {
    Stored(Taken(m.token, TokenOffers(es)),
           Taken(m.fromWallet, TextOffers(es, FromWallet)),
           Taken(m.toWallet, TextOffers(es, ToWallet)),
           Taken(m.primary, TextOffers(es, PrimaryWallet)),
           Taken(m.action, ActionOffers(es)),
           Taken(m.usdc, NumberOffers(es, Usdc)),
           Taken(m.tokenAmount, NumberOffers(es, TokenAmount)),
           Taken(m.fee, NumberOffers(es, Fee)),
           SourceAfter(m.source, es), StatusAfter(m.status, es), DetailAfter(m.detail, es))
  }

  function Merged(es: seq<Partial>): Stored {
    MergedOnto(EMPTY, es)
  }

  /** A merge starts from a pending webhook record of unknown origin without any value. */
  lemma MergeStarts(es: seq<Partial>)
    ensures Merged([])
         == Stored(None, None, None, None, None, None, None, None, Webhook, PENDING, Unknown)
    ensures Merged(es).source == SourceAfter(Webhook, es)
    ensures Merged(es).status == StatusAfter(PENDING, es)
    ensures Merged(es).detail == DetailAfter(Unknown, es)
  {
  }

  /** What one entry does to the whole record. */
  function Step(m: Stored, e: Partial): Stored {
    Stored(Take(m.token, TokenOffer(e.token)),
           Take(m.fromWallet, TextOffer(e, e.fromWallet)),
           Take(m.toWallet, TextOffer(e, e.toWallet)),
           Take(m.primary, TextOffer(e, e.primary)),
           Take(m.action, ValueOffer(e, e.action)),
           Take(m.usdc, ValueOffer(e, e.usdc)),
           Take(m.tokenAmount, ValueOffer(e, e.tokenAmount)),
           Take(m.fee, ValueOffer(e, e.fee)),
           NextSource(m.source, e.source), NextStatus(m.status, e.status), NextDetail(m.detail, e.detail))
  }

  lemma MergedOneMore(m: Stored, es: seq<Partial>, e: Partial)
    ensures MergedOnto(m, es + [e]) == Step(MergedOnto(m, es), e)
  {
    var more := es + [e];
    assert more[..|more| - 1] == es && more[|more| - 1] == e;
    assert TokenOffers(more) == TokenOffers(es) + [TokenOffer(e.token)];
    assert ActionOffers(more) == ActionOffers(es) + [ValueOffer(e, e.action)];
    TakenConcat(m.token, TokenOffers(es), [TokenOffer(e.token)]);
    TakenConcat(m.action, ActionOffers(es), [ValueOffer(e, e.action)]);
    TextOneMore(m.fromWallet, es, e, FromWallet);
    TextOneMore(m.toWallet, es, e, ToWallet);
    TextOneMore(m.primary, es, e, PrimaryWallet);
    NumberOneMore(m.usdc, es, e, Usdc);
    NumberOneMore(m.tokenAmount, es, e, TokenAmount);
    NumberOneMore(m.fee, es, e, Fee);
  }

  lemma TextOneMore(held: Option<string>, es: seq<Partial>, e: Partial, f: Texts)
    ensures Taken(held, TextOffers(es + [e], f)) == Take(Taken(held, TextOffers(es, f)), TextOffer(e, TextIn(e, f)))
  {
    var offers := TextOffers(es + [e], f);
    assert offers[..|offers| - 1] == TextOffers(es, f);
  }

  lemma NumberOneMore(held: Option<real>, es: seq<Partial>, e: Partial, f: Numbers)
    ensures Taken(held, NumberOffers(es + [e], f))
         == Take(Taken(held, NumberOffers(es, f)), ValueOffer(e, NumberIn(e, f)))
  {
    var offers := NumberOffers(es + [e], f);
    assert offers[..|offers| - 1] == NumberOffers(es, f);
  }

  function Present(entries: seq<Option<Partial>>): seq<Partial> {
    if entries == [] then []
    else
      var front := Present(entries[..|entries| - 1]);
      if entries[|entries| - 1].None? then front else front + [entries[|entries| - 1].value]
  }

  /** Absent entries leave no trace, and the others keep their order. */
  lemma {:induction false} PresentParts(a: seq<Option<Partial>>, b: seq<Option<Partial>>, e: Partial)
    ensures Present(a + b) == Present(a) + Present(b)
    ensures Present([None]) == [] && Present([Some(e)]) == [e]
  {
    if b == [] {
      assert a + b == a;
    } else {
      var n := |b| - 1;
      PresentParts(a, b[..n], e);
      assert (a + b)[..|a + b| - 1] == a + b[..n];
    }
    assert [Some(e)][..0] == [];
  }

  function Coalesce<T>(a: Option<T>, b: Option<T>): Option<T> {
    if a.Some? then a else b
  }

  predicate Truthy(v: Option<string>) {
    v.Some? && v.value != ""
  }

  /** The loop of the merge: absent entries are skipped. */
  method MergeStoredSignalTransactionDetails(entries: seq<Option<Partial>>) returns (merged: Stored)
    ensures merged == Merged(Present(entries))
  {
    merged := EMPTY;
    for k := 0 to |entries|
      invariant merged == Merged(Present(entries[..k]))
    {
      assert entries[..k + 1][..k] == entries[..k];
      if entries[k].None? {
        continue;
      }
      var e := entries[k].value;
      ghost var before := merged;
      merged := MergeOne(merged, e);
      MergedOneMore(EMPTY, Present(entries[..k]), e);
    }
    assert entries[..|entries|] == entries;
  }

  lemma TextCases(e: Partial, held: Option<string>, v: Option<string>)
    ensures Take(held, TextOffer(e, v))
         == if !Prefers(e) then Coalesce(held, v) else if Truthy(v) then v else held
  {
  }

  lemma ValueCases<T>(e: Partial, held: Option<T>, v: Option<T>)
    ensures Take(held, ValueOffer(e, v)) == if Prefers(e) then Coalesce(v, held) else Coalesce(held, v)
  {
  }

  method MergeText(prefer: bool, held: Option<string>, v: Option<string>, ghost e: Partial) returns (r: Option<string>)
    requires prefer == Prefers(e)
    ensures r == Take(held, TextOffer(e, v))
  {
    TextCases(e, held, v);
    if prefer {
      r := if Truthy(v) then v else held;
    } else {
      r := Coalesce(held, v);
    }
  }

  method MergeValue<T>(prefer: bool, held: Option<T>, v: Option<T>, ghost e: Partial) returns (r: Option<T>)
    requires prefer == Prefers(e)
    ensures r == Take(held, ValueOffer(e, v))
  {
    ValueCases(e, held, v);
    if prefer {
      r := Coalesce(v, held);
    } else {
      r := Coalesce(held, v);
    }
  }

  method MergeStatus(held: Status, v: Option<Status>) returns (r: Status)
    ensures r == NextStatus(held, v)
  {
    r := held;
    if v == Some(FAILED) {
      r := FAILED;
    } else if held != FAILED && v == Some(PENDING) {
      r := PENDING;
    } else if held == PENDING && v == Some(CONFIRMED) {
      r := CONFIRMED;
    }
  }

  /** The body of the loop. */
  method MergeOne(before: Stored, e: Partial) returns (merged: Stored)
    ensures merged == Step(before, e)
  {
    merged := before;
    var prefer := e.detail == Some(Rpc) || e.detail == Some(PayloadAndRpc) || e.source == Some(Reconcile);
    var source := if e.source == Some(Reconcile) then Reconcile else before.source;
    var token := Coalesce(before.token, e.token);
    var fromWallet := MergeText(prefer, before.fromWallet, e.fromWallet, e);
    var toWallet := MergeText(prefer, before.toWallet, e.toWallet, e);
    var primary := MergeText(prefer, before.primary, e.primary, e);
    var action := MergeValue(prefer, before.action, e.action, e);
    var usdc := MergeValue(prefer, before.usdc, e.usdc, e);
    var tokenAmount := MergeValue(prefer, before.tokenAmount, e.tokenAmount, e);
    var fee := MergeValue(prefer, before.fee, e.fee, e);
    var status := MergeStatus(before.status, e.status);
    var detail := before.detail;
    if e.detail.Some? {
      detail := if before.detail == Unknown then e.detail.value
                else if before.detail == e.detail.value then before.detail
                else PayloadAndRpc;
    }
    merged := Stored(token, fromWallet, toWallet, primary, action, usdc, tokenAmount, fee, source, status, detail);
  }

  lemma {:induction false} NothingTaken<T>(held: Option<T>, offers: seq<Offer<T>>)
    ensures Taken(held, offers) == None <==> held == None && forall j :: 0 <= j < |offers| ==> offers[j].Nothing?
  {
    if offers != [] {
      NothingTaken(held, offers[..|offers| - 1]);
    }
  }

  predicate Overwrites(e: Partial, f: Texts) {
    Prefers(e) && Truthy(TextIn(e, f))
  }

  predicate Fills(e: Partial, f: Texts) {
    !Prefers(e) && TextIn(e, f).Some?
  }

  /**
    A wallet field is the last non-empty value of a preferred record, else the first value of any other, and
    null exactly if there is neither.
  */
  lemma WalletClosedForm(es: seq<Partial>, f: Texts, i: nat)
    ensures i < |es| && Overwrites(es[i], f) && (forall j :: i < j < |es| ==> !Overwrites(es[j], f)) ==>
              TextIn(AsPartial(Merged(es)), f) == TextIn(es[i], f)
    ensures (forall j :: 0 <= j < |es| ==> !Overwrites(es[j], f))
            && i < |es| && Fills(es[i], f) && (forall j :: 0 <= j < i ==> !Fills(es[j], f)) ==>
              TextIn(AsPartial(Merged(es)), f) == TextIn(es[i], f)
    ensures TextIn(AsPartial(Merged(es)), f) == None
       <==> forall j :: 0 <= j < |es| ==> !Overwrites(es[j], f) && !Fills(es[j], f)
  {
    var offers := TextOffers(es, f);
    forall j | 0 <= j < |es|
      ensures (offers[j].Override? <==> Overwrites(es[j], f)) && (offers[j].Fill? <==> Fills(es[j], f)) {}
    FieldClosedForm(None, offers, i);
    NothingTaken(None, offers);
  }

  /** A number is the last one a preferred record gives, else the first any gives, and null if none does. */
  lemma NumberClosedForm(es: seq<Partial>, f: Numbers, i: nat)
    ensures i < |es| && NumberIn(es[i], f).Some? && Prefers(es[i])
            && (forall j :: i < j < |es| ==> !(Prefers(es[j]) && NumberIn(es[j], f).Some?)) ==>
              NumberIn(AsPartial(Merged(es)), f) == NumberIn(es[i], f)
    ensures i < |es| && NumberIn(es[i], f).Some?
            && (forall j :: 0 <= j < |es| ==> !(Prefers(es[j]) && NumberIn(es[j], f).Some?))
            && (forall j :: 0 <= j < i ==> NumberIn(es[j], f).None?) ==>
              NumberIn(AsPartial(Merged(es)), f) == NumberIn(es[i], f)
    ensures NumberIn(AsPartial(Merged(es)), f) == None <==> forall j :: 0 <= j < |es| ==> NumberIn(es[j], f) == None
  {
    var offers := NumberOffers(es, f);
    forall j | 0 <= j < |es|
      ensures offers[j].Override? <==> Prefers(es[j]) && NumberIn(es[j], f).Some?
      ensures offers[j].Nothing? <==> NumberIn(es[j], f).None? {}
    FieldClosedForm(None, offers, i);
    NothingTaken(None, offers);
  }

  /** Told by the node: reconciled, or with details from the RPC node. */
  predicate FromNode(e: Partial) {
    e.source == Some(Reconcile) || e.detail == Some(Rpc) || e.detail == Some(PayloadAndRpc)
  }

  /** So the last number of a record from the node wins, and with none of those the first number given. */
  lemma NodeNumberWins(es: seq<Partial>, f: Numbers, i: nat)
    requires i < |es| && NumberIn(es[i], f).Some?
    ensures FromNode(es[i]) && (forall j :: i < j < |es| ==> NumberIn(es[j], f).None? || !FromNode(es[j])) ==>
              NumberIn(AsPartial(Merged(es)), f) == NumberIn(es[i], f)
    ensures (forall j :: 0 <= j < |es| && FromNode(es[j]) ==> NumberIn(es[j], f).None?)
            && (forall j :: 0 <= j < i ==> NumberIn(es[j], f).None?) ==>
              NumberIn(AsPartial(Merged(es)), f) == NumberIn(es[i], f)
  {
    NumberClosedForm(es, f, i);
  }

  /** A record overwrites what is held exactly if it comes from the node, and a wallet only with a non-empty text. */
  lemma OverwritesExactly(m: Stored, e: Partial)
    requires m.usdc.Some? && e.usdc.Some? && m.usdc != e.usdc
    requires m.action.Some? && e.action.Some? && m.action != e.action
    requires m.fromWallet.Some? && e.fromWallet.Some? && m.fromWallet != e.fromWallet
    ensures Step(m, e).usdc == e.usdc <==> FromNode(e)
    ensures Step(m, e).action == e.action <==> FromNode(e)
    ensures Step(m, e).fromWallet == e.fromWallet <==> FromNode(e) && e.fromWallet != Some("")
  {
  }

  /** The action follows the same rule. */
  lemma ActionClosedForm(es: seq<Partial>, i: nat)
    ensures i < |es| && es[i].action.Some? && Prefers(es[i])
            && (forall j :: i < j < |es| ==> !(Prefers(es[j]) && es[j].action.Some?)) ==>
              Merged(es).action == es[i].action
    ensures i < |es| && es[i].action.Some?
            && (forall j :: 0 <= j < |es| ==> !(Prefers(es[j]) && es[j].action.Some?))
            && (forall j :: 0 <= j < i ==> es[j].action.None?) ==>
              Merged(es).action == es[i].action
    ensures Merged(es).action == None <==> forall j :: 0 <= j < |es| ==> es[j].action == None
  {
    var offers := ActionOffers(es);
    forall j | 0 <= j < |es|
      ensures offers[j].Override? <==> Prefers(es[j]) && es[j].action.Some?
      ensures offers[j].Nothing? <==> es[j].action.None? {}
    FieldClosedForm(None, offers, i);
    NothingTaken(None, offers);
  }

  /** The token address is the first one given by any record, even an empty text. */
  lemma TokenClosedForm(es: seq<Partial>, i: nat)
    ensures i < |es| && es[i].token.Some? && (forall j :: 0 <= j < i ==> es[j].token.None?) ==>
              Merged(es).token == es[i].token
    ensures Merged(es).token == None <==> forall j :: 0 <= j < |es| ==> es[j].token == None
  {
    var offers := TokenOffers(es);
    forall j | 0 <= j < |es| ensures !offers[j].Override? && (offers[j].Nothing? <==> es[j].token.None?) {}
    FieldClosedForm(None, offers, i);
    NothingTaken(None, offers);
  }

  // ---------------------------------------------------------------- merging a merged record again

  lemma {:induction false} MergedConcat(m: Stored, a: seq<Partial>, b: seq<Partial>)
    ensures MergedOnto(m, a + b) == MergedOnto(MergedOnto(m, a), b)
  {
    if b == [] {
      assert a + b == a;
      MergedOntoNothing(MergedOnto(m, a));
    } else {
      var k := |b| - 1;
      MergedConcat(m, a, b[..k]);
      assert a + b == (a + b[..k]) + [b[k]];
      assert b == b[..k] + [b[k]];
      MergedOneMore(m, a + b[..k], b[k]);
      MergedOneMore(MergedOnto(m, a), b[..k], b[k]);
    }
  }

  lemma MergedOntoNothing(m: Stored)
    ensures MergedOnto(m, []) == m
  {
  }

  /** A preferring record carries an empty text that, passed back in, would not overwrite. */
  predicate Drops(m: Stored, f: Texts) {
    Prefers(AsPartial(m)) && TextIn(AsPartial(m), f) == Some("")
  }

  function WithoutDropped(m: Stored): Stored {
    m.(fromWallet := if Drops(m, FromWallet) then None else m.fromWallet,
       toWallet := if Drops(m, ToWallet) then None else m.toWallet,
       primary := if Drops(m, PrimaryWallet) then None else m.primary)
  }

  lemma PassedBackIn(m: Stored)
    ensures Step(EMPTY, AsPartial(m)) == WithoutDropped(m)
  {
    assert m.status.PENDING? || m.status.CONFIRMED? || m.status.FAILED?;
    assert m.source.Webhook? || m.source.Reconcile?;
  }

  lemma RemergeContinues(l: seq<Partial>, rest: seq<Partial>)
    ensures Merged(l + rest) == MergedOnto(Merged(l), rest)
    ensures Merged([AsPartial(Merged(l))] + rest) == MergedOnto(WithoutDropped(Merged(l)), rest)
  {
    var e := AsPartial(Merged(l));
    MergedConcat(EMPTY, l, rest);
    MergedConcat(EMPTY, [e], rest);
    MergedOneMore(EMPTY, [], e);
    MergedOntoNothing(EMPTY);
    assert [] + [e] == [e];
    PassedBackIn(Merged(l));
  }

  predicate HasOverride<T>(offers: seq<Offer<T>>) {
    exists j :: 0 <= j < |offers| && offers[j].Override?
  }

  /** Later entries make up for a dropped empty text: by overwriting it, or by offering the empty text first. */
  ghost predicate Restored(offers: seq<Offer<string>>) {
    HasOverride(offers) || exists i: nat :: IsFirstFill(offers, i) && offers[i].value == ""
  }

  lemma {:induction false} Overridden<T>(a: Option<T>, b: Option<T>, offers: seq<Offer<T>>)
    requires HasOverride(offers)
    ensures Taken(a, offers) == Taken(b, offers)
  {
    var front, last := offers[..|offers| - 1], offers[|offers| - 1];
    if !last.Override? {
      var j :| 0 <= j < |offers| && offers[j].Override?;
      assert front[j].Override?;
      Overridden(a, b, front);
    }
  }

  function FirstFill<T>(offers: seq<Offer<T>>, i: nat := 0): (r: Option<nat>)
    requires i <= |offers| && forall j :: 0 <= j < i ==> !offers[j].Fill?
    ensures r.Some? ==> IsFirstFill(offers, r.value)
    ensures r.None? ==> NoFill(offers)
    decreases |offers| - i
  {
    if i == |offers| then None else if offers[i].Fill? then Some(i) else FirstFill(offers, i + 1)
  }

  lemma EmptyTextRestored(offers: seq<Offer<string>>)
    ensures Taken(None, offers) == Taken(Some(""), offers) <==> Restored(offers)
  {
    if HasOverride(offers) {
      Overridden(None, Some(""), offers);
    } else {
      var first := FirstFill(offers);
      FieldClosedForm(Some(""), offers, 0);
      FieldClosedForm(None, offers, if first.Some? then first.value else 0);
      if first.Some? {
        forall i: nat | IsFirstFill(offers, i) ensures i == first.value {}
      }
    }
  }

  /** A wallet text survives being passed back in, or does not matter to what follows. */
  ghost predicate Kept(m: Stored, rest: seq<Partial>, f: Texts) {
    !Drops(m, f) || Restored(TextOffers(rest, f))
  }

  lemma AllKept(m: Stored, rest: seq<Partial>)
    requires Kept(m, rest, FromWallet) && Kept(m, rest, ToWallet) && Kept(m, rest, PrimaryWallet)
    ensures forall f :: Kept(m, rest, f)
  {
    forall f ensures Kept(m, rest, f) {
      match f case FromWallet => case ToWallet => case PrimaryWallet =>
    }
  }

  lemma TextRestored(m: Stored, rest: seq<Partial>, f: Texts)
    ensures Taken(TextIn(AsPartial(WithoutDropped(m)), f), TextOffers(rest, f))
            == Taken(TextIn(AsPartial(m), f), TextOffers(rest, f))
       <==> Kept(m, rest, f)
  {
    EmptyTextRestored(TextOffers(rest, f));
  }

  /**
    Merging an already merged record with later entries is merging the whole list, except for exactly this: an
    empty wallet text in a record that prefers itself is dropped, unless the later entries restore it.
  */
  lemma RemergeExactly(l: seq<Partial>, rest: seq<Partial>)
    ensures Merged([AsPartial(Merged(l))] + rest) == Merged(l + rest)
       <==> forall f :: Kept(Merged(l), rest, f)
  {
    var m := Merged(l);
    RemergeContinues(l, rest);
    var once, again := MergedOnto(m, rest), MergedOnto(WithoutDropped(m), rest);
    assert once.fromWallet == again.fromWallet <==> Kept(m, rest, FromWallet) by { TextRestored(m, rest, FromWallet); }
    assert once.toWallet == again.toWallet <==> Kept(m, rest, ToWallet) by { TextRestored(m, rest, ToWallet); }
    assert once.primary == again.primary <==> Kept(m, rest, PrimaryWallet) by { TextRestored(m, rest, PrimaryWallet); }
    OnlyTextsDiffer(m, rest);
    if once == again { AllKept(m, rest); }
  }

  lemma OnlyTextsDiffer(m: Stored, rest: seq<Partial>)
    ensures var once, again := MergedOnto(m, rest), MergedOnto(WithoutDropped(m), rest);
            once.fromWallet == again.fromWallet && once.toWallet == again.toWallet && once.primary == again.primary ==>
              once == again
  {
  }

  predicate NoEmptyText(e: Partial) {
    forall f :: TextIn(e, f) != Some("")
  }

  lemma {:induction false} MergedTextsNotEmpty(es: seq<Partial>, f: Texts)
    requires forall i :: 0 <= i < |es| ==> NoEmptyText(es[i])
    ensures Taken(None, TextOffers(es, f)) != Some("")
  {
    if es != [] {
      var k := |es| - 1;
      assert es == es[..k] + [es[k]];
      TextOneMore(None, es[..k], es[k], f);
      MergedTextsNotEmpty(es[..k], f);
      assert TextIn(es[k], f) != Some("");
    }
  }

  /** So for entries whose wallet fields are absent or real addresses the law holds outright. */
  lemma RemergeOfAddresses(l: seq<Partial>, rest: seq<Partial>)
    requires forall i :: 0 <= i < |l| ==> NoEmptyText(l[i])
    ensures Merged([AsPartial(Merged(l))] + rest) == Merged(l + rest)
  {
    forall f ensures !Drops(Merged(l), f) {
      MergedTextsNotEmpty(l, f);
    }
    RemergeExactly(l, rest);
  }

  /** An input that breaks it: a webhook record with an empty wallet, then an RPC record without one. */
  lemma EmptyTextIsLost()
    ensures var blank := Partial(None, None, None, None, None, None, None, None, None, None, None);
            var l := [blank.(fromWallet := Some(""), detail := Some(Payload)), blank.(detail := Some(Rpc))];
            Merged(l).fromWallet == Some("") && Merged([AsPartial(Merged(l))]).fromWallet == None
  {
    var blank := Partial(None, None, None, None, None, None, None, None, None, None, None);
    var a, b := blank.(fromWallet := Some(""), detail := Some(Payload)), blank.(detail := Some(Rpc));
    MergedOneMore(EMPTY, [], a);
    MergedOneMore(EMPTY, [a], b);
    MergedOntoNothing(EMPTY);
    assert [] + [a] == [a] && [a] + [b] == [a, b];
    var m := Merged([a, b]);
    assert m == Step(Step(EMPTY, a), b);
    RemergeContinues([a, b], []);
    assert [AsPartial(m)] + [] == [AsPartial(m)];
    MergedOntoNothing(WithoutDropped(m));
  }
}
