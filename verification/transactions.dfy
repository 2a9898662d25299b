/** The ledger mutations and the listing query for one security's
    transactions, with the database replaced by values: the security's
    existing rows, a table keyed by transaction id, and the gains report. */
module Transactions {
  import opened Wrappers
  import opened Records
  import opened Calculations

  /** The arguments `createTransaction` and `updateTransaction` accept. */
  datatype TxArgs = TxArgs(
    date: string,
    numShares: Option<real>,
    totalPriceCents: real,
    amountPerShare: Option<real>,
    commissionFeeCents: Option<real>,
    transactionType: Kind
  )

  /** The input errors both mutations throw, one per rule. */
  datatype ValidationError =
    | ZeroShares
    | MissingShares
    | NegativeTotalPrice
    | NegativeCommissionFee
    | MissingAmountPerShare
    | NegativeAmountPerShare

  /** Errors of the mutations that address an existing row. */
  datatype TxError = Invalid(reason: ValidationError) | NotFound(id: TxId)

  /** The place of each rule in the order the mutations check them. */
  function Rank(e: ValidationError): nat {
    match e
    case ZeroShares => 0
    case MissingShares => 1
    case NegativeTotalPrice => 2
    case NegativeCommissionFee => 3
    case MissingAmountPerShare => 4
    case NegativeAmountPerShare => 5
  }

  /** Whether `a` breaks the rule reported as `e`. */
  predicate Breaks(a: TxArgs, e: ValidationError) {
    match e
    case ZeroShares => a.numShares == Some(0.0)
    case MissingShares => a.transactionType != ReturnOfCapital && a.numShares.None?
    case NegativeTotalPrice => a.totalPriceCents < 0.0
    case NegativeCommissionFee => a.commissionFeeCents.Some? && a.commissionFeeCents.value < 0.0
    case MissingAmountPerShare => a.transactionType == ReturnOfCapital && a.amountPerShare.None?
    case NegativeAmountPerShare =>
      a.transactionType == ReturnOfCapital && a.amountPerShare.Some? && a.amountPerShare.value < 0.0
  }

  /** The acceptance rule: no rule is broken. */
  predicate Acceptable(a: TxArgs) {
    && !Breaks(a, ZeroShares)
    && !Breaks(a, MissingShares)
    && !Breaks(a, NegativeTotalPrice)
    && !Breaks(a, NegativeCommissionFee)
    && !Breaks(a, MissingAmountPerShare)
    && !Breaks(a, NegativeAmountPerShare)
  }

  /** The input checks at the top of both mutations, in their order: the
      first broken rule is the one reported. */
  function Validate(a: TxArgs): (r: Outcome<ValidationError>)
    ensures r.Pass? <==> Acceptable(a)
    ensures r.Fail? ==> Breaks(a, r.error)
    ensures r.Fail? ==> forall e :: Rank(e) < Rank(r.error) ==> !Breaks(a, e)
  {
    if a.numShares.Some? && a.numShares.value == 0.0 then Fail(ZeroShares)
    else if a.transactionType != ReturnOfCapital && a.numShares.None? then Fail(MissingShares)
    else if a.totalPriceCents < 0.0 then Fail(NegativeTotalPrice)
    else if a.commissionFeeCents.Some? && a.commissionFeeCents.value < 0.0 then Fail(NegativeCommissionFee)
    else if a.transactionType == ReturnOfCapital && a.amountPerShare.None? then Fail(MissingAmountPerShare)
    else if a.transactionType == ReturnOfCapital && a.amountPerShare.Some? && a.amountPerShare.value < 0.0 then
      Fail(NegativeAmountPerShare)
    else Pass
  }

  /** The per-kind storage rules: a return of capital is stored without a
      share count and with a zero total, keeping its amount per share; every
      other kind keeps its share count and total and drops the amount per
      share; an absent commission is stored as zero. */
  predicate NormalisedFrom(t: Tx, a: TxArgs) {
    && t.date == a.date
    && t.kind == a.transactionType
    && (t.kind == ReturnOfCapital ==>
          t.numShares.None? && t.totalPriceCents == 0.0 && t.amountPerShare == a.amountPerShare)
    && (t.kind != ReturnOfCapital ==>
          t.numShares == a.numShares && t.totalPriceCents == a.totalPriceCents && t.amountPerShare.None?)
    && t.commissionFeeCents == Some(a.commissionFeeCents.GetOr(0.0))
  }

  /** The record both mutations write. */
  function Normalise(a: TxArgs, id: TxId, securityId: SecurityId, sortOrder: int): (t: Tx)
    ensures NormalisedFrom(t, a)
    ensures t.id == id && t.securityId == securityId && t.sortOrder == sortOrder
  {
    var roc := a.transactionType == ReturnOfCapital;
    Tx(id, securityId, a.date, a.transactionType,
       if roc then None else a.numShares,
       if roc then 0.0 else a.totalPriceCents,
       if roc then a.amountPerShare else None,
       Some(a.commissionFeeCents.GetOr(0.0)),
       sortOrder)
  }

  // ---------------------------------------------------------------------
  // createTransaction

  /** The largest existing sortOrder, or 0 for a security without one above 0. */
  function MaxSortOrder(existing: seq<Tx>): (m: int)
    ensures m >= 0
    ensures forall k :: 0 <= k < |existing| ==> existing[k].sortOrder <= m
    ensures m == 0 || exists k :: 0 <= k < |existing| && existing[k].sortOrder == m
  {
    if |existing| == 0 then 0
    else
      var m := MaxSortOrder(existing[..|existing| - 1]);
      var s := existing[|existing| - 1].sortOrder;
      if m >= s then m else s
  }

  /** Creates row `newId` for `securityId`, whose rows so far are `existing`:
      it is accepted exactly when the arguments are acceptable, is stored
      normalised, and goes after every existing row. */
  function CreateTransaction(existing: seq<Tx>, securityId: SecurityId, newId: TxId, a: TxArgs): (r: Result<Tx, ValidationError>)
    ensures r.Success? <==> Acceptable(a)
    ensures r.Failure? ==> Validate(a) == Fail(r.error)
    ensures r.Success? ==> NormalisedFrom(r.value, a) && r.value.id == newId && r.value.securityId == securityId
    ensures r.Success? ==> r.value.sortOrder >= 1
    ensures r.Success? ==> forall k :: 0 <= k < |existing| ==> existing[k].sortOrder < r.value.sortOrder
    ensures r.Success? ==>
      r.value.sortOrder == 1 || exists k :: 0 <= k < |existing| && existing[k].sortOrder == r.value.sortOrder - 1
  {
    match Validate(a)
    case Fail(e) => Failure(e)
    case Pass => Success(Normalise(a, newId, securityId, MaxSortOrder(existing) + 1))
  }

  // ---------------------------------------------------------------------
  // updateTransaction

  /** Rewrites row `id` of `db` from the arguments. Validation comes first,
      so bad arguments are reported even for a missing row. */
  function UpdateTransaction(db: map<TxId, Tx>, id: TxId, a: TxArgs): (r: Result<map<TxId, Tx>, TxError>)
    ensures r.Success? <==> Acceptable(a) && id in db
    ensures !Acceptable(a) ==> r.Failure? && r.error.Invalid? && Validate(a) == Fail(r.error.reason)
    ensures Acceptable(a) && id !in db ==> r == Failure(NotFound(id))
    ensures r.Success? ==> r.value.Keys == db.Keys
    ensures r.Success? ==> forall other :: other in db && other != id ==> r.value[other] == db[other]
    ensures r.Success? ==> NormalisedFrom(r.value[id], a)
    ensures r.Success? ==>
      && r.value[id].id == db[id].id
      && r.value[id].securityId == db[id].securityId
      && r.value[id].sortOrder == db[id].sortOrder
  {
    match Validate(a)
    case Fail(e) => Failure(Invalid(e))
    case Pass =>
      if id !in db then Failure(NotFound(id))
      else
        var row := db[id];
        Success(db[id := Normalise(a, row.id, row.securityId, row.sortOrder)])
  }

  // ---------------------------------------------------------------------
  // reorderTransactions

  /** `ids[k]` does not occur again before index `upTo`. */
  predicate LastBefore(ids: seq<TxId>, k: int, upTo: int)
    requires 0 <= k < |ids| && upTo <= |ids|
  {
    forall j :: k < j < upTo ==> ids[j] != ids[k]
  }

  /** No id occurs twice in the argument list. `TransactionsProperties.UniqueIds`
      says the same of the ids of a ledger's rows; the two stay separate
      because their quantifiers trigger on different terms (`ids[j]` here,
      `txs[j].id` there). */
  predicate Distinct(ids: seq<TxId>) {
    forall j, k :: 0 <= j < k < |ids| ==> ids[j] != ids[k]
  }

  /** Gives the row at index `i` of `transactionIds` the sortOrder `i + 1`.
      The mutation is atomic: an unknown id fails it as a whole. */
  method ReorderTransactions(db: map<TxId, Tx>, transactionIds: seq<TxId>) returns (r: Result<map<TxId, Tx>, TxError>)
    ensures r.Success? <==> forall k :: 0 <= k < |transactionIds| ==> transactionIds[k] in db
    ensures r.Failure? ==> exists k ::
      && 0 <= k < |transactionIds|
      && r.error == NotFound(transactionIds[k])
      && transactionIds[k] !in db
      && forall j :: 0 <= j < k ==> transactionIds[j] in db
    ensures r.Success? ==> r.value.Keys == db.Keys
    ensures r.Success? ==> forall id :: id in db ==> r.value[id] == db[id].(sortOrder := r.value[id].sortOrder)
    ensures r.Success? ==> forall id :: id in db && id !in transactionIds ==> r.value[id] == db[id]
    ensures r.Success? ==> forall k :: 0 <= k < |transactionIds| && LastBefore(transactionIds, k, |transactionIds|) ==>
      r.value[transactionIds[k]].sortOrder == k + 1
    ensures r.Success? && Distinct(transactionIds) ==> forall j, k :: 0 <= j < k < |transactionIds| ==>
      r.value[transactionIds[j]].sortOrder < r.value[transactionIds[k]].sortOrder
  {
    var cur := db;
    var i := 0;
    while i < |transactionIds|
      invariant 0 <= i <= |transactionIds|
      invariant ReorderedUpTo(db, cur, transactionIds, i)
    {
      var transactionId := transactionIds[i];
      if transactionId !in cur {
        return Failure(NotFound(transactionId));
      }
      ReorderStep(db, cur, transactionIds, i);
      cur := cur[transactionId := cur[transactionId].(sortOrder := i + 1)];
      i := i + 1;
    }
    r := Success(cur);
    ReorderDone(db, cur, transactionIds);
  }

  /** The loop state of the reorder after the first `upTo` ids: same keys,
      only sortOrders changed, rows not yet named untouched, and the last
      occurrence so far of each named id holding its index plus one. */
  ghost predicate ReorderedUpTo(db: map<TxId, Tx>, cur: map<TxId, Tx>, ids: seq<TxId>, upTo: int)
    requires 0 <= upTo <= |ids|
  {
    && cur.Keys == db.Keys
    && (forall k :: 0 <= k < upTo ==> ids[k] in db)
    && (forall id :: id in db ==> cur[id] == db[id].(sortOrder := cur[id].sortOrder))
    && (forall id :: id in db && NotAmong(ids, upTo, id) ==> cur[id] == db[id])
    && (forall k :: 0 <= k < upTo && LastBefore(ids, k, upTo) ==> cur[ids[k]].sortOrder == k + 1)
  }

  lemma ReorderStep(db: map<TxId, Tx>, cur: map<TxId, Tx>, ids: seq<TxId>, i: int)
    requires 0 <= i < |ids| && ids[i] in cur
    requires ReorderedUpTo(db, cur, ids, i)
    ensures ReorderedUpTo(db, cur[ids[i] := cur[ids[i]].(sortOrder := i + 1)], ids, i + 1)
  {
    var next := cur[ids[i] := cur[ids[i]].(sortOrder := i + 1)];
    assert next.Keys == db.Keys;
    assert forall k :: 0 <= k < i + 1 ==> ids[k] in db;
    StepChangesSortOrderOnly(db, cur, ids[i], i + 1);
    StepKeepsUntouched(db, cur, ids, i);
    StepSetsLast(cur, ids, i);
  }

  lemma StepChangesSortOrderOnly(db: map<TxId, Tx>, cur: map<TxId, Tx>, id: TxId, sortOrder: int)
    requires id in cur && cur.Keys == db.Keys
    requires forall x :: x in db ==> cur[x] == db[x].(sortOrder := cur[x].sortOrder)
    ensures forall x :: x in db ==>
      cur[id := cur[id].(sortOrder := sortOrder)][x] == db[x].(sortOrder := cur[id := cur[id].(sortOrder := sortOrder)][x].sortOrder)
  {
  }

  lemma StepKeepsUntouched(db: map<TxId, Tx>, cur: map<TxId, Tx>, ids: seq<TxId>, i: int)
    requires 0 <= i < |ids| && ids[i] in cur
    requires cur.Keys == db.Keys
    requires forall id :: id in db && NotAmong(ids, i, id) ==> cur[id] == db[id]
    ensures forall id :: id in db && NotAmong(ids, i + 1, id) ==>
      cur[ids[i] := cur[ids[i]].(sortOrder := i + 1)][id] == db[id]
  {
    forall id | id in db && NotAmong(ids, i + 1, id)
      ensures cur[ids[i] := cur[ids[i]].(sortOrder := i + 1)][id] == db[id]
    {
      assert id != ids[i];
      assert NotAmong(ids, i, id);
    }
  }

  lemma StepSetsLast(cur: map<TxId, Tx>, ids: seq<TxId>, i: int)
    requires 0 <= i < |ids| && forall k :: 0 <= k <= i ==> ids[k] in cur
    requires forall k :: 0 <= k < i && LastBefore(ids, k, i) ==> cur[ids[k]].sortOrder == k + 1
    ensures forall k :: 0 <= k < i + 1 && LastBefore(ids, k, i + 1) ==>
      cur[ids[i] := cur[ids[i]].(sortOrder := i + 1)][ids[k]].sortOrder == k + 1
  {
    var next := cur[ids[i] := cur[ids[i]].(sortOrder := i + 1)];
    forall k | 0 <= k < i + 1 && LastBefore(ids, k, i + 1)
      ensures next[ids[k]].sortOrder == k + 1
    {
      if k < i {
        assert ids[k] != ids[i];
        assert LastBefore(ids, k, i);
      }
    }
  }

  lemma ReorderDone(db: map<TxId, Tx>, cur: map<TxId, Tx>, ids: seq<TxId>)
    requires ReorderedUpTo(db, cur, ids, |ids|)
    requires forall k :: 0 <= k < |ids| ==> ids[k] in db
    ensures forall id :: id in db && id !in ids ==> cur[id] == db[id]
    ensures Distinct(ids) ==> forall j, k :: 0 <= j < k < |ids| ==> cur[ids[j]].sortOrder < cur[ids[k]].sortOrder
  {
    forall id | id in db && id !in ids
      ensures NotAmong(ids, |ids|, id)
    {
    }
    if Distinct(ids) {
      forall k | 0 <= k < |ids|
        ensures LastBefore(ids, k, |ids|)
      {
      }
    }
  }

  /** `id` is none of the first `upTo` ids. */
  predicate NotAmong(ids: seq<TxId>, upTo: int, id: TxId)
    requires 0 <= upTo <= |ids|
  {
    forall k :: 0 <= k < upTo ==> ids[k] != id
  }

  // ---------------------------------------------------------------------
  // listTransactionsBySecurity

  /** The three figures the listing attaches to a sale. */
  datatype GainFigures = GainFigures(sellPricePerShareCents: real, acbPerShareCents: real, capitalGainLossCents: real)

  /** A listed row: the stored transaction plus its gains, if any. */
  datatype TxRow = TxRow(tx: Tx, capitalGains: Option<GainFigures>)

  function Figures(g: GainRecord): GainFigures {
    GainFigures(g.sellPricePerShareCents, g.acbPerShareCents, g.capitalGainLossCents)
  }

  /** No later record of `gains` has the id of record `k`: the record a
      `Map.set` keyed by transaction id keeps. It is `LastBefore` with
      `upTo == |gains|`, stated on the records' ids rather than on an id list
      so that the quantifier triggers on `gains[j].transactionId`. */
  predicate LastWithId(gains: seq<GainRecord>, k: int)
    requires 0 <= k < |gains|
  {
    forall j :: k < j < |gains| ==> gains[j].transactionId != gains[k].transactionId
  }

  /** The id-to-figures map built from the gains report; a later record with
      the same id replaces an earlier one. */
  function GainsMap(gains: seq<GainRecord>): (m: map<TxId, GainFigures>)
    ensures forall id :: id in m <==> exists k :: 0 <= k < |gains| && gains[k].transactionId == id
    ensures forall k :: 0 <= k < |gains| && LastWithId(gains, k) ==> m[gains[k].transactionId] == Figures(gains[k])
  {
    if |gains| == 0 then map[]
    else
      var prefix := gains[..|gains| - 1];
      var g := gains[|gains| - 1];
      var m := GainsMap(prefix);
      var m' := m[g.transactionId := Figures(g)];
      GainsMapExtends(gains, prefix, m, m');
      m'
  }

  /** The step of `GainsMap` that adds the last record of `gains` to the map
      `m` built from the others. */
  lemma GainsMapExtends(gains: seq<GainRecord>, prefix: seq<GainRecord>, m: map<TxId, GainFigures>, m': map<TxId, GainFigures>)
    requires |gains| > 0 && prefix == gains[..|gains| - 1]
    requires m' == m[gains[|gains| - 1].transactionId := Figures(gains[|gains| - 1])]
    requires forall id :: id in m <==> exists k :: 0 <= k < |prefix| && prefix[k].transactionId == id
    requires forall k :: 0 <= k < |prefix| && LastWithId(prefix, k) ==> m[prefix[k].transactionId] == Figures(prefix[k])
    ensures forall id :: id in m' <==> exists k :: 0 <= k < |gains| && gains[k].transactionId == id
    ensures forall k :: 0 <= k < |gains| && LastWithId(gains, k) ==> m'[gains[k].transactionId] == Figures(gains[k])
  {
    forall id
      ensures id in m <==> exists k :: 0 <= k < |gains| - 1 && gains[k].transactionId == id
    {
      if id in m {
        var k :| 0 <= k < |prefix| && prefix[k].transactionId == id;
        assert gains[k] == prefix[k];
      }
    }
    GainsMapExtendsKeys(gains, m, m');
    forall k | 0 <= k < |gains| - 1
      ensures gains[k].transactionId in m
    {
      assert gains[k] == prefix[k];
    }
    GainsMapExtendsValues(gains, m);
  }

  lemma GainsMapExtendsKeys(gains: seq<GainRecord>, m: map<TxId, GainFigures>, m': map<TxId, GainFigures>)
    requires |gains| > 0 && m' == m[gains[|gains| - 1].transactionId := Figures(gains[|gains| - 1])]
    requires forall id :: id in m <==> exists k :: 0 <= k < |gains| - 1 && gains[k].transactionId == id
    ensures forall id :: id in m' <==> exists k :: 0 <= k < |gains| && gains[k].transactionId == id
  {
    var last := |gains| - 1;
    forall id | id in m'
      ensures exists k :: 0 <= k < |gains| && gains[k].transactionId == id
    {
      if id != gains[last].transactionId {
        var k :| 0 <= k < |gains| - 1 && gains[k].transactionId == id;
      }
    }
  }

  lemma GainsMapExtendsValues(gains: seq<GainRecord>, m: map<TxId, GainFigures>)
    requires |gains| > 0
    requires forall k :: 0 <= k < |gains| - 1 ==> gains[k].transactionId in m
    requires forall k :: 0 <= k < |gains| - 1 && LastWithId(gains[..|gains| - 1], k) ==>
      m[gains[k].transactionId] == Figures(gains[k])
    ensures forall k :: 0 <= k < |gains| && LastWithId(gains, k) ==>
      m[gains[|gains| - 1].transactionId := Figures(gains[|gains| - 1])][gains[k].transactionId] == Figures(gains[k])
  {
    var last := |gains| - 1;
    var m' := m[gains[last].transactionId := Figures(gains[last])];
    forall k | 0 <= k < |gains| && LastWithId(gains, k)
      ensures m'[gains[k].transactionId] == Figures(gains[k])
    {
      if k < last {
        assert LastWithId(gains[..last], k);
      }
    }
  }

  /** The listing: every transaction in order, each with the figures of the
      gains record carrying its id, when there is one. */
  function ListTransactionsBySecurity(transactions: seq<Tx>, gains: seq<GainRecord>): (rows: seq<TxRow>)
    ensures |rows| == |transactions|
    ensures forall i :: 0 <= i < |rows| ==> rows[i].tx == transactions[i]
    ensures forall i :: 0 <= i < |rows| ==>
      (rows[i].capitalGains.Some? <==> exists k :: 0 <= k < |gains| && gains[k].transactionId == transactions[i].id)
    ensures forall i, k ::
      0 <= i < |rows| && 0 <= k < |gains| && LastWithId(gains, k) && gains[k].transactionId == transactions[i].id
      ==> rows[i].capitalGains == Some(Figures(gains[k]))
    ensures forall i :: 0 <= i < |rows| && rows[i].capitalGains.Some? ==> exists k ::
      && 0 <= k < |gains| && LastWithId(gains, k)
      && gains[k].transactionId == transactions[i].id
      && rows[i].capitalGains.value == Figures(gains[k])
  {
    var m := GainsMap(gains);
    var rows := seq(|transactions|, i requires 0 <= i < |transactions| =>
      TxRow(transactions[i], if transactions[i].id in m then Some(m[transactions[i].id]) else None));
    forall i | 0 <= i < |rows| && rows[i].capitalGains.Some?
      ensures exists k :: 0 <= k < |gains| && LastWithId(gains, k) && gains[k].transactionId == transactions[i].id
    {
      LastOccurrenceExists(gains, transactions[i].id);
    }
    rows
  }

  /** An id that occurs in `gains` has a last occurrence. */
  lemma LastOccurrenceExists(gains: seq<GainRecord>, id: TxId)
    requires exists k :: 0 <= k < |gains| && gains[k].transactionId == id
    ensures exists k :: 0 <= k < |gains| && LastWithId(gains, k) && gains[k].transactionId == id
  {
    var k :| 0 <= k < |gains| && gains[k].transactionId == id;
    while !LastWithId(gains, k)
      invariant 0 <= k < |gains| && gains[k].transactionId == id
      decreases |gains| - k
    {
      var j :| k < j < |gains| && gains[j].transactionId == gains[k].transactionId;
      k := j;
    }
  }
}
