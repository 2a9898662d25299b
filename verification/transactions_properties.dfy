/** Properties of the ledger layer, and how it meets the engine: what a
    stored row looks like, that storing is a fixed point, and that the
    listing marks exactly the sales when it is given the engine's report. */
module TransactionsProperties {
  import opened Wrappers
  import opened Records
  import opened Calculations
  import opened CalculationsProperties
  import opened Transactions

  /** The shape every stored row has. */
  predicate StoredShape(t: Tx) {
    && (t.kind == ReturnOfCapital ==>
          && t.numShares.None?
          && t.totalPriceCents == 0.0
          && t.amountPerShare.Some? && t.amountPerShare.value >= 0.0)
    && (t.kind != ReturnOfCapital ==>
          && t.numShares.Some? && t.numShares.value != 0.0
          && t.totalPriceCents >= 0.0
          && t.amountPerShare.None?)
    && t.commissionFeeCents.Some? && t.commissionFeeCents.value >= 0.0
  }

  /** The arguments an edit of stored row `t` submits unchanged. */
  function ArgsOf(t: Tx): TxArgs {
    TxArgs(t.date, t.numShares, t.totalPriceCents, t.amountPerShare, t.commissionFeeCents, t.kind)
  }

  /** A created row has the stored shape, and the engine can read it. */
  lemma CreatedRowIsStoredShape(existing: seq<Tx>, securityId: SecurityId, newId: TxId, a: TxArgs)
    requires CreateTransaction(existing, securityId, newId, a).Success?
    ensures StoredShape(CreateTransaction(existing, securityId, newId, a).value)
    ensures Defined(CreateTransaction(existing, securityId, newId, a).value)
    ensures NonZeroSale(CreateTransaction(existing, securityId, newId, a).value)
  {
  }

  /** An updated row has the stored shape, and the engine can read it. */
  lemma UpdatedRowIsStoredShape(db: map<TxId, Tx>, id: TxId, a: TxArgs)
    requires UpdateTransaction(db, id, a).Success?
    ensures StoredShape(UpdateTransaction(db, id, a).value[id])
    ensures Defined(UpdateTransaction(db, id, a).value[id])
    ensures NonZeroSale(UpdateTransaction(db, id, a).value[id])
  {
  }

  /** The engine scales a return of capital by `numShares`, which a stored
      return of capital never has: every stored return of capital leaves the
      position unchanged. */
  lemma StoredReturnOfCapitalIsNoOp(p: Position, t: Tx)
    requires StoredShape(t) && t.kind == ReturnOfCapital
    ensures Defined(t)
    ensures Step(p, t) == p
  {
  }

  /** Submitting a stored row's own fields is accepted and stores the same
      row again: storing is a fixed point on its own output. */
  lemma ResubmitIsFixedPoint(t: Tx)
    requires StoredShape(t)
    ensures Acceptable(ArgsOf(t))
    ensures Normalise(ArgsOf(t), t.id, t.securityId, t.sortOrder) == t
  {
  }

  /** Validation of a kind other than return of capital ignores the amount
      per share. */
  lemma ValidateIgnoresAmountPerShare(a: TxArgs, amountPerShare: Option<real>)
    requires a.transactionType != ReturnOfCapital
    ensures Validate(a.(amountPerShare := amountPerShare)) == Validate(a)
  {
  }

  /** Create and update accept and reject the same arguments with the same
      error, whenever the row to update exists. */
  lemma CreateAndUpdateAgree(existing: seq<Tx>, securityId: SecurityId, newId: TxId, db: map<TxId, Tx>, id: TxId, a: TxArgs)
    requires id in db
    ensures CreateTransaction(existing, securityId, newId, a).Success? <==> UpdateTransaction(db, id, a).Success?
    ensures CreateTransaction(existing, securityId, newId, a).Failure? ==>
      UpdateTransaction(db, id, a) == Failure(Invalid(CreateTransaction(existing, securityId, newId, a).error))
  {
  }

  /** No two rows of the ledger share an id (`Transactions.Distinct` on the
      rows' ids). */
  predicate UniqueIds(txs: seq<Tx>) {
    forall i, j :: 0 <= i < j < |txs| ==> txs[i].id != txs[j].id
  }

  /** Listing a ledger with unique ids against its own gains report attaches
      figures to exactly the sales, each with the figures of that sale. */
  lemma ListingMarksSales(txs: seq<Tx>, currency: string, i: int)
    requires AllDefined(txs) && AllNonZeroSales(txs) && UniqueIds(txs) && 0 <= i < |txs|
    ensures ListTransactionsBySecurity(txs, GainRecords(txs, currency))[i].capitalGains.Some? <==> txs[i].kind == Sell
    ensures txs[i].kind == Sell ==>
      ListTransactionsBySecurity(txs, GainRecords(txs, currency))[i].capitalGains
        == Some(Figures(SellRecord(Run(txs[..i]), txs[i], currency)))
  {
    if txs[i].kind == Sell {
      SaleIsListed(txs, currency, i);
    } else {
      OtherRowIsPlain(txs, currency, i);
    }
  }

  /** The report's records that carry the id of row `i` all come from row `i`. */
  lemma RecordsOfRow(txs: seq<Tx>, currency: string, i: int, k: int)
    requires AllDefined(txs) && AllNonZeroSales(txs) && UniqueIds(txs) && 0 <= i < |txs|
    requires 0 <= k < |GainRecords(txs, currency)| && GainRecords(txs, currency)[k].transactionId == txs[i].id
    ensures txs[i].kind == Sell && k == CountSells(txs[..i])
    ensures GainRecords(txs, currency)[k] == SellRecord(Run(txs[..i]), txs[i], currency)
  {
    var gains := GainRecords(txs, currency);
    GainRecordFromSell(txs, currency, k);
    var j :| 0 <= j < |txs| && txs[j].kind == Sell && CountSells(txs[..j]) == k
      && gains[k] == SellRecord(Run(txs[..j]), txs[j], currency);
    assert txs[j].id == txs[i].id;
    assert j == i;
  }

  lemma SaleIsListed(txs: seq<Tx>, currency: string, i: int)
    requires AllDefined(txs) && AllNonZeroSales(txs) && UniqueIds(txs) && 0 <= i < |txs| && txs[i].kind == Sell
    ensures ListTransactionsBySecurity(txs, GainRecords(txs, currency))[i].capitalGains
      == Some(Figures(SellRecord(Run(txs[..i]), txs[i], currency)))
  {
    var gains := GainRecords(txs, currency);
    var rows := ListTransactionsBySecurity(txs, gains);
    GainRecordAtSell(txs, currency, i);
    var k0 := CountSells(txs[..i]);
    assert gains[k0].transactionId == txs[i].id;
    assert rows[i].capitalGains.Some?;
    var k :| 0 <= k < |gains| && LastWithId(gains, k) && gains[k].transactionId == txs[i].id
      && rows[i].capitalGains.value == Figures(gains[k]);
    RecordsOfRow(txs, currency, i, k);
  }

  lemma OtherRowIsPlain(txs: seq<Tx>, currency: string, i: int)
    requires AllDefined(txs) && AllNonZeroSales(txs) && UniqueIds(txs) && 0 <= i < |txs| && txs[i].kind != Sell
    ensures ListTransactionsBySecurity(txs, GainRecords(txs, currency))[i].capitalGains.None?
  {
    var gains := GainRecords(txs, currency);
    var rows := ListTransactionsBySecurity(txs, gains);
    if rows[i].capitalGains.Some? {
      var k :| 0 <= k < |gains| && gains[k].transactionId == txs[i].id;
      RecordsOfRow(txs, currency, i, k);
      assert false;
    }
  }
}
