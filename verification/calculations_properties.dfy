/** Properties of the average-cost engine: what each kind of row does to the
    position, what the fold keeps, and how the gains report lines up with the
    ledger's sales. */
module CalculationsProperties {
  import opened Wrappers
  import opened Records
  import opened Calculations

  // ---------------------------------------------------------------------
  // One row at a time

  /** Selling part of a positive holding keeps the ACB per share. */
  lemma SellKeepsAcbPerShare(p: Position, t: Tx)
    requires Defined(t) && t.kind == Sell
    requires p.shares > 0.0 && p.shares - t.numShares.value > 0.0
    ensures PerShare(Step(p, t)) == PerShare(p)
  {
    var n := t.numShares.value;
    var q := p.acbCents / p.shares;
    var left := p.shares - n;
    assert p.acbCents == q * p.shares;
    assert Step(p, t).acbCents == q * p.shares - q * n;
    assert q * p.shares - q * n == q * left;
    assert Step(p, t) == Position(left, q * left);
    assert (q * left) / left == q;
  }

  /** With a positive holding and a non-negative cost base, a return of
      capital keeps the cost base non-negative; for a non-negative quantity
      the cost base ends between zero and its old value, and reaches exactly
      zero once the quantity covers the whole holding. */
  lemma ReturnOfCapitalBounds(p: Position, t: Tx)
    requires Defined(t) && t.kind == ReturnOfCapital
    ensures p.acbCents >= 0.0 ==> Step(p, t).acbCents >= 0.0
    ensures p.shares > 0.0 && p.acbCents >= 0.0 && t.numShares.Some? && t.numShares.value >= 0.0 ==>
      0.0 <= Step(p, t).acbCents <= p.acbCents
    ensures p.shares > 0.0 && p.acbCents >= 0.0 && t.numShares.Some? && t.numShares.value >= p.shares ==>
      Step(p, t).acbCents == 0.0
  {
    if p.shares > 0.0 && t.numShares.Some? && p.acbCents >= 0.0 {
      var q := p.acbCents / p.shares;
      var n := t.numShares.value;
      assert q * p.shares == p.acbCents;
      assert q >= 0.0;
      if n >= 0.0 {
        assert q * n >= 0.0;
      }
      if n >= p.shares {
        assert q * n >= q * p.shares;
      }
    }
  }

  /** The cap is `min(reduction, ACB)`, so it needs a non-negative cost
      base: from 10 shares at an ACB of -1000 cents, a return of capital of
      quantity 5 raises the ACB to 0. */
  lemma ReturnOfCapitalOnNegativeCostBase(t: Tx)
    requires t.kind == ReturnOfCapital && t.numShares == Some(5.0)
    ensures Step(Position(10.0, -1000.0), t) == Position(10.0, 0.0)
  {
    assert PerShare(Position(10.0, -1000.0)) == -100.0;
  }

  // ---------------------------------------------------------------------
  // Whole-ledger facts

  /** Every row is one of the three acquisition kinds. */
  predicate OnlyAcquisitions(txs: seq<Tx>) {
    forall i :: 0 <= i < |txs| ==> IsAcquisition(txs[i].kind) && txs[i].numShares.Some?
  }

  /** Shares acquired, summed front to back. */
  function SharesAcquired(txs: seq<Tx>): real
    requires OnlyAcquisitions(txs)
  {
    if |txs| == 0 then 0.0 else txs[0].numShares.value + SharesAcquired(txs[1..])
  }

  /** Purchase cost including commissions, summed front to back. */
  function CostAcquired(txs: seq<Tx>): real
    requires OnlyAcquisitions(txs)
  {
    if |txs| == 0 then 0.0 else txs[0].totalPriceCents + Fee(txs[0]) + CostAcquired(txs[1..])
  }

  lemma {:induction false} AcquiredSnoc(txs: seq<Tx>)
    requires |txs| > 0 && OnlyAcquisitions(txs)
    ensures SharesAcquired(txs) == SharesAcquired(txs[..|txs| - 1]) + txs[|txs| - 1].numShares.value
    ensures CostAcquired(txs) == CostAcquired(txs[..|txs| - 1]) + (txs[|txs| - 1].totalPriceCents + Fee(txs[|txs| - 1]))
  {
    if |txs| > 1 {
      var rest := txs[1..];
      AcquiredSnoc(rest);
      assert rest[..|rest| - 1] == txs[..|txs| - 1][1..];
    }
  }

  /** A ledger of purchases and reinvestments holds the sum of the shares
      acquired at the sum of their prices plus commissions. */
  lemma {:induction false} AcquisitionsAccumulate(txs: seq<Tx>)
    requires AllDefined(txs) && OnlyAcquisitions(txs)
    ensures Run(txs) == Position(SharesAcquired(txs), CostAcquired(txs))
  {
    if |txs| > 0 {
      var prefix := txs[..|txs| - 1];
      AcquisitionsAccumulate(prefix);
      AcquiredSnoc(txs);
    }
  }

  /** Row `t` keeps a non-negative position non-negative: acquisitions add
      non-negative amounts, sales do not sell more than is held. */
  predicate Prudent(p: Position, t: Tx)
    requires Defined(t)
  {
    match t.kind
    case Sell => t.numShares.value <= p.shares
    case ReturnOfCapital => true
    case _ => t.numShares.value >= 0.0 && t.totalPriceCents >= 0.0 && Fee(t) >= 0.0
  }

  lemma PrudentStep(p: Position, t: Tx)
    requires Defined(t) && Prudent(p, t)
    requires p.shares >= 0.0 && p.acbCents >= 0.0
    ensures Step(p, t).shares >= 0.0 && Step(p, t).acbCents >= 0.0
  {
    if t.kind == Sell && p.shares > 0.0 {
      var q := p.acbCents / p.shares;
      var n := t.numShares.value;
      assert q * p.shares == p.acbCents;
      assert q >= 0.0;
      if n >= 0.0 {
        assert q * n <= q * p.shares;
      } else {
        assert q * n <= 0.0;
      }
    } else if t.kind == ReturnOfCapital {
      ReturnOfCapitalBounds(p, t);
    }
  }

  /** In a ledger whose sales never exceed the holding and whose
      acquisitions add no negative amount, the share count and the cost base
      never go negative. */
  lemma {:induction false} PrudentLedgerStaysNonNegative(txs: seq<Tx>)
    requires AllDefined(txs)
    requires forall i :: 0 <= i < |txs| ==> Prudent(Run(txs[..i]), txs[i])
    ensures Run(txs).shares >= 0.0 && Run(txs).acbCents >= 0.0
  {
    if |txs| > 0 {
      var prefix := txs[..|txs| - 1];
      forall i | 0 <= i < |prefix|
        ensures Prudent(Run(prefix[..i]), prefix[i])
      {
        assert prefix[..i] == txs[..i];
      }
      PrudentLedgerStaysNonNegative(prefix);
      PrudentStep(Run(prefix), txs[|txs| - 1]);
    }
  }

  /** Overselling is not clamped: buying 10 shares for 1000 cents and then
      selling 20 leaves -10 shares and a cost base of -1000 cents. */
  lemma OversellLeavesNegativeCostBase(buy: Tx, sell: Tx)
    requires buy.kind == Buy && buy.numShares == Some(10.0) && buy.totalPriceCents == 1000.0
    requires buy.commissionFeeCents == None
    requires sell.kind == Sell && sell.numShares == Some(20.0)
    ensures AllDefined([buy, sell])
    ensures Run([buy, sell]) == Position(-10.0, -1000.0)
  {
    assert [buy, sell][..1] == [buy];
    assert [buy][..0] == [];
    assert Run([buy]) == Position(10.0, 1000.0);
  }

  /** Buying 100 shares for 100000 cents plus a 1000-cent commission, then
      selling 50 for 60000 cents less a 1000-cent commission: the ACB per
      share is 1010, the sale nets 1180 a share, the gain is 8500 cents, and
      50 shares remain at a cost base of 50500 cents. */
  lemma BuyThenSellExample(buy: Tx, sell: Tx, currency: string)
    requires buy.kind == Buy && buy.numShares == Some(100.0)
    requires buy.totalPriceCents == 100000.0 && buy.commissionFeeCents == Some(1000.0)
    requires sell.kind == Sell && sell.numShares == Some(50.0)
    requires sell.totalPriceCents == 60000.0 && sell.commissionFeeCents == Some(1000.0)
    ensures AllDefined([buy, sell]) && AllNonZeroSales([buy, sell])
    ensures Run([buy, sell]) == Position(50.0, 50500.0)
    ensures GainRecords([buy, sell], currency)
      == [GainRecord(sell.id, sell.date, 50.0, 1180.0, 1010.0, 8500.0, currency)]
  {
    var ledger := [buy, sell];
    assert ledger[..1] == [buy];
    assert [buy][..0] == [];
    assert Run([buy]) == Position(100.0, 101000.0);
    assert PerShare(Run([buy])) == 1010.0;
    assert GainRecords([buy], currency) == [];
  }

  // ---------------------------------------------------------------------
  // The gains report

  lemma {:induction false} GainRecordsLength(txs: seq<Tx>, currency: string)
    requires AllDefined(txs) && AllNonZeroSales(txs)
    ensures |GainRecords(txs, currency)| == CountSells(txs)
  {
    if |txs| > 0 {
      GainRecordsLength(txs[..|txs| - 1], currency);
    }
  }

  /** The sale at ledger index `i` has its record at position "number of
      earlier sales", computed from the position before the sale. */
  lemma {:induction false} GainRecordAtSell(txs: seq<Tx>, currency: string, i: int)
    requires AllDefined(txs) && AllNonZeroSales(txs) && 0 <= i < |txs| && txs[i].kind == Sell
    ensures CountSells(txs[..i]) < |GainRecords(txs, currency)|
    ensures GainRecords(txs, currency)[CountSells(txs[..i])] == SellRecord(Run(txs[..i]), txs[i], currency)
  {
    var prefix := txs[..|txs| - 1];
    GainRecordsLength(prefix, currency);
    if i == |txs| - 1 {
      assert txs[..i] == prefix;
    } else {
      assert prefix[..i] == txs[..i];
      GainRecordAtSell(prefix, currency, i);
    }
  }

  /** Every record of the report comes from a sale of the ledger. */
  lemma {:induction false} GainRecordFromSell(txs: seq<Tx>, currency: string, k: int)
    requires AllDefined(txs) && AllNonZeroSales(txs) && 0 <= k < |GainRecords(txs, currency)|
    ensures exists i ::
              && 0 <= i < |txs| && txs[i].kind == Sell && CountSells(txs[..i]) == k
              && GainRecords(txs, currency)[k] == SellRecord(Run(txs[..i]), txs[i], currency)
  {
    var prefix := txs[..|txs| - 1];
    GainRecordsLength(prefix, currency);
    if k < |GainRecords(prefix, currency)| {
      GainRecordFromSell(prefix, currency, k);
      var i :| 0 <= i < |prefix| && prefix[i].kind == Sell && CountSells(prefix[..i]) == k
        && GainRecords(prefix, currency)[k] == SellRecord(Run(prefix[..i]), prefix[i], currency);
      assert prefix[..i] == txs[..i];
    } else {
      var i := |txs| - 1;
      assert txs[..i] == prefix;
    }
  }

  lemma {:induction false} CountSellsMonotone(txs: seq<Tx>, i: int, j: int)
    requires 0 <= i <= j <= |txs|
    ensures CountSells(txs[..i]) <= CountSells(txs[..j])
  {
    if i < j {
      CountSellsMonotone(txs, i, j - 1);
      assert txs[..j][..j - 1] == txs[..j - 1];
    }
  }

  /** Records appear in ledger order: an earlier sale has an earlier record. */
  lemma SellsReportedInOrder(txs: seq<Tx>, i: int, j: int)
    requires 0 <= i < j < |txs| && txs[i].kind == Sell
    ensures CountSells(txs[..i]) < CountSells(txs[..j])
  {
    CountSellsMonotone(txs, i + 1, j);
    assert txs[..i + 1][..i] == txs[..i];
  }
}
