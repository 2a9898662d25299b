/** The average-cost engine: a fold over one security's ledger, in sortOrder,
    that keeps the running share count and adjusted cost base (ACB), and the
    capital gain or loss realised by every sale. */
module Calculations {
  import opened Wrappers
  import opened Records

  /** Running state of the fold: shares held and total ACB in cents. */
  datatype Position = Position(shares: real, acbCents: real)

  const Start := Position(0.0, 0.0)

  /** `Math.min` on two numbers. */
  function Min(a: real, b: real): (m: real)
    ensures m <= a && m <= b
    ensures m == a || m == b
  {
    if a <= b then a else b
  }

  /** The fields the fold reads are numbers: every kind but a return of
      capital carries `numShares`. A return of capital may lack it. */
  predicate Defined(t: Tx) {
    t.kind == ReturnOfCapital || t.numShares.Some?
  }

  predicate AllDefined(txs: seq<Tx>) {
    forall i :: 0 <= i < |txs| ==> Defined(txs[i])
  }

  /** A sale's share count is non-zero. The gains report divides the sale
      proceeds by it; the fold itself does not. */
  predicate NonZeroSale(t: Tx) {
    t.kind == Sell ==> t.numShares != Some(0.0)
  }

  predicate AllNonZeroSales(txs: seq<Tx>) {
    forall i :: 0 <= i < |txs| ==> NonZeroSale(txs[i])
  }

  /** The share count a row adds: acquisitions add theirs, a sale removes
      its own, a return of capital changes nothing. */
  function ShareDelta(t: Tx): real
    requires Defined(t)
  {
    match t.kind
    case Sell => -t.numShares.value
    case ReturnOfCapital => 0.0
    case _ => t.numShares.value
  }

  /** Net shares bought and sold over a ledger, whatever the cost base does. */
  function NetShares(txs: seq<Tx>): real
    requires AllDefined(txs)
  {
    if |txs| == 0 then 0.0 else NetShares(txs[..|txs| - 1]) + ShareDelta(txs[|txs| - 1])
  }

  /** ACB per share, with the single zero-shares policy: no positive holding
      means a per-share figure of zero. */
  function PerShare(p: Position): (r: real)
    ensures p.shares > 0.0 ==> r * p.shares == p.acbCents
    ensures p.shares <= 0.0 ==> r == 0.0
  {
    if p.shares > 0.0 then p.acbCents / p.shares else 0.0
  }

  /** The effect of one ledger row on the running position. A return of
      capital is scaled by the row's `numShares`; a row without it leaves
      the position alone. */
  function Step(p: Position, t: Tx): (q: Position)
    requires Defined(t)
    ensures q.shares == p.shares + ShareDelta(t)
    ensures IsAcquisition(t.kind) ==>
      q == Position(p.shares + t.numShares.value, p.acbCents + t.totalPriceCents + Fee(t))
    ensures t.kind == Sell && p.shares > 0.0 ==>
      q == Position(p.shares - t.numShares.value, p.acbCents - PerShare(p) * t.numShares.value)
    ensures t.kind == Sell && p.shares <= 0.0 ==>
      q == Position(p.shares - t.numShares.value, p.acbCents)
    ensures t.kind == ReturnOfCapital && p.shares > 0.0 && t.numShares.Some? ==>
      q == Position(p.shares, p.acbCents - Min(PerShare(p) * t.numShares.value, p.acbCents))
    ensures t.kind == ReturnOfCapital && (p.shares <= 0.0 || t.numShares.None?) ==> q == p
  {
    match t.kind
    case Sell =>
      var n := t.numShares.value;
      var acb := if p.shares > 0.0 then p.acbCents - p.acbCents / p.shares * n else p.acbCents;
      Position(p.shares - n, acb)
    case ReturnOfCapital =>
      if p.shares > 0.0 && t.numShares.Some? then
        Position(p.shares, p.acbCents - Min(p.acbCents / p.shares * t.numShares.value, p.acbCents))
      else
        p
    case _ =>
      Position(p.shares + t.numShares.value, p.acbCents + (t.totalPriceCents + Fee(t)))
  }

  /** The position after processing the whole ledger in order. Its share
      count is the net of the shares bought and sold. */
  function Run(txs: seq<Tx>): (q: Position)
    requires AllDefined(txs)
    ensures q.shares == NetShares(txs)
    ensures |txs| == 0 ==> q == Start
  {
    if |txs| == 0 then Start else Step(Run(txs[..|txs| - 1]), txs[|txs| - 1])
  }

  // ---------------------------------------------------------------------
  // Security summary

  datatype Summary = Summary(totalShares: real, totalACBCents: real, acbPerShareCents: real, currency: string)

  /** The per-row switch as both loops write it: the summary loop and the
      gains loop carry the same text, differing only in variable names. */
  method UpdateTotals(totalShares: real, totalACBCents: real, t: Tx) returns (shares: real, acbCents: real)
    requires Defined(t)
    ensures Position(shares, acbCents) == Step(Position(totalShares, totalACBCents), t)
  {
    shares, acbCents := totalShares, totalACBCents;
    var commissionFeeCents := t.commissionFeeCents.GetOr(0.0);
    match t.kind {
      case Buy =>
        shares := shares + t.numShares.value;
        acbCents := acbCents + (t.totalPriceCents + commissionFeeCents);
      case ReinvestedDividend =>
        shares := shares + t.numShares.value;
        acbCents := acbCents + (t.totalPriceCents + commissionFeeCents);
      case ReinvestedCapitalGainsDistribution =>
        shares := shares + t.numShares.value;
        acbCents := acbCents + (t.totalPriceCents + commissionFeeCents);
      case Sell =>
        var numShares := t.numShares.value;
        if shares > 0.0 {
          var acbPerShare := acbCents / shares;
          var acbForSoldShares := acbPerShare * numShares;
          acbCents := acbCents - acbForSoldShares;
        }
        shares := shares - numShares;
      case ReturnOfCapital =>
        if shares > 0.0 && t.numShares.Some? {
          var acbPerShare := acbCents / shares;
          var acbReduction := Min(acbPerShare * t.numShares.value, acbCents);
          acbCents := acbCents - acbReduction;
        }
    }
  }

  /** The loop of `getSecuritySummary`: it computes the reference fold `Run`
      and the guarded per-share figure. */
  method GetSecuritySummary(transactions: seq<Tx>, currency: string) returns (s: Summary)
    requires AllDefined(transactions)
    ensures s.totalShares == Run(transactions).shares
    ensures s.totalACBCents == Run(transactions).acbCents
    ensures s.acbPerShareCents == PerShare(Run(transactions))
    ensures s.currency == currency
    ensures |transactions| == 0 ==> s == Summary(0.0, 0.0, 0.0, currency)
  {
    var totalShares := 0.0;
    var totalACBCents := 0.0;
    var i := 0;
    while i < |transactions|
      invariant 0 <= i <= |transactions|
      invariant Position(totalShares, totalACBCents) == Run(transactions[..i])
    {
      assert transactions[..i + 1][..i] == transactions[..i];
      totalShares, totalACBCents := UpdateTotals(totalShares, totalACBCents, transactions[i]);
      i := i + 1;
    }
    assert transactions[..i] == transactions;
    var acbPerShareCents := if totalShares > 0.0 then totalACBCents / totalShares else 0.0;
    s := Summary(totalShares, totalACBCents, acbPerShareCents, currency);
  }

  // ---------------------------------------------------------------------
  // Capital gains and losses

  datatype GainRecord = GainRecord(
    transactionId: TxId,
    date: string,
    numShares: real,
    sellPricePerShareCents: real,
    acbPerShareCents: real,
    capitalGainLossCents: real,
    currency: string
  )

  /** The record of sale `t`, computed from the position `p` held just before it. */
  function SellRecord(p: Position, t: Tx, currency: string): (g: GainRecord)
    requires t.kind == Sell && Defined(t) && NonZeroSale(t)
    ensures g.transactionId == t.id && g.date == t.date && g.currency == currency
    ensures g.numShares == t.numShares.value
    ensures g.acbPerShareCents == PerShare(p)
    ensures g.sellPricePerShareCents * g.numShares == t.totalPriceCents - Fee(t)
    ensures g.capitalGainLossCents == t.totalPriceCents - Fee(t) - g.acbPerShareCents * g.numShares
  {
    var n := t.numShares.value;
    var acbPerShare := PerShare(p);
    var sellPrice := (t.totalPriceCents - Fee(t)) / n;
    GainRecord(t.id, t.date, n, sellPrice, acbPerShare, (sellPrice - acbPerShare) * n, currency)
  }

  /** Number of sales in a ledger. */
  function CountSells(txs: seq<Tx>): nat {
    if |txs| == 0 then 0
    else CountSells(txs[..|txs| - 1]) + (if txs[|txs| - 1].kind == Sell then 1 else 0)
  }

  /** Reference definition of the gains report: one record per sale, in
      ledger order, each taken against the fold's position before the sale. */
  function GainRecords(txs: seq<Tx>, currency: string): seq<GainRecord>
    requires AllDefined(txs) && AllNonZeroSales(txs)
  {
    if |txs| == 0 then []
    else
      var prefix := txs[..|txs| - 1];
      var t := txs[|txs| - 1];
      GainRecords(prefix, currency) + (if t.kind == Sell then [SellRecord(Run(prefix), t, currency)] else [])
  }

  /** The gain record the gains loop builds for sale `t`, as that loop writes it. */
  method SaleRecord(runningShares: real, runningACBCents: real, t: Tx, currency: string) returns (g: GainRecord)
    requires t.kind == Sell && Defined(t) && NonZeroSale(t)
    ensures g == SellRecord(Position(runningShares, runningACBCents), t, currency)
  {
    var numShares := t.numShares.value;
    var commissionFeeCents := t.commissionFeeCents.GetOr(0.0);
    var acbPerShareCents := if runningShares > 0.0 then runningACBCents / runningShares else 0.0;
    var sellPricePerShareCents := (t.totalPriceCents - commissionFeeCents) / numShares;
    var capitalGainLossCents := (sellPricePerShareCents - acbPerShareCents) * numShares;
    g := GainRecord(t.id, t.date, numShares, sellPricePerShareCents, acbPerShareCents, capitalGainLossCents, currency);
  }

  /** The loop of `getCapitalGainsLosses`: a record per sale from its own running
      totals, which track the summary fold `Run` row by row. */
  method GetCapitalGainsLosses(transactions: seq<Tx>, currency: string) returns (records: seq<GainRecord>)
    requires AllDefined(transactions) && AllNonZeroSales(transactions)
    ensures records == GainRecords(transactions, currency)
  {
    records := [];
    var runningShares := 0.0;
    var runningACBCents := 0.0;
    var i := 0;
    while i < |transactions|
      invariant 0 <= i <= |transactions|
      invariant Position(runningShares, runningACBCents) == Run(transactions[..i])
      invariant records == GainRecords(transactions[..i], currency)
    {
      var t := transactions[i];
      assert transactions[..i + 1][..i] == transactions[..i];
      if t.kind == Sell {
        var g := SaleRecord(runningShares, runningACBCents, t, currency);
        records := records + [g];
      }
      runningShares, runningACBCents := UpdateTotals(runningShares, runningACBCents, t);
      i := i + 1;
    }
    assert transactions[..i] == transactions;
  }

  // ---------------------------------------------------------------------
  // Portfolio summary

  /** A security of the portfolio with its ledger in sortOrder. */
  datatype Holding = Holding(securityId: SecurityId, name: string, ticker: string, currency: string, transactions: seq<Tx>)

  datatype PortfolioRow = PortfolioRow(
    securityId: SecurityId,
    name: string,
    ticker: string,
    currency: string,
    totalShares: real,
    totalACBCents: real,
    acbPerShareCents: real
  )

  /** One summary row per security, in the order the securities are listed. */
  method GetPortfolioSummary(holdings: seq<Holding>) returns (rows: seq<PortfolioRow>)
    requires forall h :: h in holdings ==> AllDefined(h.transactions)
    ensures |rows| == |holdings|
    ensures forall k :: 0 <= k < |rows| ==>
      && rows[k].securityId == holdings[k].securityId
      && rows[k].name == holdings[k].name
      && rows[k].ticker == holdings[k].ticker
      && rows[k].currency == holdings[k].currency
      && rows[k].totalShares == Run(holdings[k].transactions).shares
      && rows[k].totalACBCents == Run(holdings[k].transactions).acbCents
      && rows[k].acbPerShareCents == PerShare(Run(holdings[k].transactions))
  {
    rows := [];
    var i := 0;
    while i < |holdings|
      invariant 0 <= i <= |holdings|
      invariant |rows| == i
      invariant forall k :: 0 <= k < i ==>
        && rows[k].securityId == holdings[k].securityId
        && rows[k].name == holdings[k].name
        && rows[k].ticker == holdings[k].ticker
        && rows[k].currency == holdings[k].currency
        && rows[k].totalShares == Run(holdings[k].transactions).shares
        && rows[k].totalACBCents == Run(holdings[k].transactions).acbCents
        && rows[k].acbPerShareCents == PerShare(Run(holdings[k].transactions))
    {
      var h := holdings[i];
      var summary := GetSecuritySummary(h.transactions, h.currency);
      rows := rows + [PortfolioRow(h.securityId, h.name, h.ticker, h.currency,
                                   summary.totalShares, summary.totalACBCents, summary.acbPerShareCents)];
      i := i + 1;
    }
  }
}
