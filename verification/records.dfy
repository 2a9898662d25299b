/** The transaction record shared by the ledger and the cost-base engine. */
module Records {
  import opened Wrappers

  type TxId = string
  type SecurityId = string

  /** The five transaction types a ledger row can have. */
  datatype Kind =
    | Buy
    | Sell
    | ReturnOfCapital
    | ReinvestedDividend
    | ReinvestedCapitalGainsDistribution

  /** A stored ledger row. Amounts are in cents; `numShares` is absent for a
      stored return of capital and `amountPerShare` is present only there. */
  datatype Tx = Tx(
    id: TxId,
    securityId: SecurityId,
    date: string,
    kind: Kind,
    numShares: Option<real>,
    totalPriceCents: real,
    amountPerShare: Option<real>,
    commissionFeeCents: Option<real>,
    sortOrder: int
  )

  /** Kinds that add shares and cost: purchases and reinvested distributions. */
  predicate IsAcquisition(k: Kind) {
    k == Buy || k == ReinvestedDividend || k == ReinvestedCapitalGainsDistribution
  }

  /** The commission as the engine reads it: an absent fee counts as zero. */
  function Fee(t: Tx): real {
    t.commissionFeeCents.GetOr(0.0)
  }
}
