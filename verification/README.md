# Easy as ACB — a Dafny model of the cost-base engine, the ledger and the breadcrumbs

Easy as ACB tracks the adjusted cost base (ACB) of securities held in
portfolios. Each security has a ledger of transactions (buys, sells, returns
of capital, reinvested dividends and reinvested capital-gains
distributions), kept in `sortOrder`. This project models three parts of it:

- **The cost-base engine** (`calculations.dfy`, `calculations_properties.dfy`).
  A fold over one security's ledger keeps the running share count and ACB.
  `getSecuritySummary` reports the final totals and the ACB per share.
  `getCapitalGainsLosses` emits one gain/loss record per sale, computed from
  the position held just before that sale. `getPortfolioSummary` maps the
  summary over a portfolio's securities. Amounts are `real`: the exact
  reading of the JavaScript numbers.
- **The ledger mutations and listing** (`transactions.dfy`,
  `transactions_properties.dfy`). These are the input checks shared by
  `createTransaction` and `updateTransaction`, the per-kind storage rules,
  the `sortOrder` rules of create (max + 1) and `reorderTransactions`
  (index + 1), and the join of `listTransactionsBySecurity` that attaches
  gain figures to rows by id. The database becomes values: the security's
  existing rows, or a map from transaction id to row.
- **The breadcrumb trail** (`paths.dfy`, `breadcrumbs.dfy`). `useBreadcrumbs`
  splits the route path on `/`, drops empty pieces, reads off the portfolio
  and security ids, and builds a one- to three-item trail. It is modelled as
  a pure function of the path and the optional portfolio and security names.

Shared pieces: `wrappers.dfy` (`Option` for `undefined` fields, `Result` and
`Outcome` for thrown errors) and `records.dfy` (the transaction record).

Every engine operation is proved equal to one reference fold,
`Calculations.Run`, built on the per-row step `Calculations.Step`. The
source writes the per-row switch twice, in `getSecuritySummary` (lines
43-73 of `convex/calculations.ts`) and in `getCapitalGainsLosses` (lines
156-183). The two copies are the same text apart from variable names, so one
method, `Calculations.UpdateTotals`, models both as written. It is proved
equal to `Step`, and both query loops call it. So the two queries provably
run the same fold. Likewise the input checks of `createTransaction` (lines
33-62 of `convex/transactions.ts`) and `updateTransaction` (lines 272-301) are
the same text. One function, `Transactions.Validate`, models both, so
`TransactionsProperties.CreateAndUpdateAgree` holds by construction.

## Model

| member | source | states |
|---|---|---|
| Calculations.PerShare | convex/calculations.ts:76 | The per-share figure times the shares is the ACB when shares are positive; with no positive holding it is 0. |
| Calculations.Step | convex/calculations.ts:43-73 | Shares change by the row's share delta. An acquisition adds n shares and total + fee (fee absent counts 0) to the ACB. A sale removes n shares, and PerShare(p) times n of ACB when shares are positive; otherwise the ACB is unchanged. A return of capital keeps shares; with positive shares and a quantity n it removes min(PerShare(p) times n, ACB) from the ACB; otherwise the position is unchanged. |
| Calculations.Run | convex/calculations.ts:32-74 | The fold starts at (0, 0), and its share count is the net of shares acquired and sold, independent of the cost base. |
| Calculations.UpdateTotals | convex/calculations.ts:43-73 | The inline switch, as both loops write it, follows the per-kind rules of `Step`: acquisitions add shares and price plus fee; sales remove shares and their ACB at the pre-sale ACB per share when shares are positive; a return of capital removes the capped reduction. |
| Calculations.GetSecuritySummary | convex/calculations.ts:32-83 | The totals are the reference fold over the ledger, the per-share figure is the guarded ACB / shares, the currency is the security's, and an empty ledger gives (0, 0, 0). |
| Calculations.SellRecord | convex/calculations.ts:135-152 | A sale's record carries its id, date, share count and the currency. Its ACB per share is that of the position before the sale. Sale price per share times shares is the total less the commission. The gain is that net total less ACB per share times shares. |
| Calculations.SaleRecord | convex/calculations.ts:135-152 | The record the gains loop builds is the record of the sale against the running position. |
| Calculations.GetCapitalGainsLosses | convex/calculations.ts:119-186 | The report is the reference report: one record per sale, in ledger order, each against the fold's position before that sale. |
| Calculations.GetPortfolioSummary | convex/calculations.ts:224-245 | One row per security, in order, with the security's id, name, ticker and currency and the totals and per-share figure of its own ledger. |
| CalculationsProperties.SellKeepsAcbPerShare | convex/calculations.ts:52-60 | Selling part of a positive holding, leaving a positive holding, keeps the ACB per share. |
| CalculationsProperties.ReturnOfCapitalBounds | convex/calculations.ts:62-72 | From a non-negative ACB, a return of capital keeps the ACB non-negative. With positive shares, a non-negative ACB and a non-negative quantity, the new ACB lies between 0 and the old. A quantity covering the holding takes it to exactly 0. |
| CalculationsProperties.ReturnOfCapitalOnNegativeCostBase | convex/calculations.ts:62-72 | The bounds need a non-negative ACB: from 10 shares at an ACB of -1000, a return of capital of quantity 5 raises the ACB to 0. |
| CalculationsProperties.AcquisitionsAccumulate | convex/calculations.ts:44-50 | A ledger of buys and reinvestments holds the sum of the shares acquired at the sum of prices plus commissions (absent commission counts 0). |
| CalculationsProperties.PrudentStep | convex/calculations.ts:43-73 | A row that does not oversell and adds no negative amount keeps a non-negative position non-negative. |
| CalculationsProperties.PrudentLedgerStaysNonNegative | convex/calculations.ts:32-74 | A ledger whose sales never exceed the holding and whose acquisitions add no negative amount ends with non-negative shares and ACB. |
| CalculationsProperties.OversellLeavesNegativeCostBase | convex/calculations.ts:52-60 | Nothing clamps an oversell: buying 10 for 1000 then selling 20 leaves -10 shares and an ACB of -1000. |
| CalculationsProperties.BuyThenSellExample | convex/calculations.ts:32-186 | A worked ledger: 100 bought for 100000 + 1000 fee, 50 sold for 60000 - 1000 fee, gives a gain of 8500 with 50 shares left at an ACB of 50500. |
| CalculationsProperties.GainRecordsLength | convex/calculations.ts:127-153 | The report has exactly one record per sale. |
| CalculationsProperties.GainRecordAtSell | convex/calculations.ts:135-153 | The sale at ledger index i has its record at position "number of earlier sales", taken against the position before it. |
| CalculationsProperties.GainRecordFromSell | convex/calculations.ts:127-153 | Every record comes from some sale of the ledger, at the matching position. |
| CalculationsProperties.SellsReportedInOrder | convex/calculations.ts:127-153 | An earlier sale's record comes before a later row's records. |
| Transactions.Validate | convex/transactions.ts:33-62 | The arguments pass exactly when no rule is broken. A failure names a broken rule, and no rule checked earlier is broken. |
| Transactions.Normalise | convex/transactions.ts:88-102 | The stored row follows the per-kind rules and keeps the given id, security and sortOrder. A return of capital has no share count, a zero total and keeps its amount per share. Other kinds keep shares and total and drop the amount per share. The commission defaults to 0. |
| Transactions.MaxSortOrder | convex/transactions.ts:83-86 | The result is at least 0, bounds every existing sortOrder, and is either 0 or one of them. |
| Transactions.CreateTransaction | convex/transactions.ts:32-104 | Creation succeeds exactly for acceptable arguments, failing with the first broken rule. The new row is normalised and belongs to the security. Its sortOrder is at least 1, above every existing one, and is 1 or one above an existing one. |
| Transactions.UpdateTransaction | convex/transactions.ts:271-333 | Validation comes before the row lookup. A missing row is NotFound. On success only the named row changes, rewritten by the storage rules, and its id, security and sortOrder are kept. |
| Transactions.ReorderTransactions | convex/transactions.ts:387-406 | Succeeds exactly when every listed id exists; otherwise fails, with nothing written, on the first missing id. On success: same ids, only sortOrders change, unlisted rows are untouched, the last listing of each id gives sortOrder index + 1, and distinct ids get strictly increasing sortOrders. |
| Transactions.GainsMap | convex/transactions.ts:174-181 | The map holds an id exactly when some record carries it, with the figures of the last record carrying it. |
| Transactions.ListTransactionsBySecurity | convex/transactions.ts:184-187 | Same length and order as the ledger, every row unchanged. A row has figures exactly when some record carries its id, and then they are the figures of the last such record. |
| TransactionsProperties.CreatedRowIsStoredShape | convex/transactions.ts:88-104 | A created row has the stored shape, the engine can read it, and a stored sale has a non-zero share count. |
| TransactionsProperties.UpdatedRowIsStoredShape | convex/transactions.ts:319-333 | An updated row has the stored shape, the engine can read it, and a stored sale has a non-zero share count. |
| TransactionsProperties.StoredReturnOfCapitalIsNoOp | convex/calculations.ts:62-72 | A stored return of capital has no `numShares`, so the engine's step leaves every position unchanged for it. |
| TransactionsProperties.ResubmitIsFixedPoint | convex/transactions.ts:319-333 | Submitting a stored row's own fields is accepted and writes the same row back. |
| TransactionsProperties.ValidateIgnoresAmountPerShare | convex/transactions.ts:48-62 | For any kind other than return of capital, the amount per share does not affect validation. |
| TransactionsProperties.CreateAndUpdateAgree | convex/transactions.ts:272-301 | Create and update (of an existing row) accept the same arguments and reject the others with the same error. |
| TransactionsProperties.ListingMarksSales | convex/transactions.ts:173-187 | Given a ledger with unique ids and its own gains report, the listing gives figures to exactly the sales, each with that sale's own figures. |
| TransactionsProperties.SaleIsListed | convex/transactions.ts:184-187 | In that listing a sale carries the figures of its own record. |
| TransactionsProperties.OtherRowIsPlain | convex/transactions.ts:184-187 | In that listing a row that is not a sale carries no figures. |
| Paths.Split | src/hooks/useBreadcrumbs.ts:11 | Splitting yields at least one piece, none containing `/`. |
| Paths.JoinSplit | src/hooks/useBreadcrumbs.ts:11 | Splitting loses nothing: joining the pieces with `/` gives the path back. |
| Paths.SplitJoin | src/hooks/useBreadcrumbs.ts:11 | Splitting undoes joining slash-free pieces. |
| Paths.NonEmpty | src/hooks/useBreadcrumbs.ts:11 | The filter keeps exactly the non-empty pieces: every kept piece is non-empty and from the input, and every non-empty input piece is kept. A single piece is kept unless it is empty, and the filter is the identity when no piece is empty. |
| Paths.NonEmptyAppend | src/hooks/useBreadcrumbs.ts:11 | Filtering distributes over concatenation, so the non-empty pieces are kept in their order. |
| Paths.Segments | src/hooks/useBreadcrumbs.ts:11 | The segments are exactly the non-empty pieces of the split path, each free of slashes. |
| Paths.SegmentsOfRootedPath | src/hooks/useBreadcrumbs.ts:11 | A path "/" + s1 + "/" + ... + "/" + sn, with each si non-empty and slash-free, has segments exactly s1 ... sn. |
| Breadcrumbs.RouteParams | src/hooks/useBreadcrumbs.ts:13-21 | The portfolio id is segment 1 exactly when segment 0 is "portfolio" and segment 1 is non-empty. The security id is segment 3 exactly when there is a portfolio id, segment 2 is "security" and segment 3 is non-empty. Otherwise each id is absent. |
| Breadcrumbs.Breadcrumbs | src/hooks/useBreadcrumbs.ts:34-60 | Always 1 to 3 items. The first is "Portfolios", the last is current, and every earlier one links and is not current. One item exactly when neither page pattern matches; two exactly on a portfolio page; three exactly on a security page. |
| Breadcrumbs.PagePatternsDisjoint | src/hooks/useBreadcrumbs.ts:40-48 | No path matches both page patterns, and "/" matches neither. |
| Breadcrumbs.PortfolioPatternMeaning | src/hooks/useBreadcrumbs.ts:40 | A path matches the portfolio pattern exactly when it is "/portfolio/" followed by one non-empty slash-free segment. |
| Breadcrumbs.SecurityPageOf | src/hooks/useBreadcrumbs.ts:48 | "/portfolio/x/security/y", with x and y non-empty and slash-free, matches the security pattern. |
| Breadcrumbs.SecurityPageShape | src/hooks/useBreadcrumbs.ts:48 | Every path matching the security pattern is "/portfolio/x/security/y" for non-empty, slash-free x and y. |
| Breadcrumbs.SecurityPatternMeaning | src/hooks/useBreadcrumbs.ts:48 | A path matches the security pattern exactly when it has that shape. |
| Breadcrumbs.HomeTrail | src/hooks/useBreadcrumbs.ts:35-37 | "/" gives the single current "Portfolios" item. |
| Breadcrumbs.PortfolioSegments | src/hooks/useBreadcrumbs.ts:11-17 | "/portfolio/x" has segments "portfolio", x. |
| Breadcrumbs.SecuritySegments | src/hooks/useBreadcrumbs.ts:11-19 | "/portfolio/x/security/y" has segments "portfolio", x, "security", y. |
| Breadcrumbs.PortfolioTrail | src/hooks/useBreadcrumbs.ts:39-45 | "/portfolio/x" yields portfolio id x and no security id. Its trail is "Portfolios" linking to "/", then the current portfolio name ("" while unknown). |
| Breadcrumbs.SecurityTrail | src/hooks/useBreadcrumbs.ts:47-57 | "/portfolio/x/security/y" yields ids x and y. Its trail is "Portfolios" linking to "/", the portfolio name linking to "/portfolio/x" (never the "/" fallback), then the current security name. |

## Left out

- Authentication, ownership checks and every database call are not modelled. This covers `getAuthUserId`, `ctx.db.*`, "Security not found" / "Transaction not found" for rows the user does not own, and `ctx.runQuery`. The ledger, the table of rows and the gains report are inputs.
- `deleteTransaction` and `getTransaction` are not modelled: they are only a lookup, an ownership check and a database call.
- `listTransactionsBySecurity` gets its gains report from `api.calculations.calculateACB`, which is not part of this model. The report is a parameter of `Transactions.ListTransactionsBySecurity`. `TransactionsProperties.ListingMarksSales` states what happens when that report is the engine's own `GainRecords`.
- IEEE-754 behaviour is not modelled: rounding, NaN and Infinity. Numbers are exact `real`s. `sortOrder` is an `int`, since every sortOrder the code writes is a whole number.
- Calculations.Step: a return of capital is scaled by the row's `numShares`, as the code writes it. The stored form of a return of capital has no `numShares` and keeps the quantity in `amountPerShare`. In JavaScript that makes the reduction NaN and the ACB NaN from then on. The model leaves the position unchanged for such a row instead (`TransactionsProperties.StoredReturnOfCapitalIsNoOp`). `CalculationsProperties.ReturnOfCapitalBounds` states its cap and bounds only when a quantity is present, so they apply to no stored row. The code's choice of multiplier is kept, not replaced by `amountPerShare`.
- Calculations.GetSecuritySummary: requires every row other than a return of capital to carry `numShares` (`Calculations.Defined`). In the code an absent `numShares` makes the totals NaN. A sale of 0 shares is allowed: it subtracts nothing, as in the code. Every row the two mutations store meets this (`TransactionsProperties.CreatedRowIsStoredShape`, `UpdatedRowIsStoredShape`).
- Calculations.GetCapitalGainsLosses: the same requirement, and also that every sale has a non-zero share count (`Calculations.AllNonZeroSales`). The gains loop divides the sale proceeds by that count (lines 139-140), which gives NaN or Infinity for 0. Stored sales always have a non-zero count. The code's unused `sellTransactions` filter (lines 119-121) is not modelled.
- Calculations.GetPortfolioSummary: the requirement of `GetSecuritySummary` on every security's rows. The securities and their ledgers are inputs in place of the database query and `ctx.runQuery`.
- The ACB is not clamped at zero: an oversell drives it negative, and the model follows the code (`CalculationsProperties.OversellLeavesNegativeCostBase`).
- `convex/schema.ts` declares `date` as a number and `numShares` as required. The model follows the mutations' argument shapes instead: `date` is a string and `numShares` is optional.
- `reorderTransactions` patches rows one at a time. The failure of a Convex mutation rolls back every earlier patch, so the model returns either the fully reordered table or an error with nothing written. The error message text is not modelled, only which id was missing.
- The React hooks and queries in `useBreadcrumbs` are replaced by optional names. `portfolio?.name || ""` is modelled as "the name, or "" when absent"; a present empty name also gives "". The rendering in `Breadcrumb.tsx` is left out.
- All UI components, currency formatting and input parsing are left out, as are the name trimming and upper-casing in `convex/securities.ts` and `convex/portfolios.ts`.
