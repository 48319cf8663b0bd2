# Fruct: a verified model of the CRM's transactional core

A Dafny 4.11 model of the services of Fruct that change shared state, and proofs of what every run of
them keeps. `dafny verify dfyconfig.toml` checks all of it.

## What is modelled

**Deals, stock and payouts as one ledger.** `Ledger` holds the three tables and says what one committed
transaction does to them. Deal and payout rows are never deleted, so a row's generated id is its
position. Money columns hold whole kopecks; amounts before storage are exact reals.

* `LedgerProofs` proves what every serial run of transactions keeps: stock conservation, payout
  accounting, the deal lifecycle.
* `Interleaving` runs the same transactions concurrently. Every statement on a stock row is its own step,
  takes the row's lock and keeps it with a before-image until commit or rollback; any transaction may roll
  back at any point. Any interleaving is proved to end where the committed transactions alone end, each
  as one indivisible step in commit order, so the ledger's laws hold for interleaved runs too.
* `PayoutOverlap` lets the calls on one payout overlap as well and proves what survives and what does not.
* `Realizable` is the converse of serializability: every serial history happens in some run of single steps.
* `NoTrace` proves that deleting all steps of a transaction that never commits changes nothing.
* `DealsService`, `StockService`, `PayoutCalc` and `PayoutsService` hold the service methods, as loops over
  a mutable `Database` object, each proved to be one of the ledger's transactions (or a series of them),
  together with prices, rounding, the item-by-item reservation and what a period's payouts cover.

Because the code reads before it writes, `Interleaving` assumes three things: two `changeStatus` calls on
one deal do not overlap, two `generate` calls do not overlap, and two of the calls `update`, `approve` and
`markPaid` on one payout do not overlap. Everything else may. `PayoutOverlap` drops the third assumption.

**Tenant scoping.** `TenantScope` gives where-clauses a three-valued meaning, models the argument rewrite
of all seventeen operations, and proves that a rewritten query on the whole table is the query on the
tenant's own slice, except for one kind of update, which is characterised exactly. `TenantRuns` lifts this
to runs over many models: each tenant sees what it would see on a database of its own.

**Refresh tokens.** `AuthTokens` models single writes to token rows and the writes each call makes;
`AuthService` is the calls as methods; `AuthProofs` follows whole serial runs. Revocation is proved for
arbitrary interleavings of writes, including a crash between the two writes that issue a token.

**Delivery quotes.** `DeliveryQuote` merges an order, sums its prices and weights and filters warehouses;
`VariantOrder` is the comparator and the order any stable sort makes of it; `DeliveryCache` is the bucketed
cache shared by concurrent variant builders while entries may vanish at any time.

**Script templates.** `ScriptTemplate` is the placeholder pattern stated declaratively, the one-pass scanner
proved to match exactly it, and rendering.

`Wrappers`, `Money`, `DealStatus`, `Catalog` and `JsString` are shared vocabulary.

## Where code and comments disagree

The model follows the code.

* `src/common/prisma/tenant.extension.ts:26-31` says a tenant id smuggled into `data` is always overwritten.
  For `update`, `updateMany` and `updateManyAndReturn` it is not. `UpdatesKeepTenantsIff` states exactly when
  rows stay with their tenant, and `UpdateDataCanMoveARow` is a concrete row that does not.
* `src/deals/deal-status-transitions.ts:8-9` describes REFUNDED as a sale that shipped and came back. The
  table also allows PAID to REFUNDED. `RefundFollowsShippingIff` says when a refund follows a shipment, and
  `RefundedUnshippedRun` is a run in which it does not; `NoStageSkipped` promises PAID before REFUNDED.
* `src/payouts/payouts.service.ts:48` says one payout per manager. A manager with nothing to pay gets none,
  so that manager's deals stay unclaimed. `ClaimedAfterGenerateIff` says exactly which deals are claimed, and
  `UnpaidDealStaysUnclaimed` is one that is not.
* A manual correction that omits the total (`src/payouts/payouts.service.ts:118-121`) recomputes it before
  rounding. `CorrectedTotalAddsUpIff` says when the stored total equals its stored parts, and
  `CorrectedTotalCanDiffer` is a correction after which it does not.
* `update` promises to correct a payout only while it is DRAFT (`src/payouts/payouts.service.ts:103`). The
  write does not look at the row again: `OverlapChangesApprovedMoney` is a run in which an approved payout
  changes, and `OverlapLosesACorrection` one in which a correction is lost. `HistoryIsKeptIff` and
  `WriteIsSerialIff` say exactly which writes respect the history, and which act as if calls took turns.
* An estimate must have a positive cost (`src/delivery-calc/deepseek-delivery-estimator.service.ts:102`), but
  the quote row's column rounds it to kopecks. `CostStaysPositiveIff` says when it stays positive, and
  `FreeQuoteIsWritten` is a run that stores a free delivery. Quotes entered by hand need not even order
  their days (`RowIsValidIff`, `ReversedDaysAreWritten`).
* A password reset is to end every existing session at once (`src/auth/auth.service.ts:179-180`). It does for
  every row that exists then (`RevocationIsPermanent`); `AcceptedAfterIsNewer` says what is left, and
  `RefreshOutrunsReset` is a session that goes on because its refresh was already under way.

## Model

| member | source | states |
|---|---|---|
| Interleaving.Serializable | src/deals/deals.service.ts:138-183 | any interleaving of any number of transactions, any of which may roll back, ends with exactly the tables that the committed ones produce when run atomically in commit order; `generate` and the read-then-write calls on payouts included |
| Interleaving.CommittedIsSerial | src/deals/deals.service.ts:138-183 | at every moment, also with transactions in flight, deals, payouts and every unlocked stock row are those of the committed transactions alone |
| Interleaving.RollbackRestores | src/deals/deals.service.ts:144-146 | a rollback puts back exactly what is committed on every row its transaction holds |
| Interleaving.OnlyRowsBlock | src/deals/deals.service.ts:139-146 | a statement runs unless another transaction holds its row or a decrement finds too little |
| Interleaving.OnlyQuotesPreventCommit | src/deals/deals.service.ts:163-182 | at any moment of any run a transaction with all its statements done commits, unless its quote has been linked meanwhile |
| Interleaving.AnyoneMayBegin | src/deals/deals.service.ts:138 | any number of transactions may be under way at once; a status change begins exactly when it is allowed and the deal has none under way |
| Realizable.EveryHistoryHappens | src/deals/deals.service.ts:138-183 | every serial history of the ledger, its payouts being calculated on the deals of their moment, is performed by some run of single steps that ends at rest in the same tables |
| Realizable.GenerateCallHappens | src/payouts/payouts.service.ts:49-85 | an uninterrupted `generate` call for any managers, read by read and write by write, ends in the tables and with the transactions of the service method |
| Interleaving.StockNeverNegative | src/deals/deals.service.ts:147-161 | no stock row is negative, even in the middle of transactions |
| Interleaving.CommitAppliesAtomically | src/deals/deals.service.ts:139-146 | a commit publishes exactly the transaction's own statements, run on what was committed before it, although other transactions' work is in the table |
| Interleaving.GiveFindsItsRow | src/deals/deals.service.ts:228-235 | a restoring increment always finds its stock row, so it never silently matches nothing |
| Interleaving.ClaimsStayPaid | src/payouts/payouts.service.ts:205-214 | in every interleaving, also of `generate` with `changeStatus`, a claimed deal was PAID once and is PAID, SHIPPED, COMPLETED or REFUNDED |
| Interleaving.PayoutsAccountedAlways | src/payouts/payouts.service.ts:49-85 | at every moment of every interleaving an uncorrected payout equals the commission of its claims, and every claim has its payout's manager and a creation date inside its period |
| Interleaving.PayoutsEvolveAlways | src/payouts/payouts.service.ts:104-168 | in every interleaving in which calls on one payout take turns, a payout keeps manager and period, only moves forward, and its money is fixed once it left DRAFT |
| Interleaving.WriteIsAtomic | src/payouts/payouts.service.ts:105-126 | a payout call whose payout no other call holds writes what one indivisible step would, however long ago it read |
| PayoutOverlap.CallsTouchOnlyPayouts | src/payouts/payouts.service.ts:104-168 | however calls on payouts overlap, stock, deals, locks and transactions run as if there were none, and payouts keep manager and period |
| PayoutOverlap.AccountingSurvivesOverlap | src/payouts/payouts.service.ts:104-168 | also with overlapping calls on one payout, a payout whose commission no call gave equals the commission of its claims, and each claim fits its payout |
| PayoutOverlap.LedgerSurvivesOverlap | src/payouts/payouts.service.ts:104-168 | also then no stock row is negative, claimed deals stay paid onward, and stock is conserved at rest |
| PayoutOverlap.WriteEvolvesIff | src/payouts/payouts.service.ts:123-166 | a call's write respects the payout's history exactly when the row still is DRAFT, or when the three amounts computed from the row as read (for an approval: its date) are those it holds; `markPaid` always does |
| PayoutOverlap.HistoryIsKeptIff | src/payouts/payouts.service.ts:104-168 | at every step of every run with freely overlapping calls, a payout keeps its history if and only if the step is no call's write to it or that condition holds |
| PayoutOverlap.CorrectionIsCurrentIff | src/payouts/payouts.service.ts:114-126 | a late correction writes what a correction of the current row would, exactly when the parts it keeps are as it read them |
| PayoutOverlap.WriteIsSerialIff | src/payouts/payouts.service.ts:123-166 | a call's write is what one indivisible call would do now, exactly when the row has the status the call needs and the parts a correction keeps are as read |
| PayoutOverlap.OverlapChangesApprovedMoney | src/payouts/payouts.service.ts:105-142 | a concrete run in which an overlapping correction changes the money of an approved payout, which no serial run does (`PayoutsEvolve`) |
| PayoutOverlap.OverlapLosesACorrection | src/payouts/payouts.service.ts:105-126 | a concrete run in which one of two overlapping corrections is lost: every serial order of the same transactions that is possible stores both |
| Interleaving.StockConservedAtRest | src/deals/deals.service.ts:226-237 | when no transaction is in flight, on hand plus held by deals is what the `setQuantity` calls set |
| NoTrace.RolledBackLeavesNoTrace | src/deals/deals.service.ts:144-146 | deleting all steps of a transaction that never commits from any interleaved run leaves the run possible and its final state unchanged |
| LedgerProofs.RunsKeepInv | src/deals/deals.service.ts:226-243 | every deal item's stock row exists, `closedAt` is set exactly on COMPLETED, CANCELLED and REFUNDED deals, stock is never negative, each claim fits its payout |
| LedgerProofs.StockConserved | src/catalog/stock/stock.service.ts:44-59 | per warehouse and product, on hand plus the quantities of deals neither cancelled nor refunded equals the sum of the `setQuantity` adjustments |
| LedgerProofs.StockConservedBetween | src/deals/deals.service.ts:138-183 | between two `setQuantity` calls on a row no goods appear or vanish there |
| LedgerProofs.CreationTakes | src/deals/deals.service.ts:147-161 | a creation takes exactly the ordered quantities off the shelves of its warehouse |
| LedgerProofs.StatusChangeGivesBack | src/deals/deals.service.ts:226-237 | a cancellation or refund puts exactly the deal's quantities back, and no other status change moves goods |
| LedgerProofs.QuotesStayApart | prisma/schema.prisma:330 | in every run a delivery quote belongs to one deal at most |
| LedgerProofs.PayoutAccounting | src/payouts/payouts.service.ts:203-236 | a payout whose commission nobody corrected equals the sum of its claimed deals' commission, even after refunds |
| LedgerProofs.CorrectionStores | src/payouts/payouts.service.ts:114-126 | given amounts are stored to the nearest kopeck, omitted parts are kept, and an omitted total is within one kopeck of the stored parts |
| LedgerProofs.CorrectedTotalAddsUpIff | src/payouts/payouts.service.ts:114-126 | a recomputed total equals its stored parts exactly when the fractions of the two exact amounts are not both below one half with a sum of at least one half, nor both at least one half with a sum below one and a half |
| LedgerProofs.CorrectedTotalCanDiffer | src/payouts/payouts.service.ts:114-126 | a concrete correction whose stored total is one kopeck below its parts |
| LedgerProofs.DealsEvolve | src/deals/deals.service.ts:41-49 | commission, items, manager and every other creation-time field never change, a claim is never moved, and a status change lowers the deal's rank |
| LedgerProofs.DealHistory | src/deals/deal-status-transitions.ts:11-30 | at most five status changes, stock given back exactly once by cancelled or refunded deals and never by others, and paid-onward statuses mean exactly "was PAID once" |
| LedgerProofs.AllowedIff | src/deals/deal-status-transitions.ts:11-19 | the six kinds of transition there are, and no other |
| LedgerProofs.AllowedByRank | src/deals/deal-status-transitions.ts:11-19 | by rank: besides going to the next stage, exactly cancelling before payment and refunding after it are allowed |
| LedgerProofs.ChangeSucceeds | src/deals/deals.service.ts:216-243 | in every state a run reaches, every allowed status change succeeds |
| LedgerProofs.EverySaleCanComplete | src/deals/deal-status-transitions.ts:11-19 | every NEW deal of every run can be carried through WAITING_PAYMENT, PAID and SHIPPED to COMPLETED |
| LedgerProofs.EverySaleCanBeCalledOff | src/deals/deals.service.ts:223-237 | at every stage a deal can be cancelled or, once paid, refunded, and all its goods come back |
| LedgerProofs.NoStageSkipped | src/deals/deal-status-transitions.ts:3-19 | a deal that was ever COMPLETED was SHIPPED, SHIPPED was PAID, PAID was WAITING_PAYMENT, REFUNDED was PAID |
| LedgerProofs.RefundFollowsShippingIff | src/deals/deal-status-transitions.ts:8-18 | where a refund is possible, the deal had been SHIPPED exactly when it is not in PAID |
| LedgerProofs.PaidIsRefundedUnshipped | src/deals/deal-status-transitions.ts:14 | every PAID deal of every run can be refunded at once, and then never was SHIPPED |
| LedgerProofs.RefundedUnshippedRun | src/deals/deal-status-transitions.ts:8-18 | a concrete run that does so |
| LedgerProofs.ClaimedDealsWerePaid | src/payouts/payouts.service.ts:205-214 | a claimed deal was PAID at some time and is never CANCELLED |
| LedgerProofs.PayoutsEvolve | src/payouts/payouts.service.ts:104-168 | over every serial run a payout only moves forward from DRAFT to APPROVED to PAID, keeps its manager and period, and its money is fixed once it left DRAFT |
| LedgerProofs.ApprovalIsDated | src/payouts/payouts.service.ts:139-142 | a payout has an approval date exactly when it left DRAFT |
| DealsService.Create | src/deals/deals.service.ts:59-186 | a refused order changes nothing; an accepted one is one atomic creation of the prepared deal, appended to the deals; otherwise the error names an item that is really short and every decrement is undone |
| DealsService.PriceItems | src/deals/deals.service.ts:83-94 | the running subtotal is the sum of the priced lines |
| DealsService.Reserve | src/deals/deals.service.ts:147-161 | takes all items or none |
| DealsService.ReservationSucceedsIff | src/deals/deals.service.ts:147-161 | with distinct products the sequential reservation succeeds exactly when every row alone has enough, and touches no other row |
| DealsService.PrepareAcceptsIff | src/deals/deals.service.ts:59-123 | an order reaches the transaction exactly when it breaks none of the access, product, discount and delivery rules |
| DealsService.RefusalNamesABrokenRule | src/deals/deals.service.ts:59-123 | an order refused before the transaction really breaks the rule its error names |
| DealsService.PreparedDealFollowsOrder | src/deals/deals.service.ts:83-182 | the row lists the order line by line at current prices, names the lead's manager and that manager's percentage, and stores discount, the chosen delivery's price and the markup when due, each to the nearest kopeck |
| DealsService.AmountsAreRoundedOnce | src/deals/deals.service.ts:96-136 | each stored amount is its exact value rounded once: the total is subtotal minus discount plus delivery plus markup, and the commission the manager's percentage of that exact total, not of the stored one |
| DealsService.PreparedDealIsNew | src/deals/deals.service.ts:163-182 | what `create` prepares starts NEW and unclaimed, with a non-negative commission and a quote no other deal has |
| DealsService.RoundingBound | src/deals/deals.service.ts:123-136 | the stored total is within one kopeck of the stored parts, the stored commission within one kopeck of its percentage of the stored total, and 0 <= commission <= total |
| DealsService.OneKopeckIsReached | src/deals/deals.service.ts:130-136 | a concrete order whose stored total is one kopeck below its stored parts |
| Money.StoredTies | prisma/schema.prisma:332-342 | half a kopeck rounds away from zero, for either sign |
| DealsService.ChangeStatus | src/deals/deals.service.ts:209-247 | an invisible deal or a forbidden transition changes nothing; an allowed one sets the status and, if the deal is then over, the closing date, leaves everything else of all deals alone, and is one atomic step with the stock given back |
| DealsService.CancelUndoesCreate | src/deals/deals.service.ts:223-243 | creating a deal and cancelling it leaves the stock table exactly as it was |
| StockService.SetQuantity | src/catalog/stock/stock.service.ts:44-59 | writes the exact quantity after both parents are found, and nothing otherwise |
| PayoutsService.CalculateForPeriod | src/payouts/payouts.service.ts:195-239 | for each MANAGER-role account that passes the filter, and no other, the payout it is due with the deals it covers; nothing is written |
| PayoutsService.CommissionOf | src/payouts/payouts.service.ts:205-220 | selects exactly the eligible deals and adds up their commission |
| PayoutsService.Generate | src/payouts/payouts.service.ts:49-85 | earlier payouts stay; the new ones are exactly what the managers with something to pay are due, the base salary and the commission once each; every write is a valid transaction on the state left by the ones before |
| PayoutsService.WrittenIsDue | src/payouts/payouts.service.ts:217-229 | every payout written is for an account that takes part, carries its base salary, the sum of the commissions that count for its period, and the total of the two, and claims just those deals |
| PayoutsService.DueIsWritten | src/payouts/payouts.service.ts:54-58 | every account that takes part and is due anything gets its payout, with or without deals |
| PayoutsService.OnePayoutPerManager | src/payouts/payouts.service.ts:48 | no two payouts of one call are for the same manager |
| PayoutsService.WriteIsValid | src/payouts/payouts.service.ts:54-82 | a calculation stays valid while the payouts before it are written |
| PayoutsService.ClaimedAfterGenerateIff | src/payouts/payouts.service.ts:54-82 | for every manager filter, exactly those deals are claimed afterwards that were before, or that count for the period of a selected MANAGER account with a salary or with some eligible positive commission |
| PayoutsService.GenerateIsComplete | src/payouts/payouts.service.ts:54-82 | without a manager filter every commissionable deal of the period with positive commission and a MANAGER-role owner is claimed afterwards |
| PayoutsService.UnpaidDealStaysUnclaimed | src/payouts/payouts.service.ts:54-58 | a concrete eligible deal that `generate` leaves unclaimed |
| PayoutsService.CommissionIsPaidOnce | src/payouts/payouts.service.ts:205-229 | a second `generate` for any sub-period and the same managers or fewer claims no positive commission, writes only payouts with commission 0, and none for a manager without base salary |
| PayoutsService.Update | src/payouts/payouts.service.ts:104-128 | corrects a DRAFT payout only; otherwise the error and no change |
| PayoutsService.Approve | src/payouts/payouts.service.ts:130-148 | approves a DRAFT payout only; otherwise the error and no change |
| PayoutsService.MarkPaid | src/payouts/payouts.service.ts:150-168 | marks an APPROVED payout only; otherwise the error and no change |
| PayoutCalc.CalculationIsValid | src/payouts/payouts.service.ts:205-229 | what is calculated from the current deals may be written on them |
| PayoutCalc.CalcStaysValid | src/payouts/payouts.service.ts:73-78 | a calculation survives every other transaction that does not pay the same manager, so `generate` may overlap status changes and new deals |
| TenantScope.ScopedQueryMeaning | src/common/prisma/tenant.extension.ts:49-81 | for every where-clause, nested AND/OR/NOT and its own tenantId included, and every operation, the rewritten query on the full table has the result and effect of the query on the tenant's slice and touches no other slice, if and only if it is no update that hits a row and names another tenant in its data |
| TenantScope.ScopedHits | src/common/prisma/tenant.extension.ts:76-78 | the rewritten where-clause hits exactly the tenant's rows that the clause without its tenantId hits |
| TenantScope.RewriteWritesFor | src/common/prisma/tenant.extension.ts:65-76 | every row the rewritten arguments write carries the tenant of the context, if and only if they are no update whose data names another tenant |
| TenantScope.InterceptedIsConfined | src/common/prisma/tenant.extension.ts:50-63 | for a scoped model nothing gets through without a tenant context, and what gets through is confined to it, if and only if it is no update that hits a row and names another tenant in its data |
| TenantScope.ScopedIffColumn | src/common/prisma/tenant-scoped-models.ts:16-29 | exactly the models of the schema that have a tenantId column are scoped |
| TenantScope.UpdatesKeepTenantsIff | src/common/prisma/tenant.extension.ts:76-78 | an update keeps every row with its tenant if and only if its data names no other tenant or it matches nothing |
| TenantScope.UpdateDataCanMoveARow | src/common/prisma/tenant.extension.ts:76-78 | a concrete update that moves a row to another tenant |
| TenantRuns.TenantRunsAlone | src/common/prisma/tenant.extension.ts:49-81 | in every interleaved run of many tenants' calls on many models, refused calls and calls on unscoped models included, where no update of a scoped model names another tenant in its data: one tenant's rows and replies are those of its own calls on a database with only its rows |
| TenantRuns.NonInterference | src/common/prisma/tenant.extension.ts:49-81 | in every such run, deleting all other tenants' calls and all calls on unscoped models changes nothing one tenant sees of the scoped models |
| TenantRuns.MovedRowInterferes | src/common/prisma/tenant.extension.ts:76-78 | one update whose data names another tenant is enough to interfere: a concrete run |
| TenantRuns.UnscopedModelsAreUntouched | src/common/prisma/tenant.extension.ts:50-52 | in every run, whoever calls and with or without a tenant, the table of an unscoped model and the replies on it are those of a plain client |
| AuthTokens.RevocationIsPermanent | src/auth/auth.service.ts:170-185 | a row that existed when a reset, block, delete or reuse revoked all rows of its user is refused by every later read, under any interleaving of later writes |
| AuthTokens.AcceptedAfterIsNewer | src/auth/auth.service.ts:170-185 | whatever of a user is accepted after a revoke-all step, under any interleaving of later writes, is a row inserted after that step |
| AuthProofs.RefreshOutrunsReset | src/auth/auth.service.ts:98-108 | a refresh that passed its checks before a password reset and writes after it yields a token that is accepted |
| AuthTokens.PlaceholderIsNeverAccepted | src/auth/auth.service.ts:200-223 | a row left as a placeholder by a crash is never accepted, whatever is presented |
| AuthService.Login | src/auth/auth.service.ts:55-67 | issues a token exactly if the first account with the e-mail is active and has the password; the token names that account and a new row, and is accepted until it expires; no other row changes |
| AuthService.Refresh | src/auth/auth.service.ts:69-109 | rotates a token exactly if it verifies and its row is unrevoked, unexpired, stores its hash and has an active user; a token whose row is revoked, expired or not, revokes just its user's unrevoked rows; any other is refused for the first reason that applies and nothing changes |
| AuthService.IssueTokenPair | src/auth/auth.service.ts:188-226 | the two writes in order, and what a crash between them leaves |
| AuthService.Logout | src/auth/auth.service.ts:111-124 | from then on the presented token is refused for ever or has expired, and no other row changes |
| AuthService.ForgotPassword | src/auth/auth.service.ts:126-154 | nothing happens unless some active account has the e-mail; then exactly one reset row for such an account is added, and a token not issued before resets for exactly sixty minutes |
| AuthService.ResetPassword | src/auth/auth.service.ts:156-186 | only an unused, unexpired token resets; afterwards it never does again, the account has the new password, none of its sessions is accepted, and no other account, session or reset row changed |
| AuthService.BlockManager | src/users/users.service.ts:92-97 | afterwards the manager cannot log in and none of the manager's tokens is accepted; nobody else is touched; another account is refused |
| AuthService.UnblockManager | src/users/users.service.ts:99-103 | reactivates a manager and nobody else; exactly those tokens of the manager become acceptable whose signature, revocation, expiry and hash checks hold |
| AuthProofs.UnblockingRevivesNothing | src/users/users.service.ts:92-103 | after a block and an unblock in series the account is active, but none of its tokens is accepted |
| AuthService.DeleteManager | src/users/users.service.ts:112-123 | afterwards the manager cannot log in, none of the manager's tokens is accepted, and the e-mail no longer finds the account unless it already was the anonymised one; nobody else is touched |
| AuthProofs.AcceptedOnce | src/auth/auth.service.ts:77-108 | over every serial run no refresh row is accepted twice |
| AuthProofs.OneLiveRowPerLogin | src/auth/auth.service.ts:103-108 | over every serial run a login's rotation chain never has two unrevoked rows |
| AuthProofs.LiveRowsBoundedByLogins | src/auth/auth.service.ts:69-109 | a user's unrevoked rows never exceed the logins since that user's last revoke-all |
| AuthProofs.ReplayEndsAllSessions | src/auth/auth.service.ts:77-88 | presenting a revoked row, expired or not, leaves its user with no unrevoked row and no accepted token, and nobody else loses one |
| AuthProofs.IssuedTokenIsAccepted | src/auth/auth.service.ts:209-223 | a token just issued to an active user is accepted until it expires |
| AuthProofs.AcceptedTokenNamesItsUser | src/auth/auth.service.ts:209-223 | over every serial run an accepted token is the one issued for its row: it names the row's active user, and both expire together |
| AuthTokens.LookupsFindFirst | src/auth/auth.service.ts:56-127 | `login` finds the first account with the e-mail, `forgotPassword` the first active one, and none only if there is none |
| DeliveryQuote.MergeItems | src/delivery-calc/delivery-calc.service.ts:51-57 | each requested product is mapped to its total quantity over the order, and no other is mapped |
| DeliveryQuote.SumProducts | src/delivery-calc/delivery-calc.service.ts:64-73 | the running subtotal and weight are the merged sums |
| DeliveryQuote.MergedIsLineByLine | src/delivery-calc/delivery-calc.service.ts:51-73 | for every per-product value, summing the merged order in any product order is summing the order line by line |
| DeliveryQuote.QuoteWeighsTheOrder | src/delivery-calc/delivery-calc.service.ts:64-73 | for every order the quote's weight is the sum over its lines, products without a weight weighing nothing |
| DeliveryQuote.QuoteCostsWhatCreateCosts | src/delivery-calc/delivery-calc.service.ts:65-79 | for every order, repeated products included and in any product order, the quote's subtotal is the one `create` computes, and for the same buyer type and VAT flag so is the markup |
| DeliveryQuote.GroupStock | src/delivery-calc/delivery-calc.service.ts:86-94 | groups exactly the rows of active warehouses |
| DeliveryQuote.EligibleIff | src/delivery-calc/delivery-calc.service.ts:95-101 | a warehouse passes the filter exactly when it is active and has enough of every requested product |
| DeliveryQuote.QuoteAgreesWithCreate | src/delivery-calc/delivery-calc.service.ts:81-101 | without repeated products the quote lists an active warehouse exactly when `create`'s sequential reservation succeeds there |
| VariantOrder.CompareIsConsistent | src/delivery-calc/delivery-calc.service.ts:238-254 | the comparator is consistent as section 23.1.3.30 of ECMA-262 (ES2023) demands of one |
| VariantOrder.ListedOrder | src/delivery-calc/delivery-calc.service.ts:231-269 | every stable sort lists local variants first in original order, then quoted ones by delivery time and price, then unquoted ones in original order |
| VariantOrder.StableSortPermutes | src/delivery-calc/delivery-calc.service.ts:129 | a stable sort is a permutation |
| VariantOrder.StableSortIsUnique | src/delivery-calc/delivery-calc.service.ts:129 | the sorted order is determined by the comparator |
| VariantOrder.StableSortExists | src/delivery-calc/delivery-calc.service.ts:129 | the comparator admits a stable sort of every list |
| DeliveryCache.KeysAgreeIff | src/delivery-calc/delivery-cache.service.ts:18-20 | for all cities, keys agree exactly when the joined normalised names and the buckets do |
| DeliveryCache.KeyIsInjective | src/delivery-calc/delivery-cache.service.ts:14-20 | a request without colons shares its key only with requests for the same normalised cities and bucket |
| DeliveryCache.CollidesIff | src/delivery-calc/delivery-cache.service.ts:14-20 | a request shares its key with an unlike one exactly when another colon of its joined names splits them into two normalised names |
| DeliveryCache.ColonsCollide | src/delivery-calc/delivery-cache.service.ts:18-20 | with colons in city names two different routes share a key |
| DeliveryCache.SameBucketIsNear | src/delivery-calc/delivery-cache.service.ts:7-12 | weights in one bucket are at most five kilograms apart |
| DeliveryCache.BucketIff | src/delivery-calc/delivery-cache.service.ts:7-12 | a weight's bucket is named by the multiple of five at its upper end, the first one reaching down to zero |
| DeliveryCache.SameBucketIff | src/delivery-calc/delivery-cache.service.ts:7-12 | two weights have the same bucket exactly when they lie in one such interval |
| DeliveryCache.SameCityIff | src/delivery-calc/delivery-cache.service.ts:14-16 | two city names are the same exactly when they differ by letter case and surrounding space only |
| DeliveryCache.HitProvenance | src/delivery-calc/delivery-calc.service.ts:180-195 | under any interleaving of builders and any expiry, a hit of a request whose joined city names split into normalised names in one way only (in particular without colons) was produced by the provider for the same cities and a weight within five kilograms |
| DeliveryCache.ColonFreeSplitsOnce | src/delivery-calc/delivery-cache.service.ts:14-20 | names without colons split in one way only |
| DeliveryCache.CacheIsSoundIff | src/delivery-calc/delivery-calc.service.ts:180-195 | in every run every hit of a request was produced for its own route, if and only if no request for another route has its key |
| DeliveryCache.StoredIsServed | src/delivery-calc/delivery-calc.service.ts:180-195 | once an estimate is stored, every later request for the same cities and bucket, by any builder, is served from the cache until the entry vanishes |
| DeliveryCache.RowsAreNotShared | src/delivery-calc/delivery-calc.service.ts:208-220 | in every run each AI_ESTIMATE row belongs to exactly one builder, also on a cache hit |
| DeliveryCache.ValidAnswerBecomesARow | src/delivery-calc/delivery-calc.service.ts:183-220 | a valid answer always becomes a row, even when the cache cannot be written |
| DeliveryCache.BadAnswerLeavesNothing | src/delivery-calc/delivery-calc.service.ts:193-206 | a failing provider or invalid answer leaves no row and nothing cached |
| DeliveryCache.EstimatesStayValid | src/delivery-calc/delivery-calc.service.ts:184-220 | every cached estimate has positive cost and 0 <= etaDaysMin <= etaDaysMax; every AI_ESTIMATE row has 0 <= etaDaysMin <= etaDaysMax, a cost that is the provider's to the nearest kopeck, never negative, and positive exactly when the provider asked half a kopeck or more |
| DeliveryCache.CostStaysPositiveIff | prisma/schema.prisma:255 | a positive cost in roubles is stored as a positive number of kopecks exactly from 0.005 on |
| DeliveryCache.FreeQuoteIsWritten | src/delivery-calc/delivery-calc.service.ts:180-215 | a run in which an accepted answer of 0.004 roubles is stored as a free delivery |
| DeliveryCache.RowIsValidIff | src/delivery-calc/delivery-calc.service.ts:139-215 | in every run a quote row has a non-negative cost and ordered days, except exactly those entered by hand with their days reversed |
| DeliveryCache.ReversedDaysAreWritten | src/delivery-calc/delivery-calc.service.ts:139-159 | a run that writes such a row |
| DeliveryCache.ParsedEstimateIsValid | src/delivery-calc/deepseek-delivery-estimator.service.ts:102-113 | every accepted answer has a positive cost and ordered days, after rounding the days and before storing the cost |
| DeliveryCache.ParseAcceptsIff | src/delivery-calc/deepseek-delivery-estimator.service.ts:90-113 | accepted are exactly the answers with a positive cost and ordered, non-negative days; the cost is kept and each day count is the nearest, the later of two |
| ScriptTemplate.PlaceholderIffMatch | src/scripts/render-script-template.ts:12 | the scanner finds a placeholder exactly where the pattern matches, and the match is unique |
| ScriptTemplate.ScanIsLossless | src/scripts/render-script-template.ts:12 | the scanned pieces concatenate to the content |
| ScriptTemplate.ScanIsLeftmost | src/scripts/render-script-template.ts:12 | every hole matches the pattern and no match starts at a literal |
| ScriptTemplate.ScanOfConcat | src/scripts/render-script-template.ts:12 | scanning undoes concatenation when only placeholders contain braces |
| ScriptTemplate.RenderIdentity | src/scripts/render-script-template.ts:20-24 | content whose placeholders have no defined value comes back unchanged |
| ScriptTemplate.RenderInside | src/scripts/render-script-template.ts:11-25 | a placeholder in plain text is replaced where it stands by the text, the number as written, or true or false; for anything else it stays as it is, and the text around it always |
| ScriptTemplate.StagedRendering | src/scripts/render-script-template.ts:11-26 | without braces in literals and first values, rendering with one context and then another is rendering once with both, the first winning |
| ScriptTemplate.StagingWorksIff | src/scripts/render-script-template.ts:11-26 | for every content and first context: rendering in two stages agrees with rendering once for every second context, exactly when scanning the first result finds just the placeholders the first stage left |
| ScriptTemplate.LiteralBracesBreakStaging | src/scripts/render-script-template.ts:11-26 | with literal braces staging and single rendering differ, on a whole family of contents |

## Left out

- Controllers, guards, DTO classes, modules, Swagger: wiring; the DTO ranges (quantity at least one, percents between 0 and 100, non-negative money) are preconditions.
- Mail, Telegram, queues, SLA and digest jobs, environment validation, seeding: input, output and configuration.
- Analytics, and plain creation and editing of leads, categories, warehouses, products and scripts: single-branch members.
- Decimal precision limits and numeric column overflow: arithmetic is exact and in range.
- Delivery weights and estimates use exact reals, not IEEE doubles; non-finite provider numbers are excluded.
- Overlapping `changeStatus` calls on one deal, overlapping `generate` calls, and overlapping refreshes of one token: the code promises nothing there, and only the revocation results cover them.
- The write of a deal or payout row and the commit of its transaction are one step; only stock rows are written statement by statement.
- The order in which payout previews and period deals are listed, and the e-mail bookkeeping `emailSentAt`.
- `buildVariant` and the cache's `get` and `set` are steps of a state machine rather than methods, because builders run concurrently.
- The sort itself is the run-time library's; the proofs speak of every stable sort.
- Nested writes, relation filters, generated-id collisions and unique constraints of the database are not part of the query model; upsert's uniqueness race neither.
- City names: letters outside ASCII and the Russian alphabet have no case in the model.
- Hashes are collision-free and signatures unforgeable by representation; password hashing is equality of passwords.
- Access tokens, sessions' expiry by clock alone, and creation of manager credentials by mail.
