# Verified model of the sale, permission, session, rate-limit and scheduling logic

A Dafny 4.11 model of the parts of a multi-tenant POS/ERP API that hold protocols, caches, decisions and
arithmetic, with proofs of what they guarantee. `dafny verify dfyconfig.toml` checks all of it.

The database and Redis are maps and sequences, time is an explicit number, and each request is either one step
or a sequence of steps. The clock, the answers of queries, crashes of a sale, and statements of the sale, session,
permission and schedule operations that fail are parameters: a theorem that needs one of them to be kind says so, by
a condition on the rows or on the run, and the hypotheses that remain are listed under "Left out". Where the source
updates state the model is a class or a loop, proved equal to a specification function, and the theorems are about
that function and its runs. What such a function decides and writes is stated besides by laws over the inputs and the
rows alone.

| file | what it models |
|---|---|
| `Rounding`, `PosEngine` | cents, `toFixed(2)`, subtotal, discounts, tax, total, loyalty points |
| `EffectiveRoles`, `PriceResolution`, `PricedLines` | price overrides: effective role, layered policy, the decision, the line loop |
| `Payments` | tender guards, the stored split breakdown, the shift summary |
| `SaleProtocol`, `SaleSafety`, `SaleTheorems` | the idempotent create as a transition system, its invariant, its guarantees |
| `SaleDecisions` | the sale from the request alone: when it is accepted, what it charges, what its steps write |
| `EmptyOrders`, `SaleLosses` | which orders stay without lines, and which requests redeem points for no sale |
| `SaleService` | the create endpoint as a method over mutable tables, refining the protocol |
| `Permissions`, `FailedQueries` | grants and overrides, admin operations; resolutions whose queries fail |
| `RoleCache`, `PermissionService` | the role cache with atomic requests, and the service that uses it |
| `CacheStaleness`, `CacheFreshness` | the same cache with every step interleaved: how stale it gets, what a deletion achieves |
| `UserOverrides`, `UserCache` | multi-role users, GRANT/DENY overrides; their cache and its runs |
| `RefreshTokens` | sessions, token rotation, reuse detection |
| `RateLimits`, `IpBucket`, `IpWindows` | the login guard, the throttler storage, the per-IP bucket and its two windows |
| `Calendar`, `Schedules`, `ShiftPatterns`, `ScheduleService` | day numbers, schedule rows, rolling regeneration, pattern assignment |
| `Recurrence` | recurring expenses and the ranges of the attendance log |
| `Options`, `Strings` | optional values, `trim` |

## Where the code falls short of its description

Each is stated by the contract named beside it, with a concrete input or with the exact condition.

- A variant whose negative adjustment exceeds the item price has a negative official price, and no cap holds there (`NegativeOfficialPriceEscapesCap`, `ApprovedInBandIffOfficialPositive`).
- `zero_price_requires_permission` is stored and reported, but no decision reads it (`ZeroPricePermissionFlagIgnored`).
- Split parts that are not whole cents can pass every guard and be refused by the table (`GuardedPaymentStoredIff`).
- A tendered cash amount of 0 is refused even for a total of 0 (`ExactCashAcceptedIff`).
- Points are redeemed before the insert and never given back. A request pays for nothing exactly when it crashes before its items are written, its insert is refused, by a failing statement, by the table's checks on the payment, by the posting, or by another order of the attempt, or its insert of the items fails (`PaidForNothingIff`). That needs neither race nor fault: a split of 1.005 and 1.005 for 2.01 costs the points of every try (`EachTryCostsPoints`, `SuchAPaymentExists`), and so does a race (`RacingLoserAlsoRedeems`).
- Outside the pooled path, which is the default, the order row is committed before its items. A crash or a failing insert in between, and nothing else, leaves a completed order without lines that counts as revenue, and every further try of the attempt is told of a conflict with it (`StrandedIff`, `FailedItemsLeaveEmptyOrder`, `StrandedSaleIsNeverCompleted`).
- Every query of a permission resolution swallows its error, and the result is cached: a failed override query grants a revoked key to every reader for a whole TTL, however old the revocation (`RevokedKeyComesBack`, `FailedFetchServesRevokedKey`). The answer is right if and only if what is lost repeats what is left (`AnswerIsRightIff`, `LostOverridesIff`); the same for a user's own overrides (`MergeIsRightIff`, `LostDenyIsServed`), and a failed query of the user's roles refuses even an owner (`HasPermissionForUser`).
- A logout, a revocation or a detected replay ignores the errors of its updates: if none goes through it answers as usual and the session goes on refreshing (`EndedSessionNeverRefreshesIff`). A refresh whose mark on the old token is lost leaves two unused tokens (`ChainKeptIff`).
- A deletion from the cache that fails is not noticed: the entry of the role stays, and is still right exactly when it already had what the write decides (`KeptEntryIsRightIff`); the same for a user's entry (`WriteLeavesOtherTenantsEntry`).
- A custom role named like a system role is shadowed by it, and its overrides have no effect (`EffectiveIffNotShadowed`, `UpdateChangesOneKey`).
- A read already in flight can put an old set back after a cache deletion, for exactly one TTL (`OlderFillOutlivesDeletion`, `DeletionServesTheWriteIff`).
- `hasPermission` lets the owner through for every key, platform keys included, while the owner's admin view lists tenant keys only (`HasPermission`, `GetResolutionDetail`).
- The block duration counts seconds while the ttl counts milliseconds, and a block duration of 0 never refuses anything (`BlockLastsSeconds`, `UnblockedBoundIffBlocking`).
- The throttler storage repairs a lost expiry, the login guard does not (`LostExpiryIsRearmed`, `LostExpiryLocksTheEmail`).
- Requests refused during a block renew the tenant set of an IP but not its counter, so afterwards one tenant can get several tenants' share of the `global-ip` bucket, or a window in which no tenant exceeds its limit be cut short, for every block from 61 s on (`OneTenantGetsThreeShares`, `FairWindowIsCutShort`); the second happens exactly when the set runs out inside the window (`FairWindowsAdmittedIff`). All of this is about that bucket alone: the `global` bucket of each tenant, of 600, applies beside it.
- An override written under one tenant leaves the user's cached set of another tenant in place (`WriteLeavesOtherTenantsEntry`).
- `days_of_week: []` gives no rows, although the request type says that empty means every day (`NoWeekdaysNoRows`).
- A regeneration whose start lies after the window deletes the old rows and then fails (`RegenerationError`).
- An assignment, edit or removal has no transaction around its statements: one that the database breaks off leaves users with the old rows or with none under their new pattern (`RefusedInsertLeavesNoRows`), until an operation on them succeeds (`SuccessSettles`).
- Editing a pattern ignores the start dates of its assignees (`EditReachesEveryAssignee`).
- A monthly template that runs on 31 January skips February (`MonthLanded`), and a stored recurrence day that is no weekday or date can put the next run in the past (`NextRunIsAfterIff`).

## Model

| member | source | states |
|---|---|---|
| `SaleTheorems.OneSalePerAttempt` | src/modules/invoices/invoices.service.ts:94-503 | in every interleaving of any number of requests, with faults and crashes anywhere: at most one order per (tenant, attempt), every Conflict carries that order's id, two requests of one attempt are never both told Created, and a unique-key violation always resolves to the winner |
| `SaleTheorems.AfterStepsAtMostOncePerAttempt` | src/modules/invoices/invoices.service.ts:523-757 | coupon redemption, stock deduction and point award each happen at most once per attempt, and only for an existing order |
| `SaleTheorems.LateRequestIsInvisible` | src/modules/invoices/invoices.service.ts:94-103 | erasing every step of a request that starts after its attempt has an order leaves the store and everybody else's answers as they were; all that request is ever told is the conflict, with an order of its attempt, and it fails only if it crashes |
| `SaleTheorems.RejectedRequestLeavesNoTrace` | src/modules/invoices/invoices.service.ts:108-503 | in every reachable state a request rejected for any reason, at any line, has inserted nothing, and redeemed nothing unless the reason is the refused posting, which alone comes after the redemption |
| `SaleTheorems.SoldPricesAreAccountedFor` | src/modules/invoices/invoices.service.ts:224-462 | in every reachable state each sold line has its official price, or an audit row with exactly that official/approved pair |
| `SaleDecisions.OrdersChargeWhatWasAsked` | src/modules/invoices/invoices.service.ts:235-395 | in every reachable state each order has the amounts and the payment of its own request, for what the server read: the subtotal of the lines asked for, less the lesser of it and the sum of discount, coupon and points, plus the tax on the rest; and every condition of the sale was met |
| `SaleDecisions.AcceptedOrRefused` | src/modules/invoices/invoices.service.ts:108-338 | accepted if and only if all ten conditions hold, and refused with the first that does not: session, customer, loyalty, customer for points, balance, each line's price, atomic writes for overrides, coupon, payment; each condition is said of the request and of what was read |
| `SaleDecisions.DraftIsWhatWasAsked` | src/modules/invoices/invoices.service.ts:167-338 | an accepted sale has those amounts, and each line is the one asked for, with its official price and an approval exactly where another price was asked for |
| `SaleDecisions.LineDecided` | src/core/pricing/price-resolution.service.ts:118-300 | a line keeps its price exactly when that is the official one, is approved exactly when every condition of an override is met, and is refused for the first that is not |
| `SaleDecisions.RedemptionTakesAllOrNone` | src/core/loyalty/loyalty.service.ts:87-106 | points are taken, all of them, from that customer alone, exactly when some are asked for, the balance covers them and the update is answered; otherwise the answer that says why, and nothing taken |
| `SaleDecisions.PooledSaleWritesAll` | src/modules/invoices/repositories/invoices.repository.ts:62-173 | what the one transaction writes: each line's quantity, price to the cent and official price, and an audit row for each approved price and no other |
| `SaleDecisions.SaleIsFollowedUp` | src/modules/invoices/invoices.service.ts:650-757 | after a stored sale: always answered as created; the coupon used up, the stock taken and the points awarded exactly when they apply and their step works; the points are those of the total, floored, times the tier, floored |
| `EmptyOrders.OrdersSellWhatWasRequested` | src/modules/invoices/invoices.service.ts:167-463 | in every reachable state an order belongs to a request of its tenant and attempt and has the subtotal of the lines that request asked for; its item rows are exactly those lines at the prices asked for, if and only if the request is not between the order row and the items and has not crashed or failed to insert the items there |
| `EmptyOrders.StrandedIff` | src/modules/invoices/invoices.service.ts:420-463 | in every run, a request that is over has left an order without lines if and only if it crashed between the two inserts or its insert of the items failed |
| `EmptyOrders.FailedItemsLeaveEmptyOrder` | src/modules/invoices/invoices.service.ts:420-463 | one request alone, outside the pooled path, whose insert of the items fails: the order is stored without a line, any points are spent, the answer is a failure, and the next try of the attempt is told of a conflict with that order |
| `EmptyOrders.StrandedSaleIsNeverCompleted` | src/modules/invoices/invoices.service.ts:94-103 | on every continuation such an order stays without lines, and no request of its attempt is ever told that it created the sale |
| `SaleTheorems.StoredOrdersReconcile` | src/modules/invoices/invoices.service.ts:294-349 | for the orders of any reachable state: revenue less cash less card is exactly the revenue of the methods other than cash, card and split |
| `SaleTheorems.RacingLoserAlsoRedeems` | src/modules/invoices/invoices.service.ts:358-372 | two requests of one attempt that have both passed validation both redeem before either inserts, so the loser is told of the conflict and has paid its points too; at-most-once does not extend to redemption |
| `SaleTheorems.RaceIsReachable` | src/modules/invoices/invoices.service.ts:94-338 | from an initial state, any two such requests get into that race by arriving, checking and validating in turn |
| `SaleTheorems.SuchRequestsExist` | src/modules/invoices/invoices.service.ts:108-338 | a concrete pair of requests that can race |
| `SaleLosses.PaidForNothingIff` | src/modules/invoices/invoices.service.ts:358-503 | in every run, a request has redeemed points and will never have an order with lines if and only if, with the points redeemed, it crashed before its items were written, its insert did not store the order, or its insert of the items failed |
| `SaleLosses.InsertStoresIff` | src/modules/invoices/invoices.service.ts:374-503 | the insert stores the order if and only if no statement fails, the table accepts the payment, the attempt is free, and no posting inside the transaction refuses |
| `SaleLosses.EachTryCostsPoints` | src/modules/invoices/invoices.service.ts:358-503 | one request alone with every statement working: a payment that only the table refuses costs the points, leaves no order and leaves the attempt free for the next try |
| `SaleLosses.SuchAPaymentExists` | src/modules/invoices/invoices.service.ts:302-338 | a concrete such request: 2.01 split into 1.005 and 1.005, with 5 points redeemed |
| `SaleLosses.SuchABrokenSaleExists` | src/modules/invoices/invoices.service.ts:420-463 | a concrete request that pays points and can be left with an empty order |
| `SaleSafety.RunKeepsInv` | src/modules/invoices/invoices.service.ts:94-757 | the invariant behind the theorems above, relating every request's phase to what it owns in the store, holds after any run |
| `SaleSafety.StepKeepsInv` | src/modules/invoices/invoices.service.ts:94-757 | each single step of any request keeps that invariant |
| `SaleProtocol.ValidateGivesFittingDraft` | src/modules/invoices/invoices.service.ts:108-338 | whatever validation lets through is a draft whose lines, quantities and prices are the requested ones, whose payment passed its guards and whose overrides appear only where writes are atomic |
| `SaleProtocol.FindBySaleAttemptId` | src/modules/invoices/repositories/invoices.repository.ts:325-333 | finds an order exactly when the attempt is taken, and then one of that tenant and attempt |
| `SaleService.SalesDatabase.FindOrder` | src/modules/invoices/invoices.service.ts:94-103 | the lookup by attempt, over the table |
| `SaleService.SalesDatabase.CreateWithItemsPooled` | src/modules/invoices/repositories/invoices.repository.ts:62-173 | one transaction: wherever a statement fails, either the order, every item and every audit row are written or the tables are as before; says exactly when each result is given |
| `SaleService.SalesDatabase.ValidateSale` | src/modules/invoices/invoices.service.ts:108-338 | the checks in their order, repricing the lines in place, give the phase that the protocol's validation gives |
| `SaleService.SalesDatabase.PrepareSale` | src/modules/invoices/invoices.service.ts:94-372 | everything up to the insert is the first part of the script; it fails only by a fault of the redemption |
| `SaleService.SalesDatabase.RedeemPoints` | src/core/loyalty/loyalty.service.ts:87-106 | the guarded decrement: all of the points or nothing |
| `SaleService.SalesDatabase.InsertSale` | src/modules/invoices/invoices.service.ts:374-503 | the insert with its race backstop does what the protocol's three insert steps do, on both write paths; it fails only where the environment hits a statement or the table refuses the payment, and otherwise the sale is stored or the conflict told |
| `SaleService.SalesDatabase.CompleteSale` | src/modules/invoices/invoices.service.ts:374-757 | the insert and its follow-up steps are the matching part of the script, with the same account of failures |
| `SaleService.SalesDatabase.AfterTheSale` | src/modules/invoices/invoices.service.ts:650-757 | coupon, stock and award, each once and best effort |
| `SaleService.SalesDatabase.Create` | src/modules/invoices/invoices.service.ts:94-757 | the endpoint as written refines the protocol: answer and tables are those of one scripted run, so every theorem above covers it; it fails only by a fault of the environment or a payment that the table refuses, and Created means that the order and its items are stored |
| `SaleService.DriveIsRun` | src/modules/invoices/invoices.service.ts:94-757 | driving one request alone is a run of the protocol |
| `PricedLines.ResolveLines` | src/modules/invoices/invoices.service.ts:167-228 | the loop with the cached effective role gives the same prices, the same flag and the same first failure as resolving every line alone; calls the role resolver exactly once if a reached line needs it, else never; rewrites only the lines before a failure |
| `PricedLines.SuppliedRoleChangesNothing` | src/core/pricing/price-resolution.service.ts:161-173 | passing the role resolved earlier never changes a decision |
| `PricedLines.RefusalCarries` | src/modules/invoices/invoices.service.ts:167-228 | a refusal within a prefix is the refusal of the whole invoice |
| `PricedLines.SubtotalBand` | src/modules/invoices/invoices.service.ts:224-255 | for an accepted invoice of any length without negative official prices: the subtotal is within half a cent of the governing policy's band around the official subtotal, each side collapsing when its direction is not allowed |
| `PricedLines.LineInBand` | src/core/pricing/price-resolution.service.ts:193-258 | the same band for one line, exactly |
| `PriceResolution.ApprovedIffAllConditionsHold` | src/core/pricing/price-resolution.service.ts:118-300 | approved exactly when the item is found, the price differs from a non-zero official one, and role, permission, policy, direction, cap, zero-price, reason and combination conditions all hold, stated free of the order of the checks; the approved price is the requested one |
| `PriceResolution.DecisionSaysWhy` | src/core/pricing/price-resolution.service.ts:118-300 | an override is refused with the code of the first condition, in the order of the checks, that is not met, each said of the request, the official price and the policy; an approval records the price, its distance in money and percent, its side, the trimmed reason, role and policy |
| `PriceResolution.EffectivePolicyFieldByField` | src/core/pricing/price-resolution.service.ts:361-403 | with one row per scope, each of the ten fields is what the row of the role at the branch sets, else that of the branch, else that of the tenant, an explicit false kept; no policy exactly without a tenant row |
| `PriceResolution.OfficialPriceIs` | src/core/pricing/price-resolution.service.ts:317-359 | the official price is the item's, plus the adjustment of the variant when one is named, exactly when both are there, active and belong together |
| `PriceResolution.LooseningKeepsApproval` | src/core/pricing/price-resolution.service.ts:193-300 | a policy with more flags on, higher caps or a weaker reason rule never turns an approval into a rejection |
| `PriceResolution.SmallerOverrideApproved` | src/core/pricing/price-resolution.service.ts:193-258 | a price closer to the official one on the same side is approved whenever the farther one is |
| `PriceResolution.ApprovedInBandIffOfficialPositive` | src/core/pricing/price-resolution.service.ts:206-258 | an approved price lies in the policy's band if and only if the official price is positive |
| `PriceResolution.NegativeOfficialPriceEscapesCap` | src/core/pricing/price-resolution.service.ts:206-258 | the concrete approval outside its band |
| `PriceResolution.ZeroPricePermissionFlagIgnored` | src/core/pricing/price-resolution.service.ts:228-258 | `zero_price_requires_permission` influences no decision, whatever its value |
| `PriceResolution.PolicyIgnoresRowOrder` | src/core/pricing/price-resolution.service.ts:361-403 | with one row per scope the effective policy is the same for every permutation of the rows |
| `EffectiveRoles.EffectiveRoleIsRepresentative` | src/core/pricing/effective-role.resolver.ts:44-82 | the result is a role if and only if some row is the sole one, or the sole primary one, among those of the highest priority that take part and are not superadmin, and then that row's id, name and priority; stated on the multiset of rows |
| `EffectiveRoles.EffectiveRoleIgnoresRowOrder` | src/core/pricing/effective-role.resolver.ts:54-81 | any permutation of the role rows gives the same role |
| `PosEngine.TotalsReconcile` | src/engines/pos-engine/pos.engine.ts:31-69 | for non-negative inputs: 0 <= discount <= subtotal, total is exactly subtotal less discount plus tax and not negative, and subtotal and tax are within half a cent of the exact values |
| `PosEngine.DiscountPartsNonNegative` | src/modules/coupons/coupons.service.ts:93-110 | manual discount, coupon discount and redemption value are never negative for non-negative settings |
| `PosEngine.DiscountMonotone` | src/engines/discount-engine/discount.engine.ts:5-15 | a larger value or a looser maximum never gives a smaller discount |
| `PosEngine.MoreReductionNeverRaisesTotal` | src/modules/invoices/invoices.service.ts:271-292 | more discount or more redeemed points never raises the total nor the points earned |
| `PosEngine.LineTotalsNearSubtotal` | src/modules/invoices/invoices.service.ts:458-460 | n separately rounded line totals add up to the subtotal within (n + 1)/2 cents |
| `PosEngine.TotalIsExact` | src/engines/pos-engine/pos.engine.ts:63-69 | the rounding of the total never loses anything |
| `PosEngine.CheckoutAmounts` | src/modules/invoices/invoices.service.ts:235-292 | for all inputs: the discount is the lesser of the subtotal and the sum of three parts, each within half a cent of what it should be: the manual one and the coupon, a percentage of the subtotal or a fixed amount, under their caps, and the points times their value; tax on the rest, total exact |
| `PosEngine.PointsAreFlooredTwice` | src/core/loyalty/loyalty.service.ts:41-46 | the points earned are the whole part of the total at the shop's rate, and then the whole part of that times the tier's multiplier |
| `PosEngine.PointsMonotone` | src/core/loyalty/loyalty.service.ts:41-46 | twice-floored points never fall when the total grows |
| `Rounding.ToCentsIsNearest` | src/engines/pos-engine/pos.engine.ts:36-36 | `toFixed(2)` picks the nearest cent, the larger on a tie (section 21.1.3.3 of ECMA-262) |
| `Payments.TableAcceptsIff` | src/database/migrations/188_split_payment_persistence.sql:26-51 | the table accepts a row exactly without a breakdown, or for a split with two parts that are not negative and add up to the total |
| `Payments.GuardedPaymentStoredIff` | src/modules/invoices/invoices.service.ts:294-349 | a payment past the guards is stored if and only if it is not a split whose parts stop adding up when rounded to cents on their own; whole-cent parts always do add up |
| `Payments.GuardedSplitRefusedByTable` | src/database/migrations/188_split_payment_persistence.sql:26-51 | the concrete split that passes the guards and violates the table's check, with a customer and without |
| `Payments.ExactCashAcceptedIff` | src/modules/invoices/invoices.service.ts:294-300 | tendering exactly the total pays for a sale if and only if the total is not 0 |
| `Payments.PaymentAcceptedIff` | src/modules/invoices/invoices.service.ts:294-338 | a payment is accepted exactly when: cash covers the total and is not 0, the two parts of a split are there, not negative and together the total, and a tab has its customer |
| `Payments.PaymentRefusals` | src/modules/invoices/invoices.service.ts:294-338 | each refusal is given exactly when its condition is the first that is not met |
| `Payments.StoredAsPaid` | src/modules/invoices/invoices.service.ts:339-349 | the order row keeps total and method, and for a split alone each part to the nearest cent |
| `Payments.RevenueReconciles` | src/engines/shift-engine/shift.engine.ts:58-97 | over any stored orders: revenue that is neither cash nor card is that of the other methods plus split orders without a breakdown |
| `Payments.ExpectedCashIsCashTaken` | src/engines/shift-engine/shift.engine.ts:76-96 | expected cash is opening cash plus cash sales plus the cash parts of split sales less the approved expenses, one by one |
| `Payments.SummaryMoves` | src/engines/shift-engine/shift.engine.ts:58-97 | how every line of the summary moves with one more order and one more expense, from an empty shift on; an expense that is not approved moves nothing |
| `FailedQueries.AnswerIsRightIff` | src/core/permissions/permissions.service.ts:320-443 | a resolution in which any of its five queries fail, and so answer as if there were no rows, gives what the tables grant if and only if each override lost or seen repeats what the other view gives its key, and each lost global grant is overridden |
| `FailedQueries.ServedWithFailures` | src/core/permissions/permissions.service.ts:320-443 | for any failing queries, each key's answer from the rows alone: the owner's keys need the catalogue, grants their own query, overrides theirs and that of the role row; when the query of the system row is lost, the tenant's own row of that name is taken |
| `FailedQueries.LostOverridesIff` | src/core/permissions/permissions.service.ts:373-385 | when the override query or the role lookups fail: right if and only if every override of the role repeats the global grant of its key |
| `FailedQueries.LostGrantsIff` | src/core/permissions/permissions.service.ts:348-357 | when the query of the global grants fails: right if and only if every global grant is overridden |
| `FailedQueries.RevokedKeyComesBack` | src/core/permissions/permissions.service.ts:373-385 | the failing input: a globally granted key that the tenant revoked is in the set when the overrides are lost |
| `RoleCache.EveryRunStaysCoherent` | src/core/permissions/permissions.service.ts:306-443 | in every state of every run of admin operations, reads and expiries, with any queries and any deletions of entries failing: a cached (role, tenant) entry equals a fresh resolution if and only if it is not in doubt, by a filling with failures that are not excusable or by a write that changed what it holds and left it in the cache |
| `RoleCache.NoDoubts` | src/core/permissions/permissions.service.ts:306-443 | while every failed query is excusable and every deletion works, no entry is ever in doubt |
| `RoleCache.AdminKeepsCoherent` | src/modules/access-control/access-control.service.ts:79-291 | each admin operation invalidates enough: whatever it changes is not left in the cache, or in doubt when the deletion fails |
| `RoleCache.EntriesAfter` | src/modules/access-control/access-control.service.ts:126-291 | the entry of the role's own name and tenant goes after an accepted write that reaches its deletion, if that works, and no other entry does |
| `RoleCache.CacheKeyInjective` | src/core/permissions/permissions.service.ts:20-34 | no two (role, tenant) pairs share a cache entry, whatever the role name contains |
| `RoleCache.UserAndRoleKeysDisjoint` | src/core/permissions/permissions.service.ts:20-34 | role entries and user entries never share a key |
| `Permissions.MergeOverrides` | src/core/permissions/permissions.service.ts:320-346 | adding and deleting key by key gives global grants plus granted less revoked, whatever the order of the rows |
| `Permissions.VerdictSays` | src/modules/access-control/access-control.service.ts:79-377 | when each operation is accepted and which refusal each unmet condition gives, from the tables: an edit needs a role that exists, is a system role or the tenant's own, and is neither owner nor superadmin; an update also a catalogued key outside the platform's; a deletion the tenant's own role without users; a creation a name that is not blank nor taken in the tenant |
| `Permissions.RowsAfter` | src/modules/access-control/access-control.service.ts:79-291 | the rows after each accepted operation, by membership: one override set or gone, all those of the role gone, a role added or gone, and no other row touched |
| `Permissions.GrantedKeyByKey` | src/core/permissions/permissions.service.ts:320-443 | each key's answer from the rows alone: tenant keys for the owner; otherwise the override of the role row that the name leads to, a system row first, else the global grant |
| `Permissions.OnlyTargetChanges` | src/modules/access-control/access-control.service.ts:126-291 | an accepted operation changes answers only for its own role name in its own tenant |
| `Permissions.CreateRoleChangesNothing` | src/modules/access-control/access-control.service.ts:79-124 | creating a role changes no answer at all, so it need not invalidate anything |
| `Permissions.UpdateChangesOneKey` | src/modules/access-control/access-control.service.ts:189-224 | granting or revoking sets exactly one key's answer, and reaches none if a system role has the same name |
| `Permissions.ResetRestoresOneKey` | src/modules/access-control/access-control.service.ts:226-265 | resetting a key gives back its global answer and no other change |
| `Permissions.ResetRestoresRole` | src/modules/access-control/access-control.service.ts:267-291 | resetting a role, or deleting it wholly or half-way, leaves its name with the global grants alone |
| `Permissions.KeptEntryIsRightIff` | src/modules/access-control/access-control.service.ts:126-291 | a right entry that an operation leaves in the cache is still right if and only if the operation does not reach its name or the entry already has what the operation decides |
| `Permissions.EffectiveIffNotShadowed` | src/core/permissions/permissions.service.ts:426-443 | a role row is the one its name resolves to exactly when it is a system role or no system role has its name |
| `Permissions.ApplyKeepsDbOk` | src/modules/access-control/access-control.repository.ts:110-318 | every row write keeps the unique constraints and references of the tables |
| `PermissionService.PermissionsService.GetGrantedSet` | src/core/permissions/permissions.service.ts:306-318 | one step of the run above, on a hit or a miss and with any failing queries; the answer is a fresh resolution if and only if the entry is not in doubt |
| `PermissionService.PermissionsService.ResolveGrantedKeys` | src/core/permissions/permissions.service.ts:320-385 | the miss path computes exactly the keys granted by the tables as its queries show them |
| `PermissionService.PermissionsService.LookupId` | src/core/permissions/permissions.service.ts:392-443 | a failed lookup reads as no such role, and a remembered system role id needs none; otherwise the memo changes no lookup |
| `PermissionService.PermissionsService.HasPermission` | src/core/permissions/permissions.service.ts:52-66 | true for the owner; otherwise as the entry says, which is exactly the keys the tables grant now unless it is in doubt |
| `PermissionService.PermissionsService.GetResolutionDetail` | src/core/permissions/permissions.service.ts:270-304 | the admin view bypasses the cache; its keys are what is granted if and only if its own failures are excusable, and it lists exactly the overrides its queries show |
| `PermissionService.PermissionsService.CreateRole` | src/modules/access-control/access-control.service.ts:79-124 | accepted exactly for a trimmed name that is not empty and not taken in the tenant, and then the row under that name; the cache is left alone and no entry comes into doubt |
| `PermissionService.PermissionsService.DeleteRole` | src/modules/access-control/access-control.service.ts:126-163 | accepted exactly for a role of the tenant's own without users; role and overrides gone, the overrides alone when the second deletion fails; the one entry dropped if that works, and otherwise in doubt exactly as in the run above |
| `PermissionService.PermissionsService.UpdatePermission` | src/modules/access-control/access-control.service.ts:189-224 | accepted exactly for an editable role and a grantable key, said of the tables alone; then that one override row and no other change; the one entry dropped if the deletion works, otherwise in doubt exactly as in the run above |
| `PermissionService.PermissionsService.ResetPermission` | src/modules/access-control/access-control.service.ts:226-265 | accepted exactly for an editable role; then that override row gone and no other change, followed by a cached read; what it reports is that entry's answer, and the one the tables give unless the entry is in doubt |
| `PermissionService.PermissionsService.ResetRole` | src/modules/access-control/access-control.service.ts:267-291 | accepted exactly for an editable role; then its override rows in the tenant gone and no other change; the one entry dropped if the deletion works, otherwise in doubt exactly as in the run above |
| `CacheStaleness.StalenessIsBounded` | src/core/permissions/permissions.service.ts:306-443 | under any interleaving of the single steps of readers, writers and deletions, with any query and any deletion failing: a set served at time t whose failures did not matter resolves a state of the tables current at or after t less 600 s less the duration of the read that filled the entry |
| `CacheStaleness.StatementRows` | src/modules/access-control/access-control.repository.ts:110-319 | which rows each single statement of the admin operations writes, and what the keys of the tables demand of it |
| `CacheStaleness.FailedReadIsRightIff` | src/core/permissions/permissions.service.ts:320-443 | for a read whose queries see one state, its failures do not matter if and only if they are excusable there |
| `CacheStaleness.AnsweredRunsServeRightSets` | src/core/permissions/permissions.service.ts:306-443 | while every query that a read makes is answered, the bound covers every set served |
| `CacheFreshness.FailedFetchServesRevokedKey` | src/core/permissions/permissions.service.ts:373-385 | whenever the entry is not cached, a read whose override query fails is granted a key that the tenant revoked however long ago, and so is every reader after it for exactly one TTL; if no version ever granted the key, none explains those answers |
| `CacheFreshness.DeletionServesTheWriteIff` | src/core/cache/redis-cache.service.ts:9-32 | after a deletion that works, every later answer for the entry that no failed query has spoilt, on every continuation, resolves the present tables or newer ones, if and only if each read of that entry in flight has not looked anything up yet, is spoilt already, or would fill in a set that is right for the present tables |
| `CacheFreshness.HarmfulReadAnswersStale` | src/core/cache/redis-cache.service.ts:18-32 | any other read can go on at once and answers with a set that the present tables do not explain |
| `CacheFreshness.OlderFillOutlivesDeletion` | src/core/cache/redis-cache.service.ts:18-32 | a read that has its keys when a write changes one of them fills the entry after the deletion; the next reader is served the old set, which no version since the write explains, exactly until one TTL has passed |
| `CacheFreshness.AnyRevocationCanBeOutlived` | src/modules/access-control/access-control.service.ts:203-204 | every effective revocation of a granted key can meet such a read, whenever the entry is not cached |
| `CacheStaleness.TornReadIsExplained` | src/core/permissions/permissions.service.ts:320-346 | a read whose role lookup and override query saw different states returns the resolution of one state in between |
| `CacheStaleness.RunKeepsInv` | src/core/permissions/permissions.service.ts:306-443 | the invariant over entries, readers and answers holds after any run, failing queries included |
| `UserOverrides.RunsKeepHistory` | src/core/permissions/permissions.service.ts:177-250 | over every run of override writes: at most one active row per (user, key), and no row deleted or an inactive one rewritten |
| `UserOverrides.WriteDecidesItsKeys` | src/core/permissions/permissions.service.ts:177-250 | a write decides exactly the keys it names |
| `UserOverrides.UserGrantedKeyByKey` | src/core/permissions/permissions.service.ts:119-148 | each key of a user from the rows alone: an active GRANT or DENY of the user decides it, and without one some role must grant it |
| `UserOverrides.OverrideBeatsRoles` | src/core/permissions/permissions.service.ts:119-148 | after a GRANT or DENY the user's answer for the key is that one, whatever the roles grant |
| `UserOverrides.ApplyOverrides` | src/core/permissions/permissions.service.ts:119-148 | the override loop gives (union + GRANT keys) - DENY keys, in any row order |
| `UserOverrides.SingleRoleAgrees` | src/core/permissions/permissions.service.ts:95-117 | with one role and no overrides the user path and the role path agree |
| `UserOverrides.RoleWriteMayLeaveStaleEntry` | src/core/permissions/permissions.service.ts:84-93 | a role-table write drops no user entry; the exact condition under which the entry of a user with any roles is still right |
| `UserCache.UserCacheKeyInjective` | src/core/permissions/permissions.service.ts:26-34 | no two (user, tenant) pairs share an entry |
| `UserOverrides.MergeIsRightIff` | src/core/permissions/permissions.service.ts:119-161 | a merge in which any queries fail, of the roles, of their grants, or of the user's overrides, is right if and only if every lost override repeats what the roles seen grant and those roles decide every key without an override as the roles held do |
| `UserOverrides.LostUserOverridesIff` | src/core/permissions/permissions.service.ts:150-161 | when only the query of the user's overrides matters: right if and only if each active override repeats what the roles grant |
| `UserOverrides.LostDenyIsServed` | src/core/permissions/permissions.service.ts:150-161 | the failing input: a key denied to the user and granted by a role is served when that query fails |
| `UserCache.UserPermissions.MergeUserKeys` | src/core/permissions/permissions.service.ts:119-148 | the loops over roles and overrides compute exactly the merge of what their queries show |
| `UserOverrides.WriteLeavesOtherTenantsEntry` | src/core/permissions/permissions.service.ts:177-250 | a set, a removal or a reset leaves the entry of another tenant, and of its own when the deletion fails; the exact condition, for each of the three, under which that one is still right |
| `UserCache.EveryUserRunStaysCoherent` | src/core/permissions/permissions.service.ts:84-250 | with the role tables fixed, in every state of every run of override writes, reads and expiries, with any queries and any deletions of entries failing: a user's entry equals a fresh merge if and only if it is not in doubt, by a filling whose failures matter or by a write that changed what it holds and left it in the cache |
| `UserCache.HomeEntriesStayRight` | src/core/permissions/permissions.service.ts:84-250 | when every user is read and written under one tenant, every deletion works and no failure matters, every entry of every state is right |
| `UserCache.UserPermissions.GetGrantedSetForUser` | src/core/permissions/permissions.service.ts:119-148 | for any tenant: a hit serves the entry; a miss fills it, rightly if and only if what failed does not matter; no other entry becomes wrong |
| `UserCache.UserPermissions.HasPermissionForUser` | src/core/permissions/permissions.service.ts:95-117 | for any tenant: true for a user seen to hold the owner role; otherwise as the entry says, which is right exactly as above |
| `UserCache.UserPermissions.Write` | src/core/permissions/permissions.service.ts:177-250 | set, remove and reset write the rows they should; the entry of the tenant they name is dropped, and then right, if the deletion works; no entry of another user becomes wrong |
| `RefreshTokens.AtMostOneUnusedToken` | src/modules/auth/auth.service.ts:589-698 | in every run in which no refresh issues a token while its mark on the old one is lost, whatever else fails: a session has at most one unused token and it is the newest |
| `RefreshTokens.ChainKeptIff` | src/modules/auth/auth.service.ts:640-698 | an operation keeps that if and only if it is not such a refresh |
| `RefreshTokens.LiveSessionsStayUsable` | src/modules/auth/auth.service.ts:263-843 | if statements that belong together go through together, every session that is not revoked has an unused token |
| `RefreshTokens.RunGoesForward` | src/modules/auth/auth.service.ts:263-843 | `is_used` and `is_revoked` never go back, and no row disappears or changes owner |
| `RefreshTokens.EndedSessionNeverRefreshesIff` | src/modules/auth/auth.service.ts:589-843 | after logout, revocation or replay of a used token, which answer the same whatever fails, no refresh of that session ever succeeds again if and only if one of the updates went through or the session was dead before |
| `RefreshTokens.NeverRefreshesIffDead` | src/modules/auth/auth.service.ts:589-698 | no refresh of a session succeeds on any continuation if and only if it is revoked or without an unused token that has not expired |
| `RefreshTokens.RevokedSessionNeverRefreshes` | src/modules/auth/auth.service.ts:589-698 | a revoked session never refreshes, whatever happens or fails later |
| `RefreshTokens.OnlyNewestTokenRefreshes` | src/modules/auth/auth.service.ts:589-698 | where no mark was lost, a refresh succeeds only with the newest token of a live session, unused and unexpired |
| `RefreshTokens.TokensPerSession` | src/modules/auth/auth.service.ts:263-698 | from its login on a session has the token of the login, if it was stored, plus one for each successful refresh whose token was stored |
| `RefreshTokens.RefreshAnswers` | src/modules/auth/auth.service.ts:589-698 | each answer of a refresh holds exactly when: the token is not read; it was used; it has expired; its session is not read, missing or revoked; the user is not found; none of these |
| `RefreshTokens.RefreshRows` | src/modules/auth/auth.service.ts:589-698 | a success marks its token and adds one for the same session and user, good for seven days; a replay revokes the token's session; any other answer changes nothing |
| `RefreshTokens.EndingRows` | src/modules/auth/auth.service.ts:700-843 | row by row what ends: by a logout the session named; by a revocation the session named, for its own user within the tenant or for a superadmin; by a revocation of all, exactly the live sessions of that user in that tenant; their tokens are used up, and no other row changes |
| `RefreshTokens.LoginRows` | src/modules/auth/auth.service.ts:263-310 | a login adds one session and one token good for seven days, or without its session nothing |
| `RefreshTokens.AuthService.Login` | src/modules/auth/auth.service.ts:263-310 | inserts the session and, if that insert goes through, its first token |
| `RefreshTokens.AuthService.Refresh` | src/modules/auth/auth.service.ts:589-698 | the checks in their order; rotation, or revocation on reuse; each statement may fail |
| `RefreshTokens.AuthService.Logout` | src/modules/auth/auth.service.ts:700-717 | uses up the session's tokens and revokes it, each if its update goes through |
| `RefreshTokens.AuthService.RevokeSession` | src/modules/auth/auth.service.ts:767-821 | succeeds if and only if the read is answered, the session exists, and the actor is a superadmin or its own user within the tenant; then that session is revoked and its tokens used up, each if its update goes through, and no other row changes |
| `RefreshTokens.AuthService.RevokeAllSessionsForUser` | src/modules/auth/auth.service.ts:823-843 | exactly the sessions of that user in that tenant are revoked, when the query and the update go through |
| `RateLimits.AtMostNineAttemptsPerMinute` | src/core/security/email-login-throttle.guard.ts:61-71 | for every timed trace of one email, any half-open 60 s admit at most 9 attempts |
| `RateLimits.NineAttemptsInAMinute` | src/core/security/email-login-throttle.guard.ts:61-71 | a trace that reaches the bound |
| `RateLimits.WindowAdmitsItsFirstFive` | src/core/security/email-login-throttle.guard.ts:61-71 | a window admits exactly its first five attempts, no attempt moves its end, and an attempt at or after the end is admitted |
| `RateLimits.AttemptIs` | src/core/security/email-login-throttle.guard.ts:61-71 | an attempt is admitted unless a window is open in which five have been counted, and the first of a window opens it for 60 s |
| `RateLimits.LostExpiryLocksTheEmail` | src/core/security/email-login-throttle.guard.ts:61-69 | if the expiry is never set the guard does not recover: after five hits every attempt is refused for ever |
| `RateLimits.UnblockedBoundIffBlocking` | src/core/security/redis-throttler.storage.ts:24-65 | at most 2 * limit - 1 unblocked results in any interval of one ttl, for every trace, if and only if the block duration is positive |
| `RateLimits.LostExpiryIsRearmed` | src/core/security/redis-throttler.storage.ts:43-46 | a counter without expiry gets one on its next unblocked increment |
| `RateLimits.BlockLastsSeconds` | src/core/security/redis-throttler.storage.ts:50-58 | a block lasts that many seconds, exactly, and freezes the counter meanwhile |
| `RateLimits.RecordIs` | src/core/security/redis-throttler.storage.ts:14-66 | for every bucket, all four numbers of the answer and the two keys left: hits counted in the open window or opening one, blocked exactly under a block or over the limit with a positive duration, and both times as the least whole seconds |
| `RateLimits.RedisThrottlerStorage.IncrementKey` | src/core/security/redis-throttler.storage.ts:14-66 | the method on the shared key space does what the specification says to its own two keys and nothing to others |
| `RateLimits.EmailLoginThrottleGuard.CanActivate` | src/core/security/email-login-throttle.guard.ts:37-72 | counts one attempt of that email, or lets it through uncounted |
| `IpBucket.FairTenantsAreNeverRefused` | src/core/security/throttler.config.ts:49-85 | for every trace from one IP over any number of windows: if no tenant sends more than 600 in any window length, the shared bucket refuses nobody |
| `IpWindows.CounterWindowWithinRecentShare` | src/core/security/throttler.config.ts:49-85 | on every trace from an unused bucket, whatever was blocked before: up to any request that it admits, a window of the counter has admitted at most 600 times the distinct tenants of the 60 s ending with that request |
| `IpWindows.OwnTenantsBoundIff` | src/core/security/throttler.config.ts:49-85 | for every continuation a window of the counter admits at most 600 times its own distinct tenants, if and only if no other tenant than that of its first request is carried into it by a set that is still alive |
| `IpWindows.OneTenantGetsThreeShares` | src/core/security/throttler.config.ts:56-63 | from an unused bucket, for every block duration from 61 s on: after a block whose refused requests renewed the set, one tenant alone is admitted 1800 times in one window |
| `IpWindows.FairWindowsAdmittedIff` | src/core/security/throttler.config.ts:49-85 | every window opened by a request in which no tenant sends more than 600 is admitted whole, if and only if the set of tenants does not run out inside it |
| `IpWindows.NewcomerIsRefused` | src/core/security/throttler.config.ts:49-85 | whenever the set does run out inside: 600 requests of the first tenant are admitted and the first of a second, sent as the set runs out, is refused |
| `IpWindows.FairWindowIsCutShort` | src/core/security/throttler.config.ts:56-63 | from an unused bucket, for every block duration from 61 s on: a block leads to such a window |
| `IpBucket.WindowAdmitsAtMostItsTenantsShare` | src/core/security/throttler.config.ts:49-85 | when set and counter start together: the window admits at most 600 times its distinct tenants, and everything exactly when each prefix is within that share |
| `IpBucket.TogetherWithinTheirShare` | src/core/security/throttler.config.ts:24-42 | tenants each within their limit are together within the limit times their number |
| `IpBucket.StepIs` | src/core/security/throttler.config.ts:24-85 | one request: let through exactly when nothing blocks it and the hits of the open window are below 600 times the tenants seen since the set was opened, its own included |
| `IpBucket.IpTenants.DistinctTenantsPerIp` | src/core/security/throttler.config.ts:49-64 | adds the decoded tenant, or "anon", to the set of the IP, or to an empty one when that has run out; arms the expiry only when there is none; counts |
| `Calendar.FieldsMakeTheDay` | src/modules/hr/shift-patterns.service.ts:27-32 | year, month and date of a day give it back (section 21.4.1 of ECMA-262) |
| `Calendar.DayHasItsFields` | src/modules/hr/shift-patterns.service.ts:27-32 | and the day made from a date has that date |
| `Calendar.ParseOfFormat` | src/modules/hr/schedules.service.ts:82-85 | reading the text of a day gives the day exactly from the year 100 on, because `Date.UTC` takes smaller years as 19xx |
| `Calendar.FormatKeepsOrder` | src/modules/hr/shift-patterns.service.ts:160-161 | comparing the texts compares the days |
| `Calendar.NextDay` | src/modules/hr/schedules.service.ts:102-103 | the calendar day by day: the next date, else the first of the next month or year by the Gregorian lengths, and the next weekday |
| `Calendar.DayZero` | src/modules/hr/schedules.service.ts:82-85 | day 0 is Thursday, 1 January 1970 |
| `Calendar.ParseReads` | src/modules/hr/schedules.service.ts:82-85 | which texts are dates and what they are read as: a date of the calendar as itself, a year below 100 as 19xx |
| `Calendar.FormatWrites` | src/modules/hr/schedules.service.ts:106-106 | a day is written as YYYY-MM-DD of its own year, month and date |
| `Schedules.BulkRowsAreExactly` | src/modules/hr/schedules.service.ts:91-126 | from the request alone: a date counts when it is in [from, to] and the weekdays are left out or name its own; its shifts are those of the last override for its weekday, else the base shifts; every row occurs once for each mention of its user and of its shift among them, and no other row occurs |
| `Schedules.NoWeekdaysNoRows` | src/modules/hr/schedules.service.ts:104-104 | an empty weekday list gives no row at all |
| `Schedules.RegenerationIsExact` | src/modules/hr/shift-patterns.service.ts:149-172 | earlier rows and other users are untouched and in order, each user gets exactly the pattern's window in order, once for each mention in the list, and new rows lie in [today, today + 730] |
| `Schedules.RegeneratedRowsAreExactly` | src/modules/hr/shift-patterns.service.ts:149-172 | how often every row occurs after a regeneration: as before when it is another's or an earlier one, otherwise as the pattern says, in the same terms, from the first day to 730 days after today |
| `Schedules.RegeneratingTwiceIsOnce` | src/modules/hr/shift-patterns.service.ts:149-172 | repeating it the same day changes nothing |
| `Schedules.RegenerationError` | src/modules/hr/shift-patterns.service.ts:149-172 | fails exactly when the start lies after the window, and then the old rows are gone already |
| `Schedules.FirstDayIsTheLater` | src/modules/hr/shift-patterns.service.ts:159-161 | the window starts on the later of start date and today |
| `ShiftPatterns.FirstDayFromToday` | src/modules/hr/shift-patterns.service.ts:159-161 | for any start text that validation accepts, also a date past the end of its month or a year below 100, the window never starts before today |
| `ShiftPatterns.EveryoneFollowsTheirPattern` | src/modules/hr/shift-patterns.service.ts:52-147 | over any run of creations, assignments, edits and removals on any days, refused ones and ones broken off at any statement included, from an office in which nobody is scheduled, and seen from any day since: every user's coming rows are exactly what is left of the window that was last filled and not deleted since, or none; and a settled user has that window's pattern as the present one, or no pattern |
| `ShiftPatterns.SettledWithoutFailures` | src/modules/hr/shift-patterns.service.ts:52-147 | everyone is settled while no operation of the run answers with an error of the database |
| `ShiftPatterns.SuccessSettles` | src/modules/hr/shift-patterns.service.ts:52-147 | an assignment, edit or removal that succeeds settles everyone it is about, whatever failed before |
| `ShiftPatterns.RefusedInsertLeavesNoRows` | src/modules/hr/shift-patterns.service.ts:134-172 | an assignment whose insert is refused leaves the new pattern and not one coming row |
| `ShiftPatterns.StepKeepsSound` | src/modules/hr/shift-patterns.service.ts:52-147 | each single operation, wherever it is broken off, keeps that, for the filling it does itself |
| `ShiftPatterns.AssignmentIs` | src/modules/hr/shift-patterns.service.ts:91-147 | with every statement answered: each refusal exactly when its condition is the first not met, and otherwise columns and rows of exactly the users named; the columns are written even when the start lies after the window |
| `ShiftPatterns.EditIs` | src/modules/hr/shift-patterns.service.ts:56-73 | with every statement answered: the columns named are set and the others kept, and exactly the assignees are regenerated from today |
| `ShiftPatterns.RemovalIs` | src/modules/hr/shift-patterns.service.ts:75-89 | with every statement answered: the pattern goes, and from exactly its assignees the pattern, the start and the coming rows |
| `ShiftPatterns.UsersRefusedFor` | src/modules/hr/shift-patterns.service.ts:98-104 | the checks of the users end at the first that is missing or not answered, whichever comes first |
| `ShiftPatterns.EditReachesEveryAssignee` | src/modules/hr/shift-patterns.service.ts:56-73 | an edit reaches every assignee at once; the days before a future start date are filled as well |
| `ShiftPatterns.RemoveKeepsSound` | src/modules/hr/shift-patterns.service.ts:75-89 | after a removal that succeeds no assignee has a coming row, and everybody else's are as they were; broken off, the rows stay |
| `ScheduleService.BulkAnswerIs` | src/modules/hr/schedules.service.ts:66-129 | accepted exactly when the users and the branch are there and the dates not reversed, unless a query is not answered; each refusal says which condition is not met, and an answer has the rows that the request asks for, in the terms above |
| `ScheduleService.SchedulesService.BulkCreate` | src/modules/hr/schedules.service.ts:66-129 | the errors in their order, an unanswered query at its place among them; otherwise the rows that the request asks for, each as often as it says, appended to the table |
| `ScheduleService.SchedulesService.DateShifts` | src/modules/hr/schedules.service.ts:97-115 | the nested loops terminate with the specified span |
| `ScheduleService.SchedulesService.OverrideByDay` | src/modules/hr/schedules.service.ts:91-93 | the last override of a weekday wins |
| `Schedules.DeletionIsExact` | src/modules/hr/repositories/schedules.repository.ts:103-111 | after the deletion none of the users has a row from that date on, and every selection that spares those rows is as before, in order |
| `ScheduleService.ShiftPatternsService.Regenerate` | src/modules/hr/shift-patterns.service.ts:149-172 | on texts, delete and then create: the specified table and error, wherever the database fails |
| `ScheduleService.ShiftPatternsService.Create` | src/modules/hr/shift-patterns.service.ts:52-54 | a new pattern, and the row it answers with, or the error of its insert |
| `ScheduleService.ShiftPatternsService.Assign` | src/modules/hr/shift-patterns.service.ts:91-147 | columns, rows and answer of the specified operation, wherever it is broken off |
| `ScheduleService.ShiftPatternsService.Update` | src/modules/hr/shift-patterns.service.ts:56-73 | pattern, rows and answer, the updated pattern row, of the specified operation, wherever it is broken off |
| `ScheduleService.ShiftPatternsService.Remove` | src/modules/hr/shift-patterns.service.ts:75-89 | pattern, columns, rows and answer of the specified operation, wherever it is broken off |
| `Recurrence.NextRunIsAfterIff` | src/modules/expenses/expenses.service.ts:415-455 | the next run is strictly after now if and only if the recurrence day passes a test on its value |
| `Recurrence.DailyRun` | src/modules/expenses/expenses.service.ts:421-454 | a daily run is at the next midnight, and one of no known kind a day later |
| `Recurrence.WeeklyRunFor` | src/modules/expenses/expenses.service.ts:428-437 | a weekly run is at a midnight on the weekday of the stored day, Sunday when there is none, at most seven days ahead and six back |
| `Recurrence.MonthlyRunFor` | src/modules/expenses/expenses.service.ts:438-450 | a monthly run is at a midnight of the month landed in, on the stored day, the first when there is none, but no later than the month's last; a stored day below 1 counts back from its first |
| `Recurrence.WeeklyRun` | src/modules/expenses/expenses.service.ts:428-437 | always the weekday wanted, for any number; one to seven days ahead exactly when it is after now |
| `Recurrence.WeeklyRunForAWeekday` | src/modules/expenses/expenses.service.ts:428-437 | a weekday from 0 to 6 gives that weekday, one to seven days ahead |
| `Recurrence.WeeklyRunInThePast` | src/modules/expenses/expenses.service.ts:428-437 | the concrete recurrence day with a next run in the past |
| `Recurrence.MonthlyRun` | src/modules/expenses/expenses.service.ts:438-450 | from a target of 1 on: after now, the target date clamped to the month landed in |
| `Recurrence.MonthLanded` | src/modules/expenses/expenses.service.ts:441-441 | the month landed in is the next one exactly when it has today's date, and otherwise the one after |
| `Recurrence.RerunCreatesOnlyWhatWasNotDone` | src/modules/expenses/expenses.service.ts:321-413 | after a sweep a template is due again at that instant exactly when it was not fully processed, and a rerun creates nothing for the others |
| `Recurrence.RerunIsIdle` | src/modules/expenses/expenses.service.ts:321-413 | if everything was fully processed, a rerun changes nothing |
| `Recurrence.OneExpenseEach` | src/modules/expenses/expenses.service.ts:321-411 | a sweep adds exactly one expense for each template that is active, not deleted and due, with a branch, an approver and an insert that works: approved as the template is, of its amount or 0, good for its hours or 24; and no other |
| `Recurrence.OnlyProcessedMove` | src/modules/expenses/expenses.service.ts:393-401 | only the next run of a template changes, and exactly of those that got an expense and whose update works |
| `Recurrence.ExpensesService.CalculateNextRun` | src/modules/expenses/expenses.service.ts:415-455 | the date changes in place give the specified instant |
| `Recurrence.ExpensesService.ProcessRecurringExpenses` | src/modules/expenses/expenses.service.ts:321-413 | the loop updates exactly the templates and adds exactly the expenses of the specification, and counts them |
| `Recurrence.GetLog` | src/modules/hr/attendance-link.service.ts:308-348 | the dates moved in place give the range, whose first and reported last day enclose the anchor |
| `Recurrence.WeekStartsOnSaturday` | src/modules/hr/attendance-link.service.ts:319-326 | the range starts on the one Saturday within seven days and contains the anchor |
| `Recurrence.MonthRangeIsTheMonth` | src/modules/hr/attendance-link.service.ts:327-334 | the range is the anchor's month, all of it |
| `Recurrence.RangesPartitionTheDays` | src/modules/hr/attendance-link.service.ts:312-334 | for days, weeks and months alike: a day lies in another's range exactly when both have the same range |

## Left out

- Requests without a tenant on the sale path (superadmin): they differ only in which rows they may see.
- The conditions under which a coupon is valid, and whether the session and the customer are found: single checks; each is a parameter of validation.
- Stock, serial, ownership and quality steps of `create`, beyond running once after the insert and never failing the sale.
- The journal entry posted inside the pooled transaction, beyond being one more statement that may fail: the SQL function is not part of this model.
- IEEE-754 effects: amounts are exact reals, rounded where the source rounds, and stored amounts are whole cents.
- Rounding of quantities by the INTEGER quantity column of the order items.
- PricedLines.ResolveLines: one snapshot of catalogue, permission and policies serves all lines, while the source queries them again for each line.
- PriceResolution.ApprovedInBandIffOfficialPositive: assumes caps that are not negative, as the table's check guarantees (`src/database/migrations/190_price_override_policies.sql`).
- PricedLines.SubtotalBand: assumes that no official price is negative; for a negative one the band is false (`ApprovedInBandIffOfficialPositive`).
- PricedLines.LineInBand: the same, for one line.
- UserCache.EveryUserRunStaysCoherent: role tables and role assignments are fixed, because nothing in the source invalidates a user entry when they change.
- RoleCache.EveryRunStaysCoherent: each request is one step, reading and filling the cache always work, and an admin operation whose first statement fails changes nothing and is no step; the single steps, with failing reads and fills, are in `CacheStaleness`.
- UserCache.UserPermissions.GetGrantedSetForUser: each request is one step, and reading and filling the cache always work; a write whose statement fails changes nothing and is no step.
- CacheStaleness.FailedReadIsRightIff: the queries see one state; for a read that is torn and also failed, what counts as right is stated for the state its last query saw.
- CacheStaleness.StalenessIsBounded: global grants and the permission catalogue do not change, since no operation of the service writes them.
- RefreshTokens.LiveSessionsStayUsable: needs the mark, the new token and the revocation of one request to go through together; what each of them alone does is in `ChainKeptIff` and `EndedSessionNeverRefreshesIff`.
- RefreshTokens.AtMostOneUnusedToken: each request is one step; two refreshes of the same token running at once are not modelled, the check and the mark being separate writes in the source.
- Passwords, JWT signing, realtime tokens, device fields and audit entries of the session operations; new tokens and ids are fresh by assumption.
- Lower-casing and trimming of the login email, which happen before the counted key is formed.
- IpBucket.FairTenantsAreNeverRefused: one bucket per IP and both keys touched at the same instant; the throttler library's own way of composing the bucket key is not part of this model.
- The tenant-scoped `global`, `auth` and `session` throttlers beyond the storage they share.
- Calendar.ParseOfFormat: dates are texts of the shape YYYY-MM-DD, and any other text is an invalid date; signed years are not modelled.
- ShiftPatterns.EveryoneFollowsTheirPattern: a statement either goes through or leaves the tables alone, and operations do not overlap; schedule rows are not created or edited by hand in between.
- Soft deletion of users and branches while a schedule request runs, and row ids and timestamps of the schedule table.
- Recurrence.NextRunIsAfterIff: the zone offset never changes (no daylight saving), the year is at least 100, and the recurrence day is a whole number.
- Recurrence.RangesPartitionTheDays: anchors are valid dates outside the years 0 to 99, which `Date.UTC` takes as 1900 to 1999.
- Outbox relay, transfers, warehouse, purchasing, payroll, accounting, notifications and plain CRUD: their logic is in SQL functions or holds no protocol.
