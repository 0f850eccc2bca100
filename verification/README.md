# The club's books, as state machines

This project models the ledgers of a club-management back end (tills, sales, receivables, third-party
payments, stock, the member app's points and games, notifications, invoicing and permissions) and
proves what every run of their operations keeps.

Each part is written twice. A service method that changes rows step by step is a method of a class
whose fields are the tables, with the loops the service has. Beside it stands a function from the
old tables to the new ones, or to the error the service raises; the method is proved to do exactly
what the function says. The theorems are about those functions: over every input, every reachable
state or every run, starting from empty tables.

The `*Effects` files say what an operation answers without naming the function that computes it: which
error means what, which rows are written, and how far tills, stock and balances move. The invariants say
that the tables fit together; these say that they hold what was asked for.

Money is whole cents. Quantities are whole millionths of a kilogram, the six decimals of the movement
log and the sale lines. A table is a sequence of rows and a row's id is its position, except where
ids are supplied from outside. A service method is one atomic step.

| file | what it holds |
|---|---|
| `Prelude.dfy` | options, results, sums over table rows |
| `CashLedger.dfy`, `CashInvariants.dfy`, `ClosedSessions.dfy`, `CashSummaries.dfy` | sessions, movements, sales, receivables, third-party payments |
| `Quantity.dfy`, `StockLedger.dfy`, `StockInvariants.dfy`, `StockReplay.dfy`, `BatchSale.dfy` | inventory rows, their log, the lines of a sale |
| `CashEffects.dfy`, `SaleEffects.dfy`, `StockEffects.dfy`, `ClubEffects.dfy`, `SummaryTheorems.dfy` | what each club operation does in terms of its request, and what a till holds after any run of them |
| `StockChanges.dfy`, `StockTheorems.dfy` | what each step does to one product's stock, log and counters, and what every run keeps of them |
| `Club.dfy`, `ClubInvariants.dfy`, `ClubTheorems.dfy`, `ClubService.dfy` | cash and stock as one machine, its theorems, and the service methods |
| `MemberApp.dfy`, `PointsInvariants.dfy`, `GamesInvariants.dfy`, `MissionInvariants.dfy`, `MemberAppService.dfy` | points, redemptions, games, missions |
| `PointsEffects.dfy`, `GameEffects.dfy` | what each step of the member app does in terms of its request |
| `Notifications.dfy`, `NotificationTheorems.dfy`, `NotificationEffects.dfy`, `NotificationService.dfy` | the notification sync, and what it leaves open in terms of the facts |
| `Decimals.dfy`, `Invoicing.dfy`, `Billing.dfy`, `MemberNumbers.dfy` | printed numbers, the monthly invoice run, all that writes invoices, automatic member numbers |
| `ChatSearch.dfy`, `Permissions.dfy` | paged search, and permissions computed in two ways |

## Where the code does less than one would expect

Each of these is kept as the code has it. A lemma gives the input that shows it, and another says
when the expected property holds.

- Inventory columns hold three decimals of a kilogram while the movement log and the sale lines hold
  six (`apps/api/prisma/schema.prisma:1318-1324`, `1342-1344`, `1472-1479`). So the log does not always
  replay to the stock: one addition of 0.4 grams is enough (`TenthsOfAGramPartThem`), and so is cancelling
  a sale that log and stock agreed about (`CancellingPartsThem`). Log minus stock is the weighed surplus
  that was not logged as waste, whatever the settings, at every moment of a run exactly when each step
  moves whole grams: what is added or wasted or set, what a sale's line takes, or what a cancellation
  gives back (`StepIsExplainedExactlyWhen`, `LogExplainedExactlyWhen`). No surplus is unlogged exactly when
  every line was weighed at what it asked for, or at more with waste registered
  (`SurplusLoggedExactlyWhen`). Log and stock agree at every moment exactly when each line logs what it
  takes, rounded, and every other step moves whole grams (`LogAgreesExactlyWhen`); with waste registered
  and under-weight refused that is: when each step moves whole grams (`WasteLoggedAgreesExactlyWhen`). A
  line of at most half a gram takes no stock at all (`SmallLinesAreFree`).
- A sale and its cancellation together take the weighed difference off the stock exactly when the weighed
  and the requested quantity have the same fraction of a gram, and not half a gram. With no weighing they
  take nothing, unless the line's quantity ends in half a gram: then a gram appears (`CancellingUndoesStock`). A gram and
  a half sold out of ten grams and cancelled leave eleven (`CancellingMakesAGram`).
- In, less out, plus the logged returns is not always the stock: half a gram wasted from one gram parts
  them (`HalfAGramPartsTheCounters`), and so does the return of a fraction of grams
  (`CancellingPartsTheCounters`). They agree throughout a run exactly when no step takes a quantity that
  ends in half a gram and none gives back a fraction (`CountersAgreeExactlyWhen`). The lost quantity is
  the waste logged by hand exactly when every waste is in whole grams (`LostAgreesExactlyWhen`).
- A bulk line bought by amount is priced back at its amount exactly when a gram costs at most ten
  euros (`PricedBackExactly`).
- A hand-made receivable has no bound on its amount, so one for nothing, or for less, stays open with that
  outstanding (`EmptyReceivableStaysOpen`). A sale that is discounted to nothing counts as an unpaid credit with no
  receivable (`FreeSaleIsUnpaidCredit`).
- A rejected redemption gives its points back as a gain, so redeeming and rejecting raises the member's
  lifetime points by the cost (`RejectingGivesBack`).
- Finishing a game session does not look at the daily limits. It passes the game's limit, or the limit of
  the day, exactly when that was reached already (`FinishPassesLimitExactlyWhen`), and runs can do so
  (`LimitPassedByOne`, `DailyLimitPassedByOne`).
- Marking a resolved notification as in review opens it again, next to a newer one for the same
  condition if there is one (`ReviewKeepsOpenOnceExactlyWhen`, `ReviewOpensASecond`). At every moment of a
  run a condition has at most one open notification exactly when each review finds its row alone
  (`OpenOnceExactlyWhen`).
- The invoice run numbers from the newest invoice, not from the largest number in use, and adds the
  count of the run on top: the k-th number is the last one plus 1 + 2 + ... + k. It is stopped exactly
  when one of the numbers it is going to use is taken (`RunStopsExactlyWhen`). An invoice made by hand, a
  run of three, and two more by hand are enough for the next month's run to stop at its first row
  (`HandMadeNumbersStopTheRun`).
- The query behind automatic member numbers uses the prefix as a LIKE pattern. Percent signs and
  underscores in it do no harm; a backslash can (`GeneratedIsFresh`, `EscapedPrefixConflicts`). One creation
  conflicts exactly when its number is in use and the pattern misses it (`ConflictExactlyWhen`), none ever
  does exactly when the pattern finds every candidate (`NeverConflictsExactlyWhen`), and n in a row succeed
  exactly when it finds all but the last, which is not in use (`ConsecutiveSuffixes`).

## Model

| member | source | states |
|---|---|---|
| ClubTheorems.CashReconciles | apps/api/src/pos/pos.service.ts:662-679 | in every reachable state and for every session, the signed sum of its cash movements is the cash of its sales that are not cancelled, plus the collections taken in it, minus its standing third-party payments, plus its manual movements |
| ClubTheorems.OpenSessionIsTheOne | apps/api/src/pos/pos.service.ts:54-73 | in every reachable state a user's open session is the only one, so it is the one that every cash operation attaches to |
| ClubTheorems.DriftAfterClosing | apps/api/src/pos/pos.service.ts:150-227 | closing computes expected cash from opening cash and signed movements; whatever runs later, the closed record never changes, and the session's cash differs from what was expected by the payouts cancelled since minus the cash of its sales cancelled since |
| ClubTheorems.CancelledOnce | apps/api/src/pos/pos.service.ts:926-934 | after a sale is cancelled, cancelling it again is refused whatever steps happen in between |
| ClubTheorems.CancellingUndoesCash | apps/api/src/pos/pos.service.ts:933-994 | a sale in a reachable state, any steps, and its cancellation: the changes the two make to the cash of every session add up to zero, a receivable ends cancelled, and a second cancellation is refused |
| ClubTheorems.CancellingUndoesStock | apps/api/src/pos/pos.service.ts:942-970 | the changes the two make to the current stock of every product add up to what the line took less the requested quantity, both rounded to grams; that is minus the weighed difference exactly when both have the same fraction of a gram, short of a half, and for a line that was not weighed zero, or a gram if it asked for half a gram |
| ClubTheorems.NetIsOverweightExactlyWhen | apps/api/src/pos/pos.service.ts:951-955 | the same of any line by itself, in whole grams or not |
| ClubTheorems.CancelledSaleHolds | apps/api/src/pos/pos.service.ts:933-994 | in every reachable state a cancelled sale holds no cash and has no live receivable, and its line and its return entries together hold that same difference |
| ClubTheorems.LiveSaleHolds | apps/api/src/pos/pos.service.ts:662-679 | until it is cancelled a sale's movements hold exactly what was paid for it, and nothing of it has gone back to stock |
| ClubTheorems.CancelledReceivableIsFinal | apps/api/src/receivables/receivables.service.ts:269-278 | a cancelled receivable never changes again in any run, and neither takes payments nor is cancelled again |
| ClubTheorems.ReceivableExact | apps/api/src/receivables/receivables.service.ts:269-346 | in every reachable state original = paid + outstanding, paid is the sum of the payments, there are at most as many payments as paid cents, and one that is not cancelled is PAID exactly when nothing of a nonzero amount is outstanding |
| ClubTheorems.EmptyReceivableStaysOpen | apps/api/src/receivables/receivables.service.ts:214-239 | a receivable made by hand for nothing, or for a negative amount, is open with that outstanding and takes no payment |
| ClubTheorems.CreditAddsUp | apps/api/src/pos/pos.service.ts:529-633 | in every reachable state a sale has a receivable exactly when something was left pending, and its total is what was paid at the till, collected and still outstanding |
| ClubTheorems.SaleIsInTurn | apps/api/src/pos/pos.service.ts:444-527 | the stock an accepted sale leaves is what selling its items one at a time against live stock, in any order, leaves |
| ClubTheorems.RefusedInTurnIsRefused | apps/api/src/pos/pos.service.ts:444-527 | items that cannot be sold one at a time in some order cannot be sold together |
| ClubTheorems.StepIsLater | apps/api/src/pos/pos.service.ts:913-1010 | one step only ever appends sales and receivables, cancels them or collects on them |
| ClubTheorems.RunIsLater | apps/api/src/receivables/receivables.service.ts:299-312 | over any run sales only become cancelled, receivables only collect, and a paid one changes at most to cancelled |
| ClubTheorems.RunFreezes | apps/api/src/pos/pos.service.ts:195-209 | CLOSED is terminal: over any run a closed session keeps its record, and its cash apart from cancellations |
| ClubInvariants.StepKeepsValid | apps/api/src/pos/pos.service.ts:338-1010 | every one of the thirteen operations keeps the whole invariant of cash and stock, refused or not |
| ClubInvariants.RunKeepsValid | apps/api/src/pos/pos.service.ts:338-1010 | and so does every run |
| ClubInvariants.AcceptedSale | apps/api/src/pos/pos.service.ts:344-598 | an accepted sale has an open session of its user, distinct products, lines checked against the stock as it is, and a settlement that adds up |
| ClubInvariants.PostedKeeps | apps/api/src/pos/pos.service.ts:600-868 | writing an accepted sale keeps the invariant |
| ClubInvariants.ReturnSaleTraced | apps/api/src/pos/pos.service.ts:942-970 | cancelling adds to the returns of a sale the requested quantities of its lines, and to those of no other sale |
| ClubInvariants.CancelSaleKeeps | apps/api/src/pos/pos.service.ts:913-1010 | cancelling keeps the invariant, the tie between returns and cancelled sales included |
| CashInvariants.SettleAddsUp | apps/api/src/pos/pos.service.ts:529-598 | every accepted settlement has total = paid + pending and received = paid + change, a reason for credit when something is pending, and status and sale type that say which part is missing |
| CashInvariants.FreeSaleIsUnpaidCredit | apps/api/src/pos/pos.service.ts:1191-1213 | a sale discounted to nothing is accepted as an unpaid credit with nothing pending |
| CashInvariants.OpenSessionKeeps | apps/api/src/pos/pos.service.ts:48-89 | opening a session keeps one open session a user |
| CashInvariants.CloseSessionKeeps | apps/api/src/pos/pos.service.ts:150-227 | closing records closing cash minus expected cash as the difference |
| CashInvariants.PostSaleKeeps | apps/api/src/pos/pos.service.ts:600-679 | the rows of a sale reconcile with its cash movement, and its receivable with what is pending |
| CashInvariants.CorrectionsUndo | apps/api/src/pos/pos.service.ts:980-994 | the corrections of a sale take back, in its session, exactly what its contributions put in |
| CashInvariants.ReverseSaleKeeps | apps/api/src/pos/pos.service.ts:933-994 | after a sale is reversed every session still reconciles and its receivable is cancelled |
| CashInvariants.CreateReceivableKeeps | apps/api/src/receivables/receivables.service.ts:214-239 | a hand-made receivable keeps the invariant whatever its amount |
| CashInvariants.PayReceivableKeeps | apps/api/src/receivables/receivables.service.ts:241-346 | a collection moves the same amount to paid, to the payments and into the session's cash |
| CashInvariants.CancelReceivableKeeps | apps/api/src/receivables/receivables.service.ts:426-458 | cancelling a receivable moves no money |
| CashInvariants.PayThirdPartyKeeps | apps/api/src/third-party-payments/third-party-payments.service.ts:66-131 | a payout and its cash movement reconcile |
| CashInvariants.CancelPayoutKeeps | apps/api/src/third-party-payments/third-party-payments.service.ts:183-233 | cancelling a payout puts its amount back into its own session, closed or not |
| CashInvariants.AddMovementKeeps | apps/api/src/cash/cash.service.ts:267-313 | a manual movement is accounted for as such |
| CashEffects.OpeningMeans | apps/api/src/pos/pos.service.ts:48-89 | a till opens with the cash given, exactly when that is not negative and the user has no open one; each error has its reason |
| CashEffects.ClosingMeans | apps/api/src/pos/pos.service.ts:150-227 | a close records what was counted, what the till should hold, and the difference; it is refused for a negative count, a till that is not the user's open one, or a difference that the settings do not allow or want a reason for |
| CashEffects.CreatingReceivableMeans | apps/api/src/receivables/receivables.service.ts:214-239 | an open receivable of the amount given, unless there is no such member |
| CashEffects.PayingMeans | apps/api/src/receivables/receivables.service.ts:241-346 | a collection takes its amount off what is outstanding, settles the receivable exactly when that was all, and puts it in the user's till and no other; each refusal has its reason |
| CashEffects.CancellingReceivableMeans | apps/api/src/receivables/receivables.service.ts:426-458 | one receivable that is neither settled nor cancelled becomes cancelled, and nothing else changes |
| CashEffects.PayingOutMeans | apps/api/src/third-party-payments/third-party-payments.service.ts:66-131 | a payout takes its amount out of the user's till and no other |
| CashEffects.CancellingPayoutMeans | apps/api/src/third-party-payments/third-party-payments.service.ts:183-233 | cancelling it puts that amount back into the session it came from |
| CashEffects.MovingMeans | apps/api/src/cash/cash.service.ts:267-313 | a manual movement of each type moves the user's till by its amount with the sign of the type, needs the permission of the type, and leaves every other till alone |
| SaleEffects.NormalizedMeans | apps/api/src/pos/pos.service.ts:1146-1189 | an item asks for the first figure given, or for what its amount buys to the nearest millionth of a kilogram, and costs that amount, or quantity times price to the nearest cent |
| SaleEffects.ItemMeans | apps/api/src/pos/pos.service.ts:444-527 | an item is sold as it asks, weighed where it was, out of the stock of its product; or refused for the reason its error names |
| SaleEffects.SettledMeans | apps/api/src/pos/pos.service.ts:529-598 | of the first given of cash received, amount paid and payments, else the total: the least of it and the total is paid, what is missing is pending, what is too much is change |
| SaleEffects.SaleMeans | apps/api/src/pos/pos.service.ts:338-679 | an accepted sale has a line for each item as asked, a total of the lines less the discount, raises the user's till by what was handed over up to that total, owes the rest on a new receivable exactly when there is a rest, and gives the excess as change |
| SaleEffects.RefusalMeans | apps/api/src/pos/pos.service.ts:344-598 | a refused sale has the reason that its error names |
| ClubEffects.SaleTakesStock | apps/api/src/pos/pos.service.ts:792-804 | a sale moves the rows of the products it sells, each by what its line takes to the gram, and no other row |
| ClubEffects.SaleLogs | apps/api/src/pos/pos.service.ts:806-868 | it logs what each line asked for, and where waste is registered what it weighed above that, from the stock there was, and nothing else |
| ClubEffects.CancellingMeans | apps/api/src/pos/pos.service.ts:913-1010 | a cancellation takes what was paid out of the sale's own session, cancels its receivable and no other, and is refused exactly for a missing, cancelled or refunded sale |
| ClubEffects.CancellingLogs | apps/api/src/pos/pos.service.ts:956-970 | it logs one return for each line of the sale, of what the line asked for, and nothing else |
| ClubEffects.StepMoves | apps/api/src/pos/pos.service.ts:662-679 | every step changes the cash of every session by what its request says |
| ClubEffects.CashIsAsAsked | apps/api/src/pos/pos.service.ts:181-184 | in every reachable state the cash of a session is the sum of what the accepted requests of the run asked for |
| ClubEffects.CountedAtClosing | apps/api/src/pos/pos.service.ts:181-226 | for a till opened, used and closed in a run, whatever comes later: the record is the cash counted, the opening cash of its request plus what the requests moved, and the difference of the two |
| SummaryTheorems.SummaryTells | apps/api/src/cash/cash.service.ts:431-489 | in every reachable state each figure of a session's summary is the total of its documents: sales paid, collections, payouts, cancelled sales and payouts, and the manual movements of its type |
| ClosedSessions.ReverseSaleFreezes | apps/api/src/pos/pos.service.ts:980-994 | cancelling a sale of a closed session changes the session's cash by that sale's payment only |
| ClosedSessions.CancelPayoutFreezes | apps/api/src/third-party-payments/third-party-payments.service.ts:211-233 | cancelling a payout of a closed session changes its cash by that payout only |
| CashSummaries.SummariesAgree | apps/api/src/cash/cash.service.ts:431-489 | on every list of movements the two services expect the same cash, and opening cash plus the four totals in minus the five totals out is that amount |
| CashSummaries.SummaryExpectsClosingCash | apps/api/src/pos/pos.service.ts:181-184 | the summary of a session's own movements expects what closing that session computes |
| CashLedger.OpenSessionOf | apps/api/src/pos/pos.service.ts:54-60 | finds an open session of the user, or there is none |
| CashLedger.ReceivableOf | apps/api/src/pos/pos.service.ts:973-978 | finds a receivable of the sale, or there is none |
| StockLedger.NormalizeStockQuantity | apps/api/src/inventory/inventory.service.ts:493-517 | of a bulk product the kilograms, else the grams, else the plain quantity is taken, of another the plain quantity; it is taken as it is when positive, or zero where that is allowed, and refused otherwise |
| StockLedger.ResolveScaleData | apps/api/src/pos/pos.service.ts:1035-1144 | an accepted weighing is positive, in stock, verified by the settings, equals requested plus difference, has the positive part as waste within tolerance when that blocks, and is overridden only with right and reason; an absent one only where no weight was due |
| StockLedger.ResolveItem | apps/api/src/pos/pos.service.ts:444-527 | an accepted line was checked against its product's current stock and takes no more than that; with under-weight refused its overweight is its waste |
| Quantity.SmallLinesAreFree | apps/api/prisma/schema.prisma:1318-1318 | stock goes down exactly when more than half a gram leaves it |
| Quantity.OutgoingRounding | apps/api/prisma/schema.prisma:1318-1324 | what an outgoing quantity does to the stock and to the counters differs by one gram exactly at a half-gram tie |
| Quantity.PricedBackExactly | apps/api/src/common/utils/weight.utils.ts:14-34 | weight from amount and amount from weight are inverse for every amount exactly when a gram costs at most ten euros |
| StockInvariants.AddStockKeeps | apps/api/src/inventory/inventory.service.ts:124-182 | adding stock keeps stock, counters and log in account |
| StockInvariants.AdjustStockKeeps | apps/api/src/inventory/inventory.service.ts:216-276 | adjusting keeps them, the difference going to the counter of its sign |
| StockInvariants.WasteStockKeeps | apps/api/src/inventory/inventory.service.ts:307-367 | wasting keeps them, and counts the quantity as lost and as gone out |
| StockInvariants.PostLinesKeeps | apps/api/src/pos/pos.service.ts:792-868 | the stock writes and log entries of a sale keep them |
| StockInvariants.ReturnSaleKeeps | apps/api/src/pos/pos.service.ts:942-970 | returning a sale's lines keeps them, without touching the outgoing counter |
| StockInvariants.ResolveItemsExact | apps/api/src/pos/pos.service.ts:444-527 | lines are resolved one for each item, in order, against the stock as it is |
| StockEffects.AddingMeans | apps/api/src/inventory/inventory.service.ts:124-182 | an addition raises stock and incoming counter by the figure given, to the gram, and logs that figure from the stock there was; each refusal has its reason |
| StockEffects.AdjustingMeans | apps/api/src/inventory/inventory.service.ts:216-276 | an adjustment sets the stock to the figure, to the gram, and moves the counter of the difference's sign by it |
| StockEffects.WastingMeans | apps/api/src/inventory/inventory.service.ts:307-367 | a waste takes the figure off the stock and onto the outgoing and the lost counter, and is refused when there is less |
| StockReplay.LogAgainstStock | apps/api/src/inventory/inventory.service.ts:165-182 | in every valid state log minus stock is the unlogged surplus plus the roundings |
| StockReplay.CountersAgainstStock | apps/api/src/inventory/inventory.service.ts:142-162 | in every valid state the stock is in, less out, plus the logged RETURN quantities, plus a gram for each outgoing half-gram tie, plus what rounding made of the returns |
| StockReplay.LostAgainstWaste | apps/api/src/inventory/inventory.service.ts:325-367 | in every valid state the lost quantity is the waste logged by hand plus what rounding made of it |
| StockChanges.StepIsExplainedExactlyWhen | apps/api/src/pos/pos.service.ts:792-970 | under any settings, any of the thirteen steps keeps log minus stock less the unlogged surplus of a product exactly when what it moves of it is in whole grams |
| StockChanges.StepLogsItsSurplusExactlyWhen | apps/api/src/pos/pos.service.ts:840-868 | a step leaves the unlogged surplus as it is exactly when it sells no line of the product that was weighed below its request, or above it with waste not registered |
| StockChanges.StepKeepsLogGapExactlyWhen | apps/api/src/pos/pos.service.ts:792-970 | any step moves log and stock of a product alike exactly when a sale's line logs what it takes, rounded, and another step moves whole grams; where the surplus is logged, exactly when it moves whole grams |
| StockChanges.StepKeepsCounterGapExactlyWhen | apps/api/src/inventory/inventory.service.ts:229-350 | any step keeps stock and counters in step exactly when it takes no quantity that ends in half a gram and gives back no fraction of grams |
| StockChanges.StepKeepsLostGapExactlyWhen | apps/api/src/inventory/inventory.service.ts:325-350 | any step keeps lost quantity and logged waste in step exactly when it wastes whole grams or none |
| StockChanges.SellingTakes | apps/api/src/pos/pos.service.ts:792-804 | a sale changes a product's row by what its line takes, rounded, and counts that as gone out |
| StockChanges.CancellingReturns | apps/api/src/pos/pos.service.ts:951-955 | a cancellation changes a product's row by the requested quantity of the sale's one line, rounded, and no counter |
| StockChanges.StepLogsItsWaste | apps/api/src/pos/pos.service.ts:842-868 | under the two settings no step leaves weighed surplus unlogged |
| StockChanges.OneLineSum | apps/api/src/pos/pos.service.ts:384-392 | a sale has one line for a product, so a total over that sale and product is that line's |
| StockTheorems.ReplayedLog | apps/api/src/pos/pos.service.ts:792-868 | in every run the sum of a product's log minus its stock is the weighed surplus that was not logged as waste plus what rounding to grams kept, and nothing else |
| StockTheorems.StockCounters | apps/api/src/inventory/inventory.service.ts:142-162 | in every run stock is never negative, lost is within gone-out, stock is in less out plus logged returns plus the named roundings, and lost is logged waste plus its rounding |
| StockTheorems.RunLogsItsWaste | apps/api/src/pos/pos.service.ts:842-868 | under the two settings every gram of weighed surplus is logged as waste, in every run |
| StockTheorems.LogExplainedExactlyWhen | apps/api/src/pos/pos.service.ts:792-970 | under any settings, log minus stock is the unlogged surplus at every moment of a run exactly when every step moves whole grams of the product or none |
| StockTheorems.SurplusLoggedExactlyWhen | apps/api/src/pos/pos.service.ts:840-868 | no weighed surplus is unlogged at any moment of a run exactly when every sale logs its own |
| StockTheorems.LogAgreesExactlyWhen | apps/api/src/pos/pos.service.ts:792-970 | the log sums to the stock at every moment of a run exactly when every step logs what it moves |
| StockTheorems.WasteLoggedAgreesExactlyWhen | apps/api/src/pos/pos.service.ts:840-868 | under the two settings that is exactly when every step moves whole grams of the product or none |
| StockTheorems.LogReplaysToStock | apps/api/src/pos/pos.service.ts:840-868 | a run whose steps log what they move of the product, each told from the step and the books before it, ends with the log summing to the stock |
| StockTheorems.WholeGramRequestsReplay | apps/api/src/pos/pos.service.ts:1146-1189 | under the two settings it is enough that the requests themselves are in whole grams |
| StockTheorems.CountersAgreeExactlyWhen | apps/api/src/inventory/inventory.service.ts:229-350 | stock is in less out plus logged returns at every moment of a run exactly when no step takes an outgoing half gram and none gives back a fraction of grams |
| StockTheorems.LostAgreesExactlyWhen | apps/api/src/inventory/inventory.service.ts:325-350 | lost is the waste logged by hand at every moment of a run exactly when every waste is in whole grams |
| StockTheorems.TenthsOfAGramPartThem | apps/api/prisma/schema.prisma:1318-1344 | adding 0.4 grams logs them and leaves the stock at zero |
| StockTheorems.HalfAGramPartsTheCounters | apps/api/prisma/schema.prisma:1318-1324 | half a gram wasted from one gram leaves one gram, with one in, one out, one lost and half a gram logged |
| StockTheorems.CancellingPartsThem | apps/api/src/pos/pos.service.ts:951-970 | ten grams, a sale of 1.333 weighed at two: log and stock agree; after its cancellation the log says 9.333 grams and the stock nine |
| StockTheorems.CancellingPartsTheCounters | apps/api/src/pos/pos.service.ts:951-970 | not weighed, sold and cancelled: ten grams in stock, ten in, one out and 1.333 logged as returned |
| StockTheorems.CancellingMakesAGram | apps/api/src/pos/pos.service.ts:951-955 | ten grams in stock, a gram and a half sold unweighed: nine are left, and eleven after the cancellation |
| StockReplay.LostWithinOut | apps/api/src/inventory/inventory.service.ts:329-350 | what is counted as lost is part of what is counted as gone out |
| BatchSale.BatchIsInTurn | apps/api/src/pos/pos.service.ts:444-527 | for distinct products, resolving against one snapshot accepts the same items and leaves the same stock as selling them in turn |
| BatchSale.AnyOrderIsTheBatch | apps/api/src/pos/pos.service.ts:792-804 | and so does selling them in any other order |
| BatchSale.FindDuplicatedProductIds | apps/api/src/pos/pos.service.ts:1012-1025 | returns exactly the ids that occur twice, so none exactly when they are pairwise distinct |
| ClubService.Tables.OpenSession | apps/api/src/pos/pos.service.ts:48-89 | performs the step, or fails as it fails and changes nothing |
| ClubService.Tables.CloseSession | apps/api/src/pos/pos.service.ts:150-227 | performs the step, with the expected cash computed by the service's own reduce over the session's movements |
| ClubService.Tables.CreateSale | apps/api/src/pos/pos.service.ts:338-911 | performs the step whatever order the stock writes are sorted in |
| ClubService.Tables.AcceptSale | apps/api/src/pos/pos.service.ts:344-598 | makes every check of a sale before anything is written |
| ClubService.Tables.PriceLines | apps/api/src/pos/pos.service.ts:444-527 | the loop over the items finds the lines and their subtotal, or the first refusal |
| ClubService.Tables.WriteSale | apps/api/src/pos/pos.service.ts:600-679 | writes the sale, its lines, and its receivable and movement where there is an amount for them |
| ClubService.Tables.WriteStock | apps/api/src/pos/pos.service.ts:792-804 | the sorted writes leave each product's row as its own line says |
| ClubService.Tables.WriteLog | apps/api/src/pos/pos.service.ts:806-868 | logs each line, then its scale waste where that is registered |
| ClubService.Tables.CancelSale | apps/api/src/pos/pos.service.ts:913-1010 | performs the step: returns, receivable and corrections |
| ClubService.Tables.ReturnLines | apps/api/src/pos/pos.service.ts:942-970 | the loop over the lines gives each requested quantity back and logs it |
| ClubService.OutcomeKeepsValid | apps/api/src/pos/pos.service.ts:338-1010 | what every one of these methods does keeps the invariant of cash and stock together |
| ClubService.Tables.WriteCorrections | apps/api/src/pos/pos.service.ts:980-994 | writes one correction for each contribution of the sale |
| ClubService.Tables.CreateManual | apps/api/src/receivables/receivables.service.ts:214-239 | performs the step |
| ClubService.Tables.Pay | apps/api/src/receivables/receivables.service.ts:241-346 | performs the step |
| ClubService.Tables.Cancel | apps/api/src/receivables/receivables.service.ts:426-458 | performs the step |
| ClubService.Tables.PayThirdParty | apps/api/src/third-party-payments/third-party-payments.service.ts:66-131 | performs the step |
| ClubService.Tables.CancelPayout | apps/api/src/third-party-payments/third-party-payments.service.ts:183-233 | performs the step |
| ClubService.Tables.CreateMovement | apps/api/src/cash/cash.service.ts:267-313 | performs the step |
| ClubService.Tables.EnsureInventory | apps/api/src/inventory/inventory.service.ts:398-418 | a missing row is made empty; others are left alone |
| ClubService.Tables.AddStock | apps/api/src/inventory/inventory.service.ts:124-182 | performs the step |
| ClubService.Tables.AdjustStock | apps/api/src/inventory/inventory.service.ts:216-276 | performs the step |
| ClubService.Tables.WasteStock | apps/api/src/inventory/inventory.service.ts:307-367 | performs the step |
| PointsInvariants.PointsConserved | apps/api/src/member-app/member-app.service.ts:1989-2040 | in every run a member's points are the sum of the transactions and never negative, lifetime points are the sum of the gains, and points are what came from elsewhere less what the standing redemptions cost |
| PointsInvariants.LifetimeNeverFalls | apps/api/src/member-app/member-app.service.ts:2013-2036 | over any continuation of a run the transactions only grow and lifetime points never fall |
| PointsInvariants.RefundedAtMostOnce | apps/api/src/member-app/member-app.service.ts:1738-1795 | in every run a redemption has one refund if it was rejected and none otherwise |
| PointsInvariants.RewardStockConserved | apps/api/src/member-app/member-app.service.ts:1435-1500 | for a limited reward whose stock nobody edits, stock plus standing redemptions is the limit at every moment, so stock is never negative unless the limit is |
| PointsInvariants.StepKeepsPoints | apps/api/src/member-app/member-app.service.ts:1989-2040 | each of the thirteen steps keeps the accounts of points and refunds, also when it fails half way |
| PointsInvariants.StepKeepsStock | apps/api/src/member-app/member-app.service.ts:1713-1820 | each step that does not edit a reward's stock keeps its account |
| PointsEffects.AdjustingMeans | apps/api/src/member-app/member-app.service.ts:682-714 | an adjustment writes one transaction of its points and moves that member's balance by them; each refusal has its reason and writes nothing |
| PointsEffects.AwardsMean | apps/api/src/member-app/member-app.service.ts:527-587 | 25 points for the profile and ten for the first access, exactly once a member |
| PointsEffects.RedeemingMeans | apps/api/src/member-app/member-app.service.ts:1435-1500 | a redemption takes the reward's cost off the member's points and no one else's, records that cost, takes one from a counted stock, and is accepted exactly when the reward is on offer, in stock and affordable |
| PointsEffects.RejectingMeans | apps/api/src/member-app/member-app.service.ts:1738-1795 | a rejection of a requested redemption gives back what was spent on it, and one to the stock |
| PointsEffects.MarkingMeans | apps/api/src/member-app/member-app.service.ts:1713-1820 | a redemption is approved when requested and delivered when approved, and nothing else changes |
| PointsEffects.OfferingMeans | apps/api/src/member-app/member-app.service.ts:1572-1596 | a new reward is active at its cost with its limit in stock |
| PointsEffects.EditingMeans | apps/api/src/member-app/member-app.service.ts:1599-1627 | an edit replaces the fields given and no others |
| PointsEffects.RejectingGivesBack | apps/api/src/member-app/member-app.service.ts:1738-1795 | in every run, a redemption and after any steps its rejection: the member gets back exactly the reward's cost at the time of the redemption, the stock of the same reward its piece; lifetime points rise by that cost |
| GameEffects.CheckInMeans | apps/api/src/member-app/member-app.service.ts:465-525 | five points once a day, and otherwise only what missions pay; each refusal has its reason and writes nothing |
| GameEffects.PlayMeans | apps/api/src/member-app/member-app.service.ts:812-960 | a play that window, limits and cooldown allow is recorded with the points of its reward that fit under the day's cap, none for a wrong answer, and its transaction; any other writes nothing and has its reason |
| GameEffects.StartMeans | apps/api/src/member-app/member-app.service.ts:1076-1142 | starting cancels the member's open sessions of the game, no others, and opens one for five minutes |
| GameEffects.FinishMeans | apps/api/src/member-app/member-app.service.ts:1153-1208 | finishing in time is a play of the session's game, later the session only expires, and another's or a closed one is not found |
| GamesInvariants.DailyLimitsHold | apps/api/src/member-app/member-app.service.ts:847-933 | in every run a day's points from plays stay within the cap, plays stay within the daily limit plus the number of session games, and today they do so with the open sessions added |
| GamesInvariants.GameLimitsHold | apps/api/src/member-app/member-app.service.ts:1103-1142 | per game and member, at most one session is open, and a day's plays with it exceed the game's limit by one at most |
| GamesInvariants.FinishPassesLimitExactlyWhen | apps/api/src/member-app/member-app.service.ts:1159-1208 | finishing a session stays within the game's limit exactly when that was not reached before, and within the limit of the day exactly when that was not |
| GamesInvariants.LimitPassedByOne | apps/api/src/member-app/member-app.service.ts:1153-1208 | starting a session, playing the game and finishing the session gives two plays of a game limited to one |
| GamesInvariants.DailyLimitPassedByOne | apps/api/src/member-app/member-app.service.ts:1153-1208 | starting sessions of two games and finishing both gives two plays where one a day is allowed |
| GamesInvariants.CreditedWithinCap | apps/api/src/member-app/member-app.service.ts:920-957 | the points that games credit to a member in a day stay within the cap, as long as no game costs points |
| GamesInvariants.PassedCheckMeans | apps/api/src/member-app/member-app.service.ts:831-896 | the checks before a play pass exactly when the game's window contains now, both daily limits are not reached, and every earlier play of the game is a cooldown ago |
| GamesInvariants.PlayedWithinLimits | apps/api/src/member-app/member-app.service.ts:831-896 | in every run in time order a game that is played directly satisfied all of that |
| GamesInvariants.StepKeepsGames | apps/api/src/member-app/member-app.service.ts:812-1208 | every step keeps the limits, at whatever time it comes |
| GamesInvariants.TimePasses | apps/api/src/member-app/member-app.service.ts:856-866 | the limits survive the change of day |
| MissionInvariants.MissionsCountAndPayOnce | apps/api/src/member-app/member-app.service.ts:1310-1397 | in every run, after e matching events progress is min(e, target), the mission is completed exactly when e reaches the target, and its reward is paid once from then on and never before |
| MissionInvariants.StepIsExact | apps/api/src/member-app/member-app.service.ts:1310-1397 | a step advances each mission by one for the member who caused an event of its type, and no other |
| MemberAppService.MemberTables.AddPoints | apps/api/src/member-app/member-app.service.ts:1989-2040 | writes transaction and balance, or refuses a negative balance and writes neither |
| MemberAppService.MemberTables.AdjustPoints | apps/api/src/member-app/member-app.service.ts:682-714 | performs the step |
| MemberAppService.MemberTables.CheckIn | apps/api/src/member-app/member-app.service.ts:465-525 | performs the step, missions included |
| MemberAppService.MemberTables.AwardProfileCompletion | apps/api/src/member-app/member-app.service.ts:527-556 | performs the step, once a member |
| MemberAppService.MemberTables.AwardFirstAccess | apps/api/src/member-app/member-app.service.ts:558-587 | performs the step, once a member |
| MemberAppService.MemberTables.UpdateMissions | apps/api/src/member-app/member-app.service.ts:1310-1397 | the loop over the missions advances the listening ones up to the first error |
| MemberAppService.MemberTables.CreateReward | apps/api/src/member-app/member-app.service.ts:1572-1596 | performs the step: stock starts at the limit |
| MemberAppService.MemberTables.EditReward | apps/api/src/member-app/member-app.service.ts:1599-1628 | performs the step: given fields replace those of the row |
| MemberAppService.MemberTables.Redeem | apps/api/src/member-app/member-app.service.ts:1435-1500 | performs the step |
| MemberAppService.MemberTables.Approve | apps/api/src/member-app/member-app.service.ts:1713-1736 | performs the step |
| MemberAppService.MemberTables.Reject | apps/api/src/member-app/member-app.service.ts:1738-1795 | performs the step |
| MemberAppService.MemberTables.Deliver | apps/api/src/member-app/member-app.service.ts:1797-1820 | performs the step |
| MemberAppService.MemberTables.CheckLimits | apps/api/src/member-app/member-app.service.ts:831-896 | passes exactly when the window contains now, both daily limits are not reached and every earlier play of the game is a cooldown ago; otherwise names the first check that fails |
| MemberAppService.MemberTables.CountPlays | apps/api/src/member-app/member-app.service.ts:848-872 | the loop counts the member's plays of the day, of the game and of all games |
| MemberAppService.MemberTables.SumPoints | apps/api/src/member-app/member-app.service.ts:896-905 | the loop adds up the points of the member's plays of the day |
| MemberAppService.MemberTables.FindLastPlay | apps/api/src/member-app/member-app.service.ts:876-896 | the loop finds when the member last played the game |
| MemberAppService.MemberTables.CancelOpenSessions | apps/api/src/member-app/member-app.service.ts:1130-1134 | the open sessions of the member and game are cancelled, and no other row changes |
| MemberAppService.MemberTables.Play | apps/api/src/member-app/member-app.service.ts:812-978 | performs the step: limits, capped points, play row, points, missions |
| MemberAppService.MemberTables.WritePlay | apps/api/src/member-app/member-app.service.ts:935-957 | a play row, and a transaction if it earned points |
| MemberAppService.MemberTables.StartSession | apps/api/src/member-app/member-app.service.ts:1076-1151 | performs the step: open sessions of the game are cancelled first |
| MemberAppService.MemberTables.FinishSession | apps/api/src/member-app/member-app.service.ts:1153-1243 | performs the step, or marks the session expired |
| NotificationTheorems.SyncConverges | apps/api/src/notifications/notifications.service.ts:493-640 | after a sync the keys of the open dynamic notifications are exactly those of the conditions that hold |
| NotificationEffects.OpenExactlyWhenCalledFor | apps/api/src/notifications/notifications.service.ts:518-640 | after a sync an alert is open exactly when the facts call for it: stock at or below zero, or above zero and at most the minimum, a till open too long, an unpaid receivable, a birthday within seven days, the emergency lock, or the missing access link |
| NotificationEffects.StockAlerts | apps/api/src/notifications/notifications.service.ts:519-548 | in particular a product is reported low exactly when some row of it has 0 < current <= minimum, and out exactly when some has none |
| NotificationEffects.ToldOfIsThere | apps/api/src/notifications/notifications.service.ts:642-803 | every tolerance, waste from twice the line's maximum and a tenth of a gram on, negative difference and cash difference is reported to who sold it, or closed the till, else opened it |
| NotificationEffects.AddedIsCalledFor | apps/api/src/notifications/notifications.service.ts:518-803 | a sync adds nothing but unread notifications that the facts call for or tell of |
| NotificationEffects.ActionMeans | apps/api/src/notifications/notifications.service.ts:83-154 | what each action of a user makes of each row's status; nothing else changes |
| NotificationTheorems.SyncIsIdempotent | apps/api/src/notifications/notifications.service.ts:235-804 | a second sync on the same facts creates nothing and resolves nothing |
| NotificationTheorems.SyncTouchesOnlyStale | apps/api/src/notifications/notifications.service.ts:806-844 | of the rows there were, a sync changes only open dynamic ones without a condition, and only to resolved |
| NotificationTheorems.EventsReportedOnce | apps/api/src/notifications/notifications.service.ts:642-803 | over any run of syncs and user actions no event is reported twice, even once its notification is resolved or archived |
| NotificationTheorems.OtherActionsKeepOpenOnce | apps/api/src/notifications/notifications.service.ts:846-871 | syncs, reading, resolving and archiving keep at most one open notification a condition |
| NotificationTheorems.OpenOnceWithoutReviews | apps/api/src/notifications/notifications.service.ts:846-871 | over any run without a review, from no notifications on, a condition has at most one open notification |
| NotificationTheorems.OpenOnceExactlyWhen | apps/api/src/notifications/notifications.service.ts:115-126 | from no notifications on, a condition has at most one open notification at every moment of a run exactly when every review of a dynamic one finds no other open one with its key |
| NotificationTheorems.ReviewKeepsOpenOnceExactlyWhen | apps/api/src/notifications/notifications.service.ts:115-126 | marking in review keeps that exactly when the row is no dynamic one or no other open one has its key |
| NotificationTheorems.ReviewOpensASecond | apps/api/src/notifications/notifications.service.ts:115-126 | a product that sells out, comes in and sells out again, and a review of its first alert, leave two open alerts for it |
| NotificationTheorems.KeyIsFaithfulExactlyWhen | apps/api/src/notifications/notifications.service.ts:885-892 | a key belongs to one type, entity and user only exactly when none of the three texts has a colon |
| NotificationTheorems.SyncKeysAreFaithful | apps/api/src/notifications/notifications.service.ts:235-804 | every alert and event a sync raises, its ids being without colons as uuids are, is told apart from all other notifications by its key |
| NotificationTheorems.ReconcileConverges | apps/api/src/notifications/notifications.service.ts:806-871 | the convergence for any key that tells types apart |
| NotificationTheorems.EventsAreReported | apps/api/src/notifications/notifications.service.ts:642-803 | after a sync every event of the facts has a notification |
| NotificationService.NotificationTable.Sync | apps/api/src/notifications/notifications.service.ts:235-804 | the loops with their three working sets compute the reconciliation |
| NotificationService.NotificationTable.ResolveInactive | apps/api/src/notifications/notifications.service.ts:806-844 | resolves the open dynamic rows, of those there were at the start, whose key is not active |
| NotificationService.NotificationTable.MarkRead | apps/api/src/notifications/notifications.service.ts:83-97 | only an unread notification becomes read |
| NotificationService.NotificationTable.MarkAllRead | apps/api/src/notifications/notifications.service.ts:99-113 | all visible unread notifications become read, and are counted |
| NotificationService.NotificationTable.MarkInReview | apps/api/src/notifications/notifications.service.ts:115-126 | the row becomes in review whatever its status was |
| NotificationService.NotificationTable.Resolve | apps/api/src/notifications/notifications.service.ts:128-140 | the row becomes resolved |
| NotificationService.NotificationTable.Archive | apps/api/src/notifications/notifications.service.ts:142-154 | the row becomes archived |
| Decimals.PaddedReadBack | apps/api/src/platform/platform.service.ts:588-592 | a zero-padded numeral reads back as its number |
| Decimals.StripKeepsDigits | apps/api/src/platform/platform.service.ts:588-590 | stripping all that is not a digit from a prefixed numeral leaves the numeral |
| Invoicing.NumberReadBack | apps/api/src/platform/platform.service.ts:588-592 | a generated invoice number reads back as the last number plus the count so far plus one |
| Invoicing.RunNumbers | apps/api/src/platform/platform.service.ts:576-632 | the k-th invoice of a run is for the k-th subscription due, at its price, and its number reads as base plus 1 + 2 + ... + (k + 1) |
| Invoicing.RunIsComplete | apps/api/src/platform/platform.service.ts:553-632 | after a run that was not stopped every tenant that is active with an active subscription and a price has an invoice in the month that is not void |
| Invoicing.RunInvoicesOnce | apps/api/src/platform/platform.service.ts:576-632 | a run invoices no tenant twice, and no two of its numbers are the same |
| Invoicing.RunInvoicesTheDue | apps/api/src/platform/platform.service.ts:566-583 | every row of a run is for such a subscription, whose tenant had no such invoice, at the plan's price, in the month, with a number that no earlier row has |
| Invoicing.SecondRunAddsNothing | apps/api/src/platform/platform.service.ts:566-579 | a second run in the month adds nothing |
| Invoicing.RunStopsExactlyWhen | apps/api/src/platform/platform.service.ts:584-603 | a run is stopped by the unique number exactly when one of the numbers it is going to use is taken before it starts |
| Invoicing.NumbersAreFresh | apps/api/src/platform/platform.service.ts:584-592 | when the newest number is the largest no run is stopped, and the newest stays the largest |
| Invoicing.NumbersStayReadable | apps/api/src/platform/platform.service.ts:588-592 | if all numbers have digits, they still do after a run |
| Billing.ReachedIsSound | apps/api/src/platform/platform.service.ts:4495-4506 | in every table that runs, hand-made invoices and markings can reach, all numbers are distinct and can be read, and an invoice made by hand is never refused for its number |
| Billing.HandMadeReads | apps/api/src/platform/platform.service.ts:4495-4506 | a hand-made number reads as its year followed by five digits, while the count has five |
| Billing.HandMadeTellsApart | apps/api/src/platform/platform.service.ts:4495-4506 | two hand-made numbers are the same exactly when year and count are |
| Billing.ByHandMeans | apps/api/src/platform/platform.service.ts:3699-3716 | an invoice by hand has its tenant, amount and month and the number of the year and the count since January, or is refused because that number is in use |
| Billing.MarkingMeans | apps/api/src/platform/platform.service.ts:3731-3757 | marking changes the void mark of one row |
| Billing.HandMadeNumbersStopTheRun | apps/api/src/platform/platform.service.ts:584-603 | a hand-made invoice, a run of three, and two more by hand: next month's run has three tenants due and is stopped at the first |
| Billing.InvoiceTable.GenerateMonthlyInvoices | apps/api/src/platform/platform.service.ts:537-639 | the loop does the run, and generated plus skipped is the number of eligible subscriptions |
| Billing.InvoiceTable.CreateInvoice | apps/api/src/platform/platform.service.ts:3699-3716 | counts the year's invoices and appends the row, or reports a number in use |
| Billing.InvoiceTable.UpdateInvoice | apps/api/src/platform/platform.service.ts:3731-3757 | marks one row void or valid and changes nothing else |
| MemberNumbers.MaxSuffixIs | apps/api/src/members/members.service.ts:1169-1176 | the query answers the largest suffix among the numbers that the pattern finds and whose rest is digits, or zero, and fails exactly when one of them is no 32-bit integer |
| MemberNumbers.CandidateLooks | apps/api/src/members/members.service.ts:1178-1179 | a number is the prefix and the suffix in at least four digits |
| MemberNumbers.ConflictExactlyWhen | apps/api/src/members/members.service.ts:1178-1193 | for every prefix, the conflict is raised exactly when the candidate is in use and the LIKE pattern misses its row |
| MemberNumbers.GeneratedIsFresh | apps/api/src/members/members.service.ts:1162-1194 | for a prefix without a backslash, percent signs and underscores included, the generated number is not in use and the conflict is never raised |
| MemberNumbers.EscapedPrefixConflicts | apps/api/src/members/members.service.ts:1174-1174 | with a backslash at the end of the prefix a number in use is proposed again |
| MemberNumbers.NeverConflictsExactlyWhen | apps/api/src/members/members.service.ts:1169-1193 | for every prefix, no table of numbers raises the conflict exactly when the pattern finds the candidate of every suffix up to one above the largest integer |
| MemberNumbers.ConsecutiveSuffixes | apps/api/src/members/members.service.ts:436-448 | for every prefix, n automatic creations in a row succeed exactly when the suffixes before the last are integers whose numbers the pattern finds and the last number is not in use; then they take the n suffixes after the largest one, each number unused before |
| MemberNumbers.PlainPrefixCreates | apps/api/src/members/members.service.ts:436-448 | without a backslash that is exactly when the suffixes before the last are integers |
| ChatSearch.FoundExactlyWhen | apps/api/src/chat/chat.service.ts:429-473 | a message is found exactly when it matches, is among the newest 600, and fewer than `take` matches are newer |
| ChatSearch.MatchMeans | apps/api/src/chat/chat.service.ts:465-471 | a message matches exactly when its readable text has the query somewhere |
| ChatSearch.FoundInOrder | apps/api/src/chat/chat.service.ts:438-473 | what is found comes in the order of the conversation |
| ChatSearch.PageContinues | apps/api/src/chat/chat.service.ts:438-449 | the page after a row's cursor starts at the next row: none is skipped or repeated |
| ChatSearch.SearchableIsDistinct | apps/api/src/chat/chat.service.ts:440-445 | the query keeps exactly the text messages that are not deleted |
| ChatSearch.SearchPage | apps/api/src/chat/chat.service.ts:465-471 | the inner loop with its early break continues the result over one page |
| ChatSearch.SearchPages | apps/api/src/chat/chat.service.ts:432-472 | the loop over at most three pages finds the first `take` matches among the newest 600 rows |
| ChatSearch.SearchMessages | apps/api/src/chat/chat.service.ts:420-474 | the search refines that specification for every `take`, with the answers for a stranger and an empty query |
| Permissions.LoginAgreesWithTable | apps/api/src/auth/auth.service.ts:346-378 | the set a login builds holds a key exactly when the table shows it as effective, in whatever order either reads the overrides |
| Permissions.TableMeans | apps/api/src/users/users.service.ts:429-461 | one row for each permission in order: what the role grants, what the user's override says, and which of the two holds; only for a user of the tenant |
| Permissions.DecisionRefused | apps/api/src/users/users.service.ts:463-493 | an update is refused exactly for a user of another tenant or an unknown key |
| Permissions.OverlayIs | apps/api/src/auth/auth.service.ts:367-375 | after the loop a key is held as its last override says, else as before |
| Permissions.OverrideIsLastDecision | apps/api/src/users/users.service.ts:463-493 | after any run of updates a user's override is the last decision taken about the permission, and stays the only one |
| Permissions.LoginIsLastDecision | apps/api/src/users/users.service.ts:463-493 | so a login grants by the last decision that was not cleared, else by the role's default |
| Permissions.PermissionTables.UpdateUserPermission | apps/api/src/users/users.service.ts:463-493 | upserts or deletes the one override, or names what was not found and changes nothing |
| Permissions.PermissionTables.GetPermissionsForTenantUser | apps/api/src/auth/auth.service.ts:346-378 | the loop's set is the effective column of the user's table |

## Left out

- MemberNumbers.GeneratedIsFresh: about prefixes without a backslash, as is `PlainPrefixCreates`. `NeverConflictsExactlyWhen`, `ConflictExactlyWhen` and `ConsecutiveSuffixes` have every prefix.
- Invoicing.RunNumbers: starts from a newest number with a digit in it, as does `RunStopsExactlyWhen`. Every table the program can reach has one (`Billing.ReachedIsSound`), and completeness and idempotence do not ask for it.
- ChatSearch.SearchMessages: messages come in one total order. The query orders by creation time only, and what a database does with ties between pages is not part of this model.
- GamesInvariants.CreditedWithinCap: asks that no game has a negative reward, which nothing in the code forbids. `DailyLimitsHold` bounds the plays' own points without it.
- MissionInvariants.MissionsCountAndPayOnce: asks that no mission has a negative reward, which nothing in the code forbids; such a mission can fail for lack of points after its progress was written.
- The order of checks: where several reasons to refuse a request hold at once, the results on effects let any of their errors be named; only the operations and the methods fix which.
- Concurrency between transactions: each service method is one atomic step.
- Floating point: money and quantities are exact. Inputs off the cent or the millionth of a kilogram, and doubles above 2^53, are not part of this model.
- Request validation beyond signs and presence: money amounts of at least one cent, discounts and cash of at least zero, at least one item. Lower bounds on quantities are left to the service's own checks.
- Calendar and time zones: a day is a fixed number of milliseconds and a month is an index.
- Trimming, case folding, decryption and Unicode: queries and prefixes come trimmed, and a body's readable text is a parameter.
- Facts a sync reads (which sessions are long open, which birthdays are near) are its inputs; the five-minute throttle and the Redis lock in front of it are not part of this model.
- Who may see a notification: a parameter for reading all, and an index that is found or not elsewhere.
- Settings, games and missions stay fixed over a run of the member app. Rewards can be edited.
- Approving a receivable: it sets an approver and neither amounts nor status.
- Renewing a subscription makes an invoice as one made by hand does; its payment, and the statuses of an invoice other than void, are not part of this model. Five digits of the hand-made count are enough for `HandMadeReads`; above them the year and the count run together.
- Member creation apart from its number; manual numbers enter as numbers in use.
- Scale device readings, discounts by member class, product cost and price history.
- Listings, dashboards, analytics, exports, CSV import, audit logs, push, e-mail, web sockets, caches, sign-in tokens, encryption.
- Controllers, guards, modules and all of the web client.
