# The position ledger, its repair endpoints and three smaller components

A Dafny model of the parts of the trading platform whose correctness is least obvious from reading them:

- **The position ledger** (`apps/api/src/admin/admin-system.controller.ts`): jobs, executions, positions and fills, and the
  administration endpoints that import orders found on the exchange, attach orphaned sales, close positions at break-even,
  charge fees, recompute, audit and repair positions, check sales against FIFO, cluster jobs in time windows and remove duplicates.
- **The replacement chains of the webhook monitor** (`packages/db/scripts/fill-webhook-monitor-first-alert.ts`): a search through
  an arbitrary pointer graph, done by recursion and by a loop, and a rewrite of every alert.
- **Template rendering** (`packages/notifications/src/template.service.ts`): repeated global replacement, and the extraction of the
  variables that a template needs.
- **Log sanitising and fee extraction** (`packages/exchange/src/exchange-adapter.ts`).

Tables are maps from row id to row; fills are a list in id order. `LedgerModel.Ledger` and `Chain.AlertTable` are the mutable
tables. Each endpoint is a method that changes them statement by statement, proved equal to a function from one snapshot (`Db`)
to the next, and the properties are proved about those functions over every input, every run or every interleaving.
Amounts are exact reals and instants are integers. What the exchange answers, the current time, and the order in which the
database lists rows with equal sort keys are inputs or left open.

## Modules

| files | content |
|---|---|
| `Tables`, `Sorting`, `Collections` | rows, sums over fills, stable sorting, sets and sequences |
| `Ledger`, `LedgerLaws`, `Runs`, `Attachments` | endpoints that create fills; what each leaves and when it refuses; what every run of endpoints keeps |
| `FeeSync`, `FeeSyncInterleaving`, `FeeSyncCharges`, `FeeSyncRaces`, `FeeSyncTotals` | the batched fee sync, its interleavings, what it charges, what races lose and when they break the fee totals |
| `Recompute`, `RecomputeProofs`, `RecomputeEndpoint`, `RecomputeBalance` | clean-up of repeated fills, the two forms of the totals, and when they agree with the fills |
| `AuditFix`, `AuditTotals`, `Detect` | audit and repair; what the audited columns mean and what the audit says after the other endpoints; detect, import, detect |
| `Fifo`, `FifoTables`, `Clustering` | the FIFO audit; time windows |
| `DuplicateGroups`, `Duplicates`, `DuplicatesKept`, `DuplicateRequests` | removal of duplicates group by group; of executions, positions and jobs; requests naming rows |
| `Chain` | replacement chains |
| `Template`, `TemplateProofs` | rendering and variable extraction |
| `Sanitize`, `FeeExtraction` | log sanitising; fees from trades |

## What the code does that its comments or callers do not expect

Each of these is a theorem below, with the exact condition under which the expected property does hold and, where the
condition alone does not show one, an input that fails it.

- An imported sale takes its fee from the profit but adds it to no fee column, unlike an attached sale
  (`Runs.BooksShowGrossProfitIff`, `Runs.ImportedFeeIsOffTheBooks`).
- Attaching the same orphaned sale twice consumes position quantity twice (`Attachments.FixAttachesIff`,
  `Attachments.RefixAttachesTwice`).
- A fee-sync batch in which one task changes a row that another one reads loses a fee under some schedule
  (`FeeSyncRaces.BatchSafeIff`, `FeeSyncRaces.TwoSalesClash`), and so do two fills of one sale on one position
  (`FeeSyncCharges.WholeFeeIff`, `FeeSyncCharges.HalfTheFee`).
- A fee-sync batch in which a BUY and a SELL concern one position can leave its total fees different from BUY fees plus SELL
  fees: each writes the total it computed from its own read (`FeeSyncTotals.BatchKeepsTotalsIff`, `FeeSyncTotals.MixedBatch`).
- Recomputing a position deletes the sales of jobs that neither opened it nor are grouped in it
  (`RecomputeProofs.SurvivesIff`, `RecomputeProofs.ForeignSalesForgotten`, `RecomputeProofs.SaleForgotten`), and
  never writes the status (`RecomputeBalance.RecomputeKeepsBalanceIff`, `RecomputeBalance.ClosedWithStock`).
- A position correction sent along with execution corrections can be stale (`AuditFix.StaleCorrectionIff`,
  `AuditFix.StaleQuantity`).
- The audit does not always accept what other endpoints write. It counts the whole fee of a sale at each of its positions where the
  fee sync charges each its part (`AuditTotals.SaleSyncIsReportedIff`, `AuditTotals.SplitSaleIsReported`); it expects a fee that
  imports book nowhere (`AuditTotals.ImportedPurchaseIsReportedIff`, `AuditTotals.ImportedSaleIsReportedIff`) and that an
  attached sale books unconverted (`AuditTotals.AttachedSaleIsReportedIff`); and a synced purchase whose fee is in the base
  asset no longer has the quantity of its position (`AuditTotals.PurchaseSyncIsReportedIff`).
- The chain script can leave an efficiency measured against a price that is no longer the first (`Chain.EfficiencyFollowsRoot`,
  `Chain.StaleEfficiency`).
- A correct sale that ends inside a position is reported as a FIFO error while that position is open
  (`Fifo.CorrectSaleAcceptedIff`, `Fifo.SaleWithinAPosition`).
- An order with several trades, one of whose imports failed, is no longer detected (`Detect.PartlyImportedOrderHides`,
  `Detect.HalfImportedOrder`).
- Removing the duplicates of overlapping groups can leave a group without any row (`DuplicateGroups.GroupsAreSafeIff`,
  `DuplicateGroups.OverlapLosesAGroup`), removing twice can delete the row that was kept
  (`DuplicateGroups.RepeatDeletesNothingIff`, `DuplicateGroups.TiedRowIsLost`), and removing duplicate jobs deletes the
  fills of their executions and unbalances positions (`DuplicateRequests.JobRemovalKeepsBalanceIff`,
  `DuplicateRequests.SaleImportedTwice`).
- Repeating a request to delete rows can delete more (`DuplicateRequests.RepeatChangesNothingIff`,
  `DuplicateRequests.JobAfterItsPosition`).
- Block tags such as `{{#if x}}` are required as variables although the code means to skip them: the second pattern finds
  them (`TemplateProofs.BlockTagsAreRequired`). Dollar patterns in a value are expanded (`TemplateProofs.InsertedLiterallyIff`).
- The fee extraction returns the first currency found, also where the code's comment (`exchange-adapter.ts:425`, which
  allows the largest or the first) would suggest another one (`FeeExtraction.NothingLeftOutIff`,
  `FeeExtraction.LargerFeeLeftOut`). A trade that lists its fee both ways counts twice
  (`FeeExtraction.ListedTwiceCountsTwice`).

## Model

| member | source | states |
|---|---|---|
| LedgerModel.Ledger.ImportOrder | apps/api/src/admin/admin-system.controller.ts:6971-7117 | One imported order: the validation, the transaction with its rows for a BUY or a SELL, and the rollback when the position is missing |
| LedgerModel.Ledger.ImportMissingOrders | apps/api/src/admin/admin-system.controller.ts:6942-7125 | The whole request: orders in sequence, an outcome for each, nothing done for an unknown account |
| LedgerModel.Ledger.FixOrphan | apps/api/src/admin/admin-system.controller.ts:6459-6600 | One orphaned job: which position is chosen, when an alternative is asked for, and the attached sale |
| LedgerModel.Ledger.FixOrphanedExecutions | apps/api/src/admin/admin-system.controller.ts:6442-6626 | The whole request, job by job |
| LedgerModel.Ledger.ClosePositionsBreakeven | apps/api/src/admin/admin-system.controller.ts:8606-8770 | The close at the opening price, and every refusal |
| LedgerLaws.ImportedIff | apps/api/src/admin/admin-system.controller.ts:6972-6988 | An order is imported exactly when its symbol has at least four characters, all capitals or digits, and a SELL names an existing position by a positive id; otherwise no row changes |
| LedgerLaws.ImportedBuyOpens | apps/api/src/admin/admin-system.controller.ts:6990-7060 | Every column of the job, the execution, the fill and the position of an imported BUY: quantity and price are the order's, no fee is booked |
| LedgerLaws.ImportedSaleSells | apps/api/src/admin/admin-system.controller.ts:7063-7101 | An imported SELL sells as much as there is, gains (price - opening price) * quantity - fee, closes at dust, enters no fee column, and resets the close reason of a position left open |
| LedgerLaws.TargetIff | apps/api/src/admin/admin-system.controller.ts:6485-6544 | The original position while it is open, otherwise the alternative while that is open; and exactly when an alternative is asked for |
| LedgerLaws.FixSells | apps/api/src/admin/admin-system.controller.ts:6547-6600 | An attached sale does the same and enters its fee, in whatever currency, in the SELL fees and the total; a refused one changes nothing |
| LedgerLaws.ClosesIff | apps/api/src/admin/admin-system.controller.ts:8606-8672 | The close succeeds exactly for an open position with stock; each refusal exactly in its case |
| LedgerLaws.CloseSellsTheRest | apps/api/src/admin/admin-system.controller.ts:8673-8740 | It sells the whole rest at the opening price: nothing remains, profit and fees are unchanged |
| Runs.ImportIsRun | apps/api/src/admin/admin-system.controller.ts:6971-7117 | An import request is the run of its orders, so that what runs keep holds of requests |
| Runs.FixIsRun | apps/api/src/admin/admin-system.controller.ts:6459-6544 | The same for a fix request |
| Runs.ImportConserves | apps/api/src/admin/admin-system.controller.ts:6990-7108 | An import keeps every position's quantities and status equal to what its fills say exactly when its quantity is good: above the dust limit for a BUY, not negative for a SELL |
| Runs.FixConserves | apps/api/src/admin/admin-system.controller.ts:6547-6600 | Attaching an orphaned sale keeps the balance, whichever job and however often |
| Runs.BatchConserves | apps/api/src/admin/admin-system.controller.ts:333-344 | A batch of fee syncs keeps the balance under every schedule, even one cut short |
| Runs.CloseConserves | apps/api/src/admin/admin-system.controller.ts:8673-8740 | Closing at break-even keeps the balance |
| Runs.RunConserves | apps/api/src/admin/admin-system.controller.ts:6990-7108 | From an empty ledger every run of imports, orphan fixes, break-even closes and interleaved fee-sync batches keeps, for every position, quantity = BUY fills, quantity - remaining = SELL fills, 0 <= remaining <= quantity, and closed exactly at dust |
| Runs.RunKeepsOpeningPrices | apps/api/src/admin/admin-system.controller.ts:7028-7056 | Over every run of all the endpoints each purchase was made at the opening price of its position |
| Runs.RunKeepsGrossProfit | apps/api/src/admin/admin-system.controller.ts:7071-7086 | Over every run, interleaved fee-sync batches included, profit + SELL fees + fees charged off the books = gross profit of the SELL fills |
| Runs.RunKeepsProfit | apps/api/src/admin/admin-system.controller.ts:7071-7086 | Over every run that sum is what the sales brought less their quantity at the price of the purchase |
| Runs.SoldOutProfit | apps/api/src/admin/admin-system.controller.ts:7071-7086 | For a position that is sold out it is what the sales brought less what was paid |
| Runs.BooksShowGrossProfitIff | apps/api/src/admin/admin-system.controller.ts:7063-7086 | The books show the gross profit exactly when the fees of imported sales cancel out |
| Runs.ImportedFeeIsOffTheBooks | apps/api/src/admin/admin-system.controller.ts:7063-7086 | A run of two imports whose books do not show the gross profit |
| Runs.RunKeepsFeeTotals | apps/api/src/admin/admin-system.controller.ts:605-653 | Every run of all the endpoints, with fee-sync batches under any schedule but none that is mixed, keeps total fees = BUY fees + SELL fees |
| Runs.NextBatchKeepsTotalsIff | apps/api/src/admin/admin-system.controller.ts:333-344 | After such a run a further batch keeps the totals under every complete schedule if and only if it is not mixed |
| Attachments.FixAttachesIff | apps/api/src/admin/admin-system.controller.ts:6547-6573 | A fix attaches no more of an execution than it sold exactly when nothing was attached before or the rest covers the position |
| Attachments.RunNeverOverAttaches | apps/api/src/admin/admin-system.controller.ts:6459-6600 | Over every run in which only unfilled jobs are fixed, no execution is attached beyond its quantity |
| Attachments.RefixAttachesTwice | apps/api/src/admin/admin-system.controller.ts:6459-6544 | Without that guard the same sale is attached twice over |
| FeeSync.SyncTask | apps/api/src/admin/admin-system.controller.ts:346-660 | One execution's fee: recorded, made net, charged to the positions |
| FeeSync.SyncExecutionFees | apps/api/src/admin/admin-system.controller.ts:285-718 | The call: at most fifty live executions without a fee, in batches of ten of which only the last may be smaller |
| FeeSyncInterleaving.StepCommutesWithFinish | apps/api/src/admin/admin-system.controller.ts:563-655 | A step of one task and the rest of another commute when neither changes a row that the other reads |
| FeeSyncInterleaving.InterleavingIsSequential | apps/api/src/admin/admin-system.controller.ts:333-344 | When no task changes a row that another reads, every complete interleaving of a batch ends in the ledger of running its tasks one by one |
| FeeSyncInterleaving.CallIsSequential | apps/api/src/admin/admin-system.controller.ts:333-344 | The same for the whole call, where the condition is only between tasks of one batch |
| Tables.SymbolParts | apps/api/src/admin/admin-system.controller.ts:587-588 | The base and the quote asset of a symbol are the parts before and after its slash; without one the quote asset is USDT |
| FeeSyncCharges.BuyCharges | apps/api/src/admin/admin-system.controller.ts:576-613 | A BUY fee raises the BUY fees and the total of the open position of its job by its amount, or by amount * average price in the base asset, and nothing else |
| FeeSyncCharges.ShareInRatio | apps/api/src/admin/admin-system.controller.ts:627-640 | A position's share of a SELL fee is to the fee's worth as the fill's quantity is to the executed one; the worth is the amount, or amount * average price when the currency is the base asset and no dollar or quote asset |
| FeeSyncCharges.SellFeeAddsUp | apps/api/src/admin/admin-system.controller.ts:614-655 | For a SELL whose fills lie on different positions and sum to the executed quantity, the SELL fees gain exactly that worth, and the profits lose it |
| FeeSyncCharges.TaskMakesNet | apps/api/src/admin/admin-system.controller.ts:537-573 | The execution records the fee and its rate in percent, and is less by it in what the job got, never below zero |
| FeeSyncCharges.SaleCharges | apps/api/src/admin/admin-system.controller.ts:614-655 | A position ends with exactly the share of the last of the sale's fills on it, taken from its profit |
| FeeSyncCharges.WholeFeeIff | apps/api/src/admin/admin-system.controller.ts:614-655 | SELL fees gained = profit lost, and it is the whole fee exactly when the last fills on each position sum to the executed quantity |
| FeeSyncCharges.HalfTheFee | apps/api/src/admin/admin-system.controller.ts:627-653 | A sale with two fills on one position, whose kept fills sum to half the executed quantity |
| FeeSyncRaces.CanComplete | apps/api/src/admin/admin-system.controller.ts:333-344 | Every batch can run to completion from every configuration |
| FeeSyncRaces.RaceLosesFee | apps/api/src/admin/admin-system.controller.ts:627-653 | In any batch two tasks on a common position have two complete schedules, one of which ends without what the first task charges |
| FeeSyncRaces.BatchSafeIff | apps/api/src/admin/admin-system.controller.ts:333-344 | A batch of any size ends in the sequential ledger under every complete schedule if and only if no task changes a row that another one reads |
| FeeSyncRaces.BatchSafeIffDisjoint | apps/api/src/admin/admin-system.controller.ts:333-344 | When every fill carries a part of its fee: if and only if no two tasks concern one position |
| FeeSyncRaces.TwoSalesClash | apps/api/src/admin/admin-system.controller.ts:614-655 | Two sales on one position, whose batch is not safe |
| FeeSyncTotals.SyncKeepsProfit | apps/api/src/admin/admin-system.controller.ts:576-655 | One task alone moves money between profit and SELL fees of a position and changes nothing else of it but its BUY fees and total |
| FeeSyncTotals.BatchKeepsProfit | apps/api/src/admin/admin-system.controller.ts:333-344 | The same for every schedule of a batch, even one cut short: profit + SELL fees of every position is what it was |
| FeeSyncTotals.UnmixedKeepsTotals | apps/api/src/admin/admin-system.controller.ts:605-653 | In a batch that is not mixed every schedule, even one cut short, keeps the fee totals |
| FeeSyncTotals.BatchKeepsTotalsIff | apps/api/src/admin/admin-system.controller.ts:605-653 | A batch of any size keeps the fee totals under every complete schedule if and only if no BUY and no SELL of it change a row that the other reads |
| FeeSyncTotals.MixedBatch | apps/api/src/admin/admin-system.controller.ts:605-653 | The BUY of a position and a SELL of half of it, whose batch breaks the totals |
| FeeSyncCharges.NetOnceOverHistory | apps/api/src/admin/admin-system.controller.ts:537-573 | Over any number of calls, interleaved and cut short anywhere, an execution is made net of its fee once or not at all |
| FeeSyncCharges.SelectionIsFirstFifty | apps/api/src/admin/admin-system.controller.ts:296-301 | An execution without a fee is selected unless fifty before it are |
| FeeSyncCharges.SelectionInOrder | apps/api/src/admin/admin-system.controller.ts:296-353 | The selected are live, in id order, and have the exchange's answer exactly when they have an order and there is one |
| FeeSyncCharges.EndpointSelects | apps/api/src/admin/admin-system.controller.ts:296-301 | What the endpoint selects are executions without a fee, each once |
| Recompute.SortedIsRunning | apps/api/src/admin/admin-system.controller.ts:1380-1384 | The first of the newest-first sorted group is the running newest, ties included |
| RecomputeProofs.FormsAgree | apps/api/src/admin/admin-system.controller.ts:1354-1447 | On any list of fills the sorted groups and the running map give the same totals |
| RecomputeProofs.CleanedTotals | apps/api/src/admin/admin-system.controller.ts:1470-1518 | The totals recomputed from the cleaned fills are those computed from the fills as they were |
| RecomputeProofs.RecomputeWritesGroupTotals | apps/api/src/admin/admin-system.controller.ts:1450-1541 | The position is given the totals of the first form over its original fills |
| RecomputeProofs.RecomputeIsIdempotent | apps/api/src/admin/admin-system.controller.ts:1450-1541 | Repeating the recomputation deletes nothing and changes no row |
| RecomputeProofs.SurvivesIff | apps/api/src/admin/admin-system.controller.ts:1332-1399 | A fill survives exactly when its execution belongs to the opening or a grouped job and it is the newest of its execution |
| RecomputeProofs.LeftInStep | apps/api/src/admin/admin-system.controller.ts:1401-1447 | A fill left on the position is an old one, and a purchase has its execution's quantity unless it was within 0.00000001 of it |
| RecomputeProofs.ForeignSalesForgotten | apps/api/src/admin/admin-system.controller.ts:1332-1375 | When all its sales belong to other jobs the position gets its whole quantity back |
| RecomputeProofs.SaleForgotten | apps/api/src/admin/admin-system.controller.ts:1332-1375 | A position of 2 units with a sale of 1 by another job, which the recomputation gives back |
| RecomputeBalance.RecomputeKeepsBalanceIff | apps/api/src/admin/admin-system.controller.ts:1450-1541 | A recomputed position agrees with its fills if and only if no unnoticeable difference to its executions is left, the known sales are covered, and it was closed exactly if what they leave is dust |
| RecomputeBalance.ClosedWithStock | apps/api/src/admin/admin-system.controller.ts:1516-1532 | A closed position that stays closed with its whole quantity |
| RecomputeProofs.OthersUntouched | apps/api/src/admin/admin-system.controller.ts:1354-1399 | Cleaning one position leaves the fills of the others alone |
| RecomputeEndpoint.GroupFills | apps/api/src/admin/admin-system.controller.ts:1354-1362 | The groups, in order of first occurrence |
| RecomputeEndpoint.CleanUp | apps/api/src/admin/admin-system.controller.ts:1364-1399 | Deletes orphans and repeats by id and collects the unique fills |
| RecomputeEndpoint.GroupForm | apps/api/src/admin/admin-system.controller.ts:1401-1447 | The first totals, with BUY fills brought in line with their executions |
| RecomputeEndpoint.RunningForm | apps/api/src/admin/admin-system.controller.ts:1470-1514 | The second totals, over the running map |
| RecomputeEndpoint.RecomputePosition | apps/api/src/admin/admin-system.controller.ts:1299-1546 | The row-by-row clean-up and recomputation is the function on tables, and writes the totals it computed first |
| AuditFix.AuditPosition | apps/api/src/admin/admin-system.controller.ts:2154-2252 | The audit of one position |
| AuditTotals.ExpectedIsTotal | apps/api/src/admin/admin-system.controller.ts:2154-2211 | The expected columns as sums over the position's fills: executed quantities, what sales leave of them, fees by amount in quote currency, at the average price in base currency for a BUY, at the fill price for a SELL |
| AuditTotals.OffIff | apps/api/src/admin/admin-system.controller.ts:2196-2252 | A column is reported beyond 0.00000001 for quantities and a cent for fees |
| AuditTotals.RecomputedPassesAudit | apps/api/src/admin/admin-system.controller.ts:1450-1541 | After the recomputation of a position the audit reports nothing about it |
| AuditTotals.SaleSyncIsReportedIff | apps/api/src/admin/admin-system.controller.ts:627-653 | After a synced sale the audit reports the SELL fees exactly when the part charged differs from the whole it counts by more than a cent |
| AuditTotals.SplitSaleIsReported | apps/api/src/admin/admin-system.controller.ts:2178-2188 | A sale of 2 units over two positions with a fee of 1 USDT, which is reported |
| AuditTotals.PurchaseSyncIsReportedIff | apps/api/src/admin/admin-system.controller.ts:537-613 | After a synced purchase the audit reports its BUY fees exactly when they are in an unknown asset, and its quantity exactly when the fee was taken from it |
| AuditTotals.ImportedPurchaseIsReportedIff | apps/api/src/admin/admin-system.controller.ts:7008-7056 | After an imported purchase the audit reports its BUY fees exactly when the order had a fee of more than a cent, and nothing else |
| AuditTotals.ImportedSaleIsReportedIff | apps/api/src/admin/admin-system.controller.ts:7071-7086 | The same for the SELL fees after an imported sale |
| AuditTotals.AttachedSaleIsReportedIff | apps/api/src/admin/admin-system.controller.ts:6547-6573 | After an attached sale exactly when the fee is in an asset that the audit converts and the conversion matters |
| AuditFix.ApplyCorrections | apps/api/src/admin/admin-system.controller.ts:3604-3757 | Executions are corrected first, then positions, unnamed columns being recomputed |
| AuditFix.ExecutionFixDecides | apps/api/src/admin/admin-system.controller.ts:3604-3632 | The last correction of an execution decides the columns it has a value for, the currency only along with an amount |
| AuditFix.ExecutionFixKeeps | apps/api/src/admin/admin-system.controller.ts:3604-3632 | Columns that no correction has a value for stay as they are |
| AuditFix.ReportedAfterFixIff | apps/api/src/admin/admin-system.controller.ts:3645-3746 | After a request a column is reported exactly when the last correction of the position gave it a value that is off |
| AuditFix.AuditFixpoint | apps/api/src/admin/admin-system.controller.ts:3645-3746 | Any choice of reported corrections leaves nothing for a second audit |
| AuditFix.StaleCorrectionIff | apps/api/src/admin/admin-system.controller.ts:3604-3757 | A reported value sent with execution corrections is reported again exactly when they moved the expected value beyond the tolerance |
| AuditFix.StaleQuantity | apps/api/src/admin/admin-system.controller.ts:3604-3757 | A request with an execution correction and a reported quantity, after which the quantity is reported again |
| Detect.DetectMissingOrders | apps/api/src/admin/admin-system.controller.ts:6851-6896 | Exactly the trades whose order has no execution in the account |
| Detect.SecondDetectionIff | apps/api/src/admin/admin-system.controller.ts:6853-6887 | After an import a trade is reported again exactly when its order was missing and none of its trades was imported |
| Detect.GapCloses | apps/api/src/admin/admin-system.controller.ts:6971-7117 | When all imports succeed nothing is missing and every missing order is executed for the amount of its trades |
| Detect.PartlyImportedOrderHides | apps/api/src/admin/admin-system.controller.ts:6853-6887 | A partly imported order is not reported, and lacks exactly the quantity of its failed imports |
| Detect.HalfImportedOrder | apps/api/src/admin/admin-system.controller.ts:6971-7117 | An order of two trades, one of which is imported and one refused |
| Fifo.Simulate | apps/api/src/admin/admin-system.controller.ts:5842-5885 | The loop selects what the recursive specification selects |
| Fifo.SelectsShortestPrefix | apps/api/src/admin/admin-system.controller.ts:5842-5885 | The selection is the shortest prefix of the open positions whose total covers the sale, or all of them |
| Fifo.TakesOldestFirst | apps/api/src/admin/admin-system.controller.ts:5842-5885 | What is taken sums to min(sold, total open), and older positions are exhausted first |
| Fifo.OldestFirstIsUnique | apps/api/src/admin/admin-system.controller.ts:5842-5885 | An allocation is oldest-first exactly when it is the simulated one |
| Fifo.FifoError | apps/api/src/admin/admin-system.controller.ts:5887-5937 | The comparison of sizes, members and order as one condition |
| Fifo.VerdictIsSetEquality | apps/api/src/admin/admin-system.controller.ts:5887-5937 | With distinct creation times and no position filled twice, the verdict is set equality |
| Fifo.AcceptedAreDistinct | apps/api/src/admin/admin-system.controller.ts:5887-5937 | A sale with two fills on one closed position is never accepted |
| Fifo.CorrectSaleAcceptedIff | apps/api/src/admin/admin-system.controller.ts:5827-5937 | A sale on exactly the right positions is accepted exactly when all of them are closed when audited |
| Fifo.SaleWithinAPosition | apps/api/src/admin/admin-system.controller.ts:5887-5937 | A correct sale of half a position, which is not accepted |
| Fifo.AuditSale | apps/api/src/admin/admin-system.controller.ts:5740-5944 | The dry run on one execution, from the tables |
| Fifo.AuditComparesSets | apps/api/src/admin/admin-system.controller.ts:5827-5937 | On the tables: the verdict of the dry run as equality of two sets of positions |
| FifoTables.LotsIff | apps/api/src/admin/admin-system.controller.ts:5842-5862 | The simulated positions are those of the sale's account, mode and symbol that were not created after it, oldest first |
| FifoTables.SoldBeforeIsFilled | apps/api/src/admin/admin-system.controller.ts:5852-5878 | What counts as sold before is the SELL quantity of the fills of executions before the sale |
| FifoTables.OpenAtSale | apps/api/src/admin/admin-system.controller.ts:5872-5878 | In a balanced ledger a position was open for what remains of it when all its sales were before the audited one, and for all of it when none was |
| FifoTables.OwnFillsIff | apps/api/src/admin/admin-system.controller.ts:5767-5816 | The audited fills are the sale's in order of creation, and sum to what of it is attached |
| FifoTables.StatusIff | apps/api/src/admin/admin-system.controller.ts:5928-5937 | No fill, a quantity that differs, or a sale without a named position that is not accepted, in this order |
| FifoTables.AcceptedIff | apps/api/src/admin/admin-system.controller.ts:5821-5926 | With distinct creation times and no position filled twice, a sale is accepted exactly when the positions it closed are those that oldest-first selects |
| Clustering.DuplicateWindows | apps/api/src/admin/admin-system.controller.ts:4306-4338 | The nested loops report the windows of more than one job |
| Clustering.WindowsPartition | apps/api/src/admin/admin-system.controller.ts:4306-4338 | The windows cut the sorted jobs into contiguous runs |
| Clustering.WindowsBeginAtStarts | apps/api/src/admin/admin-system.controller.ts:4306-4338 | Every member of a window lies within a minute of its first job |
| Clustering.StartsFarApart | apps/api/src/admin/admin-system.controller.ts:4306-4338 | Each window is maximal |
| Clustering.FewestWindows | apps/api/src/admin/admin-system.controller.ts:4306-4338 | No grouping at all that keeps jobs of a group within a minute of each other has fewer groups |
| DuplicateGroups.RemovalKeepsOne | apps/api/src/admin/admin-system.controller.ts:4153-4197 | After the removal of one group a row that sorts first is left, and at most one row besides those that must stay |
| DuplicateGroups.OutcomeKeepsOne | apps/api/src/admin/admin-system.controller.ts:3063-3111 | The same for every outcome of a list of groups that are disjoint or the same |
| DuplicateGroups.GroupsAreSafeIff | apps/api/src/admin/admin-system.controller.ts:5037-5101 | A list of groups keeps a row of each, whatever the creation times, the rows that must stay and the answers, if and only if any two groups are disjoint or the same |
| DuplicateGroups.OverlapLosesAGroup | apps/api/src/admin/admin-system.controller.ts:5037-5101 | Three jobs in two overlapping groups, the first of which loses all its jobs |
| DuplicateGroups.RepeatDeletesNothingIff | apps/api/src/admin/admin-system.controller.ts:4153-4197 | Over a list of disjoint or equal groups a second pass deletes nothing, whatever the answers of both, if and only if no group has both a row that must stay and one that need not at its first creation time |
| DuplicateGroups.TiedRowIsLost | apps/api/src/admin/admin-system.controller.ts:4164-4180 | Two rows of one instant for which the kept row is deleted the second time |
| Duplicates.RemoveDuplicateExecutions | apps/api/src/admin/admin-system.controller.ts:3063-3111 | Over a list of order ids: the fills are untouched and stay linked, and each order keeps its newest execution and those with fills |
| DuplicatesKept.DeletedExecutions | apps/api/src/admin/admin-system.controller.ts:3063-3111 | Only executions of the account for the given orders that have no fill are deleted |
| DuplicatesKept.KeptExecutions | apps/api/src/admin/admin-system.controller.ts:3063-3111 | Of each order a newest execution is left, and no other without fills |
| Duplicates.ExecutionsRepeatIff | apps/api/src/admin/admin-system.controller.ts:3063-3111 | A second call deletes no execution if and only if no order has both an execution with fills and one without among its newest |
| Duplicates.RemoveDuplicatePositions | apps/api/src/admin/admin-system.controller.ts:4921-4979 | The same for positions: each group keeps its oldest position and those with fills |
| DuplicatesKept.DeletedPositions | apps/api/src/admin/admin-system.controller.ts:4921-4979 | Only positions of the groups without fills are deleted, and jobs that were to close them forget them |
| DuplicatesKept.KeptPositions | apps/api/src/admin/admin-system.controller.ts:4921-4979 | Of each disjoint or equal group an oldest position is left, and no other without fills |
| Duplicates.PositionsRepeatIff | apps/api/src/admin/admin-system.controller.ts:4921-4979 | A second call deletes no position if and only if no group has both a position with fills and one without among its oldest |
| Duplicates.RemoveDuplicateJobs | apps/api/src/admin/admin-system.controller.ts:5037-5101 | Each of disjoint or equal groups keeps its newest job and those that opened a position; executions and their fills go with a job |
| DuplicatesKept.DeletedJobs | apps/api/src/admin/admin-system.controller.ts:5037-5101 | Only jobs of the groups that opened no position are deleted, with exactly their executions and the fills of those |
| DuplicatesKept.KeptJobs | apps/api/src/admin/admin-system.controller.ts:5037-5101 | Of each disjoint or equal group a newest job is left, and no other that opened no position |
| Duplicates.JobsRepeatIff | apps/api/src/admin/admin-system.controller.ts:5037-5101 | A second call deletes no job if and only if no group has both a job that opened a position and one that did not among its newest |
| DuplicateRequests.DeleteDuplicates | apps/api/src/admin/admin-system.controller.ts:4420-4609 | Deletes exactly the requested rows that nothing hangs on, loses no fill, and counts every id once as deleted or refused |
| DuplicateRequests.RequestKeepsLinks | apps/api/src/admin/admin-system.controller.ts:4437-4594 | Every fill still belongs to an execution and a position |
| DuplicateRequests.RequestConserves | apps/api/src/admin/admin-system.controller.ts:4437-4594 | Every position left keeps its balance with its fills |
| DuplicateRequests.RepeatChangesNothingIff | apps/api/src/admin/admin-system.controller.ts:4482-4594 | Repeating a request changes nothing exactly when the first one deleted no position that kept a requested job |
| DuplicateRequests.JobAfterItsPosition | apps/api/src/admin/admin-system.controller.ts:4482-4594 | A job and its position, of which the second identical request deletes the job |
| DuplicateRequests.JobRemovalKeepsFillsIff | apps/api/src/admin/admin-system.controller.ts:5060-5085 | Removing duplicate jobs keeps the fill table exactly when none of their executions has a fill |
| DuplicateRequests.JobRemovalKeepsBalanceIff | apps/api/src/admin/admin-system.controller.ts:5060-5085 | A position stays balanced exactly when none of the fills lost moved any of its quantity |
| DuplicateRequests.SaleImportedTwice | apps/api/src/admin/admin-system.controller.ts:5060-5085 | A sale imported twice, whose older job is removed with its fill and unbalances the position |
| Chain.SearchFindsRoot | packages/db/scripts/fill-webhook-monitor-first-alert.ts:30-58 | On any table the search terminates and finds exactly the root the walk reaches, and none exactly on a cycle or a missing alert |
| Chain.RootExcludesTheRest | packages/db/scripts/fill-webhook-monitor-first-alert.ts:30-58 | A walk that reaches a root reaches no other, at no other distance, and meets no cycle and no gap |
| Chain.DistanceReaches | packages/db/scripts/fill-webhook-monitor-first-alert.ts:80-99 | The distance is the length of the walk to the root |
| Chain.AlertTable.RebuildChain | packages/db/scripts/fill-webhook-monitor-first-alert.ts:60-100 | The loop counts exactly the distance; its visited guard never stops it |
| Chain.AlertTable.RebuildPass | packages/db/scripts/fill-webhook-monitor-first-alert.ts:166-234 | The second pass gives the same table for every processing order, though it writes rows while it reads chains |
| Chain.AlertTable.MeasurePass | packages/db/scripts/fill-webhook-monitor-first-alert.ts:236-276 | The third pass, in any order |
| Chain.AlertTable.RunScript | packages/db/scripts/fill-webhook-monitor-first-alert.ts:152-279 | The whole script as a function of the table |
| Chain.ChainsAreRebuilt | packages/db/scripts/fill-webhook-monitor-first-alert.ts:152-276 | An alert whose chain reaches a root ends with the root's price and its distance to the root |
| Chain.SavingsFollowRoot | packages/db/scripts/fill-webhook-monitor-first-alert.ts:111-122 | savings * root price = (root price - execution price) * 100 for a BUY and the opposite for a SELL, positive exactly when it executed better than the root; what happens for a root price that is not positive |
| Chain.EfficiencyFollowsRoot | packages/db/scripts/fill-webhook-monitor-first-alert.ts:124-144 | The efficiency is the percentage of the way to the extreme price, between 0 and 100, against the root; against the earlier price if the root is too close to the extreme |
| Chain.StaleEfficiency | packages/db/scripts/fill-webhook-monitor-first-alert.ts:124-144 | An alert whose efficiency of 50 stays measured against its old first price |
| Chain.OtherColumnsAreKept | packages/db/scripts/fill-webhook-monitor-first-alert.ts:152-276 | No other column is written, and no metric of an alert that was not executed |
| Chain.BrokenChainsAreLeft | packages/db/scripts/fill-webhook-monitor-first-alert.ts:152-164 | An alert that replaced none or whose chain is broken keeps its prices and count, or starts anew at its own price if one is missing |
| Chain.MainIsIdempotent | packages/db/scripts/fill-webhook-monitor-first-alert.ts:152-276 | Running the script again changes nothing |
| Template.RenderTemplate | packages/notifications/src/template.service.ts:10-28 | The loop over the variables |
| TemplateProofs.InsertedLiterallyIff | packages/notifications/src/template.service.ts:20-24 | A value is inserted as it is, at every match, exactly when it holds no dollar pattern |
| TemplateProofs.DollarStandsFor | packages/notifications/src/template.service.ts:20-24 | What a dollar sign in a value stands for: a dollar, the match, the text before or after it, or itself |
| TemplateProofs.ExpandAppend | packages/notifications/src/template.service.ts:20-24 | Text without a dollar sign is kept |
| TemplateProofs.RenderingIsSimultaneous | packages/notifications/src/template.service.ts:10-28 | Replacing variable after variable, double braces before single ones, is replacing every placeholder at once |
| TemplateProofs.OrderDoesNotMatter | packages/notifications/src/template.service.ts:15-25 | The order of the variables does not matter |
| TemplateProofs.BracesMakeOrderMatter | packages/notifications/src/template.service.ts:15-25 | Two variables, one with a brace in its value, for which the order matters |
| Template.ExtractVariables | packages/notifications/src/template.service.ts:88-113 | The two search loops |
| Template.ValidateVariables | packages/notifications/src/template.service.ts:118-130 | Valid exactly when every extracted name is provided; otherwise which are missing |
| TemplateProofs.ExtractsTheNames | packages/notifications/src/template.service.ts:88-113 | What is extracted from a template is exactly its placeholders' names, trimmed |
| TemplateProofs.MatchDoubleIff | packages/notifications/src/template.service.ts:91 | What the first pattern matches, character by character |
| TemplateProofs.MatchSingleIff | packages/notifications/src/template.service.ts:92 | What the second pattern matches |
| TemplateProofs.TrimCuts | packages/notifications/src/template.service.ts:96-107 | Trimming cuts all the white space at both ends and nothing else |
| TemplateProofs.BlockTagsAreRequired | packages/notifications/src/template.service.ts:95-110 | A block tag is extracted as a variable after all |
| TemplateProofs.FullyRenderedIff | packages/notifications/src/template.service.ts:10-28 | No placeholder remains exactly when every name has a value |
| TemplateProofs.ValidIffFullyRendered | packages/notifications/src/template.service.ts:118-130 | With names that carry no blanks, validation succeeds exactly when rendering leaves no placeholder |
| TemplateProofs.BlanksBreakValidity | packages/notifications/src/template.service.ts:95-110 | A name with surrounding blanks passes validation and is not rendered |
| Sanitize.TreatmentIff | packages/exchange/src/exchange-adapter.ts:65-77 | A value is redacted exactly when its key contains one of the six words in any case, and omitted exactly when its key is "headers" in any case and contains none |
| Sanitize.SanitizedIsClean | packages/exchange/src/exchange-adapter.ts:57-80 | For every tree and depth: no array over 20, only the trim marker below the third level, "[REDACTED]" under every key that contains one of the six words, "[OMITTED]" under headers |
| Sanitize.VisibleIsLogged | packages/exchange/src/exchange-adapter.ts:57-80 | Along every path through nothing hidden the log has the payload's own leaves and keys, arrays cut at 20, and the marker of its key under each hidden one |
| Sanitize.FixedPointsAreClean | packages/exchange/src/exchange-adapter.ts:57-80 | Sanitising leaves a tree as it is exactly when it is clean |
| Sanitize.SanitisingIsIdempotent | packages/exchange/src/exchange-adapter.ts:57-80 | Sanitising twice at one depth is sanitising once |
| Sanitize.CleanIsShallow | packages/exchange/src/exchange-adapter.ts:57-80 | A clean tree has bounded depth |
| Sanitize.LogRevealsExactlyTheRest | packages/exchange/src/exchange-adapter.ts:57-80 | Two payloads give the same log exactly when they agree on everything that is not hidden |
| FeeExtraction.ExtractFeesFromTrades | packages/exchange/src/exchange-adapter.ts:392-432 | The total, over all the fees listed, in the currency of the first positive one |
| FeeExtraction.NothingLeftOutIff | packages/exchange/src/exchange-adapter.ts:420-431 | Nothing is left out exactly when all positive fees are in that currency |
| FeeExtraction.LargerFeeLeftOut | packages/exchange/src/exchange-adapter.ts:425-431 | Two fees, the larger of which is in the currency that is not returned |
| FeeExtraction.ListedTwiceCountsTwice | packages/exchange/src/exchange-adapter.ts:395-418 | Trades that list their fee both ways give twice their fees |

## Left out

- Rounding: amounts are exact reals; binary floating point and the `Decimal` columns' scale are not modelled.
- `PositionService` (executions by the normal trading path, dust conversion, residues) and the repair mode of the FIFO audit, which calls it. Runs add the jobs and executions of that path as they come.
- The fee-correction heuristics of `fixIncorrectFees` (lines 805-976) and its SELL branch: tolerance guesses about a single fee.
- Scaling quantities to exchange balances and correcting `position_open` in `sync-with-exchange`: they depend on balances fetched from the exchange.
- `extractFeesFromOrder`: a fallback that parses strings such as `0.001 USDT`.
- Grouping jobs by order, symbol and side before the clustering: one group is modelled.
- Symbol normalisation: orders carry the normalised symbol; its validation is modelled.
- `formatValue` and `formatDate`, which depend on the locale: values come already formatted.
- Exchange, database, queue and HTTP calls, logging, retries and rate limits; failures of single database statements. A rolled back import keeps the auto-increment ids it used.
- Job and execution parts of the audits, and audit corrections given as text (CSV or amounts with a currency).
- The order of object keys that look like integers, the key `__proto__`, and case folding outside ASCII in the sanitising.
- Positions that are not long, and orders without an id in the detection.
- Other relations of a deleted row (grouped jobs, residue transfers), which cascade or are cleared in the schema.
- Runs.RunConserves: covers the endpoints that create fills and the fee sync. When a recomputation keeps the balance is `RecomputeBalance.RecomputeKeepsBalanceIff`; an audit correction writes the quantities it is given, whatever the fills say.
