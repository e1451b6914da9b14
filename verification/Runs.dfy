/** What every run of the endpoints keeps: quantities, fees and profit of
    every position against its fills. */
module Runs {
  import opened Tables
  import opened LedgerModel
  import opened FeeSync
  import opened FeeSyncTotals
  import opened Recompute
  import opened AuditFix

  /** One step of a run.  The first two are what the executor adds: a sale that
      could not be attached, and its executions.  A batch of the fee sync runs under
      any schedule of its tasks, which may be cut short. */
  datatype Op =
    | RecordJob(job: Job)
    | RecordExecution(execution: Execution)
    | Import(account: Account, order: Order, now: int)
    | FixOrphan(jobId: int, alternatives: seq<Alternative>, now: int)
    | Close(position: int, now: int)
    | SyncBatch(tasks: seq<Task>, schedule: seq<nat>)
    | Recompute(position: int, symbol: string, grouped: set<int>)
    | Correct(executionFixes: seq<ExecutionFix>, positionFixes: seq<PositionFix>)

  function Perform(db: Db, op: Op): Db {
    match op
    case RecordJob(job) => db.(jobs := db.jobs[db.nextJob := job], nextJob := db.nextJob + 1)
    case RecordExecution(e) => db.(executions := db.executions[db.nextExecution := e],
                                     nextExecution := db.nextExecution + 1)
    case Import(account, order, now) => ImportOne(db, account, order, now).0
    case FixOrphan(job, alternatives, now) => FixOne(db, job, alternatives, now).0
    case Close(id, now) => CloseBreakeven(db, id, now).0
    case SyncBatch(tasks, schedule) =>
      if Within(schedule, |tasks|) then Interleave(tasks, Start(tasks, db), schedule).db else db
    case Recompute(id, symbol, grouped) => if id in db.positions then RecomputeOne(db, id, symbol, grouped) else db
    case Correct(executionFixes, positionFixes) => FixPositions(FixExecutions(db, executionFixes), positionFixes)
  }

  function Run(db: Db, ops: seq<Op>): Db {
    if ops == [] then db else Perform(Run(db, ops[..|ops| - 1]), ops[|ops| - 1])
  }

  lemma RunNext(db: Db, ops: seq<Op>, op: Op)
    ensures Run(db, ops + [op]) == Perform(Run(db, ops), op)
  {
    assert (ops + [op])[..|ops|] == ops;
  }

  function ImportOps(account: Account, orders: seq<Order>, now: int): seq<Op> {
    seq(|orders|, i requires 0 <= i < |orders| => Import(account, orders[i], now))
  }

  function FixOps(jobs: seq<int>, alternatives: seq<Alternative>, now: int): seq<Op> {
    seq(|jobs|, i requires 0 <= i < |jobs| => FixOrphan(jobs[i], alternatives, now))
  }

  /** A whole import request is the run of its orders, and likewise for a fix request. */
  lemma {:induction false} ImportIsRun(db: Db, account: Account, orders: seq<Order>, now: int)
    ensures ImportAll(db, account, orders, now).0 == Run(db, ImportOps(account, orders, now))
  {
    if orders != [] {
      ImportIsRun(db, account, orders[..|orders| - 1], now);
      var ops := ImportOps(account, orders, now);
      assert ops[..|ops| - 1] == ImportOps(account, orders[..|orders| - 1], now);
    }
  }

  lemma {:induction false} FixIsRun(db: Db, jobs: seq<int>, alternatives: seq<Alternative>, now: int)
    ensures FixAll(db, jobs, alternatives, now).0 == Run(db, FixOps(jobs, alternatives, now))
  {
    if jobs != [] {
      FixIsRun(db, jobs[..|jobs| - 1], alternatives, now);
      var ops := FixOps(jobs, alternatives, now);
      assert ops[..|ops| - 1] == FixOps(jobs[..|jobs| - 1], alternatives, now);
    }
  }

  // ------------------------------------------------------------------
  // Quantities
  // ------------------------------------------------------------------

  /** Rows refer to rows, and ids are below the counters. */
  ghost predicate WellFormed(db: Db) {
    && (forall f <- db.fills :: f.position in db.positions && f.execution in db.executions)
    && (forall p <- db.positions :: 0 < p < db.nextPosition)
    && (forall e <- db.executions :: 0 < e < db.nextExecution && db.executions[e].executedQty >= 0.0)
    && (forall j <- db.jobs :: 0 < j < db.nextJob)
    && db.nextPosition > 0 && db.nextExecution > 0 && db.nextJob > 0
  }

  /** The quantities and the status of a position are those of its fills. */
  ghost predicate Balanced(db: Db, p: int)
    requires p in db.positions
  {
    var r := db.positions[p];
    && r.qtyTotal == FilledQty(db.fills, p, Buy)
    && r.qtyTotal - r.qtyRemaining == FilledQty(db.fills, p, Sell)
    && 0.0 <= r.qtyRemaining <= r.qtyTotal
    && (r.status == Closed <==> r.qtyRemaining <= DUST)
  }

  ghost predicate Conserved(db: Db) {
    WellFormed(db) && forall p <- db.positions :: Balanced(db, p)
  }

  /** The quantities a caller may submit. */
  predicate GoodQuantity(o: Order) {
    if o.side == Buy then o.qty > DUST else o.qty >= 0.0
  }

  /** The steps that move quantities, with the quantities the exchange can report. */
  predicate MovesQuantity(op: Op) {
    match op
    case RecordJob(_) => true
    case RecordExecution(e) => e.executedQty >= 0.0
    case Import(_, o, _) => GoodQuantity(o)
    case FixOrphan(_, _, _) => true
    case Close(_, _) => true
    case _ => false
  }

  /** What an import, a fix and a close have in common: one more SELL fill, and its position reduced by it. */
  ghost predicate SaleStep(db: Db, after: Db, f: Fill, unbooked: real) {
    && f.position in db.positions && f.position in after.positions && f.side == Sell
    && after.fills == db.fills + [f]
    && after.positions == db.positions[f.position := after.positions[f.position]]
    && after.nextPosition == db.nextPosition
    && var p, r := db.positions[f.position], after.positions[f.position];
      && r.qtyTotal == p.qtyTotal && r.priceOpen == p.priceOpen
      && r.qtyRemaining == p.qtyRemaining - f.qty
      && (r.status == Closed <==> r.qtyRemaining <= DUST)
      && r.realizedProfit + r.feesOnSell + unbooked == p.realizedProfit + p.feesOnSell + (f.price - p.priceOpen) * f.qty
  }

  lemma SaleBalance(db: Db, after: Db, f: Fill, unbooked: real)
    requires SaleStep(db, after, f, unbooked)
    requires forall p <- db.positions :: Balanced(db, p)
    ensures (forall p <- after.positions :: Balanced(after, p)) <==>
            0.0 <= after.positions[f.position].qtyRemaining <= after.positions[f.position].qtyTotal
  {
    forall p | p in db.positions
      ensures Balanced(after, p) <==>
              (p != f.position || 0.0 <= after.positions[p].qtyRemaining <= after.positions[p].qtyTotal)
    {
      Append(db.fills, f, p, Buy, 0.0, 0);
      Append(db.fills, f, p, Sell, 0.0, 0);
    }
  }

  lemma SaleProfit(db: Db, after: Db, f: Fill, unbooked: real, p: int, before: real)
    requires SaleStep(db, after, f, unbooked) && p in db.positions && Profitable(db, p, before)
    ensures Profitable(after, p, before + if p == f.position then unbooked else 0.0)
  {
    Append(db.fills, f, p, Sell, db.positions[p].priceOpen, 0);
  }

  /** What a BUY import does: a new position with one fill. */
  ghost predicate OpeningStep(db: Db, after: Db, f: Fill, o: Order) {
    && f.position == db.nextPosition && f.position in after.positions && f.side == Buy && f.qty == o.qty
    && f.price == after.positions[f.position].priceOpen == o.price
    && after.fills == db.fills + [f]
    && after.positions == db.positions[f.position := after.positions[f.position]]
    && after.nextPosition == db.nextPosition + 1
    && var r := after.positions[f.position];
      && r.qtyTotal == r.qtyRemaining == o.qty && r.status == Open
      && r.realizedProfit == r.feesOnSell == 0.0
  }

  lemma OpeningBalance(db: Db, after: Db, f: Fill, o: Order)
    requires OpeningStep(db, after, f, o) && WellFormed(db)
    requires forall p <- db.positions :: Balanced(db, p)
    ensures (forall p <- after.positions :: Balanced(after, p)) <==> o.qty > DUST
  {
    NoFillsNoSums(db.fills, f.position);
    forall p | p in after.positions
      ensures Balanced(after, p) <==> p != f.position || o.qty > DUST
    {
      Append(db.fills, f, p, Buy, 0.0, 0);
      Append(db.fills, f, p, Sell, 0.0, 0);
    }
    assert Balanced(after, f.position) <==> o.qty > DUST;
  }

  lemma OpeningProfit(db: Db, after: Db, f: Fill, o: Order, p: int, before: real)
    requires OpeningStep(db, after, f, o) && Linked(db) && p in after.positions
    requires if p in db.positions then Profitable(db, p, before) else before == 0.0
    ensures Profitable(after, p, before)
  {
    if p !in db.positions {
      NoFillsNoSums(db.fills, p);
    }
    Append(db.fills, f, p, Sell, after.positions[p].priceOpen, 0);
  }

  lemma ImportStep(db: Db, account: Account, o: Order, now: int)
    requires ImportOne(db, account, o, now).1
    ensures
      var after := ImportOne(db, account, o, now).0;
      && |after.fills| == |db.fills| + 1
      && var f := after.fills[|db.fills|];
        && f.execution == db.nextExecution
        && (if o.side == Buy then OpeningStep(db, after, f, o)
            else f.position == o.positionId.value && SaleStep(db, after, f, o.fee))
        && after.executions == db.executions[db.nextExecution := ImportExecution(account, o, db.nextJob)]
        && after.jobs == db.jobs[db.nextJob := ImportJob(account, o, now)]
        && after.nextExecution == db.nextExecution + 1 && after.nextJob == db.nextJob + 1
        && (o.side == Sell ==> f.qty == Min(db.positions[f.position].qtyRemaining, o.qty))
  {
  }

  lemma FixStep(db: Db, job: int, alternatives: seq<Alternative>, now: int)
    requires FixOne(db, job, alternatives, now).1.Fixed?
    ensures
      var after := FixOne(db, job, alternatives, now).0;
      && |after.fills| == |db.fills| + 1
      && var f := after.fills[|db.fills|];
        && SaleStep(db, after, f, 0.0)
        && LatestExecution(db.executions, job, db.nextExecution) == Some(f.execution)
        && f.qty == Min(db.positions[f.position].qtyRemaining, db.executions[f.execution].executedQty)
        && after.executions == db.executions && after.nextExecution == db.nextExecution
        && job in db.jobs && after.nextJob == db.nextJob
        && after.jobs == db.jobs[job := db.jobs[job].(positionToClose := Some(f.position),
                                                    status := Filled, reason := ManuallyFixed)]
  {
  }

  lemma CloseStep(db: Db, id: int, now: int)
    requires CloseBreakeven(db, id, now).1.ClosedBy?
    ensures
      var after := CloseBreakeven(db, id, now).0;
      && |after.fills| == |db.fills| + 1
      && var f := after.fills[|db.fills|];
        && f.position == id && f.qty == db.positions[id].qtyRemaining && f.execution == db.nextExecution
        && SaleStep(db, after, f, 0.0)
        && after.executions == db.executions[db.nextExecution :=
                                                    BreakevenExecution(db.positions[id], id, db.nextJob, now)]
        && after.jobs == db.jobs[db.nextJob := BreakevenJob(db.positions[id], id, now)]
        && after.nextExecution == db.nextExecution + 1 && after.nextJob == db.nextJob + 1
  {
  }

  /** An accepted order keeps the ledger conserved exactly when its quantity is one the exchange can report. */
  lemma ImportConserves(db: Db, account: Account, o: Order, now: int)
    requires Conserved(db)
    ensures ImportOne(db, account, o, now).1 ==> (Conserved(ImportOne(db, account, o, now).0) <==> GoodQuantity(o))
    ensures !ImportOne(db, account, o, now).1 ==> Conserved(ImportOne(db, account, o, now).0)
  {
    var (after, ok) := ImportOne(db, account, o, now);
    if !ok {
      assert forall p <- db.positions :: Balanced(after, p) <==> Balanced(db, p);
    } else {
      ImportStep(db, account, o, now);
      ImportedConserves(db, after, account, o, now);
    }
  }

  lemma ImportedConserves(db: Db, after: Db, account: Account, o: Order, now: int)
    requires Conserved(db) && |after.fills| == |db.fills| + 1
    requires
      var f := after.fills[|db.fills|];
      && f.execution == db.nextExecution
      && (if o.side == Buy then OpeningStep(db, after, f, o)
          else f.position in db.positions && SaleStep(db, after, f, o.fee))
      && (o.side == Sell ==> f.qty == Min(db.positions[f.position].qtyRemaining, o.qty))
    requires after.executions == db.executions[db.nextExecution := ImportExecution(account, o, db.nextJob)]
    requires after.jobs == db.jobs[db.nextJob := ImportJob(account, o, now)]
    requires after.nextExecution == db.nextExecution + 1 && after.nextJob == db.nextJob + 1
    ensures Conserved(after) <==> GoodQuantity(o)
  {
    var f := after.fills[|db.fills|];
    ImportedIsWellFormed(db, after, account, o);
    if o.side == Buy {
      OpeningBalance(db, after, f, o);
    } else {
      SaleBalance(db, after, f, o.fee);
      assert Balanced(db, f.position);
    }
  }

  lemma ImportedIsWellFormed(db: Db, after: Db, account: Account, o: Order)
    requires WellFormed(db) && |after.fills| == |db.fills| + 1
    requires
      var f := after.fills[|db.fills|];
      && f.execution == db.nextExecution
      && (if o.side == Buy then OpeningStep(db, after, f, o)
          else f.position in db.positions && SaleStep(db, after, f, o.fee))
    requires after.executions == db.executions[db.nextExecution := ImportExecution(account, o, db.nextJob)]
    requires after.jobs.Keys == db.jobs.Keys + {db.nextJob}
    requires after.nextExecution == db.nextExecution + 1 && after.nextJob == db.nextJob + 1
    ensures WellFormed(after) <==> o.qty >= 0.0
  {
    assert db.nextExecution in after.executions && after.executions[db.nextExecution].executedQty == o.qty;
  }

  lemma FixConserves(db: Db, job: int, alternatives: seq<Alternative>, now: int)
    requires Conserved(db)
    ensures Conserved(FixOne(db, job, alternatives, now).0)
  {
    var (after, r) := FixOne(db, job, alternatives, now);
    if r.Fixed? {
      FixStep(db, job, alternatives, now);
      assert Balanced(db, after.fills[|db.fills|].position);
      SaleBalance(db, after, after.fills[|db.fills|], 0.0);
    }
  }

  lemma CloseConserves(db: Db, id: int, now: int)
    requires Conserved(db)
    ensures Conserved(CloseBreakeven(db, id, now).0)
  {
    var (after, r) := CloseBreakeven(db, id, now);
    if r.ClosedBy? {
      CloseStep(db, id, now);
      assert Balanced(db, id);
      SaleBalance(db, after, after.fills[|db.fills|], 0.0);
    }
  }

  /** A batch of the fee sync keeps the balance under every schedule: it writes no quantity and no status. */
  lemma BatchConserves(tasks: seq<Task>, db: Db, schedule: seq<nat>)
    requires Conserved(db) && Within(schedule, |tasks|) && forall t <- tasks :: t.row.executedQty >= 0.0
    ensures Conserved(Interleave(tasks, Start(tasks, db), schedule).db)
  {
    var after := Interleave(tasks, Start(tasks, db), schedule).db;
    BatchKeepsProfit(tasks, db, schedule);
    ScheduleKeepsExecutions(tasks, Start(tasks, db), schedule);
    forall p | p in after.positions
      ensures Balanced(after, p)
    {
      assert SameButFees(db.positions[p], after.positions[p]) && Balanced(db, p);
    }
  }

  /** The steps that keep the balance: those that move quantities, and the fee syncs. */
  predicate KeepsBalance(op: Op) {
    MovesQuantity(op) || (op.SyncBatch? && forall t <- op.tasks :: t.row.executedQty >= 0.0)
  }

  lemma StepConserves(db: Db, op: Op)
    requires Conserved(db) && KeepsBalance(op)
    ensures Conserved(Perform(db, op))
  {
    match op
    case Import(account, o, now) => ImportConserves(db, account, o, now);
    case FixOrphan(job, alternatives, now) => FixConserves(db, job, alternatives, now);
    case Close(id, now) => CloseConserves(db, id, now);
    case SyncBatch(tasks, schedule) =>
      if Within(schedule, |tasks|) {
        BatchConserves(tasks, db, schedule);
      }
    case RecordJob(_) => assert forall p <- db.positions :: Balanced(Perform(db, op), p) <==> Balanced(db, p);
    case RecordExecution(_) => assert forall p <- db.positions :: Balanced(Perform(db, op), p) <==> Balanced(db, p);
  }

  /** Main result: from an empty ledger, every run of imports, orphan fixes, break-even closes and fee syncs
      keeps the quantities and the status of every position equal to what its fills say. */
  lemma {:induction false} RunConserves(ops: seq<Op>)
    requires forall op <- ops :: KeepsBalance(op)
    ensures Conserved(Run(EMPTY_DB, ops))
  {
    if ops == [] {
    } else {
      var before, op := ops[..|ops| - 1], ops[|ops| - 1];
      RunConserves(before);
      assert op in ops;
      StepConserves(Run(EMPTY_DB, before), op);
    }
  }

  // ------------------------------------------------------------------
  // Profit
  // ------------------------------------------------------------------

  /** What a step charges to a position's profit without entering it in the fee columns. */
  function StepUnbooked(db: Db, op: Op, p: int): real {
    match op
    case Import(account, o, now) =>
      if ImportOne(db, account, o, now).1 && o.side == Sell && o.positionId == Some(p) then o.fee else 0.0
    case _ => 0.0
  }

  function Unbooked(ops: seq<Op>, p: int): real {
    if ops == [] then 0.0
    else
      var before := ops[..|ops| - 1];
      Unbooked(before, p) + StepUnbooked(Run(EMPTY_DB, before), ops[|ops| - 1], p)
  }

  predicate MovesProfit(op: Op) {
    MovesQuantity(op) || op.SyncBatch?
  }

  ghost predicate Profitable(db: Db, p: int, unbooked: real)
    requires p in db.positions
  {
    var r := db.positions[p];
    r.realizedProfit + r.feesOnSell + unbooked == GrossProfit(db.fills, p, r.priceOpen)
  }

  /** Rows refer to rows; unlike `WellFormed` it asks nothing of quantities. */
  ghost predicate Linked(db: Db) {
    && (forall f <- db.fills :: f.position in db.positions)
    && (forall p <- db.positions :: 0 < p < db.nextPosition)
    && db.nextPosition > 0
  }

  /** Every purchase was made at the opening price of its position. */
  ghost predicate PricesPaid(db: Db) {
    forall f <- db.fills ::
      f.side == Buy && f.position in db.positions ==> f.price == db.positions[f.position].priceOpen
  }

  lemma {:induction false} CleanedFrom(table: seq<Fill>, position: int, mine: seq<Fill>, known: map<int, Execution>)
    ensures forall g <- CleanTable(table, position, mine, known) ::
      exists f :: f in table && f.position == g.position && f.side == g.side && f.price == g.price
  {
    if table != [] {
      CleanedFrom(table[..|table| - 1], position, mine, known);
      forall g | g in CleanTable(table, position, mine, known)
        ensures exists f :: f in table && f.position == g.position && f.side == g.side && f.price == g.price
      {
        if g !in CleanTable(table[..|table| - 1], position, mine, known) {
          var f := table[|table| - 1];
          assert f in table && f.position == g.position && f.side == g.side && f.price == g.price;
        }
      }
    }
  }

  lemma {:induction false} CorrectionsKeepPrices(db: Db, fixes: seq<PositionFix>)
    ensures
      var after := FixPositions(db, fixes);
      && after == db.(positions := after.positions) && after.positions.Keys == db.positions.Keys
      && forall p <- db.positions :: after.positions[p].priceOpen == db.positions[p].priceOpen
  {
    if fixes != [] {
      CorrectionsKeepPrices(db, fixes[..|fixes| - 1]);
    }
  }

  lemma RecomputeKeepsLinks(db: Db, id: int, symbol: string, grouped: set<int>)
    requires Linked(db) && PricesPaid(db) && id in db.positions
    ensures Linked(RecomputeOne(db, id, symbol, grouped)) && PricesPaid(RecomputeOne(db, id, symbol, grouped))
  {
    CleanedFrom(db.fills, id, FillsOf(db.fills, id), KnownExecutions(db, db.positions[id], grouped));
  }

  lemma StepKeepsLinks(db: Db, op: Op)
    requires Linked(db) && PricesPaid(db)
    ensures Linked(Perform(db, op)) && PricesPaid(Perform(db, op))
    ensures db.positions.Keys <= Perform(db, op).positions.Keys
  {
    match op
    case SyncBatch(tasks, schedule) =>
      if Within(schedule, |tasks|) {
        BatchKeepsProfit(tasks, db, schedule);
      }
    case Recompute(id, symbol, grouped) =>
      if id in db.positions {
        RecomputeKeepsLinks(db, id, symbol, grouped);
      }
    case Correct(executionFixes, positionFixes) =>
      ExecutionFixesKeepPositions(db, executionFixes);
      CorrectionsKeepPrices(FixExecutions(db, executionFixes), positionFixes);
    case Import(account, o, now) => ImportKeepsLinks(db, account, o, now);
    case _ =>
  }

  lemma ImportKeepsLinks(db: Db, account: Account, o: Order, now: int)
    requires Linked(db) && PricesPaid(db)
    ensures Linked(ImportOne(db, account, o, now).0) && PricesPaid(ImportOne(db, account, o, now).0)
    ensures db.positions.Keys <= ImportOne(db, account, o, now).0.positions.Keys
  {
    if ImportOne(db, account, o, now).1 {
      ImportStep(db, account, o, now);
    }
  }

  /** Main result: over every run of all the endpoints every purchase was made at the opening price of its
      position. */
  lemma {:induction false} RunKeepsOpeningPrices(ops: seq<Op>)
    ensures Linked(Run(EMPTY_DB, ops)) && PricesPaid(Run(EMPTY_DB, ops))
  {
    if ops == [] {
    } else {
      RunKeepsOpeningPrices(ops[..|ops| - 1]);
      StepKeepsLinks(Run(EMPTY_DB, ops[..|ops| - 1]), ops[|ops| - 1]);
    }
  }

  lemma {:induction false} GrossIsTurnover(fills: seq<Fill>, p: int, price: real)
    ensures GrossProfit(fills, p, price) == Turnover(fills, p, Sell) - Worth(price, FilledQty(fills, p, Sell))
  {
    if fills != [] {
      var f, rest := fills[|fills| - 1], fills[..|fills| - 1];
      GrossIsTurnover(rest, p, price);
      if f.position == p && f.side == Sell {
        WorthOfBoth(price, FilledQty(rest, p, Sell), f.qty);
        assert (f.price - price) * f.qty == Worth(f.price, f.qty) - Worth(price, f.qty);
      }
    }
  }

  lemma WorthOfBoth(price: real, a: real, b: real)
    ensures Worth(price, a + b) == Worth(price, a) + Worth(price, b)
  {
  }

  lemma {:induction false} PaidAtOnePrice(fills: seq<Fill>, p: int, price: real)
    requires forall f <- fills :: f.position == p && f.side == Buy ==> f.price == price
    ensures Turnover(fills, p, Buy) == Worth(price, FilledQty(fills, p, Buy))
  {
    if fills != [] {
      var f, rest := fills[|fills| - 1], fills[..|fills| - 1];
      assert f in fills && forall g <- rest :: g in fills;
      PaidAtOnePrice(rest, p, price);
      if f.position == p && f.side == Buy {
        WorthOfBoth(price, FilledQty(rest, p, Buy), f.qty);
      }
    }
  }

  lemma StepKeepsProfit(db: Db, op: Op, p: int, unbooked: real)
    requires Linked(db) && MovesProfit(op) && p in Perform(db, op).positions
    requires if p in db.positions then Profitable(db, p, unbooked) else unbooked == 0.0
    ensures Profitable(Perform(db, op), p, unbooked + StepUnbooked(db, op, p))
  {
    match op
    case SyncBatch(tasks, schedule) =>
      if Within(schedule, |tasks|) {
        BatchKeepsProfit(tasks, db, schedule);
        assert SameButFees(db.positions[p], Perform(db, op).positions[p]);
      }
    case Import(account, o, now) =>
      var (after, ok) := ImportOne(db, account, o, now);
      if ok {
        ImportStep(db, account, o, now);
        if o.side == Buy {
          OpeningProfit(db, after, after.fills[|db.fills|], o, p, unbooked);
        } else {
          SaleProfit(db, after, after.fills[|db.fills|], o.fee, p, unbooked);
        }
      }
    case FixOrphan(job, alternatives, now) =>
      var (after, r) := FixOne(db, job, alternatives, now);
      if r.Fixed? {
        FixStep(db, job, alternatives, now);
        SaleProfit(db, after, after.fills[|db.fills|], 0.0, p, unbooked);
      }
    case Close(id, now) =>
      var (after, r) := CloseBreakeven(db, id, now);
      if r.ClosedBy? {
        CloseStep(db, id, now);
        SaleProfit(db, after, after.fills[|db.fills|], 0.0, p, unbooked);
      }
    case RecordJob(_) =>
    case RecordExecution(_) =>
  }

  lemma {:induction false} UnbookedOnPositions(ops: seq<Op>)
    ensures forall p :: p !in Run(EMPTY_DB, ops).positions ==> Unbooked(ops, p) == 0.0
  {
    if ops == [] {
    } else {
      var before, op := ops[..|ops| - 1], ops[|ops| - 1];
      UnbookedOnPositions(before);
      RunKeepsOpeningPrices(before);
      StepKeepsLinks(Run(EMPTY_DB, before), op);
    }
  }

  /** Over every run, fee syncs included, a position's realised profit, plus the SELL fees on its books, plus
      the fees its imported sales were charged off the books, is the gross profit of its SELL fills. */
  lemma {:induction false} RunKeepsGrossProfit(ops: seq<Op>, p: int)
    requires (forall op <- ops :: MovesProfit(op)) && p in Run(EMPTY_DB, ops).positions
    ensures Profitable(Run(EMPTY_DB, ops), p, Unbooked(ops, p))
  {
    if ops == [] {
    } else {
      var before, op := ops[..|ops| - 1], ops[|ops| - 1];
      UnbookedOnPositions(before);
      RunKeepsOpeningPrices(before);
      var db := Run(EMPTY_DB, before);
      assert op in ops;
      if p in db.positions {
        RunKeepsGrossProfit(before, p);
      }
      StepKeepsProfit(db, op, p, Unbooked(before, p));
    }
  }

  /** What the books of a position and the fees off them say it earned. */
  function Gain(ops: seq<Op>, p: int): real
    requires p in Run(EMPTY_DB, ops).positions
  {
    var r := Run(EMPTY_DB, ops).positions[p];
    r.realizedProfit + r.feesOnSell + Unbooked(ops, p)
  }

  /** Main result: that is what its sales brought, less their quantity at the price of its purchase. */
  lemma RunKeepsProfit(ops: seq<Op>, bought: Fill)
    requires forall op <- ops :: MovesProfit(op)
    requires bought in Run(EMPTY_DB, ops).fills && bought.side == Buy
    ensures
      var fills, p := Run(EMPTY_DB, ops).fills, bought.position;
      && p in Run(EMPTY_DB, ops).positions
      && Gain(ops, p) == Turnover(fills, p, Sell) - Worth(bought.price, FilledQty(fills, p, Sell))
  {
    var db, p := Run(EMPTY_DB, ops), bought.position;
    RunKeepsOpeningPrices(ops);
    RunKeepsGrossProfit(ops, p);
    assert Gain(ops, p) == GrossProfit(db.fills, p, bought.price);
    GrossIsTurnover(db.fills, p, bought.price);
  }

  /** Main result: a position that is sold out earned what its sales brought less what was paid for it. */
  lemma SoldOutProfit(ops: seq<Op>, p: int)
    requires (forall op <- ops :: MovesProfit(op)) && p in Run(EMPTY_DB, ops).positions
    requires FilledQty(Run(EMPTY_DB, ops).fills, p, Sell) == FilledQty(Run(EMPTY_DB, ops).fills, p, Buy)
    ensures Gain(ops, p) == Turnover(Run(EMPTY_DB, ops).fills, p, Sell) - Turnover(Run(EMPTY_DB, ops).fills, p, Buy)
  {
    var db := Run(EMPTY_DB, ops);
    var price := db.positions[p].priceOpen;
    RunKeepsOpeningPrices(ops);
    RunKeepsGrossProfit(ops, p);
    assert Gain(ops, p) == GrossProfit(db.fills, p, price);
    GrossIsTurnover(db.fills, p, price);
    PaidAtOnePrice(db.fills, p, price);
  }

  /** The books of a position, profit plus SELL fees, show its gross profit exactly when the fees of the
      sales imported onto it cancel out: an import charges its fee to the profit alone. */
  lemma BooksShowGrossProfitIff(ops: seq<Op>, p: int)
    requires (forall op <- ops :: MovesProfit(op)) && p in Run(EMPTY_DB, ops).positions
    ensures
      var db := Run(EMPTY_DB, ops);
      var r := db.positions[p];
      r.realizedProfit + r.feesOnSell == GrossProfit(db.fills, p, r.priceOpen) <==> Unbooked(ops, p) == 0.0
  {
    RunKeepsGrossProfit(ops, p);
  }

  /** Such a run: two units are bought, and one is sold by an import that charges a fee of 1. */
  lemma ImportedFeeIsOffTheBooks(account: Account, now: int)
    ensures
      var bought := Order("b", "BTCUSDT", Buy, 2.0, 10.0, 20.0, 0.0, "USDT", now, None);
      var sold := Order("s", "BTCUSDT", Sell, 1.0, 10.0, 10.0, 1.0, "USDT", now, Some(1));
      var ops := [Import(account, bought, now), Import(account, sold, now)];
      && (forall op <- ops :: MovesProfit(op)) && 1 in Run(EMPTY_DB, ops).positions
      && Unbooked(ops, 1) == 1.0
  {
    var bought := Order("b", "BTCUSDT", Buy, 2.0, 10.0, 20.0, 0.0, "USDT", now, None);
    var sold := Order("s", "BTCUSDT", Sell, 1.0, 10.0, 10.0, 1.0, "USDT", now, Some(1));
    var ops := [Import(account, bought, now), Import(account, sold, now)];
    assert ops[..1] == [Import(account, bought, now)] && ops[..1][..0] == [];
    assert Run(EMPTY_DB, ops[..1]) == ImportOne(EMPTY_DB, account, bought, now).0;
    assert IsValidSymbol("BTCUSDT") && Acceptable(sold);
    assert Unbooked(ops[..1], 1) == 0.0;
    assert ImportOne(Run(EMPTY_DB, ops[..1]), account, sold, now).1;
  }

  // ------------------------------------------------------------------
  // Fee totals
  // ------------------------------------------------------------------

  /** The step is no batch of the fee sync in which a BUY and a SELL change a row that the other reads. */
  ghost predicate KeepsFees(db: Db, op: Op) {
    op.SyncBatch? ==> Unmixed(op.tasks, db)
  }

  lemma StepKeepsFees(db: Db, op: Op)
    requires FeesAddUp(db) && KeepsFees(db, op)
    ensures FeesAddUp(Perform(db, op))
  {
    match op
    case SyncBatch(tasks, schedule) =>
      if Within(schedule, |tasks|) {
        UnmixedKeepsTotals(tasks, db, schedule);
      }
    case Correct(executionFixes, fixes) =>
      ExecutionFixesKeepPositions(db, executionFixes);
      FixesKeepFees(FixExecutions(db, executionFixes), fixes);
    case _ =>
  }

  lemma {:induction false} FixesKeepFees(db: Db, fixes: seq<PositionFix>)
    requires FeesAddUp(db)
    ensures FeesAddUp(FixPositions(db, fixes))
  {
    if fixes != [] {
      FixesKeepFees(db, fixes[..|fixes| - 1]);
    }
  }

  /** No step of the run is a mixed batch. */
  ghost predicate UnmixedRun(ops: seq<Op>) {
    if ops == [] then true
    else
      var before := ops[..|ops| - 1];
      UnmixedRun(before) && KeepsFees(Run(EMPTY_DB, before), ops[|ops| - 1])
  }

  /** Main result: every run of all the endpoints without a mixed batch keeps total fees equal to BUY fees
      plus SELL fees. */
  lemma {:induction false} RunKeepsFeeTotals(ops: seq<Op>)
    requires UnmixedRun(ops)
    ensures FeesAddUp(Run(EMPTY_DB, ops))
  {
    if ops == [] {
    } else {
      RunKeepsFeeTotals(ops[..|ops| - 1]);
      StepKeepsFees(Run(EMPTY_DB, ops[..|ops| - 1]), ops[|ops| - 1]);
    }
  }

  /** Main result: after such a run, a batch with any tasks keeps the totals under every complete schedule if
      and only if it is not mixed: the hypothesis cannot be weakened. */
  lemma NextBatchKeepsTotalsIff(ops: seq<Op>, tasks: seq<Task>)
    requires UnmixedRun(ops)
    ensures
      (forall schedule ::
         Within(schedule, |tasks|) && AllDone(Interleave(tasks, Start(tasks, Run(EMPTY_DB, ops)), schedule)) ==>
         FeesAddUp(Run(EMPTY_DB, ops + [SyncBatch(tasks, schedule)])))
      <==> Unmixed(tasks, Run(EMPTY_DB, ops))
  {
    var db := Run(EMPTY_DB, ops);
    RunKeepsFeeTotals(ops);
    BatchKeepsTotalsIff(tasks, db);
    forall schedule: seq<nat> | Within(schedule, |tasks|)
      ensures Run(EMPTY_DB, ops + [SyncBatch(tasks, schedule)]) == Interleave(tasks, Start(tasks, db), schedule).db
    {
      RunNext(EMPTY_DB, ops, SyncBatch(tasks, schedule));
    }
  }
}
