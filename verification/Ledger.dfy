/** The endpoints that create fills: importing orders found on the exchange,
    attaching orphaned sales, and closing a position at break-even.

    Each is a method of `Ledger`, which changes the tables statement by
    statement, proved against a function from one table snapshot to the next. */
module LedgerModel {
  import opened Tables

  /** One order of the import request; `symbol` is the normalised symbol. */
  datatype Order = Order(
    orderId: string, symbol: string, side: Side, qty: real, price: real, cost: real,
    fee: real, feeCurrency: string, timestamp: int, positionId: Option<int>)

  /** `^[A-Z0-9]{4,}$` */
  predicate IsValidSymbol(symbol: string) {
    |symbol| >= 4 && forall c <- symbol :: 'A' <= c <= 'Z' || '0' <= c <= '9'
  }

  datatype Alternative = Alternative(job: int, position: int)

  datatype FixResult =
    | Fixed(job: int, position: int, qtyFixed: real)
    | NeedsAlternative(job: int)
    | NotFixed(job: int)

  datatype CloseResult = BadRequest | NotFound | NotOpen | NothingLeft | ClosedBy(job: int, execution: int)

  // ------------------------------------------------------------------
  // Importing orders
  // ------------------------------------------------------------------

  /** The checks made before the import transaction starts. */
  predicate Acceptable(o: Order) {
    IsValidSymbol(o.symbol) && (o.side == Sell ==> o.positionId.Some? && o.positionId.value > 0)
  }

  function ImportJob(account: Account, o: Order, now: int): Job {
    Job(account.id, !account.simulated, o.symbol, o.side, o.qty, Filled, Imported,
        if o.side == Sell then o.positionId else None, now)
  }

  function ImportExecution(account: Account, o: Order, job: int): Execution {
    Execution(job, account.id, !account.simulated, ExchangeOrder(o.orderId), o.qty, o.price, o.cost,
              Some(o.fee), Some(o.feeCurrency), None, o.timestamp)
  }

  function OpenedPosition(account: Account, o: Order, job: int): Position {
    Position(account.id, !account.simulated, o.symbol, job, o.qty, o.qty, o.price, Open,
             0.0, 0.0, 0.0, 0.0, None, None, o.timestamp)
  }

  /** The sold position after the import: the fee is taken from the profit but not added to the fee columns. */
  function SoldByImport(p: Position, o: Order): Position {
    var qty := Min(p.qtyRemaining, o.qty);
    var closed := p.qtyRemaining - qty <= DUST;
    p.(qtyRemaining := p.qtyRemaining - qty,
       status := if closed then Closed else Open,
       realizedProfit := p.realizedProfit + ((o.price - p.priceOpen) * qty - o.fee),
       closeReason := if closed then Some(ByImport) else None,
       closedAt := if closed then Some(o.timestamp) else None)
  }

  /** One order; a failure inside the transaction leaves every row as it was but uses up ids. */
  function ImportOne(db: Db, account: Account, o: Order, now: int): (r: (Db, bool)) {
    if !Acceptable(o) then (db, false)
    else
      var burned := db.(nextJob := db.nextJob + 1, nextExecution := db.nextExecution + 1);
      if o.side == Sell && o.positionId.value !in db.positions then (burned, false)
      else
        var job, exec := db.nextJob, db.nextExecution;
        var recorded := burned.(jobs := db.jobs[job := ImportJob(account, o, now)],
                                executions := db.executions[exec := ImportExecution(account, o, job)],
                                nextFill := db.nextFill + 1);
        if o.side == Buy then
          (recorded.(positions := db.positions[db.nextPosition := OpenedPosition(account, o, job)],
                     fills := db.fills + [Fill(db.nextFill, db.nextPosition, exec, Buy, o.qty, o.price, now)],
                     nextPosition := db.nextPosition + 1), true)
        else
          var id := o.positionId.value;
          var p := db.positions[id];
          (recorded.(positions := db.positions[id := SoldByImport(p, o)],
                     fills := db.fills + [Fill(db.nextFill, id, exec, Sell, Min(p.qtyRemaining, o.qty), o.price, now)]),
           true)
  }

  /** The whole request, with the outcome of every order. */
  function ImportAll(db: Db, account: Account, orders: seq<Order>, now: int): (Db, seq<bool>) {
    if orders == [] then (db, [])
    else
      var (before, done) := ImportAll(db, account, orders[..|orders| - 1], now);
      var (after, ok) := ImportOne(before, account, orders[|orders| - 1], now);
      (after, done + [ok])
  }

  // ------------------------------------------------------------------
  // Attaching orphaned sales
  // ------------------------------------------------------------------

  /** `alternativePositions?.find(alt => alt.jobId === jobId)` */
  function AlternativeFor(alternatives: seq<Alternative>, job: int): (a: Option<int>)
    ensures a.Some? <==> exists alt :: alt in alternatives && alt.job == job
  {
    if alternatives == [] then None
    else if alternatives[0].job == job then Some(alternatives[0].position)
    else AlternativeFor(alternatives[1..], job)
  }

  function FindPosition(db: Db, id: Option<int>): Option<int> {
    if id.Some? && id.value in db.positions then id else None
  }

  datatype Target = Attach(position: int) | Ask | Refuse

  /** Which position an orphaned job is attached to, or why none is. */
  function TargetOf(db: Db, job: int, alternatives: seq<Alternative>): (t: Target)
    ensures t.Attach? ==>
      && job in db.jobs && LatestExecution(db.executions, job, db.nextExecution).Some?
      && t.position in db.positions && db.positions[t.position].status == Open
  {
    if job !in db.jobs || LatestExecution(db.executions, job, db.nextExecution).None? then Refuse
    else
      var alternative := AlternativeFor(alternatives, job);
      var original := FindPosition(db, db.jobs[job].positionToClose);
      var first := if original.Some? then original else FindPosition(db, alternative);
      if first.Some? && db.positions[first.value].status == Closed && alternative.None? then Ask
      else
        var second :=
          if first.Some? && db.positions[first.value].status == Closed
          then FindPosition(db, alternative)
          else first;
        if second.None? then Refuse
        else if db.positions[second.value].status == Open then Attach(second.value)
        else Ask
  }

  /** The position after the sale is attached: here the fee does enter the fee columns. */
  function SoldByFix(p: Position, e: Execution, now: int): Position {
    var qty := Min(p.qtyRemaining, e.executedQty);
    var fee := e.feeAmount.GetOr(0.0);
    var closed := p.qtyRemaining - qty <= DUST;
    p.(qtyRemaining := p.qtyRemaining - qty,
       status := if closed then Closed else Open,
       realizedProfit := p.realizedProfit + ((e.avgPrice - p.priceOpen) * qty - fee),
       feesOnSell := p.feesOnSell + fee,
       totalFees := p.totalFees + fee,
       closeReason := if closed then Some(ByManualFix) else p.closeReason,
       closedAt := if closed then Some(now) else p.closedAt)
  }

  function FixOne(db: Db, job: int, alternatives: seq<Alternative>, now: int): (r: (Db, FixResult)) {
    match TargetOf(db, job, alternatives)
    case Refuse => (db, NotFixed(job))
    case Ask => (db, NeedsAlternative(job))
    case Attach(id) =>
      var exec := LatestExecution(db.executions, job, db.nextExecution).value;
      var e, p := db.executions[exec], db.positions[id];
      (db.(positions := db.positions[id := SoldByFix(p, e, now)],
           fills := db.fills + [Fill(db.nextFill, id, exec, Sell, Min(p.qtyRemaining, e.executedQty), e.avgPrice, now)],
           jobs := db.jobs[job := db.jobs[job].(positionToClose := Some(id),
                                            status := Filled, reason := ManuallyFixed)],
           nextFill := db.nextFill + 1),
       Fixed(job, id, e.executedQty))
  }

  function FixAll(db: Db, jobs: seq<int>, alternatives: seq<Alternative>, now: int): (Db, seq<FixResult>) {
    if jobs == [] then (db, [])
    else
      var (before, done) := FixAll(db, jobs[..|jobs| - 1], alternatives, now);
      var (after, r) := FixOne(before, jobs[|jobs| - 1], alternatives, now);
      (after, done + [r])
  }

  // ------------------------------------------------------------------
  // Closing at break-even
  // ------------------------------------------------------------------

  /** The fictitious sale at the opening price. */
  function BreakevenJob(p: Position, id: int, now: int): Job {
    Job(p.account, p.live, p.symbol, Sell, p.qtyRemaining, Filled, DebugBreakeven, Some(id), now)
  }

  function BreakevenExecution(p: Position, id: int, job: int, now: int): Execution {
    Execution(job, p.account, p.live, BreakevenOrder(now, id), p.qtyRemaining, p.priceOpen,
              p.qtyRemaining * p.priceOpen, Some(0.0), None, None, now)
  }

  function ClosedAtBreakeven(p: Position, now: int): Position {
    p.(qtyRemaining := 0.0, status := Closed, closedAt := Some(now), closeReason := Some(ByBreakeven))
  }

  function CloseBreakeven(db: Db, id: int, now: int): (r: (Db, CloseResult)) {
    if id <= 0 then (db, BadRequest)
    else if id !in db.positions then (db, NotFound)
    else if db.positions[id].status != Open then (db, NotOpen)
    else if db.positions[id].qtyRemaining <= 0.0 then (db, NothingLeft)
    else
      var p := db.positions[id];
      var job, exec := db.nextJob, db.nextExecution;
      (db.(jobs := db.jobs[job := BreakevenJob(p, id, now)],
           executions := db.executions[exec := BreakevenExecution(p, id, job, now)],
           positions := db.positions[id := ClosedAtBreakeven(p, now)],
           fills := db.fills + [Fill(db.nextFill, id, exec, Sell, p.qtyRemaining, p.priceOpen, now)],
           nextJob := job + 1, nextExecution := exec + 1, nextFill := db.nextFill + 1),
       ClosedBy(job, exec))
  }

  // ------------------------------------------------------------------
  // What the endpoints compute for the position they sell from
  // ------------------------------------------------------------------

  method SellForImport(p: Position, o: Order) returns (qtyToClose: real, sold: Position)
    ensures qtyToClose == Min(p.qtyRemaining, o.qty) && sold == SoldByImport(p, o)
  {
    qtyToClose := Min(p.qtyRemaining, o.qty);
    var grossProfit := (o.price - p.priceOpen) * qtyToClose;
    var netProfit := grossProfit - o.fee;
    var isClosed := p.qtyRemaining - qtyToClose <= DUST;
    sold := p.(
      qtyRemaining := p.qtyRemaining - qtyToClose,
      status := if isClosed then Closed else Open,
      realizedProfit := p.realizedProfit + netProfit,
      closeReason := if isClosed then Some(ByImport) else None,
      closedAt := if isClosed then Some(o.timestamp) else None);
  }

  method SellForFix(p: Position, exec: Execution, now: int) returns (qtyToClose: real, sold: Position)
    ensures qtyToClose == Min(p.qtyRemaining, exec.executedQty) && sold == SoldByFix(p, exec, now)
  {
    qtyToClose := Min(p.qtyRemaining, exec.executedQty);
    var grossProfit := (exec.avgPrice - p.priceOpen) * qtyToClose;
    var feeUsd := exec.feeAmount.GetOr(0.0);
    var netProfit := grossProfit - feeUsd;
    var isClosed := p.qtyRemaining - qtyToClose <= DUST;
    sold := p.(
      qtyRemaining := p.qtyRemaining - qtyToClose,
      status := if isClosed then Closed else Open,
      realizedProfit := p.realizedProfit + netProfit,
      feesOnSell := p.feesOnSell + feeUsd,
      totalFees := p.totalFees + feeUsd,
      closeReason := if isClosed then Some(ByManualFix) else p.closeReason,
      closedAt := if isClosed then Some(now) else p.closedAt);
  }

  // ------------------------------------------------------------------
  // The tables as mutable state
  // ------------------------------------------------------------------

  class Ledger {
    var jobs: map<int, Job>
    var executions: map<int, Execution>
    var positions: map<int, Position>
    var fills: seq<Fill>
    var nextJob: int
    var nextExecution: int
    var nextPosition: int
    var nextFill: int

    function Rows(): Db
      reads this
    {
      Db(jobs, executions, positions, fills, nextJob, nextExecution, nextPosition, nextFill)
    }

    constructor ()
      ensures Rows() == EMPTY_DB
    {
      jobs, executions, positions, fills := map[], map[], map[], [];
      nextJob, nextExecution, nextPosition, nextFill := 1, 1, 1, 1;
    }

    /** `create` on each table: the row gets the next id. */
    method CreateJob(row: Job) returns (id: int)
      modifies this`jobs, this`nextJob
      ensures id == old(nextJob) && nextJob == id + 1 && jobs == old(jobs)[id := row]
    {
      id := nextJob;
      jobs, nextJob := jobs[id := row], nextJob + 1;
    }

    method CreateExecution(row: Execution) returns (id: int)
      modifies this`executions, this`nextExecution
      ensures id == old(nextExecution) && nextExecution == id + 1 && executions == old(executions)[id := row]
    {
      id := nextExecution;
      executions, nextExecution := executions[id := row], nextExecution + 1;
    }

    method CreatePosition(row: Position) returns (id: int)
      modifies this`positions, this`nextPosition
      ensures id == old(nextPosition) && nextPosition == id + 1 && positions == old(positions)[id := row]
    {
      id := nextPosition;
      positions, nextPosition := positions[id := row], nextPosition + 1;
    }

    method CreateFill(position: int, execution: int, side: Side, qty: real, price: real, now: int)
      modifies this`fills, this`nextFill
      ensures nextFill == old(nextFill) + 1
      ensures fills == old(fills) + [Fill(old(nextFill), position, execution, side, qty, price, now)]
    {
      fills, nextFill := fills + [Fill(nextFill, position, execution, side, qty, price, now)], nextFill + 1;
    }

    method ImportOrder(account: Account, o: Order, now: int) returns (ok: bool)
      modifies this
      ensures (Rows(), ok) == ImportOne(old(Rows()), account, o, now)
    {
      if !IsValidSymbol(o.symbol) {
        return false;
      }
      if o.side == Sell && (o.positionId.None? || o.positionId.value <= 0) {
        return false;
      }
      // The transaction starts here; a rollback restores the rows.
      var jobsBefore, executionsBefore := jobs, executions;
      var job := CreateJob(ImportJob(account, o, now));
      var exec := CreateExecution(ImportExecution(account, o, job));
      if o.side == Buy {
        var position := CreatePosition(OpenedPosition(account, o, job));
        CreateFill(position, exec, Buy, o.qty, o.price, now);
      } else {
        var id := o.positionId.value;
        if id !in positions {
          jobs, executions := jobsBefore, executionsBefore;
          return false;
        }
        var p := positions[id];
        var qtyToClose, sold := SellForImport(p, o);
        positions := positions[id := sold];
        CreateFill(id, exec, Sell, qtyToClose, o.price, now);
      }
      ok := true;
    }

    /** `POST import-missing-orders`; `None` when the account does not exist. */
    method ImportMissingOrders(account: Option<Account>, orders: seq<Order>, now: int)
      returns (results: Option<seq<bool>>)
      modifies this
      ensures account.None? ==> results.None? && Rows() == old(Rows())
      ensures account.Some? ==>
        results.Some? && (Rows(), results.value) == ImportAll(old(Rows()), account.value, orders, now)
    {
      if account.None? {
        return None;
      }
      var done: seq<bool> := [];
      for i := 0 to |orders|
        invariant (Rows(), done) == ImportAll(old(Rows()), account.value, orders[..i], now)
      {
        var ok := ImportOrder(account.value, orders[i], now);
        done := done + [ok];
        assert orders[..i + 1][..i] == orders[..i];
      }
      assert orders[..|orders|] == orders;
      results := Some(done);
    }

    method FixOrphan(job: int, alternatives: seq<Alternative>, now: int) returns (r: FixResult)
      modifies this
      ensures (Rows(), r) == FixOne(old(Rows()), job, alternatives, now)
    {
      if job !in jobs {
        return NotFixed(job);
      }
      var latest := LatestExecution(executions, job, nextExecution);
      if latest.None? {
        return NotFixed(job);
      }
      var exec := executions[latest.value];
      var target := FindPosition(Rows(), jobs[job].positionToClose);
      if target.None? {
        target := FindPosition(Rows(), AlternativeFor(alternatives, job));
      }
      if target.Some? && positions[target.value].status == Closed {
        var alternative := AlternativeFor(alternatives, job);
        if alternative.None? {
          return NeedsAlternative(job);
        }
        target := FindPosition(Rows(), alternative);
      }
      if target.None? {
        return NotFixed(job);
      }
      var id := target.value;
      var p := positions[id];
      if p.status != Open {
        return NeedsAlternative(job);
      }
      var qtyToClose, sold := SellForFix(p, exec, now);
      positions := positions[id := sold];
      CreateFill(id, latest.value, Sell, qtyToClose, exec.avgPrice, now);
      jobs := jobs[job := jobs[job].(positionToClose := Some(id), status := Filled, reason := ManuallyFixed)];
      r := Fixed(job, id, exec.executedQty);
    }

    /** `POST fix-orphaned-executions` */
    method FixOrphanedExecutions(jobIds: seq<int>, alternatives: seq<Alternative>, now: int)
      returns (results: seq<FixResult>)
      modifies this
      ensures (Rows(), results) == FixAll(old(Rows()), jobIds, alternatives, now)
    {
      results := [];
      for i := 0 to |jobIds|
        invariant (Rows(), results) == FixAll(old(Rows()), jobIds[..i], alternatives, now)
      {
        var r := FixOrphan(jobIds[i], alternatives, now);
        results := results + [r];
        assert jobIds[..i + 1][..i] == jobIds[..i];
      }
      assert jobIds[..|jobIds|] == jobIds;
    }

    /** `POST debug/close-positions-breakeven` */
    method ClosePositionsBreakeven(id: int, now: int) returns (r: CloseResult)
      modifies this
      ensures (Rows(), r) == CloseBreakeven(old(Rows()), id, now)
    {
      if id <= 0 {
        return BadRequest;
      }
      if id !in positions {
        return NotFound;
      }
      var p := positions[id];
      if p.status != Open {
        return NotOpen;
      }
      if p.qtyRemaining <= 0.0 {
        return NothingLeft;
      }
      var job := CreateJob(BreakevenJob(p, id, now));
      var exec := CreateExecution(BreakevenExecution(p, id, job, now));
      positions := positions[id := ClosedAtBreakeven(p, now)];
      CreateFill(id, exec, Sell, p.qtyRemaining, p.priceOpen, now);
      r := ClosedBy(job, exec);
    }
  }
}
