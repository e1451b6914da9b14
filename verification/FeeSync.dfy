/** `POST system/sync-execution-fees`: executions without a fee get the fee the
    exchange reports, are made net of it, and charge it to their positions.

    The endpoint runs its tasks ten at a time under `Promise.all`.  Each task
    is modelled as the steps between two awaits: record the fee on the
    execution, read the positions it concerns, then write them one by one. */
module FeeSync {
  import opened Tables
  import opened LedgerModel

  datatype ExtractedFee = ExtractedFee(amount: real, currency: string)

  // ------------------------------------------------------------------
  // What one task computes
  // ------------------------------------------------------------------

  predicate InDollars(currency: string) {
    currency == "USDT" || currency == "USD"
  }

  function FeeRate(e: Execution, symbol: string, fee: ExtractedFee): Option<real> {
    if Some(fee.currency) == QuoteAsset(symbol) || InDollars(fee.currency) then
      if e.quoteQty > 0.0 then Some(fee.amount / e.quoteQty * 100.0) else None
    else if fee.currency == BaseAsset(symbol) then
      if e.executedQty > 0.0 then Some(fee.amount / e.executedQty * 100.0) else None
    else None
  }

  /** The execution with its fee recorded and made net of it; a rate that cannot be computed keeps the old one. */
  function Net(e: Execution, j: Job, fee: ExtractedFee): Execution {
    var rate := FeeRate(e, j.symbol, fee);
    e.(feeAmount := Some(fee.amount),
       feeCurrency := Some(fee.currency),
       feeRate := if rate.Some? && rate.value != 0.0 then rate else e.feeRate,
       executedQty :=
         if j.side == Buy && fee.currency == BaseAsset(j.symbol)
         then Max(0.0, e.executedQty - fee.amount) else e.executedQty,
       quoteQty :=
         if j.side == Sell && Some(fee.currency) == QuoteAsset(j.symbol)
         then Max(0.0, e.quoteQty - fee.amount) else e.quoteQty)
  }

  /** The fee of a BUY in dollars. */
  function BuyFeeUsd(e: Execution, j: Job, fee: ExtractedFee): real {
    if fee.currency == BaseAsset(j.symbol) then fee.amount * e.avgPrice else fee.amount
  }

  /** The fee of a SELL in dollars. */
  function SellFeeUsd(e: Execution, j: Job, fee: ExtractedFee): real {
    if !InDollars(fee.currency) && fee.currency != QuoteOrUsdt(j.symbol) && fee.currency == BaseAsset(j.symbol)
    then fee.amount * e.avgPrice
    else fee.amount
  }

  /** The part of a fee that goes with a part of the executed quantity. */
  function Part(usd: real, sold: real, total: real): real
    requires total != 0.0
  {
    usd * (sold / total)
  }

  /** The part of the fee that one fill of a SELL carries. */
  function Share(e: Execution, j: Job, fee: ExtractedFee, f: Fill): real {
    if e.executedQty > 0.0 then Part(SellFeeUsd(e, j, fee), f.qty, e.executedQty) else 0.0
  }

  /** The open position that a BUY job opened. */
  function OpenedBy(positions: map<int, Position>, job: int, bound: int): (id: Option<int>)
    ensures id.Some? ==>
      && 0 < id.value < bound && id.value in positions
      && positions[id.value].openJob == job && positions[id.value].status == Open
    ensures forall p ::
      0 < p < bound && p in positions && positions[p].openJob == job && positions[p].status == Open ==>
      id.Some? && id.value <= p
    decreases bound
  {
    if bound <= 1 then None
    else
      var first := OpenedBy(positions, job, bound - 1);
      var p := bound - 1;
      if first.Some? then first
      else if p in positions && positions[p].openJob == job && positions[p].status == Open then Some(p)
      else None
  }

  /** The SELL fills of an execution whose position exists, in table order. */
  function SalesOf(fills: seq<Fill>, execution: int, positions: map<int, Position>): (sales: seq<Fill>)
    ensures forall f ::
      f in sales <==> f in fills && f.execution == execution && f.side == Sell && f.position in positions
  {
    if fills == [] then []
    else
      var f := fills[|fills| - 1];
      assert fills == fills[..|fills| - 1] + [f];
      var rest := SalesOf(fills[..|fills| - 1], execution, positions);
      if f.execution == execution && f.side == Sell && f.position in positions then rest + [f] else rest
  }

  /** A write of absolute values computed from the row as it was read. */
  datatype Write =
    | BuyFee(position: int, feesOnBuy: real, totalFees: real)
    | SellFee(position: int, profit: real, feesOnSell: real, totalFees: real)

  function WriteRow(p: Position, w: Write): Position {
    match w
    case BuyFee(_, feesOnBuy, totalFees) => p.(feesOnBuy := feesOnBuy, totalFees := totalFees)
    case SellFee(_, profit, feesOnSell, totalFees) =>
      p.(realizedProfit := profit, feesOnSell := feesOnSell, totalFees := totalFees)
  }

  function Apply(positions: map<int, Position>, w: Write): map<int, Position> {
    if w.position in positions then positions[w.position := WriteRow(positions[w.position], w)] else positions
  }

  function ApplyAll(positions: map<int, Position>, writes: seq<Write>): map<int, Position>
    decreases |writes|
  {
    if writes == [] then positions else ApplyAll(Apply(positions, writes[0]), writes[1..])
  }

  /** A task of the batch: an execution as it was selected, its job, and the exchange's answer, if any. */
  datatype Task = Task(execution: int, row: Execution, job: Job, fee: Option<ExtractedFee>)

  predicate Charges(t: Task) {
    t.fee.Some? && t.fee.value.amount > 0.0
  }

  function SaleWrite(t: Task, p: Position, f: Fill): Write
    requires t.fee.Some?
  {
    var share := Share(t.row, t.job, t.fee.value, f);
    SellFee(f.position, p.realizedProfit - share, p.feesOnSell + share, p.totalFees + share)
  }

  function SaleWrites(t: Task, positions: map<int, Position>, sales: seq<Fill>): (ws: seq<Write>)
    requires t.fee.Some? && forall f <- sales :: f.position in positions
    ensures |ws| == |sales|
    ensures forall i :: 0 <= i < |sales| ==> ws[i] == SaleWrite(t, positions[sales[i].position], sales[i])
  {
    if sales == [] then []
    else [SaleWrite(t, positions[sales[0].position], sales[0])] + SaleWrites(t, positions, sales[1..])
  }

  /** The writes a task decides on, from the rows it reads. */
  function Plan(t: Task, db: Db): seq<Write>
    requires Charges(t)
  {
    var fee := t.fee.value;
    if t.job.side == Buy then
      var id := OpenedBy(db.positions, t.row.job, db.nextPosition);
      if id.None? then []
      else
        var p, usd := db.positions[id.value], BuyFeeUsd(t.row, t.job, fee);
        [BuyFee(id.value, p.feesOnBuy + usd, p.totalFees + usd)]
    else
      SaleWrites(t, db.positions, SalesOf(db.fills, t.execution, db.positions))
  }

  function Record(t: Task, db: Db): Db
    requires Charges(t)
  {
    if t.execution !in db.executions then db
    else db.(executions := db.executions[t.execution := Net(t.row, t.job, t.fee.value)])
  }

  /** The task run from beginning to end with nothing in between. */
  function SyncOne(t: Task, db: Db): Db {
    if !Charges(t) then db
    else
      var recorded := Record(t, db);
      recorded.(positions := ApplyAll(recorded.positions, Plan(t, recorded)))
  }

  function SyncAll(tasks: seq<Task>, db: Db): Db
    decreases |tasks|
  {
    if tasks == [] then db else SyncAll(tasks[1..], SyncOne(tasks[0], db))
  }

  /** The first fifty live executions without a fee, with what the exchange answers for each. */
  function SelectTasks(db: Db, answers: map<int, ExtractedFee>, bound: int): (tasks: seq<Task>)
    ensures |tasks| <= 50
    decreases bound
  {
    if bound <= 1 then []
    else
      var e := bound - 1;
      var before := SelectTasks(db, answers, e);
      if |before| < 50 && e in db.executions && db.executions[e].live && db.executions[e].feeAmount.None?
         && db.executions[e].job in db.jobs
      then
        var row := db.executions[e];
        var answered := e in answers && row.order != NoOrder;
        before + [Task(e, row, db.jobs[row.job], if answered then Some(answers[e]) else None)]
      else before
  }

  /** One task run without interruption. */
  method SyncTask(ledger: Ledger, t: Task)
    modifies ledger
    ensures ledger.Rows() == SyncOne(t, old(ledger.Rows()))
  {
    if t.fee.None? || t.fee.value.amount <= 0.0 {
      return;
    }
    if t.execution in ledger.executions {
      ledger.executions := ledger.executions[t.execution := Net(t.row, t.job, t.fee.value)];
    }
    var writes := Plan(t, ledger.Rows());
    ghost var read := ledger.Rows();
    ghost var target := ApplyAll(ledger.positions, writes);
    for i := 0 to |writes|
      invariant ledger.Rows() == read.(positions := ledger.positions)
      invariant ApplyAll(ledger.positions, writes[i..]) == target
    {
      assert writes[i..][1..] == writes[i + 1..];
      ledger.positions := Apply(ledger.positions, writes[i]);
    }
  }

  const BATCH_SIZE := 10

  function Flatten(batches: seq<seq<Task>>): seq<Task>
    decreases |batches|
  {
    if batches == [] then [] else batches[0] + Flatten(batches[1..])
  }

  lemma {:induction false} FlattenNext(batches: seq<seq<Task>>, batch: seq<Task>)
    ensures Flatten(batches + [batch]) == Flatten(batches) + batch
    decreases |batches|
  {
    if batches == [] {
      assert [batch][1..] == [];
    } else {
      FlattenNext(batches[1..], batch);
      assert (batches + [batch])[1..] == batches[1..] + [batch];
    }
  }

  /** The tasks in batches of ten, of which only the last may be smaller. */
  ghost predicate InTens(tasks: seq<Task>, batches: seq<seq<Task>>) {
    && Flatten(batches) == tasks
    && (forall i :: 0 <= i < |batches| ==> 0 < |batches[i]| <= 10)
    && forall i :: 0 <= i < |batches| - 1 ==> |batches[i]| == 10
  }

  /** `POST system/sync-execution-fees`, under the schedule that runs each task to its end. */
  method SyncExecutionFees(ledger: Ledger, answers: map<int, ExtractedFee>)
    returns (checked: nat, ghost batches: seq<seq<Task>>)
    modifies ledger
    ensures InTens(SelectTasks(old(ledger.Rows()), answers, old(ledger.nextExecution)), batches)
    ensures checked == |SelectTasks(old(ledger.Rows()), answers, old(ledger.nextExecution))|
    ensures ledger.Rows() ==
            SyncAll(SelectTasks(old(ledger.Rows()), answers, old(ledger.nextExecution)), old(ledger.Rows()))
  {
    var tasks := SelectTasks(ledger.Rows(), answers, ledger.nextExecution);
    checked := |tasks|;
    ghost var target := SyncAll(tasks, ledger.Rows());
    var from := 0;
    batches := [];
    while from < |tasks|
      invariant 0 <= from <= |tasks|
      invariant InTens(tasks[..from], batches)
      invariant from < |tasks| ==> forall i :: 0 <= i < |batches| ==> |batches[i]| == 10
      invariant SyncAll(tasks[from..], ledger.Rows()) == target
    {
      var to := if from + BATCH_SIZE < |tasks| then from + BATCH_SIZE else |tasks|;
      for i := from to to
        invariant SyncAll(tasks[i..], ledger.Rows()) == target
      {
        assert tasks[i..][1..] == tasks[i + 1..];
        SyncTask(ledger, tasks[i]);
      }
      FlattenNext(batches, tasks[from..to]);
      assert tasks[..to] == tasks[..from] + tasks[from..to];
      batches := batches + [tasks[from..to]];
      from := to;
    }
    assert tasks[..from] == tasks;
  }

  // ------------------------------------------------------------------
  // Interleaved steps
  // ------------------------------------------------------------------

  /** Where a task stands: before recording the fee, before reading, or with writes still to do. */
  datatype Local = Fetched | Recorded | Writing(todo: seq<Write>)

  function Step(t: Task, db: Db, l: Local): (Db, Local) {
    match l
    case Fetched => if Charges(t) then (Record(t, db), Recorded) else (db, Writing([]))
    case Recorded => (db, Writing(if Charges(t) then Plan(t, db) else []))
    case Writing(todo) =>
      if todo == [] then (db, l)
      else (db.(positions := Apply(db.positions, todo[0])), Writing(todo[1..]))
  }

  datatype Config = Config(db: Db, locals: seq<Local>)

  function StepOf(tasks: seq<Task>, c: Config, i: nat): (c': Config)
    requires |c.locals| == |tasks| && i < |tasks|
    ensures |c'.locals| == |tasks|
  {
    var (db, l) := Step(tasks[i], c.db, c.locals[i]);
    Config(db, c.locals[i := l])
  }

  predicate Within(schedule: seq<nat>, n: nat) {
    forall k :: 0 <= k < |schedule| ==> schedule[k] < n
  }

  /** The batch under a schedule: which task takes the next step. */
  function Interleave(tasks: seq<Task>, c: Config, schedule: seq<nat>): (c': Config)
    requires |c.locals| == |tasks| && Within(schedule, |tasks|)
    ensures |c'.locals| == |tasks|
    decreases |schedule|
  {
    if schedule == [] then c else Interleave(tasks, StepOf(tasks, c, schedule[0]), schedule[1..])
  }

  function Start(tasks: seq<Task>, db: Db): Config {
    Config(db, seq(|tasks|, i => Fetched))
  }

  /** `Promise.all` has resolved. */
  predicate AllDone(c: Config) {
    forall l <- c.locals :: l == Writing([])
  }

  /** The positions a task reads or writes. */
  function Footprint(t: Task, db: Db): set<int> {
    if !Charges(t) then {}
    else if t.job.side == Buy then
      var id := OpenedBy(db.positions, t.row.job, db.nextPosition);
      if id.None? then {} else {id.value}
    else set f <- SalesOf(db.fills, t.execution, db.positions) :: f.position
  }

  /** The positions whose row a task changes with some write; a share of nothing writes back what was read. */
  function Moved(t: Task, db: Db): set<int> {
    if !Charges(t) then {}
    else if t.job.side == Buy then
      if BuyFeeUsd(t.row, t.job, t.fee.value) != 0.0 then Footprint(t, db) else {}
    else
      set f <- SalesOf(db.fills, t.execution, db.positions) | Share(t.row, t.job, t.fee.value, f) != 0.0 :: f.position
  }

  ghost predicate DistinctExecutions(tasks: seq<Task>) {
    forall i, j :: 0 <= i < |tasks| && 0 <= j < |tasks| && i != j ==> tasks[i].execution != tasks[j].execution
  }

  /** No task of the batch changes a row that another one reads. */
  ghost predicate Apart(tasks: seq<Task>, db: Db) {
    forall i, j :: 0 <= i < |tasks| && 0 <= j < |tasks| && i != j ==>
      Moved(tasks[i], db) !! Footprint(tasks[j], db)
  }
}
