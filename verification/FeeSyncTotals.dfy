/** What every schedule of a batch of the fee sync keeps, even one cut short, and
    exactly when it keeps the fee totals: a BUY and a SELL write the total of one
    position together with different columns. */
module FeeSyncTotals {
  import opened Collections
  import opened Tables
  import opened FeeSync
  import opened FeeSyncInterleaving
  import opened FeeSyncCharges
  import opened FeeSyncRaces

  // ------------------------------------------------------------------
  // One task alone
  // ------------------------------------------------------------------

  lemma SyncShape(t: Task, db: Db)
    ensures SameShape(db, SyncOne(t, db))
  {
    FinishKeepsShape(t, db, Fetched);
  }

  /** The fee sync moves money from the profit to the SELL fees of a position, and nothing else. */
  lemma SyncKeepsProfit(t: Task, db: Db, p: int)
    requires p in db.positions
    ensures p in SyncOne(t, db).positions
    ensures
      var before, after := db.positions[p], SyncOne(t, db).positions[p];
      && after.priceOpen == before.priceOpen
      && after.realizedProfit + after.feesOnSell == before.realizedProfit + before.feesOnSell
      && after.totalFees - after.feesOnBuy - after.feesOnSell == before.totalFees - before.feesOnBuy - before.feesOnSell
      && after == before.(realizedProfit := after.realizedProfit, feesOnBuy := after.feesOnBuy,
                          feesOnSell := after.feesOnSell, totalFees := after.totalFees)
  {
    if Charges(t) {
      if t.job.side == Sell {
        SaleCharges(t, db, p);
      } else {
        var recorded := Record(t, db);
        assert Plan(t, recorded) != [] ==>
          ApplyAll(recorded.positions, Plan(t, recorded)) == Apply(recorded.positions, Plan(t, recorded)[0]);
      }
    }
  }

  // ------------------------------------------------------------------
  // What every schedule keeps
  // ------------------------------------------------------------------

  /** Nothing but fees and profit differs, and what the profit lost the SELL fees gained. */
  ghost predicate SameButFees(a: Position, b: Position) {
    && b == a.(realizedProfit := b.realizedProfit, feesOnBuy := b.feesOnBuy,
               feesOnSell := b.feesOnSell, totalFees := b.totalFees)
    && b.realizedProfit + b.feesOnSell == a.realizedProfit + a.feesOnSell
  }

  /** A pending write leaves the profit and the SELL fees of its row with the sum they have. */
  ghost predicate KeepsSum(db: Db, w: Write) {
    w.SellFee? && w.position in db.positions ==>
      w.profit + w.feesOnSell == db.positions[w.position].realizedProfit + db.positions[w.position].feesOnSell
  }

  ghost predicate SumsKept(db: Db, c: Config) {
    && c.db == db.(executions := c.db.executions, positions := c.db.positions)
    && c.db.positions.Keys == db.positions.Keys
    && (forall p <- db.positions :: SameButFees(db.positions[p], c.db.positions[p]))
    && forall i :: 0 <= i < |c.locals| && c.locals[i].Writing? ==> forall w <- c.locals[i].todo :: KeepsSum(db, w)
  }

  lemma PlanKeepsSums(t: Task, db: Db)
    requires Charges(t)
    ensures forall w <- Plan(t, db) :: KeepsSum(db, w)
  {
    if t.job.side == Sell {
      var sales := SalesOf(db.fills, t.execution, db.positions);
      forall w | w in Plan(t, db)
        ensures KeepsSum(db, w)
      {
        var k :| 0 <= k < |Plan(t, db)| && Plan(t, db)[k] == w;
        assert w == SaleWrite(t, db.positions[sales[k].position], sales[k]);
      }
    }
  }

  lemma StepKeepsSums(tasks: seq<Task>, db: Db, c: Config, i: nat)
    requires |c.locals| == |tasks| && i < |tasks| && SumsKept(db, c)
    ensures SumsKept(db, StepOf(tasks, c, i))
  {
    var next := StepOf(tasks, c, i);
    match c.locals[i]
    case Fetched =>
    case Recorded =>
      if Charges(tasks[i]) {
        PlanKeepsSums(tasks[i], c.db);
        assert forall w <- Plan(tasks[i], c.db) :: KeepsSum(c.db, w) ==> KeepsSum(db, w);
      }
    case Writing(todo) =>
      if todo != [] {
        assert todo[0] in todo && KeepsSum(db, todo[0]);
        assert forall w <- todo[1..] :: w in todo;
      }
  }

  lemma {:induction false} ScheduleKeepsSums(tasks: seq<Task>, db: Db, c: Config, schedule: seq<nat>)
    requires |c.locals| == |tasks| && Within(schedule, |tasks|) && SumsKept(db, c)
    ensures SumsKept(db, Interleave(tasks, c, schedule))
    decreases |schedule|
  {
    if schedule != [] {
      StepKeepsSums(tasks, db, c, schedule[0]);
      ScheduleKeepsSums(tasks, db, StepOf(tasks, c, schedule[0]), schedule[1..]);
    }
  }

  /** Main result: every schedule of every batch, even one cut short, only moves money from the profit of a
      position to its SELL fees and writes its fee columns. */
  lemma BatchKeepsProfit(tasks: seq<Task>, db: Db, schedule: seq<nat>)
    requires Within(schedule, |tasks|)
    ensures
      var after := Interleave(tasks, Start(tasks, db), schedule).db;
      && after == db.(executions := after.executions, positions := after.positions)
      && after.positions.Keys == db.positions.Keys
      && forall p <- db.positions :: SameButFees(db.positions[p], after.positions[p])
  {
    ScheduleKeepsSums(tasks, db, Start(tasks, db), schedule);
  }

  lemma {:induction false} ScheduleKeepsExecutions(tasks: seq<Task>, c: Config, schedule: seq<nat>)
    requires |c.locals| == |tasks| && Within(schedule, |tasks|)
    requires (forall t <- tasks :: t.row.executedQty >= 0.0)
    requires forall e <- c.db.executions :: c.db.executions[e].executedQty >= 0.0
    ensures
      var after := Interleave(tasks, c, schedule).db.executions;
      after.Keys == c.db.executions.Keys && forall e <- after :: after[e].executedQty >= 0.0
    decreases |schedule|
  {
    if schedule != [] {
      assert tasks[schedule[0]] in tasks;
      ScheduleKeepsExecutions(tasks, StepOf(tasks, c, schedule[0]), schedule[1..]);
    }
  }

  // ------------------------------------------------------------------
  // Fee totals under every schedule
  // ------------------------------------------------------------------

  ghost predicate FeesAddUp(db: Db) {
    forall p <- db.positions ::
      db.positions[p].totalFees == db.positions[p].feesOnBuy + db.positions[p].feesOnSell
  }

  /** No BUY changes a row that a SELL of the batch reads, and no SELL one that a BUY reads. */
  ghost predicate Unmixed(tasks: seq<Task>, db: Db) {
    forall i, j :: 0 <= i < |tasks| && 0 <= j < |tasks| && tasks[i].job.side == Buy && tasks[j].job.side == Sell ==>
      Moved(tasks[i], db) !! Footprint(tasks[j], db) && Footprint(tasks[i], db) !! Moved(tasks[j], db)
  }

  ghost predicate Touches(tasks: seq<Task>, db: Db, side: Side, p: int) {
    exists i :: 0 <= i < |tasks| && tasks[i].job.side == side && p in Footprint(tasks[i], db)
  }

  /** What holds of a pending write, in terms of the rows the batch started from: the total agrees with the
      column it writes, and where tasks of the other side read too the column is the one they found. */
  ghost predicate Fits(tasks: seq<Task>, db: Db, t: Task, w: Write) {
    && w.position in Footprint(t, db) && w.position in db.positions
    && var r := db.positions[w.position];
      if t.job.side == Buy then
        && w.BuyFee? && w.totalFees == w.feesOnBuy + r.feesOnSell
        && (Touches(tasks, db, Sell, w.position) ==> w.feesOnBuy == r.feesOnBuy)
      else
        && w.SellFee? && w.totalFees == w.feesOnSell + r.feesOnBuy
        && (Touches(tasks, db, Buy, w.position) ==> w.feesOnSell == r.feesOnSell)
  }

  /** A row that tasks of one side read keeps the column of the other side. */
  ghost predicate RowsFit(tasks: seq<Task>, db: Db, now: Db) {
    && SameShape(db, now) && FeesAddUp(now)
    && forall p <- db.positions ::
         && (Touches(tasks, db, Buy, p) ==> now.positions[p].feesOnSell == db.positions[p].feesOnSell)
         && (Touches(tasks, db, Sell, p) ==> now.positions[p].feesOnBuy == db.positions[p].feesOnBuy)
  }

  ghost predicate TotalsFit(tasks: seq<Task>, db: Db, c: Config) {
    && |c.locals| == |tasks| && RowsFit(tasks, db, c.db)
    && forall i :: 0 <= i < |tasks| && c.locals[i].Writing? ==>
         forall w <- c.locals[i].todo :: Fits(tasks, db, tasks[i], w)
  }

  lemma PlanFits(tasks: seq<Task>, db: Db, now: Db, i: nat)
    requires i < |tasks| && Charges(tasks[i]) && Unmixed(tasks, db) && RowsFit(tasks, db, now)
    ensures forall w <- Plan(tasks[i], now) :: Fits(tasks, db, tasks[i], w)
  {
    var t, plan := tasks[i], Plan(tasks[i], now);
    SameFootprint(t, db, now);
    PlanIsLocal(t, now, now);
    forall w | w in plan
      ensures Fits(tasks, db, t, w)
    {
      var k :| 0 <= k < |plan| && plan[k] == w;
      assert w.position in Footprint(t, db);
      if t.job.side == Sell {
        SaleFits(tasks, db, now, i, SalesOf(now.fills, t.execution, now.positions)[k]);
      } else {
        BuyFits(tasks, db, now, i, w);
      }
    }
  }

  lemma SaleFits(tasks: seq<Task>, db: Db, now: Db, i: nat, f: Fill)
    requires i < |tasks| && Charges(tasks[i]) && tasks[i].job.side == Sell
    requires Unmixed(tasks, db) && RowsFit(tasks, db, now)
    requires f in SalesOf(now.fills, tasks[i].execution, now.positions)
    ensures f.position in now.positions && Fits(tasks, db, tasks[i], SaleWrite(tasks[i], now.positions[f.position], f))
  {
    var t, p := tasks[i], f.position;
    SameFootprint(t, db, now);
    assert p in Footprint(t, now);
    assert Touches(tasks, db, Sell, p);
    if Touches(tasks, db, Buy, p) {
      var b :| 0 <= b < |tasks| && tasks[b].job.side == Buy && p in Footprint(tasks[b], db);
      assert p !in Moved(t, db);
      assert Share(t.row, t.job, t.fee.value, f) == 0.0;
    }
  }

  lemma BuyFits(tasks: seq<Task>, db: Db, now: Db, i: nat, w: Write)
    requires i < |tasks| && Charges(tasks[i]) && tasks[i].job.side == Buy
    requires Unmixed(tasks, db) && RowsFit(tasks, db, now) && w in Plan(tasks[i], now)
    ensures Fits(tasks, db, tasks[i], w)
  {
    var t, p := tasks[i], w.position;
    SameFootprint(t, db, now);
    assert p in Footprint(t, now);
    assert Touches(tasks, db, Buy, p);
    if Touches(tasks, db, Sell, p) {
      var u :| 0 <= u < |tasks| && tasks[u].job.side == Sell && p in Footprint(tasks[u], db);
      assert p !in Moved(t, db);
    }
  }

  lemma WriteKeepsRows(tasks: seq<Task>, db: Db, now: Db, i: nat, w: Write)
    requires i < |tasks| && RowsFit(tasks, db, now) && Fits(tasks, db, tasks[i], w)
    ensures RowsFit(tasks, db, now.(positions := Apply(now.positions, w)))
  {
    assert Touches(tasks, db, tasks[i].job.side, w.position);
  }

  lemma StepKeepsTotals(tasks: seq<Task>, db: Db, c: Config, i: nat)
    requires i < |tasks| && Unmixed(tasks, db) && TotalsFit(tasks, db, c)
    ensures TotalsFit(tasks, db, StepOf(tasks, c, i))
  {
    match c.locals[i]
    case Fetched =>
    case Recorded =>
      if Charges(tasks[i]) {
        PlanFits(tasks, db, c.db, i);
      }
    case Writing(todo) =>
      if todo != [] {
        assert todo[0] in todo && forall w <- todo[1..] :: w in todo;
        WriteKeepsRows(tasks, db, c.db, i, todo[0]);
      }
  }

  lemma {:induction false} ScheduleKeepsTotals(tasks: seq<Task>, db: Db, c: Config, schedule: seq<nat>)
    requires Within(schedule, |tasks|) && Unmixed(tasks, db) && TotalsFit(tasks, db, c)
    ensures TotalsFit(tasks, db, Interleave(tasks, c, schedule))
    decreases |schedule|
  {
    if schedule != [] {
      StepKeepsTotals(tasks, db, c, schedule[0]);
      ScheduleKeepsTotals(tasks, db, StepOf(tasks, c, schedule[0]), schedule[1..]);
    }
  }

  /** Main result: in a batch that is not mixed every schedule, even one cut short, keeps the fee totals. */
  lemma UnmixedKeepsTotals(tasks: seq<Task>, db: Db, schedule: seq<nat>)
    requires FeesAddUp(db) && Unmixed(tasks, db) && Within(schedule, |tasks|)
    ensures FeesAddUp(Interleave(tasks, Start(tasks, db), schedule).db)
  {
    ScheduleKeepsTotals(tasks, db, Start(tasks, db), schedule);
  }

  // ------------------------------------------------------------------
  // The race that breaks the totals
  // ------------------------------------------------------------------

  lemma {:induction false} SequenceKeepsTotals(tasks: seq<Task>, db: Db)
    requires FeesAddUp(db)
    ensures FeesAddUp(SyncAll(tasks, db))
    decreases |tasks|
  {
    if tasks != [] {
      var next := SyncOne(tasks[0], db);
      SyncShape(tasks[0], db);
      forall p | p in next.positions
        ensures next.positions[p].totalFees == next.positions[p].feesOnBuy + next.positions[p].feesOnSell
      {
        SyncKeepsProfit(tasks[0], db, p);
      }
      SequenceKeepsTotals(tasks[1..], next);
    }
  }

  /** The fee columns of a row after a plan has been carried out on rows that need not be those it read. */
  lemma PlanColumns(t: Task, read: Db, now: map<int, Position>, p: int)
    requires Charges(t) && now.Keys == read.positions.Keys && p in Footprint(t, read)
    ensures p in read.positions && p in ApplyAll(now, Plan(t, read))
    ensures
      var r, after := read.positions[p], ApplyAll(now, Plan(t, read))[p];
      && after.totalFees == r.totalFees + Charge(t, read, p)
      && (if t.job.side == Buy
          then after.feesOnBuy == r.feesOnBuy + Charge(t, read, p) && after.feesOnSell == now[p].feesOnSell
          else after.feesOnSell == r.feesOnSell + Charge(t, read, p) && after.feesOnBuy == now[p].feesOnBuy)
  {
    PlanCharges(t, read, now, p);
    if t.job.side == Sell {
      var sales := SalesOf(read.fills, t.execution, read.positions);
      LastFeesDecide(t, read.positions, now, sales, p);
      assert LastOn(sales, p).Some? by {
        NoneOn(sales, p);
      }
    } else {
      assert ApplyAll(now, Plan(t, read)) == Apply(now, Plan(t, read)[0]);
    }
  }

  /** Writes of one side leave the column of the other side alone. */
  lemma {:induction false} SaleWritesKeepBuyFees(positions: map<int, Position>, writes: seq<Write>, p: int)
    requires p in positions && forall w <- writes :: w.SellFee?
    ensures p in ApplyAll(positions, writes) && ApplyAll(positions, writes)[p].feesOnBuy == positions[p].feesOnBuy
    decreases |writes|
  {
    if writes != [] {
      assert writes[0] in writes && forall w <- writes[1..] :: w in writes;
      SaleWritesKeepBuyFees(Apply(positions, writes[0]), writes[1..], p);
    }
  }

  lemma {:induction false} ApplyInTwo(positions: map<int, Position>, writes: seq<Write>, n: nat)
    requires n <= |writes|
    ensures ApplyAll(ApplyAll(positions, writes[..n]), writes[n..]) == ApplyAll(positions, writes)
    decreases n
  {
    if n == 0 {
      assert writes[..0] == [] && writes[0..] == writes;
    } else {
      assert writes[..n][1..] == writes[1..][..n - 1] && writes[1..][n - 1..] == writes[n..];
      ApplyInTwo(Apply(positions, writes[0]), writes[1..], n - 1);
    }
  }

  /** The BUY and then the SELL read, and then both write: the total lacks what the BUY charged. */
  lemma BuyIsLost(tasks: seq<Task>, c: Config, b: nat, s: nat, p: int) returns (schedule: seq<nat>)
    requires |c.locals| == |tasks| && b < |tasks| && s < |tasks| && b != s && OnlyTwoLeft(c, b, s) && FeesAddUp(c.db)
    requires tasks[b].job.side == Buy && tasks[s].job.side == Sell
    requires p in Moved(tasks[b], c.db) && p in Footprint(tasks[s], c.db)
    ensures Within(schedule, |tasks|) && AllDone(Interleave(tasks, c, schedule))
    ensures !FeesAddUp(Interleave(tasks, c, schedule).db)
  {
    var t, u := tasks[b], tasks[s];
    MovedIsRead(t, c.db);
    schedule := BothFinish(tasks, c, b, s, 0);
    var plan := Plan(t, c.db);
    assert plan[..0] == [] && plan[0..] == plan;
    var read := Record(t, c.db).(positions := c.db.positions);
    PlanIsLocal(u, c.db, read);
    var now := ApplyAll(c.db.positions, plan);
    WritesKeepRows(c.db.positions, plan);
    PlanColumns(t, c.db, c.db.positions, p);
    PlanColumns(u, c.db, now, p);
    assert Interleave(tasks, c, schedule).db.positions == ApplyAll(now, Plan(u, c.db));
  }

  /** The BUY reads before the SELL writes, or in the midst of its writes, and writes last: the total lacks what
      the SELL charged, or keeps a share that the SELL took back. */
  lemma SaleIsLost(tasks: seq<Task>, c: Config, b: nat, s: nat, p: int) returns (schedule: seq<nat>)
    requires |c.locals| == |tasks| && b < |tasks| && s < |tasks| && b != s && OnlyTwoLeft(c, b, s) && FeesAddUp(c.db)
    requires tasks[b].job.side == Buy && tasks[s].job.side == Sell
    requires p in Footprint(tasks[b], c.db) && p in Moved(tasks[s], c.db)
    ensures Within(schedule, |tasks|) && AllDone(Interleave(tasks, c, schedule))
    ensures !FeesAddUp(Interleave(tasks, c, schedule).db)
  {
    var t, u := tasks[b], tasks[s];
    var plan := Plan(u, c.db);
    var m := MovingWrite(u, c.db, p);
    var n := if Charge(u, c.db, p) != 0.0 then 0 else m + 1;
    schedule := BothFinish(tasks, c, s, b, n);
    ApplyInTwo(c.db.positions, plan, n);
    TotalReadAmid(t, u, c.db, m, n, p);
  }

  lemma TotalReadAmid(t: Task, u: Task, db: Db, m: nat, n: nat, p: int)
    requires Charges(t) && Charges(u) && t.job.side == Buy && u.job.side == Sell && FeesAddUp(db)
    requires p in Footprint(t, db) && p in Footprint(u, db) && p in db.positions
    requires m < |Plan(u, db)| && Plan(u, db)[m].position == p && Plan(u, db)[m].SellFee?
    requires Plan(u, db)[m].totalFees != db.positions[p].totalFees
    requires n == if Charge(u, db, p) != 0.0 then 0 else m + 1
    ensures
      var read := Record(u, db).(positions := ApplyAll(db.positions, Plan(u, db)[..n]));
      var end := ApplyAll(ApplyAll(db.positions, Plan(u, db)), Plan(t, read));
      p in end && end[p].totalFees != end[p].feesOnBuy + end[p].feesOnSell
  {
    var plan := Plan(u, db);
    var read := Record(u, db).(positions := ApplyAll(db.positions, plan[..n]));
    RowReadAmid(u, db, m, n, p);
    WritesKeepRows(db.positions, plan);
    PlanColumns(u, db, db.positions, p);
    SameFootprint(t, db, read);
    PlanColumns(t, read, ApplyAll(db.positions, plan), p);
  }

  lemma RowReadAmid(u: Task, db: Db, m: nat, n: nat, p: int)
    requires Charges(u) && u.job.side == Sell && p in db.positions
    requires m < |Plan(u, db)| && Plan(u, db)[m].position == p && (n == 0 || n == m + 1)
    ensures
      var read := Record(u, db).(positions := ApplyAll(db.positions, Plan(u, db)[..n]));
      && SameShape(db, read) && p in read.positions
      && read.positions[p].feesOnBuy == db.positions[p].feesOnBuy
      && read.positions[p].totalFees == if n == 0 then db.positions[p].totalFees else Plan(u, db)[m].totalFees
  {
    var plan := Plan(u, db);
    ReadTotal(db.positions, plan, m, p);
    assert forall w <- plan :: w.SellFee?;
    SaleWritesKeepBuyFees(db.positions, plan[..n], p);
    WritesKeepRows(db.positions, plan[..n]);
  }

  /** The total that is read before the writes, and the one that is read after the `m`-th. */
  lemma ReadTotal(positions: map<int, Position>, writes: seq<Write>, m: nat, p: int)
    requires m < |writes| && writes[m].position == p && p in positions
    ensures ApplyAll(positions, writes[..0]) == positions
    ensures p in ApplyAll(positions, writes[..m + 1])
    ensures ApplyAll(positions, writes[..m + 1])[p].totalFees == writes[m].totalFees
  {
    assert writes[..0] == [];
    ApplyOneMore(positions, writes, m);
    WritesKeepRows(positions, writes[..m]);
  }

  /** A mixed batch has a complete schedule that breaks the totals. */
  lemma MixedBreaksTotals(tasks: seq<Task>, db: Db, b: nat, s: nat, p: int) returns (schedule: seq<nat>)
    requires FeesAddUp(db) && b < |tasks| && s < |tasks| && tasks[b].job.side == Buy && tasks[s].job.side == Sell
    requires p in Footprint(tasks[b], db) && p in Footprint(tasks[s], db)
    requires p in Moved(tasks[b], db) || p in Moved(tasks[s], db)
    ensures Within(schedule, |tasks|) && AllDone(Interleave(tasks, Start(tasks, db), schedule))
    ensures !FeesAddUp(Interleave(tasks, Start(tasks, db), schedule).db)
  {
    var start := Start(tasks, db);
    var others := OthersFirst(tasks, db, b, s);
    var c := Interleave(tasks, start, others);
    SequenceKeepsTotals(AllBut(tasks, b, s, |tasks|), db);
    ScheduleKeepsShape(tasks, start, others);
    SameFootprint(tasks[b], db, c.db);
    SameFootprint(tasks[s], db, c.db);
    var last: seq<nat>;
    if p in Moved(tasks[b], db) {
      last := BuyIsLost(tasks, c, b, s, p);
    } else {
      last := SaleIsLost(tasks, c, b, s, p);
    }
    InterleaveAppend(tasks, start, others, last);
    schedule := others + last;
  }

  /** Every complete schedule of the batch ends with totals that add up. */
  ghost predicate KeepsTotals(tasks: seq<Task>, db: Db) {
    forall schedule :: Within(schedule, |tasks|) && AllDone(Interleave(tasks, Start(tasks, db), schedule)) ==>
      FeesAddUp(Interleave(tasks, Start(tasks, db), schedule).db)
  }

  /** Main result: a batch of any size keeps total fees equal to BUY fees plus SELL fees under every complete
      schedule if and only if no BUY and no SELL of it change a row that the other reads. */
  lemma BatchKeepsTotalsIff(tasks: seq<Task>, db: Db)
    requires FeesAddUp(db)
    ensures KeepsTotals(tasks, db) <==> Unmixed(tasks, db)
  {
    if Unmixed(tasks, db) {
      forall schedule | Within(schedule, |tasks|) && AllDone(Interleave(tasks, Start(tasks, db), schedule))
        ensures FeesAddUp(Interleave(tasks, Start(tasks, db), schedule).db)
      {
        UnmixedKeepsTotals(tasks, db, schedule);
      }
    } else {
      var b, s :|
        && 0 <= b < |tasks| && 0 <= s < |tasks| && tasks[b].job.side == Buy && tasks[s].job.side == Sell
        && !(Moved(tasks[b], db) !! Footprint(tasks[s], db) && Footprint(tasks[b], db) !! Moved(tasks[s], db));
      MovedIsRead(tasks[b], db);
      MovedIsRead(tasks[s], db);
      Meet(Moved(tasks[b], db), Footprint(tasks[s], db));
      Meet(Footprint(tasks[b], db), Moved(tasks[s], db));
      var p :| p in Footprint(tasks[b], db) && p in Footprint(tasks[s], db)
               && (p in Moved(tasks[b], db) || p in Moved(tasks[s], db));
      var schedule := MixedBreaksTotals(tasks, db, b, s, p);
    }
  }

  /** Such a batch: the BUY of an open position and a SELL of half of it, each with a fee of 1. */
  lemma MixedBatch(at: int)
    ensures
      var job := Job(1, true, "BTCUSDT", Buy, 2.0, Filled, NoReason, None, at);
      var row := Execution(1, 1, true, ExchangeOrder("b"), 2.0, 10.0, 20.0, None, None, None, at);
      var fee := Some(ExtractedFee(1.0, "USDT"));
      var t, u := Task(1, row, job, fee), Task(2, row.(job := 2, executedQty := 1.0), job.(side := Sell), fee);
      var p := Position(1, true, "BTCUSDT", 1, 2.0, 1.0, 10.0, Open, 0.0, 0.0, 0.0, 0.0, None, None, at);
      var fills := [Fill(1, 1, 1, Buy, 2.0, 10.0, at), Fill(2, 1, 2, Sell, 1.0, 10.0, at)];
      var db := EMPTY_DB.(positions := map[1 := p], fills := fills, nextPosition := 2);
      FeesAddUp(db) && !KeepsTotals([t, u], db)
  {
    var job := Job(1, true, "BTCUSDT", Buy, 2.0, Filled, NoReason, None, at);
    var row := Execution(1, 1, true, ExchangeOrder("b"), 2.0, 10.0, 20.0, None, None, None, at);
    var fee := Some(ExtractedFee(1.0, "USDT"));
    var t, u := Task(1, row, job, fee), Task(2, row.(job := 2, executedQty := 1.0), job.(side := Sell), fee);
    var p := Position(1, true, "BTCUSDT", 1, 2.0, 1.0, 10.0, Open, 0.0, 0.0, 0.0, 0.0, None, None, at);
    var bought, sold := Fill(1, 1, 1, Buy, 2.0, 10.0, at), Fill(2, 1, 2, Sell, 1.0, 10.0, at);
    var db := EMPTY_DB.(positions := map[1 := p], fills := [bought, sold], nextPosition := 2);
    assert OpenedBy(db.positions, 1, 1).None? && OpenedBy(db.positions, 1, 2) == Some(1);
    assert "USDT"[0] != "BTCUSDT"[0];
    assert BuyFeeUsd(row, job, fee.value) == 1.0;
    assert 1 in Moved(t, db) && [t, u][0] == t;
    assert db.fills[1] == sold && [t, u][1] == u;
    SaleIsListed(db.fills, db.positions, sold);
    SaleIsRead(u, db, sold);
    BatchKeepsTotalsIff([t, u], db);
  }
}
