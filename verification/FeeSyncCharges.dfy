/** What the fee sync charges: the shares of a SELL fee, how a race loses a
    fee, and that an execution is made net of its fee at most once. */
module FeeSyncCharges {
  import opened Tables
  import opened FeeSync

  // ------------------------------------------------------------------
  // Shares of a SELL fee
  // ------------------------------------------------------------------

  /** The last of the fills on a position, the only one whose write survives. */
  function LastOn(sales: seq<Fill>, position: int): (last: Option<Fill>)
    ensures last.Some? <==> exists f :: f in sales && f.position == position
    ensures last.Some? ==> last.value in sales && last.value.position == position
    decreases |sales|
  {
    if sales == [] then None
    else
      var later := LastOn(sales[1..], position);
      if later.Some? then later else if sales[0].position == position then Some(sales[0]) else None
  }

  /** The fills that are the last on their position. */
  function LastFills(sales: seq<Fill>): (kept: seq<Fill>)
    ensures forall f <- kept :: f in sales
    decreases |sales|
  {
    if sales == [] then []
    else if LastOn(sales[1..], sales[0].position).None? then [sales[0]] + LastFills(sales[1..])
    else LastFills(sales[1..])
  }

  ghost predicate DistinctPositions(sales: seq<Fill>) {
    forall i, j :: 0 <= i < j < |sales| ==> sales[i].position != sales[j].position
  }

  lemma {:induction false} NoneOn(sales: seq<Fill>, position: int)
    ensures LastOn(sales, position).None? <==> forall f <- sales :: f.position != position
    decreases |sales|
  {
    if sales != [] {
      NoneOn(sales[1..], position);
      assert sales == [sales[0]] + sales[1..];
    }
  }

  lemma {:induction false} LastFillsDistinct(sales: seq<Fill>)
    ensures DistinctPositions(LastFills(sales))
    ensures forall f <- LastFills(sales) :: LastOn(sales, f.position) == Some(f)
    decreases |sales|
  {
    if sales == [] {
    } else {
      var f0, rest := sales[0], LastFills(sales[1..]);
      LastFillsDistinct(sales[1..]);
      NoneOn(sales[1..], f0.position);
      forall f | f in rest
        ensures f.position == f0.position ==> LastOn(sales[1..], f0.position).Some?
        ensures LastOn(sales, f.position) == Some(f)
      {
      }
    }
  }

  lemma {:induction false} AllAreLast(sales: seq<Fill>)
    requires DistinctPositions(sales)
    ensures LastFills(sales) == sales
    decreases |sales|
  {
    if sales != [] {
      AllAreLast(sales[1..]);
      NoneOn(sales[1..], sales[0].position);
      forall f | f in sales[1..]
        ensures f.position != sales[0].position
      {
        var i :| 0 <= i < |sales[1..]| && sales[1..][i] == f;
        assert sales[i + 1] == f;
      }
    }
  }

  function SoldQty(sales: seq<Fill>): real
    decreases |sales|
  {
    if sales == [] then 0.0 else sales[0].qty + SoldQty(sales[1..])
  }

  function FeesAt(positions: map<int, Position>, p: int): real {
    if p in positions then positions[p].feesOnSell else 0.0
  }

  function ProfitAt(positions: map<int, Position>, p: int): real {
    if p in positions then positions[p].realizedProfit else 0.0
  }

  /** What the positions of some fills gained in SELL fees between two tables. */
  function FeesGained(before: map<int, Position>, after: map<int, Position>, sales: seq<Fill>): real
    decreases |sales|
  {
    if sales == [] then 0.0
    else FeesAt(after, sales[0].position) - FeesAt(before, sales[0].position) + FeesGained(before, after, sales[1..])
  }

  function ProfitLost(before: map<int, Position>, after: map<int, Position>, sales: seq<Fill>): real
    decreases |sales|
  {
    if sales == [] then 0.0
    else ProfitAt(before, sales[0].position) - ProfitAt(after, sales[0].position)
         + ProfitLost(before, after, sales[1..])
  }

  /** Two tables that differ only in what a SELL charges. */
  ghost predicate SameButSellFees(a: map<int, Position>, b: map<int, Position>) {
    && a.Keys == b.Keys
    && forall p <- a ::
         b[p] == a[p].(realizedProfit := b[p].realizedProfit,
                 feesOnSell := b[p].feesOnSell, totalFees := b[p].totalFees)
  }

  /** Every write is computed from the rows as they were read, so the last one on a position decides. */
  lemma {:induction false} LastWriteDecides(
    t: Task, read: map<int, Position>, now: map<int, Position>, sales: seq<Fill>, p: int)
    requires t.fee.Some? && forall f <- sales :: f.position in read
    requires SameButSellFees(read, now) && p in read
    ensures ApplyAll(now, SaleWrites(t, read, sales)).Keys == now.Keys
    ensures ApplyAll(now, SaleWrites(t, read, sales))[p] ==
            match LastOn(sales, p)
            case None => now[p]
            case Some(f) => WriteRow(read[p], SaleWrite(t, read[p], f))
    decreases |sales|
  {
    if sales == [] {
    } else {
      var w := SaleWrite(t, read[sales[0].position], sales[0]);
      assert sales[0] in sales;
      LastWriteDecides(t, read, Apply(now, w), sales[1..], p);
    }
  }

  /** Main result: after the task has run, a position carries exactly the share of the last of the
      execution's fills on it, taken from its profit. */
  lemma SaleCharges(t: Task, db: Db, p: int)
    requires Charges(t) && t.job.side == Sell && p in db.positions
    ensures p in SyncOne(t, db).positions
    ensures
      var charge := match LastOn(SalesOf(db.fills, t.execution, db.positions), p)
                    case None => 0.0
                    case Some(f) => Share(t.row, t.job, t.fee.value, f);
      var before := db.positions[p];
      SyncOne(t, db).positions[p] == before.(realizedProfit := before.realizedProfit - charge,
                                             feesOnSell := before.feesOnSell + charge,
                                             totalFees := before.totalFees + charge)
  {
    var sales := SalesOf(db.fills, t.execution, db.positions);
    assert SyncOne(t, db).positions == ApplyAll(db.positions, SaleWrites(t, db.positions, sales));
    LastWriteDecides(t, db.positions, db.positions, sales, p);
    var before := db.positions[p];
    match LastOn(sales, p)
    case None =>
    case Some(f) =>
      assert SyncOne(t, db).positions[p] == WriteRow(before, SaleWrite(t, before, f));
  }

  ghost predicate Charged(t: Task, before: map<int, Position>, after: map<int, Position>, f: Fill)
    requires Charges(t)
  {
    && f.position in before && f.position in after
    && after[f.position].feesOnSell == before[f.position].feesOnSell + Share(t.row, t.job, t.fee.value, f)
    && after[f.position].realizedProfit == before[f.position].realizedProfit - Share(t.row, t.job, t.fee.value, f)
  }

  lemma {:induction false} GainsAddUp(t: Task, before: map<int, Position>, after: map<int, Position>, sales: seq<Fill>)
    requires Charges(t) && t.row.executedQty > 0.0
    requires forall f <- sales :: Charged(t, before, after, f)
    ensures FeesGained(before, after, sales) == ProfitLost(before, after, sales)
    ensures FeesGained(before, after, sales) ==
            Part(SellFeeUsd(t.row, t.job, t.fee.value), SoldQty(sales), t.row.executedQty)
    decreases |sales|
  {
    var usd, total := SellFeeUsd(t.row, t.job, t.fee.value), t.row.executedQty;
    if sales == [] {
    } else {
      GainsAddUp(t, before, after, sales[1..]);
      var f := sales[0];
      assert f in sales && Charged(t, before, after, f);
      assert FeesAt(after, f.position) - FeesAt(before, f.position) == Part(usd, f.qty, total);
      SharesAdd(usd, f.qty, SoldQty(sales[1..]), total);
    }
  }

  lemma SharesAdd(usd: real, a: real, b: real, total: real)
    requires total != 0.0
    ensures Part(usd, a, total) + Part(usd, b, total) == Part(usd, a + b, total)
  {
    assert (a + b) / total == a / total + b / total;
  }

  /** Main result: what the fee columns gain is what the profits lose, and it is the whole fee exactly
      when the last fills on each position sum to the executed quantity. */
  lemma WholeFeeIff(t: Task, db: Db)
    requires Charges(t) && t.job.side == Sell && t.row.executedQty > 0.0
    requires SellFeeUsd(t.row, t.job, t.fee.value) != 0.0
    ensures
      var kept := LastFills(SalesOf(db.fills, t.execution, db.positions));
      var gained := FeesGained(db.positions, SyncOne(t, db).positions, kept);
      && gained == ProfitLost(db.positions, SyncOne(t, db).positions, kept)
      && (gained == SellFeeUsd(t.row, t.job, t.fee.value) <==> SoldQty(kept) == t.row.executedQty)
    ensures
      var sales := SalesOf(db.fills, t.execution, db.positions);
      DistinctPositions(sales) ==> LastFills(sales) == sales
  {
    var sales := SalesOf(db.fills, t.execution, db.positions);
    if DistinctPositions(sales) {
      AllAreLast(sales);
    }
    KeptAreCharged(t, db);
    WholeFeeOf(t, db.positions, SyncOne(t, db).positions, LastFills(sales));
  }

  /** Such a sale: two fills of 1 unit each on one position, of which only the last is charged. */
  lemma HalfTheFee(t: Task, p: Position, at: int)
    requires t.row.executedQty == 2.0
    ensures
      var fill := Fill(1, 1, t.execution, Sell, 1.0, t.row.avgPrice, at);
      var db := EMPTY_DB.(positions := map[1 := p], fills := [fill, fill.(id := 2)]);
      SoldQty(LastFills(SalesOf(db.fills, t.execution, db.positions))) == 1.0
  {
    var fill := Fill(1, 1, t.execution, Sell, 1.0, t.row.avgPrice, at);
    var again := fill.(id := 2);
    assert [fill, again][..1] == [fill] && [fill][..0] == [];
    assert SalesOf([fill], t.execution, map[1 := p]) == [fill];
    assert SalesOf([fill, again], t.execution, map[1 := p]) == [fill, again];
    LastOfTwo(fill, again);
  }

  lemma LastOfTwo(f: Fill, g: Fill)
    requires f.position == g.position
    ensures LastFills([f, g]) == [g] && SoldQty([g]) == g.qty
  {
    assert [f, g][1..] == [g] && [g][1..] == [];
    assert LastOn([g], g.position) == Some(g);
    assert LastFills([g]) == [g];
  }

  lemma WholeFeeOf(t: Task, before: map<int, Position>, after: map<int, Position>, sales: seq<Fill>)
    requires Charges(t) && t.row.executedQty > 0.0 && SellFeeUsd(t.row, t.job, t.fee.value) != 0.0
    requires forall f <- sales :: Charged(t, before, after, f)
    ensures FeesGained(before, after, sales) == ProfitLost(before, after, sales)
    ensures FeesGained(before, after, sales) == SellFeeUsd(t.row, t.job, t.fee.value)
            <==> SoldQty(sales) == t.row.executedQty
  {
    GainsAddUp(t, before, after, sales);
    WholeIffAll(SellFeeUsd(t.row, t.job, t.fee.value), SoldQty(sales), t.row.executedQty);
  }

  lemma KeptAreCharged(t: Task, db: Db)
    requires Charges(t) && t.job.side == Sell
    ensures forall f <- LastFills(SalesOf(db.fills, t.execution, db.positions)) ::
      Charged(t, db.positions, SyncOne(t, db).positions, f)
  {
    LastFillsDistinct(SalesOf(db.fills, t.execution, db.positions));
    forall f | f in LastFills(SalesOf(db.fills, t.execution, db.positions))
      ensures Charged(t, db.positions, SyncOne(t, db).positions, f)
    {
      SaleCharges(t, db, f.position);
    }
  }

  lemma WholeIffAll(usd: real, sold: real, total: real)
    requires usd != 0.0 && total != 0.0
    ensures Part(usd, sold, total) == usd <==> sold == total
  {
    var ratio := sold / total;
    assert sold == ratio * total;
    if usd * ratio == usd {
      assert usd * (ratio - 1.0) == 0.0;
      assert ratio == 1.0;
    }
  }

  // ------------------------------------------------------------------
  // The charge in dollars
  // ------------------------------------------------------------------

  /** The fee is in the base asset, and that is neither a dollar nor the quote asset: it is worth its amount
      times the average price. */
  predicate InBaseOnly(t: Task)
    requires t.fee.Some?
  {
    var currency, symbol := t.fee.value.currency, t.job.symbol;
    && currency == BaseAsset(symbol)
    && currency != "USDT" && currency != "USD" && currency != QuoteOrUsdt(symbol)
  }

  /** What the fee of a sale is worth: a fee in dollars, in the quote asset or in an unknown one its amount. */
  ghost function SaleFeeWorth(t: Task): real
    requires t.fee.Some?
  {
    if InBaseOnly(t) then t.fee.value.amount * t.row.avgPrice else t.fee.value.amount
  }

  lemma SaleFeeInDollars(t: Task)
    requires t.fee.Some?
    ensures SellFeeUsd(t.row, t.job, t.fee.value) == SaleFeeWorth(t)
  {
  }

  /** The charge is to the whole worth as the sold quantity is to the total. */
  ghost predicate InRatio(charge: real, worth: real, sold: real, total: real) {
    charge * total == worth * sold
  }

  lemma PartOf(usd: real, sold: real, total: real)
    requires total != 0.0
    ensures InRatio(Part(usd, sold, total), usd, sold, total)
    ensures sold == total ==> Part(usd, sold, total) == usd
  {
    var ratio := sold / total;
    assert sold == ratio * total;
  }

  /** The share that a position is charged is to the worth of the fee as the fill's quantity is to the executed one. */
  lemma ShareInRatio(t: Task, f: Fill)
    requires t.fee.Some?
    ensures t.row.executedQty > 0.0 ==>
      InRatio(Share(t.row, t.job, t.fee.value, f), SaleFeeWorth(t), f.qty, t.row.executedQty)
    ensures t.row.executedQty <= 0.0 ==> Share(t.row, t.job, t.fee.value, f) == 0.0
  {
    if t.row.executedQty > 0.0 {
      SaleFeeInDollars(t);
      PartOf(SellFeeUsd(t.row, t.job, t.fee.value), f.qty, t.row.executedQty);
    }
  }

  /** Main result: when the fills of a sale lie on different positions and sum to what was executed, the
      SELL fees of these positions gain the whole worth of the fee. */
  lemma SellFeeAddsUp(t: Task, db: Db)
    requires Charges(t) && t.job.side == Sell && t.row.executedQty > 0.0
    requires DistinctPositions(SalesOf(db.fills, t.execution, db.positions))
    requires SoldQty(SalesOf(db.fills, t.execution, db.positions)) == t.row.executedQty
    ensures
      var sales := SalesOf(db.fills, t.execution, db.positions);
      && FeesGained(db.positions, SyncOne(t, db).positions, sales) == SaleFeeWorth(t)
      && ProfitLost(db.positions, SyncOne(t, db).positions, sales) == SaleFeeWorth(t)
  {
    var sales := SalesOf(db.fills, t.execution, db.positions);
    AllAreLast(sales);
    KeptAreCharged(t, db);
    WholeWorth(t, db.positions, SyncOne(t, db).positions, sales);
  }

  lemma WholeWorth(t: Task, before: map<int, Position>, after: map<int, Position>, sales: seq<Fill>)
    requires Charges(t) && t.row.executedQty > 0.0 && SoldQty(sales) == t.row.executedQty
    requires forall f <- sales :: Charged(t, before, after, f)
    ensures FeesGained(before, after, sales) == ProfitLost(before, after, sales) == SaleFeeWorth(t)
  {
    GainsAddUp(t, before, after, sales);
    SaleFeeInDollars(t);
    PartOf(SellFeeUsd(t.row, t.job, t.fee.value), t.row.executedQty, t.row.executedQty);
  }

  /** Main result: a BUY's fee goes to the open position that its job opened, if any, in its BUY fees and its
      total: in the base asset by its worth, in any other currency by its amount. */
  lemma BuyCharges(t: Task, db: Db)
    requires Charges(t) && t.job.side == Buy
    ensures
      var id := OpenedBy(db.positions, t.row.job, db.nextPosition);
      var fee := t.fee.value.amount * if t.fee.value.currency == BaseAsset(t.job.symbol) then t.row.avgPrice else 1.0;
      SyncOne(t, db).positions ==
      if id.None? then db.positions
      else
        var p := db.positions[id.value];
        db.positions[id.value := p.(feesOnBuy := p.feesOnBuy + fee, totalFees := p.totalFees + fee)]
  {
    var plan := Plan(t, Record(t, db));
    if plan != [] {
      assert ApplyAll(db.positions, plan) == ApplyAll(Apply(db.positions, plan[0]), []);
    }
  }

  // ------------------------------------------------------------------
  // Net of the fee at most once
  // ------------------------------------------------------------------

  /** One call of the endpoint: the tasks it selects and any part of any schedule of theirs. */
  datatype Round = Round(tasks: seq<Task>, schedule: seq<nat>)

  /** The selection: executions without a fee, each once, as they stand in the table. */
  ghost predicate Selected(tasks: seq<Task>, db: Db) {
    && (forall i :: 0 <= i < |tasks| ==>
          && tasks[i].execution in db.executions
          && tasks[i].row == db.executions[tasks[i].execution]
          && tasks[i].row.feeAmount.None?
          && tasks[i].row.job in db.jobs
          && tasks[i].job == db.jobs[tasks[i].row.job])
    && forall i, j :: 0 <= i < j < |tasks| ==> tasks[i].execution != tasks[j].execution
  }

  function RunRound(db: Db, r: Round): Db
    requires Within(r.schedule, |r.tasks|)
  {
    Interleave(r.tasks, Start(r.tasks, db), r.schedule).db
  }

  /** A history of calls, each selecting from the ledger the previous ones left. */
  ghost predicate History(db: Db, rounds: seq<Round>, end: Db)
    decreases |rounds|
  {
    if rounds == [] then end == db
    else Within(rounds[0].schedule, |rounds[0].tasks|) && Selected(rounds[0].tasks, db)
         && History(RunRound(db, rounds[0]), rounds[1..], end)
  }

  /** A quantity less a fee, but not below nothing. */
  ghost predicate Lowered(before: real, after: real, fee: real) {
    if before > fee then after + fee == before else after == 0.0
  }

  /** The rate is the fee in percent of a total, if there is one to compare it with. */
  ghost predicate Rated(before: Option<real>, after: Option<real>, fee: real, total: real) {
    if total > 0.0 then after.Some? && after.value * total == fee * 100.0 else after == before
  }

  /** The row records a fee, and is less by it what the job got: base asset for a BUY, quote asset for a SELL. */
  ghost predicate MadeNet(before: Execution, after: Execution, j: Job) {
    && after.feeAmount.Some? && after.feeCurrency.Some? && after.feeAmount.value > 0.0
    && var fee, currency := after.feeAmount.value, after.feeCurrency.value;
      && after == before.(feeAmount := Some(fee), feeCurrency := Some(currency), feeRate := after.feeRate,
                          executedQty := after.executedQty, quoteQty := after.quoteQty)
      && (if j.side == Buy && currency == BaseAsset(j.symbol) then Lowered(before.executedQty, after.executedQty, fee)
          else after.executedQty == before.executedQty)
      && (if j.side == Sell && QuoteAsset(j.symbol) == Some(currency) then Lowered(before.quoteQty, after.quoteQty, fee)
          else after.quoteQty == before.quoteQty)
      && (if currency == "USDT" || currency == "USD" || QuoteAsset(j.symbol) == Some(currency)
          then Rated(before.feeRate, after.feeRate, fee, before.quoteQty)
          else if currency == BaseAsset(j.symbol) then Rated(before.feeRate, after.feeRate, fee, before.executedQty)
          else after.feeRate == before.feeRate)
  }

  lemma RateOf(fee: real, total: real)
    requires total > 0.0 && fee > 0.0
    ensures fee / total * 100.0 * total == fee * 100.0 && fee / total * 100.0 != 0.0
  {
    var x := fee / total;
    assert fee == x * total;
  }

  lemma NetIsMade(e: Execution, j: Job, fee: ExtractedFee)
    requires fee.amount > 0.0
    ensures MadeNet(e, Net(e, j, fee), j)
    ensures Net(e, j, fee).feeAmount == Some(fee.amount) && Net(e, j, fee).feeCurrency == Some(fee.currency)
  {
    FeeRateOf(e, j.symbol, fee);
  }

  lemma FeeRateOf(e: Execution, symbol: string, fee: ExtractedFee)
    requires fee.amount > 0.0
    ensures
      var rate := FeeRate(e, symbol, fee);
      var kept := if rate.Some? && rate.value != 0.0 then rate else e.feeRate;
      if fee.currency == "USDT" || fee.currency == "USD" || QuoteAsset(symbol) == Some(fee.currency)
      then Rated(e.feeRate, kept, fee.amount, e.quoteQty)
      else if fee.currency == BaseAsset(symbol) then Rated(e.feeRate, kept, fee.amount, e.executedQty)
      else kept == e.feeRate
  {
    if e.quoteQty > 0.0 {
      RateOf(fee.amount, e.quoteQty);
    }
    if e.executedQty > 0.0 {
      RateOf(fee.amount, e.executedQty);
    }
  }

  /** A task with a fee makes its execution net of it, as it was selected, and touches no other execution. */
  lemma TaskMakesNet(t: Task, db: Db)
    requires Charges(t) && t.execution in db.executions
    ensures
      var after := SyncOne(t, db).executions;
      && t.execution in after && after == db.executions[t.execution := after[t.execution]]
      && MadeNet(t.row, after[t.execution], t.job)
      && after[t.execution].feeAmount == Some(t.fee.value.amount)
      && after[t.execution].feeCurrency == Some(t.fee.value.currency)
  {
    NetIsMade(t.row, t.job, t.fee.value);
  }

  /** The row is as it was, or it had no fee and was made net, once, of the fee it now records. */
  ghost predicate NetAtMostOnce(before: Execution, after: Execution, j: Job) {
    after == before || (before.feeAmount.None? && MadeNet(before, after, j))
  }

  ghost predicate NettedAtMostOnce(before: Db, after: Db) {
    && after.jobs == before.jobs
    && after.executions.Keys == before.executions.Keys
    && forall e <- before.executions :: before.executions[e].job in before.jobs ==>
         NetAtMostOnce(before.executions[e], after.executions[e], before.jobs[before.executions[e].job])
  }

  lemma {:induction false} ScheduleNetsOnce(tasks: seq<Task>, db: Db, c: Config, schedule: seq<nat>)
    requires |c.locals| == |tasks| && Within(schedule, |tasks|)
    requires Selected(tasks, db) && NettedAtMostOnce(db, c.db)
    ensures NettedAtMostOnce(db, Interleave(tasks, c, schedule).db)
    decreases |schedule|
  {
    if schedule == [] {
    } else {
      var t := tasks[schedule[0]];
      if Charges(t) {
        NetIsMade(t.row, t.job, t.fee.value);
      }
      ScheduleNetsOnce(tasks, db, StepOf(tasks, c, schedule[0]), schedule[1..]);
    }
  }

  /** Main result: over any number of calls, under any interleaving, even cut short, an execution is
      made net of its fee once or not at all. */
  lemma {:induction false} NetOnceOverHistory(db: Db, rounds: seq<Round>, end: Db)
    requires History(db, rounds, end)
    ensures NettedAtMostOnce(db, end)
    decreases |rounds|
  {
    if rounds == [] {
    } else {
      var r := rounds[0];
      ScheduleNetsOnce(r.tasks, db, Start(r.tasks, db), r.schedule);
      NetOnceOverHistory(RunRound(db, r), rounds[1..], end);
    }
  }

  /** What the endpoint selects is a selection in this sense, so its calls make up such histories. */
  lemma EndpointSelects(db: Db, answers: map<int, ExtractedFee>)
    ensures Selected(SelectTasks(db, answers, db.nextExecution), db)
  {
    SelectionIsFresh(db, answers, db.nextExecution);
  }

  /** The rows the endpoint looks for. */
  predicate WithoutFee(db: Db, e: int) {
    e in db.executions && db.executions[e].live && db.executions[e].feeAmount.None? && db.executions[e].job in db.jobs
  }

  /** The selection is in the order of ids, of live executions without a fee, and an execution has the exchange's
      answer exactly when it has an order there and the exchange gave one. */
  lemma {:induction false} SelectionInOrder(db: Db, answers: map<int, ExtractedFee>, bound: int)
    ensures
      var tasks := SelectTasks(db, answers, bound);
      && (forall t <- tasks :: WithoutFee(db, t.execution) && 0 < t.execution < bound)
      && (forall i, j :: 0 <= i < j < |tasks| ==> tasks[i].execution < tasks[j].execution)
      && (forall t <- tasks ::
            t.fee == if t.execution in answers && t.row.order != NoOrder then Some(answers[t.execution]) else None)
    decreases bound
  {
    if bound > 1 {
      SelectionInOrder(db, answers, bound - 1);
    }
  }

  ghost predicate Selects(tasks: seq<Task>, e: int) {
    exists i :: 0 <= i < |tasks| && tasks[i].execution == e
  }

  /** The first fifty: an execution without a fee is selected unless fifty before it are. */
  lemma {:induction false} SelectionIsFirstFifty(db: Db, answers: map<int, ExtractedFee>, bound: int, e: int)
    requires 0 < e < bound && WithoutFee(db, e)
    ensures
      var tasks := SelectTasks(db, answers, bound);
      Selects(tasks, e) || (|tasks| == 50 && forall t <- tasks :: t.execution < e)
    decreases bound
  {
    var before, tasks := SelectTasks(db, answers, bound - 1), SelectTasks(db, answers, bound);
    SelectionInOrder(db, answers, bound - 1);
    if e < bound - 1 {
      SelectionIsFirstFifty(db, answers, bound - 1, e);
      if i :| 0 <= i < |before| && before[i].execution == e {
        assert tasks[i].execution == e;
      }
    } else if |before| < 50 {
      assert tasks[|before|].execution == e;
    }
  }

  lemma {:induction false} SelectionIsFresh(db: Db, answers: map<int, ExtractedFee>, bound: int)
    ensures Selected(SelectTasks(db, answers, bound), db)
    ensures forall t <- SelectTasks(db, answers, bound) :: t.execution < bound
    decreases bound
  {
    if bound > 1 {
      SelectionIsFresh(db, answers, bound - 1);
    }
  }
}
