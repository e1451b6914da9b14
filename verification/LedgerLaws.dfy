/** What the endpoints that create fills leave in the tables, column by column,
    and exactly when each of them refuses. */
module LedgerLaws {
  import opened Tables
  import opened LedgerModel

  // ------------------------------------------------------------------
  // Importing
  // ------------------------------------------------------------------

  /** At least four characters, all of them capital letters or digits. */
  ghost predicate TradingSymbol(symbol: string) {
    |symbol| >= 4 && forall c <- symbol :: c in "ABCDEFGHIJKLMNOPQRSTUVWXYZ" || c in "0123456789"
  }

  lemma CapitalIff(c: char)
    ensures c in "ABCDEFGHIJKLMNOPQRSTUVWXYZ" <==> 'A' <= c <= 'Z'
  {
    var letters := "ABCDEFGHIJKLMNOPQRSTUVWXYZ";
    if 'A' <= c <= 'Z' {
      var i := c as int - 'A' as int;
      assert letters[i] == c;
    }
  }

  lemma DigitIff(c: char)
    ensures c in "0123456789" <==> '0' <= c <= '9'
  {
    var digits := "0123456789";
    if '0' <= c <= '9' {
      var i := c as int - '0' as int;
      assert digits[i] == c;
    }
  }

  /** An order is imported exactly when its symbol is a trading symbol and, for a SELL, it names a position
      that exists by a positive id; otherwise no row changes. */
  lemma ImportedIff(db: Db, account: Account, o: Order, now: int)
    ensures
      var (after, ok) := ImportOne(db, account, o, now);
      && (ok <==>
          && TradingSymbol(o.symbol)
          && (o.side == Sell ==> o.positionId.Some? && o.positionId.value > 0 && o.positionId.value in db.positions))
      && (!ok ==> after == db.(nextJob := after.nextJob, nextExecution := after.nextExecution)
                  && after.nextJob >= db.nextJob && after.nextExecution >= db.nextExecution)
  {
    forall c
      ensures c in "ABCDEFGHIJKLMNOPQRSTUVWXYZ" <==> 'A' <= c <= 'Z'
      ensures c in "0123456789" <==> '0' <= c <= '9'
    {
      CapitalIff(c);
      DigitIff(c);
    }
  }

  /** The job and the execution that an import records. */
  ghost predicate RecordsOrder(db: Db, after: Db, account: Account, o: Order, now: int) {
    && db.nextJob in after.jobs && db.nextExecution in after.executions
    && after.jobs == db.jobs[db.nextJob := after.jobs[db.nextJob]]
    && after.executions == db.executions[db.nextExecution := after.executions[db.nextExecution]]
    && after.nextJob == db.nextJob + 1 && after.nextExecution == db.nextExecution + 1
    && after.nextFill == db.nextFill + 1
    && var j, e := after.jobs[db.nextJob], after.executions[db.nextExecution];
      && j.account == e.account == account.id && (j.live <==> !account.simulated) && (e.live <==> !account.simulated)
      && j.symbol == o.symbol && j.side == o.side && j.baseQty == o.qty && j.createdAt == now
      && j.status == Filled && j.reason == Imported
      && (o.side == Sell ==> j.positionToClose == o.positionId) && (o.side == Buy ==> j.positionToClose == None)
      && e.job == db.nextJob && e.order == ExchangeOrder(o.orderId)
      && e.executedQty == o.qty && e.avgPrice == o.price && e.quoteQty == o.cost
      && e.feeAmount == Some(o.fee) && e.feeCurrency == Some(o.feeCurrency) && e.feeRate == None
      && e.createdAt == o.timestamp
  }

  /** An imported BUY opens a position of its quantity at its price, with no fee on its books. */
  lemma ImportedBuyOpens(db: Db, account: Account, o: Order, now: int)
    requires ImportOne(db, account, o, now).1 && o.side == Buy
    ensures
      var after, id := ImportOne(db, account, o, now).0, db.nextPosition;
      && RecordsOrder(db, after, account, o, now)
      && after.fills == db.fills + [Fill(db.nextFill, id, db.nextExecution, Buy, o.qty, o.price, now)]
      && id in after.positions && after.positions == db.positions[id := after.positions[id]]
      && after.nextPosition == id + 1
      && var r := after.positions[id];
        && r.account == account.id && (r.live <==> !account.simulated) && r.symbol == o.symbol
        && r.openJob == db.nextJob && r.createdAt == o.timestamp
        && r.qtyTotal == r.qtyRemaining == o.qty && r.priceOpen == o.price && r.status == Open
        && r.realizedProfit == r.feesOnBuy == r.feesOnSell == r.totalFees == 0.0
        && r.closeReason == None && r.closedAt == None
  {
  }

  /** What a sale of some quantity at some price does to a position: all it can sell is sold, the profit
      gains what that is worth above the opening price less the fee, and it closes at dust. */
  ghost predicate SellsFrom(p: Position, r: Position, wanted: real, sold: real, price: real, fee: real) {
    && sold <= wanted && sold <= p.qtyRemaining && (sold == wanted || sold == p.qtyRemaining)
    && r.qtyRemaining + sold == p.qtyRemaining
    && (r.status == Closed <==> r.qtyRemaining <= 0.00001)
    && r.realizedProfit == p.realizedProfit + (price - p.priceOpen) * sold - fee
    && r == p.(qtyRemaining := r.qtyRemaining, status := r.status, realizedProfit := r.realizedProfit,
               feesOnSell := r.feesOnSell, totalFees := r.totalFees,
               closeReason := r.closeReason, closedAt := r.closedAt)
  }

  /** An imported SELL sells from the position it names; its fee enters no fee column, and a position that
      stays open forgets how it was closed before. */
  lemma ImportedSaleSells(db: Db, account: Account, o: Order, now: int)
    requires ImportOne(db, account, o, now).1 && o.side == Sell
    ensures
      var after, id := ImportOne(db, account, o, now).0, o.positionId.value;
      && RecordsOrder(db, after, account, o, now)
      && id in db.positions && id in after.positions && after.positions == db.positions[id := after.positions[id]]
      && after.nextPosition == db.nextPosition && |after.fills| == |db.fills| + 1
      && var p, r, f := db.positions[id], after.positions[id], after.fills[|db.fills|];
        && after.fills == db.fills + [Fill(db.nextFill, id, db.nextExecution, Sell, f.qty, o.price, now)]
        && SellsFrom(p, r, o.qty, f.qty, o.price, o.fee)
        && r.feesOnSell == p.feesOnSell && r.totalFees == p.totalFees
        && (r.status == Closed ==> r.closeReason == Some(ByImport) && r.closedAt == Some(o.timestamp))
        && (r.status == Open ==> r.closeReason == None && r.closedAt == None)
  {
  }

  // ------------------------------------------------------------------
  // Attaching
  // ------------------------------------------------------------------

  predicate IsOpen(db: Db, id: Option<int>) {
    id.Some? && id.value in db.positions && db.positions[id.value].status == Open
  }

  predicate IsClosed(db: Db, id: Option<int>) {
    id.Some? && id.value in db.positions && db.positions[id.value].status == Closed
  }

  /** The job exists and has an execution. */
  ghost predicate HasExecution(db: Db, job: int) {
    job in db.jobs && exists e :: 0 < e < db.nextExecution && e in db.executions && db.executions[e].job == job
  }

  /** The position that the request names first for a job. */
  ghost predicate Names(alternatives: seq<Alternative>, job: int, i: nat) {
    && i < |alternatives| && alternatives[i].job == job
    && forall k :: 0 <= k < i ==> alternatives[k].job != job
  }

  lemma {:induction false} AlternativeIff(alternatives: seq<Alternative>, job: int, i: nat)
    requires Names(alternatives, job, i)
    ensures AlternativeFor(alternatives, job) == Some(alternatives[i].position)
  {
    if i > 0 {
      assert forall k :: 0 <= k < i - 1 ==> alternatives[1..][k] == alternatives[k + 1];
      AlternativeIff(alternatives[1..], job, i - 1);
    }
  }

  /** Main result: a sale is attached to the position that its job was to close while that is open, and
      otherwise to the alternative while that is open.  The endpoint asks for an alternative when the first
      is closed and none was given, or when the one given is closed; in all other cases it gives up. */
  lemma TargetIff(db: Db, job: int, alternatives: seq<Alternative>)
    ensures
      var t, alternative := TargetOf(db, job, alternatives), AlternativeFor(alternatives, job);
      && (forall id :: t == Attach(id) <==>
            && HasExecution(db, job)
            && (|| (IsOpen(db, db.jobs[job].positionToClose) && db.jobs[job].positionToClose == Some(id))
                || (!IsOpen(db, db.jobs[job].positionToClose) && IsOpen(db, alternative) && alternative == Some(id))))
      && (t == Ask <==>
          && HasExecution(db, job) && !IsOpen(db, db.jobs[job].positionToClose)
          && ((IsClosed(db, db.jobs[job].positionToClose) && alternative.None?) || IsClosed(db, alternative)))
  {
    if job in db.jobs {
      var latest := LatestExecution(db.executions, job, db.nextExecution);
      assert HasExecution(db, job) <==> latest.Some?;
    }
  }

  /** A refused fix changes nothing; an attached sale sells from its position, enters its fee, in whatever
      currency, in the SELL fees, and marks its job as filled. */
  lemma FixSells(db: Db, job: int, alternatives: seq<Alternative>, now: int)
    ensures
      var t, (after, r) := TargetOf(db, job, alternatives), FixOne(db, job, alternatives, now);
      match t
      case Refuse => after == db && r == NotFixed(job)
      case Ask => after == db && r == NeedsAlternative(job)
      case Attach(id) =>
        var exec := LatestExecution(db.executions, job, db.nextExecution).value;
        var e := db.executions[exec];
        var fee := if e.feeAmount.Some? then e.feeAmount.value else 0.0;
        && r == Fixed(job, id, e.executedQty)
        && id in after.positions && |after.fills| == |db.fills| + 1
        && var p, q, f := db.positions[id], after.positions[id], after.fills[|db.fills|];
          && after == db.(positions := db.positions[id := q], fills := db.fills + [f], jobs := after.jobs,
                          nextFill := db.nextFill + 1)
          && f == Fill(db.nextFill, id, exec, Sell, f.qty, e.avgPrice, now)
          && SellsFrom(p, q, e.executedQty, f.qty, e.avgPrice, fee)
          && q.feesOnSell == p.feesOnSell + fee && q.totalFees == p.totalFees + fee
          && (q.status == Closed ==> q.closeReason == Some(ByManualFix) && q.closedAt == Some(now))
          && (q.status == Open ==> q.closeReason == p.closeReason && q.closedAt == p.closedAt)
          && after.jobs == db.jobs[job := db.jobs[job].(positionToClose := Some(id),
                                                        status := Filled, reason := ManuallyFixed)]
  {
  }

  // ------------------------------------------------------------------
  // Closing at break-even
  // ------------------------------------------------------------------

  /** The close succeeds exactly for an open position with stock, and is otherwise refused with the first
      reason that applies, without any change. */
  lemma ClosesIff(db: Db, id: int, now: int)
    ensures
      var (after, r) := CloseBreakeven(db, id, now);
      && (r.ClosedBy? <==> id > 0 && id in db.positions && db.positions[id].status == Open
                           && db.positions[id].qtyRemaining > 0.0)
      && (r == BadRequest <==> id <= 0)
      && (r == NotFound <==> id > 0 && id !in db.positions)
      && (r == NotOpen <==> id > 0 && id in db.positions && db.positions[id].status == Closed)
      && (!r.ClosedBy? ==> after == db)
  {
  }

  /** It sells the whole rest at the opening price without a fee: nothing remains, and the profit and the fees
      stay what they were. */
  lemma CloseSellsTheRest(db: Db, id: int, now: int)
    requires CloseBreakeven(db, id, now).1.ClosedBy?
    ensures
      var (after, r) := CloseBreakeven(db, id, now);
      var p := db.positions[id];
      && r == ClosedBy(db.nextJob, db.nextExecution)
      && id in after.positions && db.nextJob in after.jobs && db.nextExecution in after.executions
      && var q, j, e := after.positions[id], after.jobs[db.nextJob], after.executions[db.nextExecution];
        && after == Db(db.jobs[db.nextJob := j], db.executions[db.nextExecution := e], db.positions[id := q],
                       db.fills + [Fill(db.nextFill, id, db.nextExecution, Sell, p.qtyRemaining, p.priceOpen, now)],
                       db.nextJob + 1, db.nextExecution + 1, db.nextPosition, db.nextFill + 1)
        && SellsFrom(p, q, p.qtyRemaining, p.qtyRemaining, p.priceOpen, 0.0)
        && q.qtyRemaining == 0.0 && q.realizedProfit == p.realizedProfit
        && q.feesOnSell == p.feesOnSell && q.totalFees == p.totalFees
        && q.closeReason == Some(ByBreakeven) && q.closedAt == Some(now)
        && j == Job(p.account, p.live, p.symbol, Sell, p.qtyRemaining, Filled, DebugBreakeven, Some(id), now)
        && e.job == db.nextJob && e.account == p.account && e.live == p.live && e.order == BreakevenOrder(now, id)
        && e.executedQty == p.qtyRemaining && e.avgPrice == p.priceOpen && e.quoteQty == p.priceOpen * p.qtyRemaining
        && e.feeAmount == Some(0.0) && e.feeCurrency == None && e.feeRate == None && e.createdAt == now
  {
  }
}
