/** Detecting the orders that are on the exchange but not in the ledger,
    importing them, and detecting again. */
module Detect {
  import opened Tables
  import opened LedgerModel

  /** A trade as the exchange reports it; several trades may belong to one order. */
  datatype ExchangeTrade = ExchangeTrade(
    order: string, symbol: string, side: Side, amount: real, price: real, cost: real,
    feeCost: real, feeCurrency: string, timestamp: int)

  predicate InLedger(executions: map<int, Execution>, account: int, order: string) {
    exists e <- executions :: executions[e].account == account && executions[e].order == ExchangeOrder(order)
  }

  /** The trades whose order has no execution in the account. */
  function MissingTrades(db: Db, account: int, trades: seq<ExchangeTrade>): (missing: seq<ExchangeTrade>)
    ensures forall t :: t in missing <==> t in trades && !InLedger(db.executions, account, t.order)
  {
    if trades == [] then []
    else
      var t := trades[|trades| - 1];
      assert trades == trades[..|trades| - 1] + [t];
      var rest := MissingTrades(db, account, trades[..|trades| - 1]);
      if InLedger(db.executions, account, t.order) then rest else rest + [t]
  }

  function Concat(bySymbol: seq<seq<ExchangeTrade>>): seq<ExchangeTrade> {
    if bySymbol == [] then [] else Concat(bySymbol[..|bySymbol| - 1]) + bySymbol[|bySymbol| - 1]
  }

  lemma {:induction false} MissingAppend(db: Db, account: int, a: seq<ExchangeTrade>, b: seq<ExchangeTrade>)
    ensures MissingTrades(db, account, a + b) == MissingTrades(db, account, a) + MissingTrades(db, account, b)
  {
    if b == [] {
      assert a + b == a;
    } else {
      assert (a + b)[..|a + b| - 1] == a + b[..|b| - 1];
      MissingAppend(db, account, a, b[..|b| - 1]);
    }
  }

  /** `GET detect-missing-orders`, with the trades the exchange returned for each symbol. */
  method DetectMissingOrders(ledger: Ledger, account: int, bySymbol: seq<seq<ExchangeTrade>>)
    returns (missing: seq<ExchangeTrade>)
    ensures missing == MissingTrades(ledger.Rows(), account, Concat(bySymbol))
  {
    missing := [];
    for i := 0 to |bySymbol|
      invariant missing == MissingTrades(ledger.Rows(), account, Concat(bySymbol[..i]))
    {
      ghost var before := missing;
      for k := 0 to |bySymbol[i]|
        invariant missing == before + MissingTrades(ledger.Rows(), account, bySymbol[i][..k])
      {
        assert bySymbol[i][..k + 1][..k] == bySymbol[i][..k];
        if !InLedger(ledger.executions, account, bySymbol[i][k].order) {
          missing := missing + [bySymbol[i][k]];
        }
      }
      assert bySymbol[i][..|bySymbol[i]|] == bySymbol[i];
      assert bySymbol[..i + 1][..i] == bySymbol[..i];
      MissingAppend(ledger.Rows(), account, Concat(bySymbol[..i]), bySymbol[i]);
    }
    assert bySymbol[..|bySymbol|] == bySymbol;
  }

  // ------------------------------------------------------------------
  // What an import adds
  // ------------------------------------------------------------------

  /** The quantity executed for an order, over the executions with an id below a bound. */
  function ExecutedFor(executions: map<int, Execution>, account: int, order: string, bound: int): real
    decreases bound
  {
    if bound <= 1 then 0.0
    else
      var e := bound - 1;
      ExecutedFor(executions, account, order, e)
      + if e in executions && executions[e].account == account && executions[e].order == ExchangeOrder(order)
        then executions[e].executedQty else 0.0
  }

  ghost predicate FreshIds(db: Db) {
    db.nextExecution > 0 && forall e <- db.executions :: e < db.nextExecution
  }

  lemma {:induction false} ExecutedBelow(a: map<int, Execution>, b: map<int, Execution>, account: int,
    order: string, bound: int)
    requires forall e :: e < bound ==> (e in a <==> e in b) && (e in a ==> a[e] == b[e])
    ensures ExecutedFor(a, account, order, bound) == ExecutedFor(b, account, order, bound)
    decreases bound
  {
    if bound > 1 {
      ExecutedBelow(a, b, account, order, bound - 1);
    }
  }

  lemma {:induction false} NothingExecuted(executions: map<int, Execution>, account: int, order: string, bound: int)
    requires !InLedger(executions, account, order)
    ensures ExecutedFor(executions, account, order, bound) == 0.0
    decreases bound
  {
    if bound > 1 {
      NothingExecuted(executions, account, order, bound - 1);
    }
  }

  lemma OneImport(db: Db, account: Account, o: Order, now: int, order: string)
    requires FreshIds(db)
    ensures
      var (after, ok) := ImportOne(db, account, o, now);
      && FreshIds(after)
      && (InLedger(after.executions, account.id, order) <==>
          InLedger(db.executions, account.id, order) || (ok && o.orderId == order))
      && ExecutedFor(after.executions, account.id, order, after.nextExecution) ==
         ExecutedFor(db.executions, account.id, order, db.nextExecution)
         + if ok && o.orderId == order then o.qty else 0.0
  {
    var (after, ok) := ImportOne(db, account, o, now);
    ExecutedBelow(after.executions, db.executions, account.id, order, db.nextExecution);
    if ok {
      ImportedExecution(db, account, o, now);
      assert forall e <- db.executions :: after.executions[e] == db.executions[e];
      assert after.executions[db.nextExecution].order == ExchangeOrder(o.orderId);
    } else {
      assert after.executions == db.executions;
    }
  }

  lemma ImportedExecution(db: Db, account: Account, o: Order, now: int)
    requires ImportOne(db, account, o, now).1
    ensures
      var after := ImportOne(db, account, o, now).0;
      && after.executions == db.executions[db.nextExecution := ImportExecution(account, o, db.nextJob)]
      && after.nextExecution == db.nextExecution + 1
  {
  }

  predicate ImportedAny(orders: seq<Order>, ok: seq<bool>, order: string)
    requires |ok| == |orders|
  {
    exists i :: 0 <= i < |orders| && ok[i] && orders[i].orderId == order
  }

  function ImportedQty(orders: seq<Order>, ok: seq<bool>, order: string): real
    requires |ok| == |orders|
  {
    if orders == [] then 0.0
    else
      var n := |orders| - 1;
      ImportedQty(orders[..n], ok[..n], order) + if ok[n] && orders[n].orderId == order then orders[n].qty else 0.0
  }

  lemma {:induction false} WholeImport(db: Db, account: Account, orders: seq<Order>, now: int, order: string)
    requires FreshIds(db)
    ensures |ImportAll(db, account, orders, now).1| == |orders|
    ensures
      var (after, ok) := ImportAll(db, account, orders, now);
      && FreshIds(after)
      && (InLedger(after.executions, account.id, order) <==>
          InLedger(db.executions, account.id, order) || ImportedAny(orders, ok, order))
      && ExecutedFor(after.executions, account.id, order, after.nextExecution) ==
         ExecutedFor(db.executions, account.id, order, db.nextExecution) + ImportedQty(orders, ok, order)
  {
    if orders != [] {
      var n := |orders| - 1;
      WholeImport(db, account, orders[..n], now, order);
      var (before, done) := ImportAll(db, account, orders[..n], now);
      OneImport(before, account, orders[n], now, order);
      var ok := ImportAll(db, account, orders, now).1;
      assert ok[..n] == done;
      AnyGrows(orders, ok, order);
    }
  }

  lemma AnyGrows(orders: seq<Order>, ok: seq<bool>, order: string)
    requires |ok| == |orders| > 0
    ensures
      var n := |orders| - 1;
      ImportedAny(orders, ok, order) <==>
      ImportedAny(orders[..n], ok[..n], order) || (ok[n] && orders[n].orderId == order)
  {
    var n := |orders| - 1;
    if i :| 0 <= i < n && ok[..n][i] && orders[..n][i].orderId == order {
      assert ok[i] && orders[i].orderId == order;
    }
    if i :| 0 <= i < |orders| && ok[i] && orders[i].orderId == order {
      assert i < n ==> ok[..n][i] && orders[..n][i].orderId == order;
    }
  }

  // ------------------------------------------------------------------
  // Detect, import, detect
  // ------------------------------------------------------------------

  /** The import request made from a detection: one order for each missing trade. */
  ghost predicate Requests(orders: seq<Order>, missing: seq<ExchangeTrade>) {
    && |orders| == |missing|
    && forall i :: 0 <= i < |orders| ==> orders[i].orderId == missing[i].order && orders[i].qty == missing[i].amount
  }

  function AmountOf(trades: seq<ExchangeTrade>, order: string): real {
    if trades == [] then 0.0
    else
      var t := trades[|trades| - 1];
      AmountOf(trades[..|trades| - 1], order) + if t.order == order then t.amount else 0.0
  }

  /** Main result: after importing what was detected, a second detection over the same trades reports a
      trade exactly when its order was missing and none of its trades was imported. */
  lemma SecondDetectionIff(db: Db, account: Account, trades: seq<ExchangeTrade>,
    orders: seq<Order>, now: int, t: ExchangeTrade)
    requires FreshIds(db) && Requests(orders, MissingTrades(db, account.id, trades))
    ensures |ImportAll(db, account, orders, now).1| == |orders|
    ensures
      var (after, ok) := ImportAll(db, account, orders, now);
      t in MissingTrades(after, account.id, trades) <==>
      t in MissingTrades(db, account.id, trades) && !ImportedAny(orders, ok, t.order)
  {
    WholeImport(db, account, orders, now, t.order);
  }

  /** Main result: when every detected order is imported, the gap is closed: nothing is missing, and every
      order that was missing is executed for the amount of its trades. */
  lemma GapCloses(db: Db, account: Account, trades: seq<ExchangeTrade>, orders: seq<Order>, now: int)
    requires FreshIds(db) && Requests(orders, MissingTrades(db, account.id, trades))
    requires forall ok <- ImportAll(db, account, orders, now).1 :: ok
    ensures
      var after := ImportAll(db, account, orders, now).0;
      && MissingTrades(after, account.id, trades) == []
      && forall t <- MissingTrades(db, account.id, trades) ::
           ExecutedFor(after.executions, account.id, t.order, after.nextExecution) == AmountOf(trades, t.order)
  {
    var (after, ok) := ImportAll(db, account, orders, now);
    var missing := MissingTrades(db, account.id, trades);
    var left := MissingTrades(after, account.id, trades);
    assert left != [] ==> left[0] in left;
    WholeImport(db, account, orders, now, "");
    forall t | t in missing
      ensures ImportedAny(orders, ok, t.order)
    {
      var i :| 0 <= i < |missing| && missing[i] == t;
      assert ok[i] in ok && orders[i].orderId == t.order;
    }
    forall t: ExchangeTrade
      ensures t !in left
    {
      SecondDetectionIff(db, account, trades, orders, now, t);
    }
    forall t | t in missing
      ensures ExecutedFor(after.executions, account.id, t.order, after.nextExecution) == AmountOf(trades, t.order)
    {
      WholeImport(db, account, orders, now, t.order);
      NothingExecuted(db.executions, account.id, t.order, db.nextExecution);
      AllImported(orders, ok, missing, t.order);
      MissingAmount(db, account.id, trades, t.order);
    }
  }

  lemma {:induction false} AllImported(orders: seq<Order>, ok: seq<bool>, missing: seq<ExchangeTrade>, order: string)
    requires |ok| == |orders| && (forall b <- ok :: b) && Requests(orders, missing)
    ensures ImportedQty(orders, ok, order) == AmountOf(missing, order)
  {
    if orders != [] {
      var n := |orders| - 1;
      assert ok[n] in ok && forall b <- ok[..n] :: b in ok;
      AllImported(orders[..n], ok[..n], missing[..n], order);
    }
  }

  lemma {:induction false} MissingAmount(db: Db, account: int, trades: seq<ExchangeTrade>, order: string)
    requires !InLedger(db.executions, account, order)
    ensures AmountOf(MissingTrades(db, account, trades), order) == AmountOf(trades, order)
  {
    if trades != [] {
      var t, rest := trades[|trades| - 1], trades[..|trades| - 1];
      MissingAmount(db, account, rest, order);
      var kept := MissingTrades(db, account, rest);
      assert (kept + [t])[..|kept|] == kept;
      assert InLedger(db.executions, account, t.order) ==> MissingTrades(db, account, trades) == kept;
    }
  }

  /** The quantity of an order whose imports failed. */
  function FailedQty(orders: seq<Order>, ok: seq<bool>, order: string): real
    requires |ok| == |orders|
  {
    if orders == [] then 0.0
    else
      var n := |orders| - 1;
      FailedQty(orders[..n], ok[..n], order) + if !ok[n] && orders[n].orderId == order then orders[n].qty else 0.0
  }

  lemma {:induction false} ImportedOrFailed(orders: seq<Order>, ok: seq<bool>,
    missing: seq<ExchangeTrade>, order: string)
    requires |ok| == |orders| && Requests(orders, missing)
    ensures ImportedQty(orders, ok, order) + FailedQty(orders, ok, order) == AmountOf(missing, order)
  {
    if orders != [] {
      var n := |orders| - 1;
      ImportedOrFailed(orders[..n], ok[..n], missing[..n], order);
    }
  }

  /** Otherwise the gap can stay open unseen: once one trade of an order is imported, its other trades are
      no longer reported, and what was executed for the order lacks exactly the trades whose import failed. */
  lemma PartlyImportedOrderHides(
    db: Db, account: Account, trades: seq<ExchangeTrade>, orders: seq<Order>, now: int, order: string)
    requires FreshIds(db) && Requests(orders, MissingTrades(db, account.id, trades))
    requires !InLedger(db.executions, account.id, order)
    requires |ImportAll(db, account, orders, now).1| == |orders|
    requires ImportedAny(orders, ImportAll(db, account, orders, now).1, order)
    ensures
      var (after, ok) := ImportAll(db, account, orders, now);
      && (forall t <- MissingTrades(after, account.id, trades) :: t.order != order)
      && ExecutedFor(after.executions, account.id, order, after.nextExecution) ==
         AmountOf(trades, order) - FailedQty(orders, ok, order)
  {
    WholeImport(db, account, orders, now, order);
    NothingExecuted(db.executions, account.id, order, db.nextExecution);
    ImportedOrFailed(orders, ImportAll(db, account, orders, now).1, MissingTrades(db, account.id, trades), order);
    MissingAmount(db, account.id, trades, order);
  }

  /** Such an order: two trades sell 1 and 2 units of it, and the second is imported without a position. */
  lemma HalfImportedOrder(account: Account, now: int)
    ensures
      var bought := Order("b", "BTCUSDT", Buy, 5.0, 10.0, 50.0, 0.0, "USDT", now, None);
      var db := ImportOne(EMPTY_DB, account, bought, now).0;
      var one := ExchangeTrade("o", "BTCUSDT", Sell, 1.0, 10.0, 10.0, 0.0, "USDT", now);
      var trades := [one, one.(amount := 2.0)];
      var sold := Order("o", "BTCUSDT", Sell, 1.0, 10.0, 10.0, 0.0, "USDT", now, Some(1));
      var orders := [sold, sold.(qty := 2.0, positionId := None)];
      && FreshIds(db) && MissingTrades(db, account.id, trades) == trades && Requests(orders, trades)
      && ImportAll(db, account, orders, now).1 == [true, false]
      && ImportedAny(orders, [true, false], "o") && FailedQty(orders, [true, false], "o") == 2.0
  {
    var bought := Order("b", "BTCUSDT", Buy, 5.0, 10.0, 50.0, 0.0, "USDT", now, None);
    var db := ImportOne(EMPTY_DB, account, bought, now).0;
    var one := ExchangeTrade("o", "BTCUSDT", Sell, 1.0, 10.0, 10.0, 0.0, "USDT", now);
    var two := one.(amount := 2.0);
    var sold := Order("o", "BTCUSDT", Sell, 1.0, 10.0, 10.0, 0.0, "USDT", now, Some(1));
    var rest := sold.(qty := 2.0, positionId := None);
    assert IsValidSymbol("BTCUSDT") && "b"[0] != "o"[0];
    OneBought(account, bought, now, "o");
    BothMissing(db, account.id, one, two);
    OneOfTwo(db, account, sold, now);
  }

  lemma OneBought(account: Account, bought: Order, now: int, order: string)
    requires Acceptable(bought) && bought.side == Buy && bought.orderId != order
    ensures
      var db := ImportOne(EMPTY_DB, account, bought, now).0;
      FreshIds(db) && 1 in db.positions && !InLedger(db.executions, account.id, order)
  {
    var db := ImportOne(EMPTY_DB, account, bought, now).0;
    assert db.executions == map[1 := ImportExecution(account, bought, 1)];
  }

  lemma BothMissing(db: Db, account: int, one: ExchangeTrade, two: ExchangeTrade)
    requires !InLedger(db.executions, account, one.order) && two.order == one.order
    ensures MissingTrades(db, account, [one, two]) == [one, two]
  {
    assert [one, two][..1] == [one] && [one][..0] == [];
    assert MissingTrades(db, account, [one]) == [one];
  }

  lemma OneOfTwo(db: Db, account: Account, sold: Order, now: int)
    requires sold.side == Sell && sold.positionId == Some(1) && IsValidSymbol(sold.symbol) && 1 in db.positions
    ensures
      var orders := [sold, sold.(qty := 2.0, positionId := None)];
      && ImportAll(db, account, orders, now).1 == [true, false]
      && ImportedAny(orders, [true, false], sold.orderId) && FailedQty(orders, [true, false], sold.orderId) == 2.0
  {
    var rest := sold.(qty := 2.0, positionId := None);
    assert Acceptable(sold) && !Acceptable(rest);
    assert [sold, rest][..1] == [sold] && [sold][..0] == [];
    assert [true, false][..1] == [true] && [true][..0] == [];
    assert ImportAll(db, account, [sold], now).1 == [true];
    assert [sold, rest][0].orderId == sold.orderId && [true, false][0];
    assert FailedQty([sold], [true], sold.orderId) == 0.0;
  }
}
