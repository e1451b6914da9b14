/** When the recomputation leaves a position's quantities and status in agreement
    with its fills. */
module RecomputeBalance {
  import opened Tables
  import opened LedgerModel
  import opened Recompute
  import opened RecomputeProofs
  import opened Runs

  function SideQty(fills: seq<Fill>, side: Side): real {
    if fills == [] then 0.0
    else
      var f := fills[|fills| - 1];
      SideQty(fills[..|fills| - 1], side) + if f.side == side then f.qty else 0.0
  }

  /** By how much the BUY fills, once synced, exceed what their executions executed: differences that are too
      small to notice are not synced. */
  function Drift(fills: seq<Fill>, known: map<int, Execution>): real {
    if fills == [] then 0.0
    else
      var f := fills[|fills| - 1];
      Drift(fills[..|fills| - 1], known)
      + if f.side == Buy && f.execution in known then Synced(f, known).qty - known[f.execution].executedQty else 0.0
  }

  lemma {:induction false} FilledIsSideQty(table: seq<Fill>, id: int, side: Side)
    ensures FilledQty(table, id, side) == SideQty(FillsOf(table, id), side)
  {
    if table != [] {
      var f, rest := table[|table| - 1], table[..|table| - 1];
      FilledIsSideQty(rest, id, side);
      var mine := FillsOf(rest, id);
      assert (mine + [f])[..|mine|] == mine;
    }
  }

  /** What one fill of a known execution adds. */
  lemma OneFill(f: Fill, known: map<int, Execution>, symbol: string)
    requires f.execution in known && f.qty >= 0.0 && known[f.execution].executedQty >= 0.0
    ensures
      var c := FillCharge(known, symbol)(f);
      && c.buyQty >= 0.0 && c.sellQty >= 0.0
      && c.sellQty == (if f.side == Sell then f.qty else 0.0)
      && c.buyQty == (if f.side == Buy then known[f.execution].executedQty else 0.0)
  {
    assert FillCharge(known, symbol)(f) == Contribution(known, symbol, f);
  }

  lemma SideQtyNext(fills: seq<Fill>, f: Fill, side: Side)
    ensures SideQty(fills + [f], side) == SideQty(fills, side) + if f.side == side then f.qty else 0.0
  {
    assert (fills + [f])[..|fills|] == fills;
  }

  lemma {:induction false} SyncedQuantities(kept: seq<Fill>, known: map<int, Execution>, symbol: string)
    requires forall f <- kept :: f.execution in known && f.qty >= 0.0 && known[f.execution].executedQty >= 0.0
    ensures
      var t, synced := Tally(known, symbol, kept), SyncedAll(kept, known);
      && SideQty(synced, Sell) == t.sellQty && SideQty(synced, Buy) == t.buyQty + Drift(kept, known)
      && t.sellQty >= 0.0 && t.buyQty >= 0.0
  {
    if kept != [] {
      var f, rest := kept[|kept| - 1], kept[..|kept| - 1];
      assert f in kept && forall g <- rest :: g in kept;
      SyncedQuantities(rest, known, symbol);
      OneFill(f, known, symbol);
      SideQtyNext(SyncedAll(rest, known), Synced(f, known), Sell);
      SideQtyNext(SyncedAll(rest, known), Synced(f, known), Buy);
      assert Tally(known, symbol, kept) == Tally(known, symbol, rest).Plus(FillCharge(known, symbol)(f));
    }
  }

  /** Main result: a recomputed position agrees with its fills if and only if no unnoticeable difference is
      left between its BUY fills and their executions, the known sales are covered by the known purchases,
      and it was closed exactly if what they leave is dust: the recomputation never writes the status. */
  lemma RecomputeKeepsBalanceIff(db: Db, id: int, symbol: string, grouped: set<int>)
    requires id in db.positions && DistinctIds(db.fills) && forall f <- db.fills :: f.qty >= 0.0
    requires forall e <- db.executions :: db.executions[e].executedQty >= 0.0
    ensures
      var known, mine := KnownExecutions(db, db.positions[id], grouped), FillsOf(db.fills, id);
      var t := GroupTotals(mine, known, symbol);
      id in RecomputeOne(db, id, symbol, grouped).positions
      && (Balanced(RecomputeOne(db, id, symbol, grouped), id) <==>
          && Drift(Survivors(mine, mine, known), known) == 0.0
          && t.sellQty <= t.buyQty
          && (db.positions[id].status == Closed <==> t.buyQty - t.sellQty <= DUST))
  {
    var known, mine := KnownExecutions(db, db.positions[id], grouped), FillsOf(db.fills, id);
    var kept, after := Survivors(mine, mine, known), RecomputeOne(db, id, symbol, grouped);
    OwnFillsDistinct(db.fills, id);
    RecomputeWritesGroupTotals(db, id, symbol, grouped);
    CleanedFills(db.fills, id, mine, known);
    FilledIsSideQty(after.fills, id, Buy);
    FilledIsSideQty(after.fills, id, Sell);
    SurvivorsAreUnique(mine, known);
    SumPermuted(FillCharge(known, symbol), kept, UniqueFills(mine, known));
    SyncedQuantities(kept, known, symbol);
  }

  /** Such a position: two units are bought and sold by another job, and the recomputation leaves it closed
      with both units in stock. */
  lemma ClosedWithStock(account: Account, now: int)
    ensures
      var bought := Order("b", "BTCUSDT", Buy, 2.0, 10.0, 20.0, 0.0, "USDT", now, None);
      var sold := Order("s", "BTCUSDT", Sell, 2.0, 10.0, 20.0, 0.0, "USDT", now, Some(1));
      var two := ImportOne(ImportOne(EMPTY_DB, account, bought, now).0, account, sold, now).0;
      && 1 in two.positions && Balanced(two, 1) && two.positions[1].status == Closed
      && 1 in RecomputeOne(two, 1, "BTCUSDT", {}).positions
      && !Balanced(RecomputeOne(two, 1, "BTCUSDT", {}), 1)
  {
    var bought := Order("b", "BTCUSDT", Buy, 2.0, 10.0, 20.0, 0.0, "USDT", now, None);
    var sold := Order("s", "BTCUSDT", Sell, 2.0, 10.0, 20.0, 0.0, "USDT", now, Some(1));
    assert IsValidSymbol("BTCUSDT") && Acceptable(bought) && Acceptable(sold);
    var one := ImportOne(EMPTY_DB, account, bought, now).0;
    var two := ImportOne(one, account, sold, now).0;
    ImportConserves(EMPTY_DB, account, bought, now);
    ImportConserves(one, account, sold, now);
    BoughtAndSold(account, bought, sold, now);
    OnlyPurchaseKept(two, two.fills[0], two.fills[1]);
  }

  lemma BoughtAndSold(account: Account, bought: Order, sold: Order, now: int)
    requires Acceptable(bought) && bought.side == Buy && bought.qty == 2.0
    requires Acceptable(sold) && sold.side == Sell && sold.qty == 2.0 && sold.positionId == Some(1)
    ensures
      var two := ImportOne(ImportOne(EMPTY_DB, account, bought, now).0, account, sold, now).0;
      && ImportOne(ImportOne(EMPTY_DB, account, bought, now).0, account, sold, now).1
      && two.fills == [Fill(1, 1, 1, Buy, 2.0, bought.price, now), Fill(2, 1, 2, Sell, 2.0, sold.price, now)]
      && 1 in two.positions && two.positions[1].openJob == 1 && two.positions[1].status == Closed
      && two.executions.Keys == {1, 2} && two.executions[1].job == 1 && two.executions[2].job == 2
      && two.executions[1].executedQty == 2.0 && two.executions[2].executedQty == 2.0
  {
    var one := ImportOne(EMPTY_DB, account, bought, now).0;
    assert one.positions == map[1 := OpenedPosition(account, bought, 1)];
    assert one.executions == map[1 := ImportExecution(account, bought, 1)];
    assert one.fills == [Fill(1, 1, 1, Buy, 2.0, bought.price, now)];
  }

  lemma OnlyPurchaseKept(db: Db, f: Fill, g: Fill)
    requires 1 in db.positions && db.positions[1].status == Closed && db.positions[1].openJob == 1
    requires db.executions.Keys == {1, 2} && db.executions[1].job == 1 && db.executions[2].job == 2
    requires db.executions[1].executedQty == 2.0 && db.executions[2].executedQty >= 0.0
    requires db.fills == [f, g] && f.id != g.id && f.position == g.position == 1 && f.qty >= 0.0 && g.qty >= 0.0
    requires f.execution == 1 && f.side == Buy && g.execution == 2 && g.side == Sell
    ensures 1 in RecomputeOne(db, 1, "BTCUSDT", {}).positions && !Balanced(RecomputeOne(db, 1, "BTCUSDT", {}), 1)
  {
    var known := KnownExecutions(db, db.positions[1], {});
    assert GroupTotals(FillsOf(db.fills, 1), known, "BTCUSDT").buyQty == 2.0
           && GroupTotals(FillsOf(db.fills, 1), known, "BTCUSDT").sellQty == 0.0 by {
      assert 1 in known && 2 !in known;
      BothMine(f, g);
      OnePurchase(f, g, known, "BTCUSDT");
    }
    RecomputeKeepsBalanceIff(db, 1, "BTCUSDT", {});
  }

  lemma BothMine(f: Fill, g: Fill)
    requires f.position == g.position
    ensures FillsOf([f, g], f.position) == [f, g]
  {
    FillsOfAppend([], f, f.position);
    FillsOfAppend([f], g, f.position);
    assert [] + [f] == [f] && [f] + [g] == [f, g];
  }

  lemma OnePurchase(f: Fill, g: Fill, known: map<int, Execution>, symbol: string)
    requires f.side == Buy && f.execution in known && g.execution !in known && f.qty >= 0.0
    requires known[f.execution].executedQty == 2.0
    ensures GroupTotals([f, g], known, symbol).buyQty == 2.0 && GroupTotals([f, g], known, symbol).sellQty == 0.0
  {
    AloneIsNewest([f, g]);
    assert Newests([f, g]) == [f, g];
    KnownOnlyNext([], f, known);
    KnownOnlyNext([f], g, known);
    assert [] + [f] == [f] && [f] + [g] == [f, g];
    assert UniqueFills([f, g], known) == [f];
    SumOfOne(FillCharge(known, symbol), f);
    OneFill(f, known, symbol);
  }
}
