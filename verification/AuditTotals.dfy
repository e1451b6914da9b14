/** What the audited columns mean in terms of fills and fees, and what the audit
    reports after a recomputation, a fee sync and an import. */
module AuditTotals {
  import opened Collections
  import opened Tables
  import opened LedgerModel
  import opened LedgerLaws
  import opened FeeSync
  import opened FeeSyncCharges
  import opened Recompute
  import opened RecomputeProofs
  import opened AuditFix

  // ------------------------------------------------------------------
  // The columns as sums over fills
  // ------------------------------------------------------------------

  ghost function Total(value: Fill -> real, fills: seq<Fill>): real {
    if fills == [] then 0.0 else Total(value, fills[..|fills| - 1]) + value(fills[|fills| - 1])
  }

  /** The fee is in dollars or in the quote asset of the symbol. */
  ghost predicate PaidInQuote(e: Execution, symbol: string) {
    e.feeCurrency == Some("USDT") || e.feeCurrency == Some("USD") || e.feeCurrency == Some(QuoteOrUsdt(symbol))
  }

  ghost predicate PaidInBase(e: Execution, symbol: string) {
    e.feeCurrency == Some(BaseAsset(symbol)) || (e.feeCurrency == None && BaseAsset(symbol) == "")
  }

  ghost function FeeAmount(e: Execution): real {
    if e.feeAmount.Some? then e.feeAmount.value else 0.0
  }

  /** A purchase's fee in dollars: one in the base asset at the average price, one in an unknown asset not at all. */
  ghost function PurchaseFee(e: Execution, symbol: string): real {
    if PaidInBase(e, symbol) then Worth(e.avgPrice, FeeAmount(e))
    else if PaidInQuote(e, symbol) then FeeAmount(e)
    else 0.0
  }

  /** A sale's fee in dollars: one in any other than the quote asset at the price of the fill. */
  ghost function SaleFee(e: Execution, symbol: string, price: real): real {
    if PaidInQuote(e, symbol) then FeeAmount(e) else Worth(price, FeeAmount(e))
  }

  /** What a fill of one side of a known execution gives, and nothing for other fills. */
  ghost function Bought(executions: map<int, Execution>): Fill -> real {
    (f: Fill) => if f.side == Buy && f.execution in executions then executions[f.execution].executedQty else 0.0
  }

  ghost function Sold(executions: map<int, Execution>): Fill -> real {
    (f: Fill) => if f.side == Sell && f.execution in executions then f.qty else 0.0
  }

  ghost function PurchaseFees(executions: map<int, Execution>, symbol: string): Fill -> real {
    (f: Fill) =>
      if f.side == Buy && f.execution in executions then PurchaseFee(executions[f.execution], symbol) else 0.0
  }

  ghost function SaleFees(executions: map<int, Execution>, symbol: string): Fill -> real {
    (f: Fill) =>
      if f.side == Sell && f.execution in executions then SaleFee(executions[f.execution], symbol, f.price) else 0.0
  }

  lemma OneContribution(executions: map<int, Execution>, symbol: string, f: Fill)
    ensures Contribution(executions, symbol, f) ==
            Totals(Bought(executions)(f), Sold(executions)(f), PurchaseFees(executions, symbol)(f),
                   SaleFees(executions, symbol)(f))
  {
  }

  lemma {:induction false} SumIsTotals(charge: Fill -> Totals, bought: Fill -> real, sold: Fill -> real,
                                       feesBuy: Fill -> real, feesSell: Fill -> real, fills: seq<Fill>)
    requires forall f :: charge(f) == Totals(bought(f), sold(f), feesBuy(f), feesSell(f))
    ensures Sum(charge, fills) ==
            Totals(Total(bought, fills), Total(sold, fills), Total(feesBuy, fills), Total(feesSell, fills))
  {
    if fills != [] {
      SumIsTotals(charge, bought, sold, feesBuy, feesSell, fills[..|fills| - 1]);
    }
  }

  lemma TallyIsTotals(executions: map<int, Execution>, symbol: string, fills: seq<Fill>)
    ensures Tally(executions, symbol, fills) ==
            Totals(Total(Bought(executions), fills), Total(Sold(executions), fills),
                   Total(PurchaseFees(executions, symbol), fills), Total(SaleFees(executions, symbol), fills))
  {
    forall f
      ensures FillCharge(executions, symbol)(f) ==
              Totals(Bought(executions)(f), Sold(executions)(f), PurchaseFees(executions, symbol)(f),
                     SaleFees(executions, symbol)(f))
    {
      OneContribution(executions, symbol, f);
    }
    SumIsTotals(FillCharge(executions, symbol), Bought(executions), Sold(executions),
                PurchaseFees(executions, symbol), SaleFees(executions, symbol), fills);
  }

  /** Main result: the audit expects of a position the executed quantity of its purchases, what its sales leave
      of that, and the fees of its purchases and of its sales in dollars. */
  lemma ExpectedIsTotal(db: Db, id: int)
    requires id in db.positions
    ensures
      var fills, symbol := FillsOf(db.fills, id), db.positions[id].symbol;
      var bought, sold := Total(Bought(db.executions), fills), Total(Sold(db.executions), fills);
      && Expected(db, id, QtyTotal) == bought
      && Expected(db, id, QtyRemaining) == (if bought > sold then bought - sold else 0.0)
      && Expected(db, id, FeesOnBuy) == Total(PurchaseFees(db.executions, symbol), fills)
      && Expected(db, id, FeesOnSell) == Total(SaleFees(db.executions, symbol), fills)
  {
    TallyIsTotals(db.executions, db.positions[id].symbol, FillsOf(db.fills, id));
  }

  /** A column is reported exactly when it differs by more than a hundred-millionth of a unit, or by more than a
      cent for a fee. */
  lemma OffIff(db: Db, id: int, field: Field)
    requires id in db.positions
    ensures
      var r := db.positions[id];
      var column :=
        match field
        case QtyTotal => r.qtyTotal
        case QtyRemaining => r.qtyRemaining
        case FeesOnBuy => r.feesOnBuy
        case FeesOnSell => r.feesOnSell;
      var difference := column - Expected(db, id, field);
      Off(db, id, field) <==>
      if field == QtyTotal || field == QtyRemaining then difference > 0.00000001 || difference < -0.00000001
      else difference > 0.01 || difference < -0.01
  {
  }

  // ------------------------------------------------------------------
  // After a recomputation
  // ------------------------------------------------------------------

  lemma {:induction false} SameTally(a: map<int, Execution>, b: map<int, Execution>, symbol: string, fills: seq<Fill>)
    requires forall f <- fills :: f.execution in a && f.execution in b && a[f.execution] == b[f.execution]
    ensures Tally(a, symbol, fills) == Tally(b, symbol, fills)
  {
    if fills != [] {
      assert fills[|fills| - 1] in fills;
      SameTally(a, b, symbol, fills[..|fills| - 1]);
    }
  }

  lemma {:induction false} BoughtNotNegative(executions: map<int, Execution>, fills: seq<Fill>)
    requires forall e <- executions :: executions[e].executedQty >= 0.0
    ensures Total(Bought(executions), fills) >= 0.0
  {
    if fills != [] {
      BoughtNotNegative(executions, fills[..|fills| - 1]);
    }
  }

  /** The fills that the recomputation leaves on a position: each of its own known execution. */
  lemma LeftAlone(db: Db, id: int, symbol: string, grouped: set<int>)
    requires id in db.positions && DistinctIds(db.fills)
    ensures
      var known := KnownExecutions(db, db.positions[id], grouped);
      var left := FillsOf(RecomputeOne(db, id, symbol, grouped).fills, id);
      && OnePerExecution(left) && forall f <- left :: f.execution in known
  {
    var known, mine := KnownExecutions(db, db.positions[id], grouped), FillsOf(db.fills, id);
    OwnFillsDistinct(db.fills, id);
    CleanedFills(db.fills, id, mine, known);
    SurvivorsDistinct(mine, mine, known);
    SyncedAlone(Survivors(mine, mine, known), known);
  }

  lemma SyncedAlone(kept: seq<Fill>, known: map<int, Execution>)
    requires OnePerExecution(kept) && forall f <- kept :: f.execution in known
    ensures OnePerExecution(SyncedAll(kept, known)) && forall f <- SyncedAll(kept, known) :: f.execution in known
  {
    var synced := SyncedAll(kept, known);
    forall f | f in synced
      ensures f.execution in known
    {
      var i :| 0 <= i < |synced| && synced[i] == f;
      assert kept[i] in kept;
    }
  }

  /** Main result: a recomputed position passes the audit. */
  lemma RecomputedPassesAudit(db: Db, id: int, grouped: set<int>)
    requires id in db.positions && DistinctIds(db.fills)
    requires forall e <- db.executions :: db.executions[e].executedQty >= 0.0
    ensures id in RecomputeOne(db, id, db.positions[id].symbol, grouped).positions
    ensures Report(RecomputeOne(db, id, db.positions[id].symbol, grouped), id) == []
  {
    var symbol := db.positions[id].symbol;
    var after, known := RecomputeOne(db, id, symbol, grouped), KnownExecutions(db, db.positions[id], grouped);
    var left := FillsOf(after.fills, id);
    LeftAlone(db, id, symbol, grouped);
    AloneIsNewest(left);
    SameTally(known, db.executions, symbol, left);
    TallyIsTotals(db.executions, symbol, left);
    BoughtNotNegative(db.executions, left);
  }

  // ------------------------------------------------------------------
  // After a fee sync
  // ------------------------------------------------------------------

  lemma {:induction false} SameTotal(v: Fill -> real, w: Fill -> real, fills: seq<Fill>)
    requires forall f <- fills :: v(f) == w(f)
    ensures Total(v, fills) == Total(w, fills)
  {
    if fills != [] {
      assert fills[|fills| - 1] in fills;
      SameTotal(v, w, fills[..|fills| - 1]);
    }
  }

  /** When one fill's value changes, the total changes by as much. */
  lemma {:induction false} OneValueChanges(v: Fill -> real, w: Fill -> real, fills: seq<Fill>, f: Fill)
    requires NoRepeats(fills) && f in fills && forall g <- fills :: g != f ==> v(g) == w(g)
    ensures Total(w, fills) - Total(v, fills) == w(f) - v(f)
  {
    var last, rest := fills[|fills| - 1], fills[..|fills| - 1];
    assert forall g <- rest :: g in fills && g != last;
    if last == f {
      SameTotal(v, w, rest);
    } else {
      assert f in rest && last in fills;
      OneValueChanges(v, w, rest, f);
    }
  }

  /** The fill is the only one of the task's execution on its position, and the execution stands as it was
      selected: live rows without a fee. */
  ghost predicate OnlyFill(t: Task, db: Db, f: Fill) {
    && Charges(t) && t.execution in db.executions && db.executions[t.execution] == t.row && t.row.feeAmount.None?
    && DistinctIds(db.fills) && f in db.fills && f.execution == t.execution && f.side == t.job.side
    && f.position in db.positions && db.positions[f.position].symbol == t.job.symbol
    && forall g <- db.fills :: g.position == f.position && g.execution == f.execution ==> g == f
  }

  lemma ValuesElsewhere(a: map<int, Execution>, b: map<int, Execution>, symbol: string, g: Fill)
    requires g.execution in a <==> g.execution in b
    requires g.execution in a ==> a[g.execution] == b[g.execution]
    ensures Bought(a)(g) == Bought(b)(g)
    ensures PurchaseFees(a, symbol)(g) == PurchaseFees(b, symbol)(g)
    ensures SaleFees(a, symbol)(g) == SaleFees(b, symbol)(g)
  {
  }

  /** What the sync of a task moves of the expected values: only what its own fill gives. */
  lemma ExpectedMoves(t: Task, db: Db, f: Fill)
    requires OnlyFill(t, db, f) && f.position in SyncOne(t, db).positions
    requires SyncOne(t, db).positions[f.position].symbol == t.job.symbol
    ensures
      var after, id, symbol := SyncOne(t, db), f.position, t.job.symbol;
      && t.execution in after.executions
      && Expected(after, id, QtyTotal) - Expected(db, id, QtyTotal) ==
         Bought(after.executions)(f) - Bought(db.executions)(f)
      && Expected(after, id, FeesOnBuy) - Expected(db, id, FeesOnBuy) ==
         PurchaseFees(after.executions, symbol)(f) - PurchaseFees(db.executions, symbol)(f)
      && Expected(after, id, FeesOnSell) - Expected(db, id, FeesOnSell) ==
         SaleFees(after.executions, symbol)(f) - SaleFees(db.executions, symbol)(f)
  {
    var after, id, symbol := SyncOne(t, db), f.position, t.job.symbol;
    var mine := FillsOf(db.fills, id);
    TaskMakesNet(t, db);
    InFillsOf(db.fills, id);
    OwnFillsDistinct(db.fills, id);
    ExpectedIsTotal(db, id);
    ExpectedIsTotal(after, id);
    forall g | g in mine && g != f
      ensures Bought(db.executions)(g) == Bought(after.executions)(g)
      ensures PurchaseFees(db.executions, symbol)(g) == PurchaseFees(after.executions, symbol)(g)
      ensures SaleFees(db.executions, symbol)(g) == SaleFees(after.executions, symbol)(g)
    {
      ValuesElsewhere(db.executions, after.executions, symbol, g);
    }
    OneValueChanges(Bought(db.executions), Bought(after.executions), mine, f);
    OneValueChanges(PurchaseFees(db.executions, symbol), PurchaseFees(after.executions, symbol), mine, f);
    OneValueChanges(SaleFees(db.executions, symbol), SaleFees(after.executions, symbol), mine, f);
  }

  lemma OnlyFillIsLast(t: Task, db: Db, f: Fill)
    requires OnlyFill(t, db, f) && t.job.side == Sell
    ensures LastOn(SalesOf(db.fills, t.execution, db.positions), f.position) == Some(f)
  {
    var sales := SalesOf(db.fills, t.execution, db.positions);
    assert f in sales;
  }

  /** A part of a worth, that of some quantity in a total, differs from an audited value by more than a cent. */
  ghost predicate CentsApart(worth: real, qty: real, audited: real, total: real) {
    Abs(worth * qty - audited * total) > 0.01 * total
  }

  lemma ScaledDifference(share: real, worth: real, qty: real, audited: real, total: real)
    requires total > 0.0 && InRatio(share, worth, qty, total)
    ensures Abs(share - audited) > 0.01 <==> CentsApart(worth, qty, audited, total)
  {
    var d, e := share - audited, audited - share;
    Scale(d, 0.01, total);
    Scale(e, 0.01, total);
    assert d * total == worth * qty - audited * total;
    assert e * total == audited * total - worth * qty;
  }

  lemma Scale(d: real, c: real, total: real)
    requires total > 0.0
    ensures d > c <==> d * total > c * total
  {
    if d > c {
      assert (d - c) * total > 0.0;
    } else {
      assert (c - d) * total >= 0.0;
    }
  }

  /** What the audit counts of a sale's fee at each of its positions: the whole amount, or the whole amount at
      the price of the fill. */
  ghost function Audited(t: Task, price: real): real
    requires t.fee.Some?
  {
    var currency := t.fee.value.currency;
    if currency == "USDT" || currency == "USD" || currency == QuoteOrUsdt(t.job.symbol) then t.fee.value.amount
    else Worth(price, t.fee.value.amount)
  }

  /** Main result: after the fee of a sale has been synced onto a position whose SELL fees were right, the audit
      reports them exactly when the part the sync charged, that of the fill in the executed quantity, differs
      from the whole that the audit counts by more than a cent. */
  lemma SaleSyncIsReportedIff(t: Task, db: Db, f: Fill)
    requires OnlyFill(t, db, f) && t.job.side == Sell && t.row.executedQty > 0.0
    requires db.positions[f.position].feesOnSell == Expected(db, f.position, FeesOnSell)
    ensures f.position in SyncOne(t, db).positions
    ensures Off(SyncOne(t, db), f.position, FeesOnSell) <==>
            CentsApart(SaleFeeWorth(t), f.qty, Audited(t, f.price), t.row.executedQty)
  {
    ShareAudited(t, f, Audited(t, f.price));
    SaleSyncMoves(t, db, f, Share(t.row, t.job, t.fee.value, f), Audited(t, f.price));
  }

  lemma ShareAudited(t: Task, f: Fill, audited: real)
    requires t.fee.Some? && t.row.executedQty > 0.0
    ensures Abs(Share(t.row, t.job, t.fee.value, f) - audited) > 0.01 <==>
            CentsApart(SaleFeeWorth(t), f.qty, audited, t.row.executedQty)
  {
    ShareInRatio(t, f);
    ScaledDifference(Share(t.row, t.job, t.fee.value, f), SaleFeeWorth(t), f.qty, audited, t.row.executedQty);
  }

  lemma AuditedIsSaleFee(t: Task, db: Db, f: Fill)
    requires OnlyFill(t, db, f) && t.job.side == Sell
    ensures SaleFees(SyncOne(t, db).executions, t.job.symbol)(f) == Audited(t, f.price)
    ensures SaleFees(db.executions, t.job.symbol)(f) == 0.0
  {
    TaskMakesNet(t, db);
  }

  lemma SaleSyncMoves(t: Task, db: Db, f: Fill, share: real, audited: real)
    requires OnlyFill(t, db, f) && t.job.side == Sell
    requires share == Share(t.row, t.job, t.fee.value, f) && audited == Audited(t, f.price)
    requires db.positions[f.position].feesOnSell == Expected(db, f.position, FeesOnSell)
    ensures f.position in SyncOne(t, db).positions
    ensures Off(SyncOne(t, db), f.position, FeesOnSell) <==> Abs(share - audited) > 0.01
  {
    OnlyFillIsLast(t, db, f);
    SaleCharges(t, db, f.position);
    ExpectedMoves(t, db, f);
    AuditedIsSaleFee(t, db, f);
  }

  /** Such a sale: one unit on each of two positions, whose fee of 1 dollar is charged by halves. */
  lemma SplitSaleIsReported(p: Position, e: Execution, j: Job)
    requires p.symbol == j.symbol && p.feesOnSell == 0.0 && j.side == Sell
    requires e.feeAmount.None? && e.executedQty == 2.0
    ensures
      var f := Fill(1, 1, 1, Sell, 1.0, e.avgPrice, 0);
      var db := EMPTY_DB.(positions := map[1 := p, 2 := p], executions := map[1 := e],
                          fills := [f, f.(id := 2, position := 2)]);
      var after := SyncOne(Task(1, e, j, Some(ExtractedFee(1.0, "USDT"))), db);
      1 in after.positions && Off(after, 1, FeesOnSell)
  {
    var f := Fill(1, 1, 1, Sell, 1.0, e.avgPrice, 0);
    var g := f.(id := 2, position := 2);
    var db := EMPTY_DB.(positions := map[1 := p, 2 := p], executions := map[1 := e], fills := [f, g]);
    var t := Task(1, e, j, Some(ExtractedFee(1.0, "USDT")));
    assert [] + [f] == [f] && [f] + [g] == [f, g];
    FillsOfAppend([], f, 1);
    FillsOfAppend([f], g, 1);
    ExpectedIsTotal(db, 1);
    OneTotal(SaleFees(db.executions, p.symbol), f);
    assert OnlyFill(t, db, f);
    SaleSyncIsReportedIff(t, db, f);
    assert CentsApart(1.0, 1.0, 1.0, 2.0);
  }

  /** Main result: after the fee of a purchase has been synced onto a position whose columns were right, the audit
      reports its BUY fees exactly when the fee is more than a cent of an asset that is neither of the symbol's
      nor a dollar, and its quantity exactly when the fee was taken from the executed quantity. */
  lemma PurchaseSyncIsReportedIff(t: Task, db: Db, f: Fill)
    requires OnlyFill(t, db, f) && t.job.side == Buy && t.row.executedQty >= 0.0
    requires OpenedBy(db.positions, t.row.job, db.nextPosition) == Some(f.position)
    requires db.positions[f.position].feesOnBuy == Expected(db, f.position, FeesOnBuy)
    requires db.positions[f.position].qtyTotal == Expected(db, f.position, QtyTotal)
    ensures f.position in SyncOne(t, db).positions
    ensures
      var fee, currency, symbol := t.fee.value.amount, t.fee.value.currency, t.job.symbol;
      var inBase := currency == BaseAsset(symbol);
      && (Off(SyncOne(t, db), f.position, FeesOnBuy) <==>
          fee > 0.01 && !inBase && currency != "USDT" && currency != "USD" && currency != QuoteOrUsdt(symbol))
      && (Off(SyncOne(t, db), f.position, QtyTotal) <==>
          inBase && fee > 0.00000001 && t.row.executedQty > 0.00000001)
  {
    PurchaseSyncCharges(t, db, f, if t.fee.value.currency == BaseAsset(t.job.symbol)
                                  then Worth(t.row.avgPrice, t.fee.value.amount) else t.fee.value.amount);
    ExpectedMoves(t, db, f);
    AuditedPurchase(t, db, f);
  }

  lemma PurchaseSyncCharges(t: Task, db: Db, f: Fill, charge: real)
    requires OnlyFill(t, db, f) && t.job.side == Buy
    requires OpenedBy(db.positions, t.row.job, db.nextPosition) == Some(f.position)
    requires charge == if t.fee.value.currency == BaseAsset(t.job.symbol)
                       then Worth(t.row.avgPrice, t.fee.value.amount) else t.fee.value.amount
    ensures f.position in SyncOne(t, db).positions
    ensures
      var before, after := db.positions[f.position], SyncOne(t, db).positions[f.position];
      after == before.(feesOnBuy := before.feesOnBuy + charge, totalFees := before.totalFees + charge)
  {
    BuyCharges(t, db);
  }

  /** What the audit sees of a purchase's execution after and before the sync. */
  lemma AuditedPurchase(t: Task, db: Db, f: Fill)
    requires OnlyFill(t, db, f) && t.job.side == Buy
    ensures
      var fee, currency, symbol := t.fee.value.amount, t.fee.value.currency, t.job.symbol;
      var after := SyncOne(t, db).executions;
      && PurchaseFees(after, symbol)(f) ==
         (if currency == BaseAsset(symbol) then Worth(t.row.avgPrice, fee)
          else if currency == "USDT" || currency == "USD" || currency == QuoteOrUsdt(symbol) then fee else 0.0)
      && PurchaseFees(db.executions, symbol)(f) == 0.0
      && Bought(db.executions)(f) == t.row.executedQty
      && (if currency == BaseAsset(symbol) then Lowered(t.row.executedQty, Bought(after)(f), fee)
          else Bought(after)(f) == t.row.executedQty)
  {
    TaskMakesNet(t, db);
  }

  // ------------------------------------------------------------------
  // After an import
  // ------------------------------------------------------------------

  lemma {:induction false} NoFillsOf(fills: seq<Fill>, id: int)
    requires forall f <- fills :: f.position != id
    ensures FillsOf(fills, id) == []
  {
    if fills != [] {
      assert fills[|fills| - 1] in fills;
      NoFillsOf(fills[..|fills| - 1], id);
    }
  }

  /** Main result: the position that an imported purchase opens passes the audit of its quantities, and its BUY
      fees are reported exactly when the order had a fee of more than a cent: the import books none. */
  lemma ImportedPurchaseIsReportedIff(db: Db, account: Account, o: Order, now: int)
    requires ImportOne(db, account, o, now).1 && o.side == Buy && o.qty >= 0.0
    requires forall f <- db.fills :: f.position != db.nextPosition
    ensures db.nextPosition in ImportOne(db, account, o, now).0.positions
    ensures
      var after, id := ImportOne(db, account, o, now).0, db.nextPosition;
      && !Off(after, id, QtyTotal) && !Off(after, id, QtyRemaining) && !Off(after, id, FeesOnSell)
      && (Off(after, id, FeesOnBuy) <==>
          if o.feeCurrency == o.symbol then Abs(Worth(o.price, o.fee)) > 0.01
          else (o.feeCurrency == "USDT" || o.feeCurrency == "USD") && Abs(o.fee) > 0.01)
  {
    var after, id := ImportOne(db, account, o, now).0, db.nextPosition;
    var f := Fill(db.nextFill, id, db.nextExecution, Buy, o.qty, o.price, now);
    ImportedBuyOpens(db, account, o, now);
    ImportedIff(db, account, o, now);
    NoFillsOf(db.fills, id);
    FillsOfAppend(db.fills, f, id);
    ExpectedIsTotal(after, id);
    NoSlash(o.symbol);
    OneTotal(Bought(after.executions), f);
    OneTotal(Sold(after.executions), f);
    OneTotal(PurchaseFees(after.executions, o.symbol), f);
    OneTotal(SaleFees(after.executions, o.symbol), f);
  }

  lemma OneTotal(value: Fill -> real, f: Fill)
    ensures Total(value, [] + [f]) == value(f)
  {
    assert [f][..0] == [];
  }

  lemma TotalNext(value: Fill -> real, fills: seq<Fill>, f: Fill)
    ensures Total(value, fills + [f]) == Total(value, fills) + value(f)
  {
    assert (fills + [f])[..|fills|] == fills;
  }

  /** Main result: after a sale has been imported onto a position whose SELL fees were right, the audit reports
      them exactly when the order had a fee of more than a cent: the import takes it from the profit only. */
  lemma ImportedSaleIsReportedIff(db: Db, account: Account, o: Order, now: int)
    requires ImportOne(db, account, o, now).1 && o.side == Sell
    requires forall f <- db.fills :: f.execution != db.nextExecution
    requires var id := o.positionId.value;
             id in db.positions && db.positions[id].feesOnSell == Expected(db, id, FeesOnSell)
    ensures o.positionId.value in ImportOne(db, account, o, now).0.positions
    ensures
      var after, id := ImportOne(db, account, o, now).0, o.positionId.value;
      Off(after, id, FeesOnSell) <==>
      if o.feeCurrency == "USDT" || o.feeCurrency == "USD" || o.feeCurrency == QuoteOrUsdt(db.positions[id].symbol)
      then Abs(o.fee) > 0.01 else Abs(Worth(o.price, o.fee)) > 0.01
  {
    var after, id := ImportOne(db, account, o, now).0, o.positionId.value;
    ImportedSaleSells(db, account, o, now);
    ImportedSaleFee(db, after, account, o, now, after.fills[|db.fills|]);
  }

  lemma ImportedSaleFee(db: Db, after: Db, account: Account, o: Order, now: int, f: Fill)
    requires RecordsOrder(db, after, account, o, now) && after.fills == db.fills + [f]
    requires f.side == Sell && f.execution == db.nextExecution && f.price == o.price
    requires f.position in db.positions && f.position in after.positions
    requires after.positions[f.position].symbol == db.positions[f.position].symbol
    requires forall g <- db.fills :: g.execution != db.nextExecution
    ensures
      var symbol := db.positions[f.position].symbol;
      Expected(after, f.position, FeesOnSell) - Expected(db, f.position, FeesOnSell) ==
      if o.feeCurrency == "USDT" || o.feeCurrency == "USD" || o.feeCurrency == QuoteOrUsdt(symbol)
      then o.fee else Worth(o.price, o.fee)
  {
    var id, symbol, mine := f.position, db.positions[f.position].symbol, FillsOf(db.fills, f.position);
    FillsOfAppend(db.fills, f, id);
    ExpectedIsTotal(db, id);
    ExpectedIsTotal(after, id);
    InFillsOf(db.fills, id);
    SameTotal(SaleFees(db.executions, symbol), SaleFees(after.executions, symbol), mine);
    TotalNext(SaleFees(after.executions, symbol), mine, f);
  }

  /** Main result: after a sale has been attached to a position whose SELL fees were right, the audit reports them
      exactly when the fee is in an asset that it converts and the conversion makes more than a cent of difference:
      the fix books the amount as it is. */
  lemma AttachedSaleIsReportedIff(db: Db, job: int, alternatives: seq<Alternative>, now: int, id: int)
    requires TargetOf(db, job, alternatives) == Attach(id)
    requires db.positions[id].feesOnSell == Expected(db, id, FeesOnSell)
    ensures id in FixOne(db, job, alternatives, now).0.positions
    ensures
      var e := db.executions[LatestExecution(db.executions, job, db.nextExecution).value];
      Off(FixOne(db, job, alternatives, now).0, id, FeesOnSell) <==>
      !PaidInQuote(e, db.positions[id].symbol) && Abs(FeeAmount(e) - Worth(e.avgPrice, FeeAmount(e))) > 0.01
  {
    var after := FixOne(db, job, alternatives, now).0;
    FixSells(db, job, alternatives, now);
    AttachedSaleFee(db, after, after.fills[|db.fills|]);
  }

  lemma AttachedSaleFee(db: Db, after: Db, f: Fill)
    requires after.fills == db.fills + [f] && after.executions == db.executions
    requires f.side == Sell && f.execution in db.executions
    requires f.position in db.positions && f.position in after.positions
    requires after.positions[f.position].symbol == db.positions[f.position].symbol
    ensures Expected(after, f.position, FeesOnSell) - Expected(db, f.position, FeesOnSell) ==
            SaleFee(db.executions[f.execution], db.positions[f.position].symbol, f.price)
  {
    var id := f.position;
    FillsOfAppend(db.fills, f, id);
    ExpectedIsTotal(db, id);
    ExpectedIsTotal(after, id);
    TotalNext(SaleFees(db.executions, db.positions[id].symbol), FillsOf(db.fills, id), f);
  }
}
