/** `POST system/audit-all` and `POST system/audit-fix` on positions: what the
    audit reports about quantities and fees, and what applying corrections leaves. */
module AuditFix {
  import opened Tables
  import opened LedgerModel
  import opened Recompute
  import opened RecomputeProofs

  datatype Field = QtyTotal | QtyRemaining | FeesOnBuy | FeesOnSell

  datatype Discrepancy = Discrepancy(field: Field, current: real, expected: real)

  /** A correction of an execution; absent columns are left alone. */
  datatype ExecutionFix = ExecutionFix(
    execution: int, executedQty: Option<real>, avgPrice: Option<real>,
    feeAmount: Option<real>, feeCurrency: Option<string>)

  /** The corrections of one position, by column. */
  datatype PositionFix = PositionFix(position: int, values: map<Field, real>)

  function Column(p: Position, field: Field): real {
    match field
    case QtyTotal => p.qtyTotal
    case QtyRemaining => p.qtyRemaining
    case FeesOnBuy => p.feesOnBuy
    case FeesOnSell => p.feesOnSell
  }

  function Tolerance(field: Field): real {
    if field == QtyTotal || field == QtyRemaining then 0.00000001 else 0.01
  }

  /** The totals of a position over all its fills. */
  function TotalsOf(db: Db, id: int): Totals
    requires id in db.positions
  {
    Tally(db.executions, db.positions[id].symbol, FillsOf(db.fills, id))
  }

  function Expected(db: Db, id: int, field: Field): real
    requires id in db.positions
  {
    var t := TotalsOf(db, id);
    match field
    case QtyTotal => t.buyQty
    case QtyRemaining => Max(0.0, t.buyQty - t.sellQty)
    case FeesOnBuy => t.feesBuy
    case FeesOnSell => t.feesSell
  }

  predicate Off(db: Db, id: int, field: Field)
    requires id in db.positions
  {
    Abs(Column(db.positions[id], field) - Expected(db, id, field)) > Tolerance(field)
  }

  /** The running sums over a position's fills. */
  method SumFills(fills: seq<Fill>, executions: map<int, Execution>, symbol: string) returns (t: Totals)
    ensures t == Tally(executions, symbol, fills)
  {
    t := ZERO;
    for i := 0 to |fills|
      invariant t == Tally(executions, symbol, fills[..i])
    {
      assert fills[..i + 1][..i] == fills[..i];
      t := t.Plus(Contribution(executions, symbol, fills[i]));
    }
    assert fills[..|fills|] == fills;
  }

  function ReportIf(db: Db, id: int, field: Field): seq<Discrepancy>
    requires id in db.positions
  {
    if Off(db, id, field)
    then [Discrepancy(field, Column(db.positions[id], field), Expected(db, id, field))]
    else []
  }

  function Report(db: Db, id: int): seq<Discrepancy>
    requires id in db.positions
  {
    ReportIf(db, id, QtyTotal) + ReportIf(db, id, QtyRemaining)
    + ReportIf(db, id, FeesOnBuy) + ReportIf(db, id, FeesOnSell)
  }

  /** A column is reported exactly when it is off, and then with the value the fills give. */
  lemma ReportedIff(db: Db, id: int, d: Discrepancy)
    requires id in db.positions
    ensures d in Report(db, id) <==>
      Off(db, id, d.field) && d.current == Column(db.positions[id], d.field) && d.expected == Expected(db, id, d.field)
  {
    forall field: Field
      ensures d in ReportIf(db, id, field) <==> field == d.field && d in ReportIf(db, id, d.field)
    {
    }
    match d.field
    case QtyTotal => assert d in Report(db, id) <==> d in ReportIf(db, id, QtyTotal);
    case QtyRemaining => assert d in Report(db, id) <==> d in ReportIf(db, id, QtyRemaining);
    case FeesOnBuy => assert d in Report(db, id) <==> d in ReportIf(db, id, FeesOnBuy);
    case FeesOnSell => assert d in Report(db, id) <==> d in ReportIf(db, id, FeesOnSell);
  }

  /** The position part of `POST system/audit-all`, for one position. */
  method AuditPosition(ledger: Ledger, id: int) returns (found: seq<Discrepancy>)
    requires id in ledger.positions
    ensures found == Report(ledger.Rows(), id)
  {
    ghost var db := ledger.Rows();
    var p := ledger.positions[id];
    var t := SumFills(FillsOf(ledger.fills, id), ledger.executions, p.symbol);
    found := [];
    if Abs(p.qtyTotal - t.buyQty) > 0.00000001 {
      found := found + [Discrepancy(QtyTotal, p.qtyTotal, t.buyQty)];
    }
    assert found == ReportIf(db, id, QtyTotal);
    var expectedRemaining := Max(0.0, t.buyQty - t.sellQty);
    if Abs(p.qtyRemaining - expectedRemaining) > 0.00000001 {
      found := found + [Discrepancy(QtyRemaining, p.qtyRemaining, expectedRemaining)];
    }
    assert found == ReportIf(db, id, QtyTotal) + ReportIf(db, id, QtyRemaining);
    if Abs(p.feesOnBuy - t.feesBuy) > 0.01 {
      found := found + [Discrepancy(FeesOnBuy, p.feesOnBuy, t.feesBuy)];
    }
    assert found == ReportIf(db, id, QtyTotal) + ReportIf(db, id, QtyRemaining) + ReportIf(db, id, FeesOnBuy);
    if Abs(p.feesOnSell - t.feesSell) > 0.01 {
      found := found + [Discrepancy(FeesOnSell, p.feesOnSell, t.feesSell)];
    }
  }

  // ------------------------------------------------------------------
  // Applying corrections
  // ------------------------------------------------------------------

  function CorrectedExecution(e: Execution, fix: ExecutionFix): Execution {
    e.(executedQty := fix.executedQty.GetOr(e.executedQty),
       avgPrice := fix.avgPrice.GetOr(e.avgPrice),
       feeAmount := if fix.feeAmount.Some? then fix.feeAmount else e.feeAmount,
       feeCurrency := if fix.feeAmount.Some? && fix.feeCurrency.Some? then fix.feeCurrency else e.feeCurrency)
  }

  function FixExecutions(db: Db, fixes: seq<ExecutionFix>): Db {
    if fixes == [] then db
    else
      var before, fix := FixExecutions(db, fixes[..|fixes| - 1]), fixes[|fixes| - 1];
      if fix.execution !in before.executions then before
      else before.(executions :=
        before.executions[fix.execution := CorrectedExecution(before.executions[fix.execution], fix)])
  }

  /** A column takes its correction where one is given and the recomputed value otherwise. */
  function Chosen(db: Db, id: int, values: map<Field, real>, field: Field): real
    requires id in db.positions
  {
    if field in values then values[field] else Expected(db, id, field)
  }

  function CorrectedPosition(db: Db, id: int, values: map<Field, real>): Position
    requires id in db.positions
  {
    var feesBuy, feesSell := Chosen(db, id, values, FeesOnBuy), Chosen(db, id, values, FeesOnSell);
    db.positions[id].(qtyTotal := Chosen(db, id, values, QtyTotal),
                      qtyRemaining := Chosen(db, id, values, QtyRemaining),
                      feesOnBuy := feesBuy, feesOnSell := feesSell, totalFees := feesBuy + feesSell)
  }

  function FixPosition(db: Db, fix: PositionFix): Db {
    if fix.position !in db.positions then db
    else db.(positions := db.positions[fix.position := CorrectedPosition(db, fix.position, fix.values)])
  }

  function FixPositions(db: Db, fixes: seq<PositionFix>): Db {
    if fixes == [] then db
    else FixPosition(FixPositions(db, fixes[..|fixes| - 1]), fixes[|fixes| - 1])
  }

  method CorrectPosition(ledger: Ledger, fix: PositionFix) returns (done: bool)
    modifies ledger
    ensures ledger.Rows() == FixPosition(old(ledger.Rows()), fix) && done == (fix.position in old(ledger.positions))
  {
    var id, values := fix.position, fix.values;
    done := id in ledger.positions;
    if done {
      var p := ledger.positions[id];
      var t := SumFills(FillsOf(ledger.fills, id), ledger.executions, p.symbol);
      var qtyTotal, qtyRemaining := t.buyQty, Max(0.0, t.buyQty - t.sellQty);
      if QtyTotal in values || QtyRemaining in values {
        qtyTotal := if QtyTotal in values then values[QtyTotal] else t.buyQty;
        qtyRemaining := if QtyRemaining in values then values[QtyRemaining] else Max(0.0, t.buyQty - t.sellQty);
      }
      var feesOnBuy, feesOnSell := t.feesBuy, t.feesSell;
      if FeesOnBuy in values || FeesOnSell in values {
        feesOnBuy := if FeesOnBuy in values then values[FeesOnBuy] else t.feesBuy;
        feesOnSell := if FeesOnSell in values then values[FeesOnSell] else t.feesSell;
      }
      ledger.positions := ledger.positions[id := p.(
        qtyTotal := qtyTotal, qtyRemaining := qtyRemaining,
        feesOnBuy := feesOnBuy, feesOnSell := feesOnSell, totalFees := feesOnBuy + feesOnSell)];
    }
  }

  /** `POST system/audit-fix`: the executions first, then the positions. */
  method ApplyCorrections(ledger: Ledger, executionFixes: seq<ExecutionFix>, positionFixes: seq<PositionFix>)
    returns (fixed: nat)
    modifies ledger
    ensures ledger.Rows() == FixPositions(FixExecutions(old(ledger.Rows()), executionFixes), positionFixes)
  {
    fixed := 0;
    for i := 0 to |executionFixes|
      invariant ledger.Rows() == FixExecutions(old(ledger.Rows()), executionFixes[..i])
    {
      assert executionFixes[..i + 1][..i] == executionFixes[..i];
      var fix := executionFixes[i];
      if fix.execution in ledger.executions {
        var e := ledger.executions[fix.execution];
        ledger.executions := ledger.executions[fix.execution := CorrectedExecution(e, fix)];
        fixed := fixed + 1;
      }
    }
    assert executionFixes[..|executionFixes|] == executionFixes;
    ghost var corrected := ledger.Rows();
    for i := 0 to |positionFixes|
      invariant ledger.Rows() == FixPositions(corrected, positionFixes[..i])
    {
      assert positionFixes[..i + 1][..i] == positionFixes[..i];
      var done := CorrectPosition(ledger, positionFixes[i]);
      fixed := if done then fixed + 1 else fixed;
    }
    assert positionFixes[..|positionFixes|] == positionFixes;
  }

  // ------------------------------------------------------------------
  // What a second audit reports
  // ------------------------------------------------------------------

  /** Fixing positions changes nothing that the expected values are computed from. */
  lemma {:induction false} FixesKeepExpected(db: Db, fixes: seq<PositionFix>, id: int)
    requires id in db.positions
    ensures id in FixPositions(db, fixes).positions
    ensures forall field :: Expected(FixPositions(db, fixes), id, field) == Expected(db, id, field)
  {
    if fixes != [] {
      var before, fix := fixes[..|fixes| - 1], fixes[|fixes| - 1];
      FixesKeepExpected(db, before, id);
      FixKeepsExpected(FixPositions(db, before), fix, id);
    }
  }

  lemma FixKeepsExpected(db: Db, fix: PositionFix, id: int)
    requires id in db.positions
    ensures id in FixPosition(db, fix).positions
    ensures forall field :: Expected(FixPosition(db, fix), id, field) == Expected(db, id, field)
  {
    var after := FixPosition(db, fix);
    assert after.positions[id].symbol == db.positions[id].symbol;
    assert Expected(after, id, QtyTotal) == Expected(db, id, QtyTotal);
  }

  /** What the position fixes of a request do to one position: the last one that names it decides. */
  lemma {:induction false} FixesDecide(db: Db, fixes: seq<PositionFix>, i: nat, field: Field)
    requires i < |fixes| && fixes[i].position in db.positions
    requires forall j :: i < j < |fixes| ==> fixes[j].position != fixes[i].position
    ensures
      var id := fixes[i].position;
      && id in FixPositions(db, fixes).positions
      && Column(FixPositions(db, fixes).positions[id], field) == Chosen(db, id, fixes[i].values, field)
  {
    var id, before, fix := fixes[i].position, fixes[..|fixes| - 1], fixes[|fixes| - 1];
    FixesKeepExpected(db, before, id);
    if i < |fixes| - 1 {
      FixesDecide(db, before, i, field);
    }
  }

  /** Main result: after a request, the audit reports a column of a corrected position exactly when the
      request gave it a value that is off from the one the fills and the corrected executions give. */
  lemma ReportedAfterFixIff(db: Db, executionFixes: seq<ExecutionFix>, fixes: seq<PositionFix>, i: nat, field: Field)
    requires i < |fixes| && fixes[i].position in db.positions
    requires forall j :: i < j < |fixes| ==> fixes[j].position != fixes[i].position
    ensures
      var corrected := FixExecutions(db, executionFixes);
      var id := fixes[i].position;
      && id in corrected.positions && id in FixPositions(corrected, fixes).positions
      && (Off(FixPositions(corrected, fixes), id, field) <==>
          && field in fixes[i].values
          && Abs(fixes[i].values[field] - Expected(corrected, id, field)) > Tolerance(field))
  {
    ExecutionFixesKeepPositions(db, executionFixes);
    var corrected := FixExecutions(db, executionFixes);
    FixesKeepExpected(corrected, fixes, fixes[i].position);
    FixesDecide(corrected, fixes, i, field);
  }

  lemma {:induction false} ExecutionFixesKeepPositions(db: Db, fixes: seq<ExecutionFix>)
    ensures FixExecutions(db, fixes) == db.(executions := FixExecutions(db, fixes).executions)
  {
    if fixes != [] {
      ExecutionFixesKeepPositions(db, fixes[..|fixes| - 1]);
    }
  }

  /** Main result: corrections that an audit reported, applied to unchanged fills and executions, leave
      nothing for a second audit to report, whichever of them were chosen. */
  lemma AuditFixpoint(db: Db, fix: PositionFix)
    requires fix.position in db.positions
    requires forall f <- fix.values ::
      Discrepancy(f, Column(db.positions[fix.position], f), fix.values[f]) in Report(db, fix.position)
    ensures fix.position in FixPositions(db, [fix]).positions
    ensures Report(FixPositions(db, [fix]), fix.position) == []
    ensures forall field ::
      Column(FixPositions(db, [fix]).positions[fix.position], field) == Expected(db, fix.position, field)
  {
    forall f | f in fix.values
      ensures fix.values[f] == Expected(db, fix.position, f)
    {
      ReportedIff(db, fix.position, Discrepancy(f, Column(db.positions[fix.position], f), fix.values[f]));
    }
    FixesKeepExpected(db, [fix], fix.position);
    forall field
      ensures Column(FixPositions(db, [fix]).positions[fix.position], field) == Expected(db, fix.position, field)
    {
      FixesDecide(db, [fix], 0, field);
    }
  }

  /** The trap: a reported value sent along with execution corrections is written as it is, and is still
      reported exactly when those corrections moved what the fills give by more than the tolerance. */
  lemma StaleCorrectionIff(db: Db, executionFixes: seq<ExecutionFix>, fix: PositionFix, field: Field)
    requires fix.position in db.positions && field in fix.values
    requires fix.values[field] == Expected(db, fix.position, field)
    ensures
      var corrected := FixExecutions(db, executionFixes);
      && fix.position in corrected.positions && fix.position in FixPositions(corrected, [fix]).positions
      && (Off(FixPositions(corrected, [fix]), fix.position, field) <==>
          Abs(Expected(db, fix.position, field) - Expected(corrected, fix.position, field)) > Tolerance(field))
  {
    ReportedAfterFixIff(db, executionFixes, [fix], 0, field);
  }

  /** A correction of an execution sets the columns it has a value for and a currency only along with an amount. */
  ghost predicate SetsColumns(fix: ExecutionFix, after: Execution) {
    && (fix.executedQty.Some? ==> after.executedQty == fix.executedQty.value)
    && (fix.avgPrice.Some? ==> after.avgPrice == fix.avgPrice.value)
    && (fix.feeAmount.Some? ==> after.feeAmount == fix.feeAmount)
    && (fix.feeAmount.Some? && fix.feeCurrency.Some? ==> after.feeCurrency == fix.feeCurrency)
  }

  /** The last correction that names an execution decides the columns it has a value for. */
  lemma {:induction false} ExecutionFixDecides(db: Db, fixes: seq<ExecutionFix>, i: nat)
    requires i < |fixes| && fixes[i].execution in db.executions
    requires forall j :: i < j < |fixes| ==> fixes[j].execution != fixes[i].execution
    ensures fixes[i].execution in FixExecutions(db, fixes).executions
    ensures SetsColumns(fixes[i], FixExecutions(db, fixes).executions[fixes[i].execution])
  {
    var before := fixes[..|fixes| - 1];
    ExecutionFixKeeps(db, before, fixes[i].execution);
    if i < |fixes| - 1 {
      ExecutionFixDecides(db, before, i);
    }
  }

  /** A column that no correction of an execution has a value for is left alone, and so are all others. */
  lemma {:induction false} ExecutionFixKeeps(db: Db, fixes: seq<ExecutionFix>, e: int)
    requires e in db.executions
    ensures FixExecutions(db, fixes).executions.Keys == db.executions.Keys
    ensures
      var was, now := db.executions[e], FixExecutions(db, fixes).executions[e];
      && now == was.(executedQty := now.executedQty, avgPrice := now.avgPrice,
                     feeAmount := now.feeAmount, feeCurrency := now.feeCurrency)
      && ((forall fix <- fixes :: fix.execution == e ==> fix.executedQty.None?) ==> now.executedQty == was.executedQty)
      && ((forall fix <- fixes :: fix.execution == e ==> fix.avgPrice.None?) ==> now.avgPrice == was.avgPrice)
      && ((forall fix <- fixes :: fix.execution == e ==> fix.feeAmount.None?) ==> now.feeAmount == was.feeAmount)
      && ((forall fix <- fixes :: fix.execution == e ==> fix.feeAmount.None? || fix.feeCurrency.None?) ==>
            now.feeCurrency == was.feeCurrency)
  {
    if fixes != [] {
      var before, last := fixes[..|fixes| - 1], fixes[|fixes| - 1];
      assert last in fixes && forall fix <- before :: fix in fixes;
      ExecutionFixKeeps(db, before, e);
    }
  }

  lemma OneBuy(executions: map<int, Execution>, symbol: string, f: Fill)
    requires f.side == Buy && f.execution in executions
    ensures Tally(executions, symbol, [f]).buyQty == executions[f.execution].executedQty
    ensures FillsOf([f], f.position) == [f]
  {
    assert [f][..0] == [];
    SumOfOne(FillCharge(executions, symbol), f);
  }

  /** Such a request: the execution of the only fill is corrected from 2 to 3 units, and the position is given
      the 2 units that were reported before. */
  lemma StaleQuantity(e: Execution, p: Position, at: int)
    requires e.executedQty == 2.0
    ensures
      var db := EMPTY_DB.(executions := map[1 := e], positions := map[1 := p],
                          fills := [Fill(1, 1, 1, Buy, 2.0, e.avgPrice, at)]);
      var fixes, fix := [ExecutionFix(1, Some(3.0), None, None, None)], PositionFix(1, map[QtyTotal := 2.0]);
      && fix.values[QtyTotal] == Expected(db, 1, QtyTotal)
      && 1 in FixPositions(FixExecutions(db, fixes), [fix]).positions
      && Off(FixPositions(FixExecutions(db, fixes), [fix]), 1, QtyTotal)
  {
    var fill := Fill(1, 1, 1, Buy, 2.0, e.avgPrice, at);
    var db := EMPTY_DB.(executions := map[1 := e], positions := map[1 := p], fills := [fill]);
    var fixes, fix := [ExecutionFix(1, Some(3.0), None, None, None)], PositionFix(1, map[QtyTotal := 2.0]);
    assert fixes[..0] == [] && FixExecutions(db, fixes[..0]) == db;
    var corrected := FixExecutions(db, fixes);
    assert corrected.executions[1].executedQty == 3.0;
    OneBuy(db.executions, p.symbol, fill);
    OneBuy(corrected.executions, p.symbol, fill);
    StaleCorrectionIff(db, fixes, fix, QtyTotal);
  }
}
