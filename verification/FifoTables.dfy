/** What the FIFO audit reads from the tables: which positions were open when a
    sale was executed, and what the audit's verdict says about the rows. */
module FifoTables {
  import opened Collections
  import opened Tables
  import opened LedgerModel
  import opened Sorting
  import opened Fifo
  import opened Runs

  // ------------------------------------------------------------------
  // The positions at the time of the sale
  // ------------------------------------------------------------------

  /** The position is of the sale's account, mode and symbol and was not created after it. */
  ghost predicate InScope(db: Db, e: Execution, j: Job, id: int) {
    && id in db.positions
    && var p := db.positions[id];
      p.account == j.account && p.live == j.live && p.symbol == j.symbol && p.createdAt <= e.createdAt
  }

  ghost function Lots(db: Db, e: Execution, id: int): Lot
    requires id in db.positions
  {
    Lot(id, db.positions[id].createdAt, db.positions[id].qtyTotal - SoldBefore(db, db.fills, id, e.createdAt))
  }

  lemma {:induction false} ScopeIff(db: Db, e: Execution, j: Job, bound: int, l: Lot)
    ensures l in LotsInScope(db, e, j, bound) <==>
            0 < l.id < bound && InScope(db, e, j, l.id) && l == Lots(db, e, l.id)
    decreases bound
  {
    if bound > 1 {
      ScopeIff(db, e, j, bound - 1, l);
    }
  }

  /** Main result: the lots are the positions in scope, oldest first. */
  lemma LotsIff(db: Db, e: Execution, j: Job)
    requires forall p <- db.positions :: 0 < p < db.nextPosition
    ensures forall l :: l in LotsAt(db, e, j) <==> InScope(db, e, j, l.id) && l == Lots(db, e, l.id)
    ensures forall i, k :: 0 <= i < k < |LotsAt(db, e, j)| ==>
      LotsAt(db, e, j)[i].createdAt <= LotsAt(db, e, j)[k].createdAt
  {
    var scope := LotsInScope(db, e, j, db.nextPosition);
    SameMembers(LotAge, scope);
    SortOrders(LotAge, scope);
    forall l
      ensures l in scope <==> InScope(db, e, j, l.id) && l == Lots(db, e, l.id)
    {
      ScopeIff(db, e, j, db.nextPosition, l);
    }
    assert forall i, k :: 0 <= i < k < |LotsAt(db, e, j)| ==>
      LotAge(LotsAt(db, e, j)[i]) <= LotAge(LotsAt(db, e, j)[k]);
  }

  /** A fill of an execution made before an instant. */
  ghost predicate MadeBefore(db: Db, f: Fill, time: int) {
    f.execution in db.executions && db.executions[f.execution].createdAt < time
  }

  ghost function FillsBefore(db: Db, fills: seq<Fill>, time: int): (r: seq<Fill>)
    ensures forall f :: f in r <==> f in fills && MadeBefore(db, f, time)
  {
    if fills == [] then []
    else
      var f := fills[|fills| - 1];
      assert fills == fills[..|fills| - 1] + [f];
      var rest := FillsBefore(db, fills[..|fills| - 1], time);
      if MadeBefore(db, f, time) then rest + [f] else rest
  }

  /** What counts as sold before is the SELL quantity of the fills made before. */
  lemma {:induction false} SoldBeforeIsFilled(db: Db, fills: seq<Fill>, p: int, time: int)
    ensures SoldBefore(db, fills, p, time) == FilledQty(FillsBefore(db, fills, time), p, Sell)
  {
    if fills != [] {
      var f, rest := fills[|fills| - 1], fills[..|fills| - 1];
      SoldBeforeIsFilled(db, rest, p, time);
      Append(FillsBefore(db, rest, time), f, p, Sell, 0.0, 0);
    }
  }

  lemma {:induction false} AllBefore(db: Db, fills: seq<Fill>, p: int, time: int)
    requires forall f <- fills :: f.position == p && f.side == Sell ==> MadeBefore(db, f, time)
    ensures SoldBefore(db, fills, p, time) == FilledQty(fills, p, Sell)
  {
    if fills != [] {
      assert fills[|fills| - 1] in fills;
      AllBefore(db, fills[..|fills| - 1], p, time);
    }
  }

  lemma {:induction false} NoneBefore(db: Db, fills: seq<Fill>, p: int, time: int)
    requires forall f <- fills :: f.position == p && f.side == Sell ==> !MadeBefore(db, f, time)
    ensures SoldBefore(db, fills, p, time) == 0.0
  {
    if fills != [] {
      assert fills[|fills| - 1] in fills;
      NoneBefore(db, fills[..|fills| - 1], p, time);
    }
  }

  /** Main result: in a ledger whose positions agree with their fills, a position was open for what remains of it
      now when all its sales were executed before the audited one, and for all of it when none was. */
  lemma OpenAtSale(db: Db, e: Execution, p: int)
    requires p in db.positions && Balanced(db, p)
    ensures (forall f <- db.fills :: f.position == p && f.side == Sell ==> MadeBefore(db, f, e.createdAt)) ==>
      Lots(db, e, p).open == db.positions[p].qtyRemaining
    ensures (forall f <- db.fills :: f.position == p && f.side == Sell ==> !MadeBefore(db, f, e.createdAt)) ==>
      Lots(db, e, p).open == db.positions[p].qtyTotal
  {
    if forall f <- db.fills :: f.position == p && f.side == Sell ==> MadeBefore(db, f, e.createdAt) {
      AllBefore(db, db.fills, p, e.createdAt);
    }
    if forall f <- db.fills :: f.position == p && f.side == Sell ==> !MadeBefore(db, f, e.createdAt) {
      NoneBefore(db, db.fills, p, e.createdAt);
    }
  }

  // ------------------------------------------------------------------
  // The sale's own fills
  // ------------------------------------------------------------------

  lemma {:induction false} FilledSumAppend(a: seq<Fill>, b: seq<Fill>)
    ensures FilledSum(a + b) == FilledSum(a) + FilledSum(b)
  {
    if b == [] {
      assert a + b == a;
    } else {
      assert (a + b)[..|a + b| - 1] == a + b[..|b| - 1];
      FilledSumAppend(a, b[..|b| - 1]);
    }
  }

  lemma FilledSumOfOne(f: Fill)
    ensures FilledSum([f]) == f.qty
  {
    assert [f][..0] == [];
  }

  lemma {:induction false} InsertedSum(x: Fill, s: seq<Fill>)
    ensures FilledSum(Insert(FillAge, x, s)) == x.qty + FilledSum(s)
  {
    FilledSumOfOne(x);
    if s == [] {
    } else if FillAge(x) <= FillAge(s[0]) {
      FilledSumAppend([x], s);
    } else {
      InsertedSum(x, s[1..]);
      FilledSumOfOne(s[0]);
      FilledSumAppend([s[0]], Insert(FillAge, x, s[1..]));
      FilledSumAppend([s[0]], s[1..]);
      assert s == [s[0]] + s[1..];
    }
  }

  lemma {:induction false} SortedSum(s: seq<Fill>)
    ensures FilledSum(SortBy(FillAge, s)) == FilledSum(s)
  {
    if s != [] {
      SortedSum(s[1..]);
      InsertedSum(s[0], SortBy(FillAge, s[1..]));
      FilledSumOfOne(s[0]);
      FilledSumAppend([s[0]], s[1..]);
      assert s == [s[0]] + s[1..];
    }
  }

  lemma {:induction false} OwnFillsInIff(fills: seq<Fill>, execution: int)
    ensures forall f :: f in OwnFillsIn(fills, execution) <==> f in fills && f.execution == execution && f.side == Sell
    ensures FilledSum(OwnFillsIn(fills, execution)) == AttachedQty(fills, execution)
  {
    if fills != [] {
      var f, rest := fills[|fills| - 1], fills[..|fills| - 1];
      OwnFillsInIff(rest, execution);
      assert fills == rest + [f];
      var own := OwnFillsIn(rest, execution);
      assert (own + [f])[..|own|] == own;
    }
  }

  /** The audited fills are the sale's, in the order of their creation; they sum to what of it is attached. */
  lemma OwnFillsIff(db: Db, execution: int)
    ensures forall f :: f in OwnFills(db, execution) <==> f in db.fills && f.execution == execution && f.side == Sell
    ensures forall i, k :: 0 <= i < k < |OwnFills(db, execution)| ==>
      OwnFills(db, execution)[i].createdAt <= OwnFills(db, execution)[k].createdAt
    ensures FilledSum(OwnFills(db, execution)) == AttachedQty(db.fills, execution)
  {
    var own := OwnFillsIn(db.fills, execution);
    OwnFillsInIff(db.fills, execution);
    SameMembers(FillAge, own);
    SortOrders(FillAge, own);
    SortedSum(own);
    assert forall i, k :: 0 <= i < k < |OwnFills(db, execution)| ==>
      FillAge(OwnFills(db, execution)[i]) <= FillAge(OwnFills(db, execution)[k]);
  }

  // ------------------------------------------------------------------
  // The verdict on the tables
  // ------------------------------------------------------------------

  /** A fill of the sale lies on the position, which is closed now. */
  ghost predicate ClosedBySale(db: Db, execution: int, id: int) {
    && id in db.positions && db.positions[id].status == Closed
    && exists f :: f in db.fills && f.execution == execution && f.side == Sell && f.position == id
  }

  lemma {:induction false} ClosedRowsIff(db: Db, fills: seq<Fill>, id: int)
    ensures id in RowIds(ClosedRows(db, fills)) <==>
            id in db.positions && db.positions[id].status == Closed && exists f :: f in fills && f.position == id
    decreases |fills|
  {
    if fills != [] {
      ClosedRowsIff(db, fills[1..], id);
      assert fills == [fills[0]] + fills[1..];
    }
  }

  /** A status other than `Ok` says that the sale has no fill, that what is attached of it differs from what it
      executed, or that it did not name its position and is not accepted, in this order. */
  lemma StatusIff(db: Db, execution: int, status: AuditStatus)
    requires execution in db.executions && db.executions[execution].job in db.jobs
    requires
      var e, fills := db.executions[execution], OwnFills(db, execution);
      var j := db.jobs[e.job];
      Means(status, fills, e.executedQty, j.positionToClose.Some?, ClosedRows(db, fills), LotsAt(db, e, j))
    ensures
      var e := db.executions[execution];
      var j := db.jobs[e.job];
      var missing := !exists f :: f in db.fills && f.execution == execution && f.side == Sell;
      var difference := AttachedQty(db.fills, execution) - e.executedQty;
      var off := difference > 0.00000001 || difference < -0.00000001;
      var accepted := Accepted(ClosedRows(db, OwnFills(db, execution)), LotsAt(db, e, j),
                               Selected(LotsAt(db, e, j), e.executedQty));
      && (status == MissingFills <==> missing)
      && (status == Mismatch <==> !missing && off)
      && (status == FifoMismatch <==> !missing && !off && j.positionToClose.None? && !accepted)
  {
    OwnFillsIff(db, execution);
    var own := OwnFills(db, execution);
    assert own != [] ==> own[0] in own;
  }

  /** Main result: when no two positions were created at one instant and no two fills of the sale lie on one
      position, the sale is accepted exactly when the positions closed by it are those that oldest-first selects. */
  lemma AcceptedIff(db: Db, execution: int)
    requires execution in db.executions && db.executions[execution].job in db.jobs && DistinctTimes(db)
    requires
      var fills := OwnFills(db, execution);
      forall i, j :: 0 <= i < j < |fills| ==> fills[i].position != fills[j].position
    ensures
      var e := db.executions[execution];
      var lots := LotsAt(db, e, db.jobs[e.job]);
      Accepted(ClosedRows(db, OwnFills(db, execution)), lots, Selected(lots, e.executedQty)) <==>
      forall id :: ClosedBySale(db, execution, id) <==> id in Selected(lots, e.executedQty)
  {
    var e := db.executions[execution];
    var lots := LotsAt(db, e, db.jobs[e.job]);
    var closed, selected := RowIds(ClosedRows(db, OwnFills(db, execution))), Selected(lots, e.executedQty);
    AuditComparesSets(db, execution);
    OwnFillsIff(db, execution);
    forall id
      ensures ClosedBySale(db, execution, id) <==> id in IdSet(closed)
      ensures id in selected <==> id in IdSet(selected)
    {
      ClosedRowsIff(db, OwnFills(db, execution), id);
    }
    SetsAgree(IdSet(closed), IdSet(selected));
  }

  lemma SetsAgree(a: set<int>, b: set<int>)
    ensures a == b <==> forall id :: id in a <==> id in b
  {
    if a != b {
      SomeOutside(a, b);
    }
  }
}
