/** `POST audit-fifo-positions`: the simulation of an oldest-first sale and the
    verdict on the positions that the sale really closed. */
module Fifo {
  import opened Collections
  import opened Tables
  import opened LedgerModel
  import opened Sorting

  /** A position as it stood when the sale was executed: what was still open of it. */
  datatype Lot = Lot(id: int, createdAt: int, open: real)

  /** A position that a fill of the sale points at, as it stands when audited. */
  datatype Row = Row(id: int, createdAt: int)

  function LotId(l: Lot): int {
    l.id
  }

  function LotAge(l: Lot): int {
    l.createdAt
  }

  function RowId(r: Row): int {
    r.id
  }

  function RowAge(r: Row): int {
    r.createdAt
  }

  // ------------------------------------------------------------------
  // The simulation
  // ------------------------------------------------------------------

  /** The positions the simulation selects. */
  function Selected(lots: seq<Lot>, sold: real): seq<int>
    decreases |lots|
  {
    if lots == [] || sold <= 0.0 then []
    else if lots[0].open > 0.0 then [lots[0].id] + Selected(lots[1..], sold - Min(lots[0].open, sold))
    else Selected(lots[1..], sold)
  }

  /** What it takes from each position. */
  function Taken(lots: seq<Lot>, sold: real): (taken: seq<real>)
    ensures |taken| == |lots|
    decreases |lots|
  {
    if lots == [] then []
    else
      var take := if sold > 0.0 && lots[0].open > 0.0 then Min(lots[0].open, sold) else 0.0;
      [take] + Taken(lots[1..], sold - take)
  }

  method Simulate(lots: seq<Lot>, sold: real) returns (shouldHaveClosed: seq<int>)
    ensures shouldHaveClosed == Selected(lots, sold)
  {
    shouldHaveClosed := [];
    var remaining := sold;
    var i := 0;
    while i < |lots|
      invariant 0 <= i <= |lots|
      invariant shouldHaveClosed + Selected(lots[i..], remaining) == Selected(lots, sold)
    {
      if remaining <= 0.0 {
        break;
      }
      assert lots[i..][1..] == lots[i + 1..];
      if lots[i].open > 0.0 {
        var toClose := Min(lots[i].open, remaining);
        shouldHaveClosed := shouldHaveClosed + [lots[i].id];
        remaining := remaining - toClose;
      }
      i := i + 1;
    }
  }

  function OpenLots(lots: seq<Lot>): (open: seq<Lot>)
    ensures forall l :: l in open <==> l in lots && l.open > 0.0
    decreases |lots|
  {
    if lots == [] then []
    else
      assert lots == [lots[0]] + lots[1..];
      if lots[0].open > 0.0 then [lots[0]] + OpenLots(lots[1..]) else OpenLots(lots[1..])
  }

  function TotalOpen(lots: seq<Lot>): real
    decreases |lots|
  {
    if lots == [] then 0.0 else Max(0.0, lots[0].open) + TotalOpen(lots[1..])
  }

  function Ids(lots: seq<Lot>): seq<int> {
    Project(LotId, lots)
  }

  function Sum(a: seq<real>): real
    decreases |a|
  {
    if a == [] then 0.0 else a[0] + Sum(a[1..])
  }

  /** The ids are those of the shortest prefix whose total covers the sale, or of all when none does. */
  ghost predicate ShortestPrefix(open: seq<Lot>, ids: seq<int>, sold: real) {
    var k := |ids|;
    && k <= |open| && ids == Ids(open[..k])
    && (k == |open| || TotalOpen(open[..k]) >= sold)
    && (k > 0 ==> TotalOpen(open[..k - 1]) < sold)
  }

  /** Main result: the selection is the shortest prefix of the open positions whose total covers the sale,
      or all of them when none does. */
  lemma {:induction false} SelectsShortestPrefix(lots: seq<Lot>, sold: real)
    ensures ShortestPrefix(OpenLots(lots), Selected(lots, sold), sold)
    decreases |lots|
  {
    if lots == [] || sold <= 0.0 {
      assert OpenLots(lots)[..0] == [];
    } else if lots[0].open <= 0.0 {
      SelectsShortestPrefix(lots[1..], sold);
    } else {
      var left := sold - Min(lots[0].open, sold);
      SelectsShortestPrefix(lots[1..], left);
      PrefixGrows(lots[0], OpenLots(lots[1..]), Selected(lots[1..], left), sold);
    }
  }

  lemma PrefixGrows(l: Lot, rest: seq<Lot>, ids: seq<int>, sold: real)
    requires l.open > 0.0 && sold > 0.0 && ShortestPrefix(rest, ids, sold - Min(l.open, sold))
    ensures ShortestPrefix([l] + rest, [l.id] + ids, sold)
  {
    var all, k := [l] + rest, |ids|;
    TotalNotNegative(rest[..k]);
    assert all[..k + 1] == [l] + rest[..k];
    assert TotalOpen(all[..k + 1]) == l.open + TotalOpen(rest[..k]) by {
      assert ([l] + rest[..k])[1..] == rest[..k];
    }
    if k > 0 {
      TotalNotNegative(rest[..k - 1]);
      assert all[..k] == [l] + rest[..k - 1];
      assert ([l] + rest[..k - 1])[1..] == rest[..k - 1];
    }
  }

  /** It takes what is sold, or everything there is, and leaves a remainder only in the last position it touches. */
  lemma {:induction false} TakesOldestFirst(lots: seq<Lot>, sold: real)
    ensures Sum(Taken(lots, sold)) == Min(Max(0.0, sold), TotalOpen(lots))
    ensures forall i :: 0 <= i < |lots| ==> 0.0 <= Taken(lots, sold)[i] <= Max(0.0, lots[i].open)
    ensures forall i, j :: 0 <= i < j < |lots| && Taken(lots, sold)[j] > 0.0 ==>
              Taken(lots, sold)[i] == Max(0.0, lots[i].open)
    decreases |lots|
  {
    if lots != [] {
      var all := Taken(lots, sold);
      var take := all[0];
      var rest := Taken(lots[1..], sold - take);
      assert all == [take] + rest && all[1..] == rest;
      TakesOldestFirst(lots[1..], sold - take);
      TotalNotNegative(lots[1..]);
      if sold - take <= 0.0 {
        NothingMoreTaken(lots[1..], sold - take);
      }
      forall i | 0 <= i < |lots|
        ensures 0.0 <= all[i] <= Max(0.0, lots[i].open)
      {
        assert i > 0 ==> all[i] == rest[i - 1] && lots[i] == lots[1..][i - 1];
      }
      forall i, j | 0 <= i < j < |lots| && all[j] > 0.0
        ensures all[i] == Max(0.0, lots[i].open)
      {
        assert all[j] == rest[j - 1];
        assert i > 0 ==> all[i] == rest[i - 1] && lots[i] == lots[1..][i - 1];
      }
    }
  }

  lemma {:induction false} TotalNotNegative(lots: seq<Lot>)
    ensures TotalOpen(lots) >= 0.0
    decreases |lots|
  {
    if lots != [] {
      TotalNotNegative(lots[1..]);
    }
  }

  lemma {:induction false} NothingMoreTaken(lots: seq<Lot>, sold: real)
    requires sold <= 0.0
    ensures forall i :: 0 <= i < |lots| ==> Taken(lots, sold)[i] == 0.0
    decreases |lots|
  {
    if lots != [] {
      NothingMoreTaken(lots[1..], sold);
    }
  }

  /** An allocation of a sale that exhausts older positions before it touches newer ones. */
  ghost predicate OldestFirst(lots: seq<Lot>, a: seq<real>, sold: real) {
    && |a| == |lots|
    && Sum(a) == Min(Max(0.0, sold), TotalOpen(lots))
    && (forall i :: 0 <= i < |a| ==> 0.0 <= a[i] <= Max(0.0, lots[i].open))
    && forall i, j :: 0 <= i < j < |a| && a[j] > 0.0 ==> a[i] == Max(0.0, lots[i].open)
  }

  lemma {:induction false} SumOfNothing(a: seq<real>)
    requires forall i :: 0 <= i < |a| ==> a[i] >= 0.0
    ensures Sum(a) >= 0.0
    ensures Sum(a) == 0.0 ==> forall i :: 0 <= i < |a| ==> a[i] == 0.0
    ensures (forall i :: 0 <= i < |a| ==> a[i] == 0.0) ==> Sum(a) == 0.0
    decreases |a|
  {
    if a != [] {
      SumOfNothing(a[1..]);
    }
  }

  lemma FirstTakes(lots: seq<Lot>, a: seq<real>, sold: real)
    requires OldestFirst(lots, a, sold) && lots != []
    ensures a[0] == if sold > 0.0 && lots[0].open > 0.0 then Min(lots[0].open, sold) else 0.0
  {
    var open := Max(0.0, lots[0].open);
    SumOfNothing(a[1..]);
    TotalNotNegative(lots[1..]);
    if a[0] < open {
      assert forall j :: 0 <= j < |a[1..]| ==> a[1..][j] == a[j + 1] && a[j + 1] == 0.0;
    }
  }

  /** Main result: the simulated allocation is oldest-first, and it is the only one. */
  lemma {:induction false} OldestFirstIsUnique(lots: seq<Lot>, a: seq<real>, sold: real)
    ensures OldestFirst(lots, a, sold) <==> a == Taken(lots, sold)
    decreases |lots|
  {
    TakesOldestFirst(lots, sold);
    if OldestFirst(lots, a, sold) && lots != [] {
      FirstTakes(lots, a, sold);
      RestIsOldestFirst(lots, a, sold);
      OldestFirstIsUnique(lots[1..], a[1..], sold - a[0]);
      assert a == [a[0]] + a[1..];
    }
  }

  lemma RestIsOldestFirst(lots: seq<Lot>, a: seq<real>, sold: real)
    requires OldestFirst(lots, a, sold) && lots != []
    ensures OldestFirst(lots[1..], a[1..], sold - a[0])
  {
    FirstTakes(lots, a, sold);
    SumOfNothing(a[1..]);
    TotalNotNegative(lots[1..]);
    forall i, j | 0 <= i < j < |a[1..]| && a[1..][j] > 0.0
      ensures a[1..][i] == Max(0.0, lots[1..][i].open)
    {
      assert a[j + 1] > 0.0;
    }
    assert Sum(a[1..]) == Min(Max(0.0, sold - a[0]), TotalOpen(lots[1..])) by {
      assert Sum(a) == a[0] + Sum(a[1..]);
      assert TotalOpen(lots) == Max(0.0, lots[0].open) + TotalOpen(lots[1..]);
    }
  }

  // ------------------------------------------------------------------
  // The verdict
  // ------------------------------------------------------------------

  function RowIds(rows: seq<Row>): seq<int> {
    Project(RowId, rows)
  }

  /** `allPositionsAtTime.filter(p => set.has(p.id))` */
  function LotsIn(lots: seq<Lot>, ids: set<int>): (r: seq<Lot>)
    ensures forall l :: l in r <==> l in lots && l.id in ids
    decreases |lots|
  {
    if lots == [] then []
    else
      assert lots == [lots[0]] + lots[1..];
      if lots[0].id in ids then [lots[0]] + LotsIn(lots[1..], ids) else LotsIn(lots[1..], ids)
  }

  /** The verdict as a function of what it compares. */
  predicate Accepted(closed: seq<Row>, lots: seq<Lot>, shouldHaveClosed: seq<int>) {
    && IdSet(RowIds(closed)) == IdSet(shouldHaveClosed)
    && RowIds(SortBy(RowAge, closed)) == Ids(LotsIn(lots, IdSet(shouldHaveClosed)))
  }

  /** Sizes first, then membership of each closed position. */
  method SameIds(closed: seq<int>, should: seq<int>) returns (same: bool)
    ensures same <==> IdSet(closed) == IdSet(should)
  {
    if |IdSet(closed)| != |IdSet(should)| {
      return false;
    }
    for i := 0 to |closed|
      invariant forall j :: 0 <= j < i ==> closed[j] in IdSet(should)
    {
      if closed[i] !in IdSet(should) {
        assert closed[i] in IdSet(closed);
        return false;
      }
    }
    SubsetOfSameSize(IdSet(closed), IdSet(should));
    same := true;
  }

  method SameOrder(a: seq<int>, b: seq<int>) returns (same: bool)
    ensures same <==> a == b
  {
    if |a| != |b| {
      return false;
    }
    for i := 0 to |a|
      invariant forall j :: 0 <= j < i ==> a[j] == b[j]
    {
      if a[i] != b[i] {
        return false;
      }
    }
    same := true;
  }

  /** Comparing the closed positions with the simulated ones, as sets and then in order. */
  method FifoError(closed: seq<Row>, lots: seq<Lot>, shouldHaveClosed: seq<int>) returns (fifoError: bool)
    ensures fifoError <==> !Accepted(closed, lots, shouldHaveClosed)
  {
    var same := SameIds(RowIds(closed), shouldHaveClosed);
    if !same {
      return true;
    }
    var ordered := SameOrder(RowIds(SortBy(RowAge, closed)), Ids(LotsIn(lots, IdSet(shouldHaveClosed))));
    fifoError := !ordered;
  }

  lemma SubsetOfSameSize<T>(a: set<T>, b: set<T>)
    requires a <= b && |a| == |b|
    ensures a == b
  {
    assert b == a + (b - a);
  }

  ghost predicate DistinctRows(rows: seq<Row>) {
    DistinctKeys(RowId, rows)
  }

  /** The audited positions and the simulated ones are rows of one table with distinct creation times. */
  ghost predicate OneTable(closed: seq<Row>, lots: seq<Lot>) {
    && (forall r <- closed, l <- lots :: r.id == l.id <==> r.createdAt == l.createdAt)
    && (forall r <- closed, q <- closed :: r.id == q.id <==> r.createdAt == q.createdAt)
  }

  lemma {:induction false} LotsInOrder(lots: seq<Lot>, ids: set<int>)
    requires StrictlyAscending(LotAge, lots)
    ensures StrictlyAscending(LotAge, LotsIn(lots, ids))
    decreases |lots|
  {
    if lots != [] {
      LotsInOrder(lots[1..], ids);
      var rest := LotsIn(lots[1..], ids);
      forall i | 0 <= i < |rest|
        ensures lots[0].createdAt < rest[i].createdAt
      {
        assert rest[i] in rest;
      }
    }
  }

  function AsRows(lots: seq<Lot>): (rows: seq<Row>)
    ensures |rows| == |lots| && forall i :: 0 <= i < |lots| ==> rows[i] == Row(lots[i].id, lots[i].createdAt)
    decreases |lots|
  {
    if lots == [] then [] else [Row(lots[0].id, lots[0].createdAt)] + AsRows(lots[1..])
  }

  lemma ClosedInOrder(closed: seq<Row>, lots: seq<Lot>)
    requires OneTable(closed, lots) && DistinctRows(closed)
    ensures StrictlyAscending(RowAge, SortBy(RowAge, closed))
  {
    forall i, j | 0 <= i < j < |closed|
      ensures RowAge(closed[i]) != RowAge(closed[j])
    {
      assert closed[i] in closed && closed[j] in closed && RowId(closed[i]) != RowId(closed[j]);
    }
    SortStrict(RowAge, closed);
  }

  lemma LotRowsInOrder(lots: seq<Lot>)
    requires StrictlyAscending(LotAge, lots)
    ensures StrictlyAscending(RowAge, AsRows(lots)) && RowIds(AsRows(lots)) == Ids(lots)
  {
    var rows := AsRows(lots);
    forall i, j | 0 <= i < j < |rows|
      ensures RowAge(rows[i]) < RowAge(rows[j])
    {
      assert LotAge(lots[i]) < LotAge(lots[j]);
    }
  }

  /** Main result: with distinct creation times and no position filled twice, the verdict is set equality:
      comparing the orders adds nothing. */
  lemma VerdictIsSetEquality(closed: seq<Row>, lots: seq<Lot>, sold: real)
    requires StrictlyAscending(LotAge, lots) && OneTable(closed, lots) && DistinctRows(closed)
    ensures Accepted(closed, lots, Selected(lots, sold)) <==> IdSet(RowIds(closed)) == IdSet(Selected(lots, sold))
  {
    var should := IdSet(Selected(lots, sold));
    if IdSet(RowIds(closed)) == should {
      SelectedAreLots(lots, sold);
      SameOrderOfSameSet(closed, lots, should);
    }
  }

  lemma SameOrderOfSameSet(closed: seq<Row>, lots: seq<Lot>, should: set<int>)
    requires StrictlyAscending(LotAge, lots) && OneTable(closed, lots) && DistinctRows(closed)
    requires IdSet(RowIds(closed)) == should
    requires forall id <- should :: exists l :: l in lots && l.id == id
    ensures RowIds(SortBy(RowAge, closed)) == Ids(LotsIn(lots, should))
  {
    var sorted, ordered := SortBy(RowAge, closed), AsRows(LotsIn(lots, should));
    ClosedInOrder(closed, lots);
    LotsInOrder(lots, should);
    LotRowsInOrder(LotsIn(lots, should));
    SameMembers(RowAge, closed);
    forall r
      ensures r in sorted <==> r in ordered
    {
      MembersAgree(closed, lots, should, r);
    }
    StrictOrderIsUnique(RowAge, sorted, ordered);
  }

  lemma {:induction false} SelectedAreLots(lots: seq<Lot>, sold: real)
    ensures forall id <- Selected(lots, sold) :: exists l :: l in lots && l.id == id
    decreases |lots|
  {
    if lots != [] && sold > 0.0 {
      SelectedAreLots(lots[1..], sold - if lots[0].open > 0.0 then Min(lots[0].open, sold) else 0.0);
      assert lots == [lots[0]] + lots[1..];
      forall id | id in Selected(lots, sold)
        ensures exists l :: l in lots && l.id == id
      {
        if lots[0].open > 0.0 && id == lots[0].id {
          assert lots[0] in lots;
        }
      }
    }
  }

  lemma MembersAgree(closed: seq<Row>, lots: seq<Lot>, should: set<int>, r: Row)
    requires OneTable(closed, lots) && IdSet(RowIds(closed)) == should
    requires forall id <- should :: exists l :: l in lots && l.id == id
    ensures r in closed <==> r in AsRows(LotsIn(lots, should))
  {
    var ordered := AsRows(LotsIn(lots, should));
    if r in closed {
      var i :| 0 <= i < |closed| && closed[i] == r;
      assert RowIds(closed)[i] in RowIds(closed);
      assert r.id in should;
      var l :| l in lots && l.id == r.id;
      assert l in LotsIn(lots, should);
      var j :| 0 <= j < |LotsIn(lots, should)| && LotsIn(lots, should)[j] == l;
      assert ordered[j] == r;
    }
    if r in ordered {
      var j :| 0 <= j < |ordered| && ordered[j] == r;
      var l := LotsIn(lots, should)[j];
      assert l in LotsIn(lots, should);
      assert l.id in RowIds(closed);
      var i :| 0 <= i < |closed| && RowIds(closed)[i] == l.id;
      assert closed[i] in closed;
    }
  }

  /** The second hypothesis is needed: a sale is accepted only if no two of its fills lie on one closed
      position, since such a position is listed twice and no selection matches. */
  lemma AcceptedAreDistinct(closed: seq<Row>, lots: seq<Lot>, should: seq<int>)
    requires StrictlyAscending(LotAge, lots) && forall l <- lots, m <- lots :: l.id == m.id ==> l == m
    requires Accepted(closed, lots, should)
    ensures DistinctRows(closed)
  {
    var sorted, ordered := SortBy(RowAge, closed), LotsIn(lots, IdSet(should));
    LotsInOrder(lots, IdSet(should));
    assert |sorted| == |RowIds(sorted)| == |ordered|;
    forall a, b | 0 <= a < b < |sorted|
      ensures sorted[a].id != sorted[b].id
    {
      assert sorted[a].id == RowIds(sorted)[a] == ordered[a].id;
      assert sorted[b].id == RowIds(sorted)[b] == ordered[b].id;
      assert ordered[a] in ordered && ordered[b] in ordered;
    }
    PermutedDistinct(RowId, sorted, closed);
  }

  /** The positions of the fills that are closed when audited. */
  function ClosedOnly(rows: seq<Row>, closed: set<int>): (r: seq<Row>)
    ensures forall q :: q in r <==> q in rows && q.id in closed
    decreases |rows|
  {
    if rows == [] then []
    else
      assert rows == [rows[0]] + rows[1..];
      (if rows[0].id in closed then [rows[0]] else []) + ClosedOnly(rows[1..], closed)
  }

  lemma {:induction false} ClosedOnlyDistinct(rows: seq<Row>, closed: set<int>)
    requires DistinctRows(rows)
    ensures DistinctRows(ClosedOnly(rows, closed))
    decreases |rows|
  {
    if rows != [] {
      ClosedOnlyDistinct(rows[1..], closed);
      var rest := ClosedOnly(rows[1..], closed);
      forall i | 0 <= i < |rest|
        ensures rest[i].id != rows[0].id
      {
        assert rest[i] in rest;
      }
    }
  }

  /** Main result: a sale whose fills lie on exactly the positions that oldest-first selects is accepted
      if and only if every one of them is closed when audited.  A sale that ends inside its last position
      is therefore reported as a FIFO error for as long as that position stays open. */
  lemma CorrectSaleAcceptedIff(filled: seq<Row>, closed: set<int>, lots: seq<Lot>, sold: real)
    requires StrictlyAscending(LotAge, lots) && OneTable(filled, lots) && DistinctRows(filled)
    requires IdSet(RowIds(filled)) == IdSet(Selected(lots, sold))
    ensures Accepted(ClosedOnly(filled, closed), lots, Selected(lots, sold)) <==>
            forall id <- Selected(lots, sold) :: id in closed
  {
    var kept := ClosedOnly(filled, closed);
    ClosedOnlyDistinct(filled, closed);
    VerdictIsSetEquality(kept, lots, sold);
    ClosedOnlyIds(filled, closed);
    RestrictedSet(RowIds(filled), RowIds(kept), Selected(lots, sold), closed);
  }

  /** Such a sale: 1 unit of the 2 that the only position holds. */
  lemma SaleWithinAPosition(id: int, at: int)
    ensures
      var lots, filled := [Lot(id, at, 2.0)], [Row(id, at)];
      && IdSet(RowIds(filled)) == IdSet(Selected(lots, 1.0))
      && !Accepted(ClosedOnly(filled, {}), lots, Selected(lots, 1.0))
  {
    var lots, filled := [Lot(id, at, 2.0)], [Row(id, at)];
    assert lots[1..] == [] && filled[1..] == [];
    assert Selected(lots, 1.0) == [id] && RowIds(filled) == [id];
    assert ClosedOnly(filled, {}) == [];
    assert id in IdSet([id]) && id !in IdSet([]);
  }

  lemma RestrictedSet(all: seq<int>, kept: seq<int>, should: seq<int>, closed: set<int>)
    requires IdSet(all) == IdSet(should)
    requires forall id :: id in kept <==> id in all && id in closed
    ensures IdSet(kept) == IdSet(should) <==> forall id <- should :: id in closed
  {
    forall id
      ensures id in all <==> id in should
    {
      assert id in IdSet(all) <==> id in IdSet(should);
    }
    if IdSet(kept) == IdSet(should) {
      forall id | id in should
        ensures id in closed
      {
        assert id in IdSet(should) && id in IdSet(kept);
      }
    }
    if forall id <- should :: id in closed {
      assert forall id :: id in kept <==> id in should;
      assert IdSet(kept) == IdSet(should);
    }
  }

  lemma ClosedOnlyIds(rows: seq<Row>, closed: set<int>)
    ensures forall id :: id in RowIds(ClosedOnly(rows, closed)) <==> id in RowIds(rows) && id in closed
  {
    var kept := ClosedOnly(rows, closed);
    forall id
      ensures id in RowIds(kept) <==> id in RowIds(rows) && id in closed
    {
      IdOfRow(kept, id);
      IdOfRow(rows, id);
    }
  }

  lemma IdOfRow(rows: seq<Row>, id: int)
    ensures id in RowIds(rows) <==> exists r :: r in rows && r.id == id
  {
    if id in RowIds(rows) {
      var i :| 0 <= i < |rows| && RowIds(rows)[i] == id;
      assert rows[i] in rows;
    }
    if r :| r in rows && r.id == id {
      var i :| 0 <= i < |rows| && rows[i] == r;
      assert RowIds(rows)[i] == id;
    }
  }

  // ------------------------------------------------------------------
  // One audited sale, on the tables
  // ------------------------------------------------------------------

  datatype AuditStatus = Ok | Mismatch | FifoMismatch | MissingFills

  /** What was sold of a position by executions before an instant. */
  function SoldBefore(db: Db, fills: seq<Fill>, position: int, time: int): real {
    if fills == [] then 0.0
    else
      var f := fills[|fills| - 1];
      SoldBefore(db, fills[..|fills| - 1], position, time)
      + if f.position == position && f.side == Sell && f.execution in db.executions
           && db.executions[f.execution].createdAt < time
        then f.qty else 0.0
  }

  /** The positions of the sale's account, mode and symbol that existed when it was executed. */
  function LotsInScope(db: Db, e: Execution, j: Job, bound: int): seq<Lot>
    decreases bound
  {
    if bound <= 1 then []
    else
      var id := bound - 1;
      var rest := LotsInScope(db, e, j, id);
      if id in db.positions && db.positions[id].account == j.account && db.positions[id].live == j.live
         && db.positions[id].symbol == j.symbol && db.positions[id].createdAt <= e.createdAt
      then
        var p := db.positions[id];
        rest + [Lot(id, p.createdAt, p.qtyTotal - SoldBefore(db, db.fills, id, e.createdAt))]
      else rest
  }

  function LotsAt(db: Db, e: Execution, j: Job): seq<Lot> {
    SortBy(LotAge, LotsInScope(db, e, j, db.nextPosition))
  }

  function FillAge(f: Fill): int {
    f.createdAt
  }

  /** The sale's own SELL fills, in the order in which they were created. */
  function OwnFills(db: Db, execution: int): seq<Fill> {
    SortBy(FillAge, OwnFillsIn(db.fills, execution))
  }

  function OwnFillsIn(fills: seq<Fill>, execution: int): seq<Fill> {
    if fills == [] then []
    else
      var f := fills[|fills| - 1];
      var rest := OwnFillsIn(fills[..|fills| - 1], execution);
      if f.execution == execution && f.side == Sell then rest + [f] else rest
  }

  /** Those of their positions that are closed now. */
  function ClosedRows(db: Db, fills: seq<Fill>): seq<Row>
    decreases |fills|
  {
    if fills == [] then []
    else
      var p := fills[0].position;
      if p in db.positions && db.positions[p].status == Closed
      then [Row(p, db.positions[p].createdAt)] + ClosedRows(db, fills[1..])
      else ClosedRows(db, fills[1..])
  }

  function FilledSum(fills: seq<Fill>): real {
    if fills == [] then 0.0 else FilledSum(fills[..|fills| - 1]) + fills[|fills| - 1].qty
  }

  method SumOf(fills: seq<Fill>) returns (sum: real)
    ensures sum == FilledSum(fills)
  {
    sum := 0.0;
    for i := 0 to |fills|
      invariant sum == FilledSum(fills[..i])
    {
      assert fills[..i + 1][..i] == fills[..i];
      sum := sum + fills[i].qty;
    }
    assert fills[..|fills|] == fills;
  }

  /** What each status means for a sale with these fills. */
  ghost predicate Means(status: AuditStatus, fills: seq<Fill>, sold: real, named: bool,
                       closed: seq<Row>, lots: seq<Lot>) {
    var qtyMismatch := Abs(FilledSum(fills) - sold) > 0.00000001;
    && (status == MissingFills <==> fills == [])
    && (status == Mismatch <==> fills != [] && qtyMismatch)
    && (status == FifoMismatch <==>
        fills != [] && !qtyMismatch && !named && !Accepted(closed, lots, Selected(lots, sold)))
  }

  /** The comparisons of the audit, on what it has read. */
  method Decide(fills: seq<Fill>, sold: real, named: bool, closed: seq<Row>, lots: seq<Lot>)
    returns (status: AuditStatus)
    ensures Means(status, fills, sold, named, closed, lots)
  {
    var fillsSum := SumOf(fills);
    var qtyMismatch := Abs(fillsSum - sold) > 0.00000001;
    var fifoError := false;
    if !named {
      var shouldHaveClosed := Simulate(lots, sold);
      fifoError := FifoError(closed, lots, shouldHaveClosed);
    }
    status := Ok;
    if fills == [] {
      status := MissingFills;
    } else if qtyMismatch {
      status := Mismatch;
    } else if fifoError {
      status := FifoMismatch;
    }
  }

  /** The dry run of the audit on one SELL execution.  A sale that named its position skips the FIFO check. */
  method AuditSale(ledger: Ledger, execution: int) returns (status: AuditStatus)
    requires execution in ledger.executions && ledger.executions[execution].job in ledger.jobs
    ensures
      var db := ledger.Rows();
      var e := db.executions[execution];
      var j, fills := db.jobs[e.job], OwnFills(db, execution);
      Means(status, fills, e.executedQty, j.positionToClose.Some?, ClosedRows(db, fills), LotsAt(db, e, j))
  {
    var db := ledger.Rows();
    var e := ledger.executions[execution];
    var j := ledger.jobs[e.job];
    var fills := OwnFills(db, execution);
    status := Decide(fills, e.executedQty, j.positionToClose.Some?, ClosedRows(db, fills), LotsAt(db, e, j));
  }

  ghost predicate DistinctTimes(db: Db) {
    forall p <- db.positions, q <- db.positions :: db.positions[p].createdAt == db.positions[q].createdAt ==> p == q
  }

  lemma {:induction false} ScopeLots(db: Db, e: Execution, j: Job, bound: int)
    requires DistinctTimes(db)
    ensures forall l <- LotsInScope(db, e, j, bound) ::
      l.id in db.positions && l.createdAt == db.positions[l.id].createdAt && l.id < bound
    ensures DistinctKeys(LotAge, LotsInScope(db, e, j, bound))
    decreases bound
  {
    if bound > 1 {
      ScopeLots(db, e, j, bound - 1);
      var lots := LotsInScope(db, e, j, bound - 1);
      forall i | 0 <= i < |lots|
        ensures bound - 1 in db.positions ==> lots[i].createdAt != db.positions[bound - 1].createdAt
      {
        assert lots[i] in lots;
      }
    }
  }

  lemma {:induction false} RowsOfTable(db: Db, fills: seq<Fill>)
    ensures forall r <- ClosedRows(db, fills) ::
      r.id in db.positions && r.createdAt == db.positions[r.id].createdAt
      && exists f :: f in fills && f.position == r.id
    ensures (forall i, j :: 0 <= i < j < |fills| ==> fills[i].position != fills[j].position) ==>
            DistinctRows(ClosedRows(db, fills))
    decreases |fills|
  {
    if fills != [] {
      RowsOfTable(db, fills[1..]);
      assert fills == [fills[0]] + fills[1..];
      var rest := ClosedRows(db, fills[1..]);
      if forall i, j :: 0 <= i < j < |fills| ==> fills[i].position != fills[j].position {
        forall i | 0 <= i < |rest|
          ensures rest[i].id != fills[0].position
        {
          assert rest[i] in rest;
        }
      }
    }
  }

  /** Main result on the tables: when no two positions were created at one instant and no two fills of the
      sale lie on one position, the audit's comparison is an error exactly when the closed positions of
      the sale are not the ones oldest-first selects. */
  lemma AuditComparesSets(db: Db, execution: int)
    requires execution in db.executions && db.executions[execution].job in db.jobs && DistinctTimes(db)
    requires
      var fills := OwnFills(db, execution);
      forall i, j :: 0 <= i < j < |fills| ==> fills[i].position != fills[j].position
    ensures
      var e := db.executions[execution];
      var closed, lots := ClosedRows(db, OwnFills(db, execution)), LotsAt(db, e, db.jobs[e.job]);
      Accepted(closed, lots, Selected(lots, e.executedQty)) <==>
      IdSet(RowIds(closed)) == IdSet(Selected(lots, e.executedQty))
  {
    var e := db.executions[execution];
    var scope := LotsInScope(db, e, db.jobs[e.job], db.nextPosition);
    var closed, lots := ClosedRows(db, OwnFills(db, execution)), LotsAt(db, e, db.jobs[e.job]);
    ScopeLots(db, e, db.jobs[e.job], db.nextPosition);
    SortStrict(LotAge, scope);
    SameMembers(LotAge, scope);
    RowsOfTable(db, OwnFills(db, execution));
    VerdictIsSetEquality(closed, lots, e.executedQty);
  }
}
