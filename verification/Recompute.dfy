/** The recomputation of a position from its fills in `POST system/fix-incorrect-fees`:
    fills of unknown executions and repeated fills are deleted, and the totals are
    computed twice, from sorted groups and from a running map of the newest fills. */
module Recompute {
  import opened Tables
  import opened Sorting

  datatype Totals = Totals(buyQty: real, sellQty: real, feesBuy: real, feesSell: real) {
    function Plus(o: Totals): Totals {
      Totals(buyQty + o.buyQty, sellQty + o.sellQty, feesBuy + o.feesBuy, feesSell + o.feesSell)
    }
  }

  const ZERO := Totals(0.0, 0.0, 0.0, 0.0)

  predicate QuoteLike(currency: string, symbol: string) {
    currency == QuoteOrUsdt(symbol) || currency == "USDT" || currency == "USD"
  }

  /** What one fill adds to the totals, given the executions that are known. */
  function Contribution(known: map<int, Execution>, symbol: string, f: Fill): Totals {
    if f.execution !in known then ZERO
    else
      var e := known[f.execution];
      var amount, currency := e.feeAmount.GetOr(0.0), e.feeCurrency.GetOr("");
      if f.side == Buy then
        Totals(e.executedQty, 0.0,
               if currency == BaseAsset(symbol) then amount * e.avgPrice
               else if QuoteLike(currency, symbol) then amount
               else 0.0,
               0.0)
      else
        Totals(0.0, f.qty, 0.0, if QuoteLike(currency, symbol) then amount else amount * f.price)
  }

  function FillCharge(known: map<int, Execution>, symbol: string): Fill -> Totals {
    f => Contribution(known, symbol, f)
  }

  function Sum(charge: Fill -> Totals, fills: seq<Fill>): Totals {
    if fills == [] then ZERO else Sum(charge, fills[..|fills| - 1]).Plus(charge(fills[|fills| - 1]))
  }

  /** The totals over some fills. */
  function Tally(known: map<int, Execution>, symbol: string, fills: seq<Fill>): Totals {
    Sum(FillCharge(known, symbol), fills)
  }

  // ------------------------------------------------------------------
  // One fill for each execution
  // ------------------------------------------------------------------

  /** The executions of some fills, in the order in which they first occur. */
  function Keys(fills: seq<Fill>): seq<int> {
    if fills == [] then []
    else
      var f := fills[|fills| - 1];
      var before := Keys(fills[..|fills| - 1]);
      if f.execution in before then before else before + [f.execution]
  }

  lemma {:induction false} KeysAreExecutions(fills: seq<Fill>, e: int)
    ensures e in Keys(fills) <==> exists f :: f in fills && f.execution == e
  {
    if fills != [] {
      var f := fills[|fills| - 1];
      KeysAreExecutions(fills[..|fills| - 1], e);
      assert fills == fills[..|fills| - 1] + [f];
    }
  }

  function GroupOf(fills: seq<Fill>, e: int): (group: seq<Fill>)
    ensures forall f :: f in group <==> f in fills && f.execution == e
  {
    if fills == [] then []
    else
      var f := fills[|fills| - 1];
      assert fills == fills[..|fills| - 1] + [f];
      var rest := GroupOf(fills[..|fills| - 1], e);
      if f.execution == e then rest + [f] else rest
  }

  function Newness(f: Fill): int {
    -f.createdAt
  }

  /** The first of the sorted group: sorting is newest first and stable. */
  function SortedFirst(group: seq<Fill>): Fill
    requires group != []
  {
    assert |multiset(SortBy(Newness, group))| == |multiset(group)|;
    SortBy(Newness, group)[0]
  }

  /** The fill that a running map keeps: a later one replaces it only when strictly newer. */
  function RunningNewest(group: seq<Fill>): (f: Fill)
    requires group != []
    ensures f in group && forall g <- group :: g.createdAt <= f.createdAt
  {
    var last := group[|group| - 1];
    if |group| == 1 then last
    else
      var best := RunningNewest(group[..|group| - 1]);
      assert group == group[..|group| - 1] + [last];
      if last.createdAt > best.createdAt then last else best
  }

  lemma {:induction false} InsertedFirst(x: Fill, sorted: seq<Fill>)
    requires sorted != []
    ensures Insert(Newness, x, sorted) != []
    ensures Insert(Newness, x, sorted)[0] == if x.createdAt >= sorted[0].createdAt then x else sorted[0]
  {
  }

  lemma {:induction false} FirstWins(x: Fill, rest: seq<Fill>)
    requires rest != []
    ensures RunningNewest([x] + rest) == if x.createdAt >= RunningNewest(rest).createdAt then x else RunningNewest(rest)
  {
    var all := [x] + rest;
    assert all[..|all| - 1] == [x] + rest[..|rest| - 1];
    if |rest| > 1 {
      FirstWins(x, rest[..|rest| - 1]);
    } else {
      assert all[..1] == [x];
    }
  }

  /** The two ways of picking an execution's fill agree, ties included. */
  lemma {:induction false} SortedIsRunning(group: seq<Fill>)
    requires group != []
    ensures SortedFirst(group) == RunningNewest(group)
  {
    var rest := group[1..];
    assert group == [group[0]] + rest;
    if rest == [] {
      assert SortBy(Newness, rest) == [];
    } else {
      SortedIsRunning(rest);
      assert |multiset(SortBy(Newness, rest))| == |multiset(rest)|;
      InsertedFirst(group[0], SortBy(Newness, rest));
      FirstWins(group[0], rest);
    }
  }

  function Newest(fills: seq<Fill>, e: int): (f: Fill)
    requires e in Keys(fills)
    ensures f in fills && f.execution == e
  {
    assert GroupOf(fills, e) != [] by {
      KeysAreExecutions(fills, e);
      var g :| g in fills && g.execution == e;
      assert g in GroupOf(fills, e);
    }
    RunningNewest(GroupOf(fills, e))
  }

  /** The newest fill of each of some executions. */
  function NewestOf(fills: seq<Fill>, keys: seq<int>): (firsts: seq<Fill>)
    requires forall e <- keys :: e in Keys(fills)
  {
    seq(|keys|, i requires 0 <= i < |keys| => Newest(fills, keys[i]))
  }

  /** The fills of known executions, in the same order. */
  function KnownOnly(fills: seq<Fill>, known: map<int, Execution>): (r: seq<Fill>)
    ensures forall f :: f in r <==> f in fills && f.execution in known
  {
    if fills == [] then []
    else
      var f := fills[|fills| - 1];
      assert fills == fills[..|fills| - 1] + [f];
      var rest := KnownOnly(fills[..|fills| - 1], known);
      if f.execution in known then rest + [f] else rest
  }

  /** The newest fill of each execution, in the order of the groups. */
  function Newests(fills: seq<Fill>): seq<Fill> {
    NewestOf(fills, Keys(fills))
  }

  /** The fills of the first form: the newest of each known execution, in the order of the groups. */
  function UniqueFills(fills: seq<Fill>, known: map<int, Execution>): (unique: seq<Fill>) {
    KnownOnly(Newests(fills), known)
  }

  /** The first form: the totals over the unique fills. */
  function GroupTotals(fills: seq<Fill>, known: map<int, Execution>, symbol: string): Totals {
    Tally(known, symbol, UniqueFills(fills, known))
  }

  /** The second form: the totals over the running map, in which unknown executions add nothing. */
  function RunningTotals(fills: seq<Fill>, known: map<int, Execution>, symbol: string): Totals {
    Tally(known, symbol, Newests(fills))
  }

  // ------------------------------------------------------------------
  // The clean-up
  // ------------------------------------------------------------------

  /** Whether a fill of the position survives: its execution is known and it is the newest of its execution. */
  predicate Kept(fills: seq<Fill>, known: map<int, Execution>, f: Fill) {
    f.execution in known && f.execution in Keys(fills) && f == Newest(fills, f.execution)
  }

  /** A surviving BUY fill takes its execution's quantity when the two differ noticeably. */
  function Synced(f: Fill, known: map<int, Execution>): (r: Fill)
    ensures r == f.(qty := r.qty) && (f.side == Sell ==> r == f)
  {
    if f.side == Buy && f.execution in known && Abs(f.qty - known[f.execution].executedQty) > 0.00000001
    then f.(qty := known[f.execution].executedQty)
    else f
  }

  /** The fill table after the clean-up of a position whose fills were `mine`. */
  function CleanTable(table: seq<Fill>, position: int, mine: seq<Fill>, known: map<int, Execution>): seq<Fill> {
    if table == [] then []
    else
      var f := table[|table| - 1];
      var rest := CleanTable(table[..|table| - 1], position, mine, known);
      if f.position != position then rest + [f] else if Kept(mine, known, f) then rest + [Synced(f, known)] else rest
  }

  /** The position's own fills that survive, before and after their quantities are synced. */
  function Survivors(fills: seq<Fill>, mine: seq<Fill>, known: map<int, Execution>): (kept: seq<Fill>)
    ensures forall f :: f in kept <==> f in fills && Kept(mine, known, f)
  {
    if fills == [] then []
    else
      var f := fills[|fills| - 1];
      assert fills == fills[..|fills| - 1] + [f];
      var rest := Survivors(fills[..|fills| - 1], mine, known);
      if Kept(mine, known, f) then rest + [f] else rest
  }

  function SyncedAll(fills: seq<Fill>, known: map<int, Execution>): (synced: seq<Fill>)
    ensures |synced| == |fills| && forall i :: 0 <= i < |fills| ==> synced[i] == Synced(fills[i], known)
  {
    if fills == [] then []
    else SyncedAll(fills[..|fills| - 1], known) + [Synced(fills[|fills| - 1], known)]
  }

  function KnownExecutions(db: Db, p: Position, grouped: set<int>): map<int, Execution> {
    map e | e in db.executions
          && (db.executions[e].job == p.openJob || db.executions[e].job in grouped) :: db.executions[e]
  }

  function Recalculated(p: Position, t: Totals): Position {
    p.(qtyTotal := Max(0.0, t.buyQty), qtyRemaining := Max(0.0, t.buyQty - t.sellQty),
       feesOnBuy := t.feesBuy, feesOnSell := t.feesSell, totalFees := t.feesBuy + t.feesSell)
  }

  /** The clean-up and the recomputation of one position. */
  function RecomputeOne(db: Db, id: int, symbol: string, grouped: set<int>): Db
    requires id in db.positions
  {
    var known := KnownExecutions(db, db.positions[id], grouped);
    var fills := CleanTable(db.fills, id, FillsOf(db.fills, id), known);
    db.(fills := fills,
        positions := db.positions[id :=
          Recalculated(db.positions[id], RunningTotals(FillsOf(fills, id), known, symbol))])
  }
}
