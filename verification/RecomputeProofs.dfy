/** The two forms of the recomputation agree, before and after the clean-up,
    and repeating it changes nothing. */
module RecomputeProofs {
  import opened Collections
  import opened Tables
  import opened LedgerModel
  import opened Recompute

  ghost predicate DistinctIds(fills: seq<Fill>) {
    forall i, j :: 0 <= i < j < |fills| ==> fills[i].id != fills[j].id
  }

  ghost predicate OnePerExecution(fills: seq<Fill>) {
    forall i, j :: 0 <= i < j < |fills| ==> fills[i].execution != fills[j].execution
  }

  lemma SumNext(charge: Fill -> Totals, fills: seq<Fill>, f: Fill)
    ensures Sum(charge, fills + [f]) == Sum(charge, fills).Plus(charge(f))
  {
    assert (fills + [f])[..|fills|] == fills;
  }

  lemma KnownOnlyNext(fills: seq<Fill>, f: Fill, known: map<int, Execution>)
    ensures KnownOnly(fills + [f], known) ==
            if f.execution in known then KnownOnly(fills, known) + [f] else KnownOnly(fills, known)
  {
    assert (fills + [f])[..|fills|] == fills;
  }

  /** Fills of unknown executions add nothing. */
  lemma {:induction false} UnknownAddNothing(charge: Fill -> Totals, fills: seq<Fill>, known: map<int, Execution>)
    requires forall f: Fill :: f.execution !in known ==> charge(f) == ZERO
    ensures Sum(charge, fills) == Sum(charge, KnownOnly(fills, known))
  {
    if fills == [] {
    } else {
      var f, rest := fills[|fills| - 1], fills[..|fills| - 1];
      UnknownAddNothing(charge, rest, known);
      SumNext(charge, KnownOnly(rest, known), f);
    }
  }

  /** Main result: on any list of fills the two forms give the same totals. */
  lemma FormsAgree(fills: seq<Fill>, known: map<int, Execution>, symbol: string)
    ensures GroupTotals(fills, known, symbol) == RunningTotals(fills, known, symbol)
    ensures forall e <- Keys(fills) :: GroupOf(fills, e) != [] && Newest(fills, e) == SortedFirst(GroupOf(fills, e))
  {
    UnknownAddNothing(FillCharge(known, symbol), Newests(fills), known);
    forall e | e in Keys(fills)
      ensures GroupOf(fills, e) != [] && Newest(fills, e) == SortedFirst(GroupOf(fills, e))
    {
      assert Newest(fills, e) in GroupOf(fills, e);
      SortedIsRunning(GroupOf(fills, e));
    }
  }

  // ------------------------------------------------------------------
  // Totals do not depend on order
  // ------------------------------------------------------------------

  lemma {:induction false} SumAppend(charge: Fill -> Totals, a: seq<Fill>, b: seq<Fill>)
    ensures Sum(charge, a + b) == Sum(charge, a).Plus(Sum(charge, b))
  {
    if b == [] {
      assert a + b == a;
    } else {
      assert (a + b)[..|a + b| - 1] == a + b[..|b| - 1];
      SumAppend(charge, a, b[..|b| - 1]);
    }
  }

  lemma CancelOne<T>(a: multiset<T>, b: multiset<T>, x: T)
    requires a + multiset{x} == b + multiset{x}
    ensures a == b
  {
    forall y
      ensures a[y] == b[y]
    {
      assert (a + multiset{x})[y] == (b + multiset{x})[y];
    }
  }

  lemma {:induction false} SumPermuted(charge: Fill -> Totals, a: seq<Fill>, b: seq<Fill>)
    requires multiset(a) == multiset(b)
    ensures Sum(charge, a) == Sum(charge, b)
  {
    if a == [] {
      assert |multiset(b)| == 0;
    } else {
      var f, rest := a[|a| - 1], a[..|a| - 1];
      assert a == rest + [f];
      assert f in multiset(b);
      var i :| 0 <= i < |b| && b[i] == f;
      var others := b[..i] + b[i + 1..];
      SumWithout(charge, b, i);
      WithoutOne(b, i);
      CancelOne(multiset(rest), multiset(others), f);
      SumPermuted(charge, rest, others);
    }
  }

  lemma WithoutOne<T>(b: seq<T>, i: nat)
    requires i < |b|
    ensures b == b[..i] + ([b[i]] + b[i + 1..])
    ensures multiset(b) == multiset(b[..i] + b[i + 1..]) + multiset{b[i]}
  {
    assert b == b[..i] + ([b[i]] + b[i + 1..]);
  }

  lemma SumOfOne(charge: Fill -> Totals, f: Fill)
    ensures Sum(charge, [f]) == charge(f)
  {
    assert [f][..0] == [];
  }

  lemma SumWithout(charge: Fill -> Totals, b: seq<Fill>, i: nat)
    requires i < |b|
    ensures Sum(charge, b) == Sum(charge, b[..i] + b[i + 1..]).Plus(charge(b[i]))
  {
    var l, f, r := b[..i], b[i], b[i + 1..];
    WithoutOne(b, i);
    SumAppend(charge, l, [f] + r);
    SumAppend(charge, [f], r);
    SumOfOne(charge, f);
    SumAppend(charge, l, r);
  }

  lemma {:induction false} NoRepeatsCounts<T>(s: seq<T>, x: T)
    requires NoRepeats(s)
    ensures multiset(s)[x] == if x in s then 1 else 0
  {
    if s == [] {
    } else {
      assert s == [s[0]] + s[1..];
      NoRepeatsCounts(s[1..], x);
    }
  }

  lemma SameSetSameMultiset<T>(a: seq<T>, b: seq<T>)
    requires NoRepeats(a) && NoRepeats(b) && forall x :: x in a <==> x in b
    ensures multiset(a) == multiset(b)
  {
    forall x
      ensures multiset(a)[x] == multiset(b)[x]
    {
      NoRepeatsCounts(a, x);
      NoRepeatsCounts(b, x);
    }
  }

  // ------------------------------------------------------------------
  // The clean-up
  // ------------------------------------------------------------------

  lemma {:induction false} KeysDistinct(fills: seq<Fill>)
    ensures NoRepeats(Keys(fills))
  {
    if fills != [] {
      KeysDistinct(fills[..|fills| - 1]);
    }
  }

  lemma {:induction false} KnownOnlyDistinct(fills: seq<Fill>, known: map<int, Execution>)
    requires NoRepeats(fills)
    ensures NoRepeats(KnownOnly(fills, known))
  {
    if fills != [] {
      var f, rest := fills[|fills| - 1], fills[..|fills| - 1];
      KnownOnlyDistinct(rest, known);
      assert forall i :: 0 <= i < |rest| ==> rest[i] != f;
    }
  }

  lemma {:induction false} SurvivorsDistinct(fills: seq<Fill>, mine: seq<Fill>, known: map<int, Execution>)
    requires NoRepeats(fills)
    ensures OnePerExecution(Survivors(fills, mine, known)) && NoRepeats(Survivors(fills, mine, known))
  {
    if fills != [] {
      var f, rest := fills[|fills| - 1], fills[..|fills| - 1];
      SurvivorsDistinct(rest, mine, known);
      var kept := Survivors(rest, mine, known);
      assert f !in rest;
      forall i | 0 <= i < |kept|
        ensures kept[i] != f && (Kept(mine, known, f) ==> kept[i].execution != f.execution)
      {
        assert kept[i] in kept;
      }
    }
  }

  lemma NewestsAre(fills: seq<Fill>, f: Fill)
    ensures f in Newests(fills) <==> f.execution in Keys(fills) && f == Newest(fills, f.execution)
  {
    var firsts, keys := Newests(fills), Keys(fills);
    if f in firsts {
      var i :| 0 <= i < |firsts| && firsts[i] == f;
      assert keys[i] in keys;
    }
    if f.execution in keys && f == Newest(fills, f.execution) {
      var i :| 0 <= i < |keys| && keys[i] == f.execution;
      assert firsts[i] == f;
    }
  }

  lemma UniqueAreKept(fills: seq<Fill>, known: map<int, Execution>, f: Fill)
    ensures f in UniqueFills(fills, known) <==> f in fills && Kept(fills, known, f)
  {
    NewestsAre(fills, f);
  }

  lemma UniqueAreDistinct(fills: seq<Fill>, known: map<int, Execution>)
    ensures NoRepeats(UniqueFills(fills, known))
  {
    var firsts, keys := Newests(fills), Keys(fills);
    KeysDistinct(fills);
    forall i, j | 0 <= i < j < |firsts|
      ensures firsts[i] != firsts[j]
    {
      assert keys[i] in keys && keys[j] in keys;
      assert firsts[i].execution == keys[i] && firsts[j].execution == keys[j];
    }
    KnownOnlyDistinct(firsts, known);
  }

  /** The survivors are the unique fills of the first form, in table order. */
  lemma SurvivorsAreUnique(fills: seq<Fill>, known: map<int, Execution>)
    requires NoRepeats(fills)
    ensures multiset(Survivors(fills, fills, known)) == multiset(UniqueFills(fills, known))
  {
    var kept, unique := Survivors(fills, fills, known), UniqueFills(fills, known);
    SurvivorsDistinct(fills, fills, known);
    UniqueAreDistinct(fills, known);
    forall f
      ensures f in kept <==> f in unique
    {
      UniqueAreKept(fills, known, f);
    }
    SameSetSameMultiset(kept, unique);
  }

  lemma {:induction false} KeysOfDistinct(fills: seq<Fill>)
    requires OnePerExecution(fills)
    ensures |Keys(fills)| == |fills|
    ensures forall i :: 0 <= i < |fills| ==> Keys(fills)[i] == fills[i].execution
  {
    if fills != [] {
      KeysOfDistinct(fills[..|fills| - 1]);
    }
  }

  /** With one fill for each execution, every fill is the newest of its execution. */
  lemma AloneIsNewest(fills: seq<Fill>)
    requires OnePerExecution(fills)
    ensures forall f <- fills :: f.execution in Keys(fills) && Newest(fills, f.execution) == f
    ensures Newests(fills) == fills
  {
    KeysOfDistinct(fills);
    forall i | 0 <= i < |fills|
      ensures fills[i].execution in Keys(fills) && Newest(fills, fills[i].execution) == fills[i]
    {
      assert Keys(fills)[i] in Keys(fills);
      var n := Newest(fills, fills[i].execution);
    }
  }

  lemma {:induction false} SyncKeepsSum(charge: Fill -> Totals, known: map<int, Execution>, fills: seq<Fill>)
    requires forall f: Fill :: charge(Synced(f, known)) == charge(f)
    ensures Sum(charge, SyncedAll(fills, known)) == Sum(charge, fills)
  {
    if fills != [] {
      var f, rest := fills[|fills| - 1], fills[..|fills| - 1];
      SyncKeepsSum(charge, known, rest);
      SumNext(charge, SyncedAll(rest, known), Synced(f, known));
    }
  }

  /** A BUY fill is charged with its execution's quantity, so syncing the fill changes nothing. */
  lemma SyncedChargeSame(known: map<int, Execution>, symbol: string)
    ensures forall f: Fill :: FillCharge(known, symbol)(Synced(f, known)) == FillCharge(known, symbol)(f)
  {
    forall f: Fill
      ensures FillCharge(known, symbol)(Synced(f, known)) == FillCharge(known, symbol)(f)
    {
      assert Contribution(known, symbol, Synced(f, known)) == Contribution(known, symbol, f);
    }
  }

  /** Main result: the totals recomputed inside the transaction, from the cleaned fills, are the ones
      computed before it, from the fills as they were. */
  lemma CleanedTotals(fills: seq<Fill>, known: map<int, Execution>, symbol: string)
    requires NoRepeats(fills)
    ensures RunningTotals(SyncedAll(Survivors(fills, fills, known), known), known, symbol) ==
            GroupTotals(fills, known, symbol)
  {
    var kept := Survivors(fills, fills, known);
    var synced := SyncedAll(kept, known);
    SurvivorsDistinct(fills, fills, known);
    AloneIsNewest(synced);
    SyncedChargeSame(known, symbol);
    SyncKeepsSum(FillCharge(known, symbol), known, kept);
    SurvivorsAreUnique(fills, known);
    SumPermuted(FillCharge(known, symbol), kept, UniqueFills(fills, known));
  }

  lemma {:induction false} CleanedFills(table: seq<Fill>, position: int, mine: seq<Fill>, known: map<int, Execution>)
    ensures FillsOf(CleanTable(table, position, mine, known), position)
         == SyncedAll(Survivors(FillsOf(table, position), mine, known), known)
  {
    if table != [] {
      var f, rest := table[|table| - 1], table[..|table| - 1];
      CleanedFills(rest, position, mine, known);
      var kept := Survivors(FillsOf(rest, position), mine, known);
      if f.position != position {
        assert FillsOf(table, position) == FillsOf(rest, position);
        FillsOfAppend(CleanTable(rest, position, mine, known), f, position);
      } else if Kept(mine, known, f) {
        FillsOfAppend(CleanTable(rest, position, mine, known), Synced(f, known), position);
        SurvivorsAppend(FillsOf(rest, position), f, mine, known);
      } else {
        SurvivorsAppend(FillsOf(rest, position), f, mine, known);
        assert CleanTable(table, position, mine, known) == CleanTable(rest, position, mine, known);
      }
    }
  }

  lemma FillsOfAppend(table: seq<Fill>, f: Fill, position: int)
    ensures FillsOf(table + [f], position) ==
            if f.position == position then FillsOf(table, position) + [f] else FillsOf(table, position)
  {
    assert (table + [f])[..|table|] == table;
  }

  lemma SurvivorsAppend(fills: seq<Fill>, f: Fill, mine: seq<Fill>, known: map<int, Execution>)
    ensures Survivors(fills + [f], mine, known) ==
            if Kept(mine, known, f) then Survivors(fills, mine, known) + [f] else Survivors(fills, mine, known)
    ensures SyncedAll(Survivors(fills, mine, known) + [f], known)
         == SyncedAll(Survivors(fills, mine, known), known) + [Synced(f, known)]
  {
    assert (fills + [f])[..|fills|] == fills;
    var kept := Survivors(fills, mine, known);
    assert (kept + [f])[..|kept|] == kept;
  }

  /** The clean-up of one position leaves the fills of the others alone. */
  lemma {:induction false} OthersUntouched(table: seq<Fill>, position: int, mine: seq<Fill>,
                                        known: map<int, Execution>, p: int)
    requires p != position
    ensures FillsOf(CleanTable(table, position, mine, known), p) == FillsOf(table, p)
  {
    if table != [] {
      var f, rest := table[|table| - 1], table[..|table| - 1];
      OthersUntouched(rest, position, mine, known, p);
      FillsOfAppend(CleanTable(rest, position, mine, known), if f.position == position then Synced(f, known) else f, p);
      assert f.position == position && !Kept(mine, known, f) ==>
        CleanTable(table, position, mine, known) == CleanTable(rest, position, mine, known);
    }
  }

  lemma {:induction false} OwnFillsDistinct(table: seq<Fill>, position: int)
    requires DistinctIds(table)
    ensures forall f <- FillsOf(table, position) :: f in table && f.position == position
    ensures NoRepeats(FillsOf(table, position)) && DistinctIds(FillsOf(table, position))
  {
    if table != [] {
      OwnFillsDistinct(table[..|table| - 1], position);
    }
  }

  /** Main result on the tables: the position gets the totals of the first form over its original fills. */
  lemma RecomputeWritesGroupTotals(db: Db, id: int, symbol: string, grouped: set<int>)
    requires id in db.positions && DistinctIds(db.fills)
    ensures
      var known := KnownExecutions(db, db.positions[id], grouped);
      RecomputeOne(db, id, symbol, grouped).positions[id]
      == Recalculated(db.positions[id], GroupTotals(FillsOf(db.fills, id), known, symbol))
  {
    var known := KnownExecutions(db, db.positions[id], grouped);
    var mine := FillsOf(db.fills, id);
    OwnFillsDistinct(db.fills, id);
    CleanedFills(db.fills, id, mine, known);
    CleanedTotals(mine, known, symbol);
  }

  /** A table whose fills of the position all survive and are in sync is left as it is. */
  lemma {:induction false} CleanStays(table: seq<Fill>, position: int, mine: seq<Fill>, known: map<int, Execution>)
    requires forall f <- table :: f.position == position ==> Kept(mine, known, f) && Synced(f, known) == f
    ensures CleanTable(table, position, mine, known) == table
  {
    if table != [] {
      assert table[|table| - 1] in table;
      CleanStays(table[..|table| - 1], position, mine, known);
    }
  }

  lemma {:induction false} InFillsOf(table: seq<Fill>, position: int)
    ensures forall f :: f in FillsOf(table, position) <==> f in table && f.position == position
  {
    if table != [] {
      InFillsOf(table[..|table| - 1], position);
      assert table == table[..|table| - 1] + [table[|table| - 1]];
    }
  }

  /** What is left of a position's fills: one for each known execution, in sync. */
  lemma CleanedAreClean(mine: seq<Fill>, known: map<int, Execution>)
    requires NoRepeats(mine)
    ensures
      var left := SyncedAll(Survivors(mine, mine, known), known);
      forall f <- left :: Kept(left, known, f) && Synced(f, known) == f
  {
    var kept := Survivors(mine, mine, known);
    SurvivorsDistinct(mine, mine, known);
    SyncedAreClean(kept, known);
  }

  lemma SyncedAreClean(kept: seq<Fill>, known: map<int, Execution>)
    requires OnePerExecution(kept) && forall f <- kept :: f.execution in known
    ensures forall f <- SyncedAll(kept, known) :: Kept(SyncedAll(kept, known), known, f) && Synced(f, known) == f
  {
    var left := SyncedAll(kept, known);
    AloneIsNewest(left);
    forall f | f in left
      ensures f.execution in known && Synced(f, known) == f
    {
      var i :| 0 <= i < |left| && left[i] == f;
      assert kept[i] in kept;
    }
  }

  lemma CleanTwice(table: seq<Fill>, position: int, known: map<int, Execution>)
    requires DistinctIds(table)
    ensures
      var once := CleanTable(table, position, FillsOf(table, position), known);
      CleanTable(once, position, FillsOf(once, position), known) == once
  {
    var once := CleanTable(table, position, FillsOf(table, position), known);
    OwnFillsDistinct(table, position);
    CleanedFills(table, position, FillsOf(table, position), known);
    CleanedAreClean(FillsOf(table, position), known);
    InFillsOf(once, position);
    CleanStays(once, position, FillsOf(once, position), known);
  }

  /** Main result: repeating the clean-up deletes nothing and changes no row. */
  lemma RecomputeIsIdempotent(db: Db, id: int, symbol: string, grouped: set<int>)
    requires id in db.positions && DistinctIds(db.fills)
    ensures
      var once := RecomputeOne(db, id, symbol, grouped);
      RecomputeOne(once, id, symbol, grouped) == once
  {
    var known := KnownExecutions(db, db.positions[id], grouped);
    var once := RecomputeOne(db, id, symbol, grouped);
    assert KnownExecutions(once, once.positions[id], grouped) == known;
    CleanTwice(db.fills, id, known);
  }

  /** A fill of the position survives exactly when its execution belongs to the opening job or to a grouped
      one, and it is the first of the execution's fills sorted newest first. */
  lemma SurvivesIff(db: Db, id: int, symbol: string, grouped: set<int>, f: Fill)
    requires id in db.positions && DistinctIds(db.fills) && f in db.fills && f.position == id
    ensures f in GroupOf(FillsOf(db.fills, id), f.execution)
    ensures
      (exists g :: g in RecomputeOne(db, id, symbol, grouped).fills && g.position == id && g.id == f.id)
      <==> && f.execution in db.executions
           && (db.executions[f.execution].job == db.positions[id].openJob || db.executions[f.execution].job in grouped)
           && f == SortedFirst(GroupOf(FillsOf(db.fills, id), f.execution))
  {
    var known := KnownExecutions(db, db.positions[id], grouped);
    var mine := FillsOf(db.fills, id);
    var after := RecomputeOne(db, id, symbol, grouped).fills;
    OwnFillsDistinct(db.fills, id);
    InFillsOf(db.fills, id);
    InFillsOf(after, id);
    CleanedFills(db.fills, id, mine, known);
    KeysAreExecutions(mine, f.execution);
    SortedIsRunning(GroupOf(mine, f.execution));
    LeftIff(mine, known, f);
    assert forall g :: g in after && g.position == id <==> g in SyncedAll(Survivors(mine, mine, known), known);
  }

  lemma LeftIff(mine: seq<Fill>, known: map<int, Execution>, f: Fill)
    requires DistinctIds(mine) && f in mine
    ensures (exists g :: g in SyncedAll(Survivors(mine, mine, known), known) && g.id == f.id) <==> Kept(mine, known, f)
  {
    var kept := Survivors(mine, mine, known);
    var left := SyncedAll(kept, known);
    if g :| g in left && g.id == f.id {
      var i :| 0 <= i < |left| && left[i] == g;
      assert kept[i] in kept && kept[i].id == f.id;
      IdDecides(mine, kept[i], f);
    }
    if Kept(mine, known, f) {
      assert f in kept;
      var i :| 0 <= i < |kept| && kept[i] == f;
      assert left[i] in left && left[i].id == f.id;
    }
  }

  lemma IdDecides(fills: seq<Fill>, f: Fill, g: Fill)
    requires DistinctIds(fills) && f in fills && g in fills && f.id == g.id
    ensures f == g
  {
  }

  /** A fill in step with its execution's quantity, to a hundred-millionth of a unit. */
  ghost predicate InStep(f: Fill, e: Execution) {
    -0.00000001 <= f.qty - e.executedQty <= 0.00000001
  }

  lemma SyncedInStep(f: Fill, known: map<int, Execution>)
    requires f.execution in known
    ensures f.side == Buy ==>
      InStep(Synced(f, known), known[f.execution])
      && Synced(f, known) == if InStep(f, known[f.execution]) then f else f.(qty := known[f.execution].executedQty)
    ensures f.side == Sell ==> Synced(f, known) == f
  {
  }

  /** Every fill that the recomputation leaves on the position is an old one: a sale as it was, a purchase with
      its execution's quantity unless it was in step with that. */
  lemma LeftInStep(db: Db, id: int, symbol: string, grouped: set<int>, f: Fill)
    requires id in db.positions && f in RecomputeOne(db, id, symbol, grouped).fills && f.position == id
    ensures f.execution in db.executions
    ensures
      var e := db.executions[f.execution];
      if f.side == Sell then f in db.fills
      else
        && InStep(f, e)
        && exists g :: g in db.fills && f == if InStep(g, e) then g else g.(qty := e.executedQty)
  {
    var known, mine := KnownExecutions(db, db.positions[id], grouped), FillsOf(db.fills, id);
    var kept := Survivors(mine, mine, known);
    InFillsOf(db.fills, id);
    InFillsOf(RecomputeOne(db, id, symbol, grouped).fills, id);
    CleanedFills(db.fills, id, mine, known);
    var i :| 0 <= i < |kept| && Synced(kept[i], known) == f;
    assert kept[i] in kept && kept[i] in db.fills;
    SyncedInStep(kept[i], known);
  }

  /** The trap: when every sale of the position belongs to a job that is neither the opening one nor
      grouped, the recomputation forgets all of them and gives the position its whole quantity back. */
  lemma ForeignSalesForgotten(db: Db, id: int, symbol: string, grouped: set<int>)
    requires id in db.positions && DistinctIds(db.fills)
    requires forall f <- db.fills :: f.position == id && f.side == Sell ==>
      f.execution !in KnownExecutions(db, db.positions[id], grouped)
    ensures
      var after := RecomputeOne(db, id, symbol, grouped);
      && after.positions[id].qtyRemaining == after.positions[id].qtyTotal
      && forall f <- after.fills :: f.position == id ==> f.side == Buy
  {
    var known := KnownExecutions(db, db.positions[id], grouped);
    var mine := FillsOf(db.fills, id);
    var after := RecomputeOne(db, id, symbol, grouped);
    InFillsOf(db.fills, id);
    InFillsOf(after.fills, id);
    CleanedFills(db.fills, id, mine, known);
    var kept := Survivors(mine, mine, known);
    var synced := SyncedAll(kept, known);
    forall f | f in synced
      ensures f.side == Buy
    {
      var i :| 0 <= i < |synced| && synced[i] == f;
      assert kept[i] in kept;
    }
    var firsts := Newests(synced);
    forall f | f in firsts
      ensures f.side == Buy
    {
      NewestsAre(synced, f);
    }
    NothingSold(FillCharge(known, symbol), firsts);
  }

  lemma {:induction false} NothingSold(charge: Fill -> Totals, fills: seq<Fill>)
    requires forall f <- fills :: charge(f).sellQty == 0.0
    ensures Sum(charge, fills).sellQty == 0.0
  {
    if fills != [] {
      assert fills[|fills| - 1] in fills;
      NothingSold(charge, fills[..|fills| - 1]);
    }
  }

  /** Such a position: two units are bought, one is sold by another job, and the recomputation gives it back. */
  lemma SaleForgotten(account: Account, now: int)
    ensures
      var bought := Order("b", "BTCUSDT", Buy, 2.0, 10.0, 20.0, 0.0, "USDT", now, None);
      var sold := Order("s", "BTCUSDT", Sell, 1.0, 10.0, 10.0, 0.0, "USDT", now, Some(1));
      var two := ImportOne(ImportOne(EMPTY_DB, account, bought, now).0, account, sold, now).0;
      && 1 in two.positions && two.positions[1].qtyRemaining == 1.0
      && (exists f :: f in two.fills && f.position == 1 && f.side == Sell)
      && var after := RecomputeOne(two, 1, "BTCUSDT", {});
        && after.positions[1].qtyRemaining == after.positions[1].qtyTotal
        && forall f <- after.fills :: f.position == 1 ==> f.side == Buy
  {
    var bought := Order("b", "BTCUSDT", Buy, 2.0, 10.0, 20.0, 0.0, "USDT", now, None);
    var sold := Order("s", "BTCUSDT", Sell, 1.0, 10.0, 10.0, 0.0, "USDT", now, Some(1));
    assert IsValidSymbol("BTCUSDT") && Acceptable(bought) && Acceptable(sold);
    BoughtThenSold(account, bought, sold, now);
    var two := ImportOne(ImportOne(EMPTY_DB, account, bought, now).0, account, sold, now).0;
    ForeignSalesForgotten(two, 1, "BTCUSDT", {});
  }

  lemma BoughtThenSold(account: Account, bought: Order, sold: Order, now: int)
    requires Acceptable(bought) && bought.side == Buy && bought.qty == 2.0
    requires Acceptable(sold) && sold.side == Sell && sold.qty == 1.0 && sold.positionId == Some(1)
    ensures
      var two := ImportOne(ImportOne(EMPTY_DB, account, bought, now).0, account, sold, now).0;
      var sale := Fill(2, 1, 2, Sell, 1.0, sold.price, now);
      && two.fills == [Fill(1, 1, 1, Buy, 2.0, bought.price, now), sale] && sale in two.fills
      && 1 in two.positions && two.positions[1].openJob == 1 && two.positions[1].qtyRemaining == 1.0
      && 2 in two.executions && two.executions[2].job == 2
  {
    var one := ImportOne(EMPTY_DB, account, bought, now).0;
    assert one.positions == map[1 := OpenedPosition(account, bought, 1)];
    assert one.fills == [Fill(1, 1, 1, Buy, 2.0, bought.price, now)];
    var sale := Fill(2, 1, 2, Sell, 1.0, sold.price, now);
    assert ImportOne(one, account, sold, now).0.fills[1] == sale;
  }
}
