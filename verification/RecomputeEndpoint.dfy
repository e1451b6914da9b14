/** The recomputation of one position as the endpoint carries it out, row by row. */
module RecomputeEndpoint {
  import opened Collections
  import opened Tables
  import opened LedgerModel
  import opened Sorting
  import opened Recompute
  import opened RecomputeProofs

  function Ids(fills: seq<Fill>): set<int> {
    set f | f in fills :: f.id
  }

  /** `positionFill.delete` for each of some ids. */
  function Drop(fills: seq<Fill>, ids: set<int>): seq<Fill> {
    if fills == [] then []
    else
      var f := fills[|fills| - 1];
      var rest := Drop(fills[..|fills| - 1], ids);
      if f.id in ids then rest else rest + [f]
  }

  lemma {:induction false} DropMore(fills: seq<Fill>, a: set<int>, b: set<int>)
    ensures Drop(Drop(fills, a), b) == Drop(fills, a + b)
  {
    if fills != [] {
      var f, rest := fills[|fills| - 1], fills[..|fills| - 1];
      DropMore(rest, a, b);
      var once := Drop(rest, a);
      assert (once + [f])[..|once|] == once;
      assert f.id in a ==> Drop(fills, a) == once;
    }
  }

  lemma {:induction false} DropNone(fills: seq<Fill>)
    ensures Drop(fills, {}) == fills
  {
    if fills != [] {
      DropNone(fills[..|fills| - 1]);
    }
  }

  /** `positionFill.update` of the quantity, for each of some ids. */
  function SyncIds(fills: seq<Fill>, ids: set<int>, known: map<int, Execution>): seq<Fill> {
    if fills == [] then []
    else
      var f := fills[|fills| - 1];
      SyncIds(fills[..|fills| - 1], ids, known) + [if f.id in ids then Synced(f, known) else f]
  }

  lemma {:induction false} SyncMore(fills: seq<Fill>, a: set<int>, b: set<int>, known: map<int, Execution>)
    ensures SyncIds(SyncIds(fills, a, known), b, known) == SyncIds(fills, a + b, known)
  {
    if fills != [] {
      SyncMore(fills[..|fills| - 1], a, b, known);
      var once := SyncIds(fills, a, known);
      assert once[..|once| - 1] == SyncIds(fills[..|fills| - 1], a, known);
    }
  }

  lemma {:induction false} SyncNone(fills: seq<Fill>, known: map<int, Execution>)
    ensures SyncIds(fills, {}, known) == fills
  {
    if fills != [] {
      SyncNone(fills[..|fills| - 1], known);
    }
  }

  /** Deleting and updating by id amounts to the clean-up of the table. */
  lemma {:induction false} CleanedById(
    table: seq<Fill>, position: int, mine: seq<Fill>, known: map<int, Execution>, doomed: set<int>, unique: set<int>)
    requires forall f <- table ::
      && (f.id in doomed <==> f.position == position && !Kept(mine, known, f))
      && (f.id in unique <==> f.position == position && Kept(mine, known, f))
    ensures SyncIds(Drop(table, doomed), unique, known) == CleanTable(table, position, mine, known)
  {
    if table != [] {
      var f, rest := table[|table| - 1], table[..|table| - 1];
      assert f in table;
      CleanedById(rest, position, mine, known, doomed, unique);
      var kept := Drop(rest, doomed);
      assert (kept + [f])[..|kept|] == kept;
      assert f.id in doomed ==> Drop(table, doomed) == kept;
    }
  }

  method DeleteFills(ledger: Ledger, rows: seq<Fill>)
    modifies ledger`fills
    ensures ledger.fills == Drop(old(ledger.fills), Ids(rows))
  {
    DropNone(ledger.fills);
    ghost var before := ledger.fills;
    assert Ids(rows[..0]) == {};
    for i := 0 to |rows|
      invariant ledger.fills == Drop(before, Ids(rows[..i]))
    {
      ghost var gone := Ids(rows[..i]);
      DropMore(before, gone, {rows[i].id});
      assert rows[..i + 1] == rows[..i] + [rows[i]];
      assert gone + {rows[i].id} == Ids(rows[..i + 1]);
      ledger.fills := Drop(ledger.fills, {rows[i].id});
    }
    assert rows[..|rows|] == rows;
  }

  /** Grouping with a `Map` whose values are lists. */
  method GroupFills(fills: seq<Fill>) returns (keys: seq<int>, groups: map<int, seq<Fill>>)
    ensures keys == Keys(fills)
    ensures forall e :: e in groups <==> e in keys
    ensures forall e <- groups :: groups[e] == GroupOf(fills, e)
  {
    keys, groups := [], map[];
    for i := 0 to |fills|
      invariant keys == Keys(fills[..i])
      invariant forall e :: e in groups <==> e in keys
      invariant forall e <- groups :: groups[e] == GroupOf(fills[..i], e)
    {
      var f := fills[i];
      ghost var now := fills[..i + 1];
      assert now[..|now| - 1] == fills[..i];
      if f.execution !in groups {
        NoGroup(fills[..i], f.execution);
        groups := groups[f.execution := []];
        keys := keys + [f.execution];
      }
      groups := groups[f.execution := groups[f.execution] + [f]];
    }
    assert fills[..|fills|] == fills;
  }

  lemma NoGroup(fills: seq<Fill>, e: int)
    requires e !in Keys(fills)
    ensures GroupOf(fills, e) == []
  {
    if GroupOf(fills, e) != [] {
      assert GroupOf(fills, e)[0] in GroupOf(fills, e);
    }
  }

  lemma NewestAfter(fills: seq<Fill>, f: Fill, e: int)
    ensures e in Keys(fills + [f]) <==> e in Keys(fills) || e == f.execution
    ensures e in Keys(fills + [f]) ==>
      Newest(fills + [f], e) ==
      if e in Keys(fills) && !(e == f.execution && f.createdAt > Newest(fills, e).createdAt)
      then Newest(fills, e) else f
  {
    KeysNext(fills, f);
    if e in Keys(fills) {
      NewestNext(fills, f, e);
    }
  }

  /** The running map of the newest fills. */
  ghost function NewestMap(fills: seq<Fill>): map<int, Fill> {
    map e | e in Keys(fills) :: Newest(fills, e)
  }

  lemma NewestMapNext(fills: seq<Fill>, f: Fill)
    ensures
      var newest := NewestMap(fills);
      NewestMap(fills + [f]) ==
      if f.execution in newest && f.createdAt <= newest[f.execution].createdAt then newest else newest[f.execution := f]
  {
    var newest, next := NewestMap(fills), NewestMap(fills + [f]);
    forall e: int
      ensures e in next <==> e in newest || e == f.execution
      ensures e in next ==>
        next[e] == if e in newest && !(e == f.execution && f.createdAt > newest[e].createdAt) then newest[e] else f
    {
      NewestAfter(fills, f, e);
    }
    MapOfEntries(newest, next, f);
  }

  lemma MapOfEntries(newest: map<int, Fill>, next: map<int, Fill>, f: Fill)
    requires forall e: int :: e in next <==> e in newest || e == f.execution
    requires forall e <- next ::
      next[e] == if e in newest && !(e == f.execution && f.createdAt > newest[e].createdAt) then newest[e] else f
    ensures next ==
            if f.execution in newest && f.createdAt <= newest[f.execution].createdAt then newest
            else newest[f.execution := f]
  {
    var updated :=
      if f.execution in newest && f.createdAt <= newest[f.execution].createdAt
      then newest else newest[f.execution := f];
    assert forall e: int :: e in next <==> e in updated;
    assert forall e <- next :: next[e] == updated[e];
  }

  method Note(f: Fill, keys: seq<int>, newest: map<int, Fill>, ghost before: seq<Fill>)
    returns (nowKeys: seq<int>, nowNewest: map<int, Fill>)
    requires keys == Keys(before) && newest == NewestMap(before)
    ensures nowKeys == Keys(before + [f]) && nowNewest == NewestMap(before + [f])
  {
    KeysNext(before, f);
    NewestMapNext(before, f);
    nowKeys, nowNewest := keys, newest;
    if f.execution !in newest {
      nowKeys, nowNewest := keys + [f.execution], newest[f.execution := f];
    } else if f.createdAt > newest[f.execution].createdAt {
      nowNewest := newest[f.execution := f];
    }
  }

  method RunningMap(fills: seq<Fill>) returns (keys: seq<int>, newest: map<int, Fill>)
    ensures keys == Keys(fills) && newest == NewestMap(fills)
  {
    keys, newest := [], map[];
    for i := 0 to |fills|
      invariant keys == Keys(fills[..i]) && newest == NewestMap(fills[..i])
    {
      keys, newest := Note(fills[i], keys, newest, fills[..i]);
      assert fills[..i + 1] == fills[..i] + [fills[i]];
    }
    assert fills[..|fills|] == fills;
  }

  lemma KeysNext(fills: seq<Fill>, f: Fill)
    ensures Keys(fills + [f]) == if f.execution in Keys(fills) then Keys(fills) else Keys(fills) + [f.execution]
    ensures f.execution in Keys(fills + [f])
    ensures f.execution !in Keys(fills) ==> Newest(fills + [f], f.execution) == f
  {
    assert (fills + [f])[..|fills|] == fills;
    if f.execution !in Keys(fills) {
      NoGroup(fills, f.execution);
    }
  }

  /** The totals over the running map. */
  method RunningForm(fills: seq<Fill>, known: map<int, Execution>, symbol: string) returns (totals: Totals)
    ensures totals == RunningTotals(fills, known, symbol)
  {
    var keys, newest := RunningMap(fills);
    var charge := FillCharge(known, symbol);
    NewestMapOfKeys(fills);
    totals := SumNewest(charge, keys, newest, Newests(fills));
  }

  lemma NewestMapOfKeys(fills: seq<Fill>)
    ensures forall k :: 0 <= k < |Keys(fills)| ==>
      Keys(fills)[k] in NewestMap(fills) && NewestMap(fills)[Keys(fills)[k]] == Newests(fills)[k]
  {
    forall k | 0 <= k < |Keys(fills)|
      ensures Keys(fills)[k] in NewestMap(fills) && NewestMap(fills)[Keys(fills)[k]] == Newests(fills)[k]
    {
      assert Keys(fills)[k] in Keys(fills);
    }
  }

  method SumNewest(charge: Fill -> Totals, keys: seq<int>, newest: map<int, Fill>, ghost firsts: seq<Fill>)
    returns (totals: Totals)
    requires |firsts| == |keys|
    requires forall k :: 0 <= k < |keys| ==> keys[k] in newest && newest[keys[k]] == firsts[k]
    ensures totals == Sum(charge, firsts)
  {
    totals := ZERO;
    for k := 0 to |keys|
      invariant totals == Sum(charge, firsts[..k])
    {
      SumNext(charge, firsts[..k], firsts[k]);
      assert firsts[..k + 1] == firsts[..k] + [firsts[k]];
      totals := totals.Plus(charge(newest[keys[k]]));
    }
    assert firsts[..|keys|] == firsts;
  }

  lemma RunningNext(group: seq<Fill>, f: Fill)
    requires group != []
    ensures RunningNewest(group + [f]) ==
            if f.createdAt > RunningNewest(group).createdAt then f else RunningNewest(group)
  {
    assert (group + [f])[..|group|] == group;
  }

  lemma GroupNext(fills: seq<Fill>, f: Fill, e: int)
    ensures GroupOf(fills + [f], e) == if f.execution == e then GroupOf(fills, e) + [f] else GroupOf(fills, e)
  {
    assert (fills + [f])[..|fills|] == fills;
  }

  lemma MoreKeys(fills: seq<Fill>, f: Fill, e: int)
    requires e in Keys(fills)
    ensures e in Keys(fills + [f]) && GroupOf(fills, e) != []
  {
    assert (fills + [f])[..|fills|] == fills;
    assert Newest(fills, e) in GroupOf(fills, e);
  }

  lemma NewestNext(fills: seq<Fill>, f: Fill, e: int)
    requires e in Keys(fills)
    ensures e in Keys(fills + [f])
    ensures Newest(fills + [f], e) ==
            if e == f.execution && f.createdAt > Newest(fills, e).createdAt then f else Newest(fills, e)
  {
    MoreKeys(fills, f, e);
    GroupNext(fills, f, e);
    if e == f.execution {
      RunningNext(GroupOf(fills, e), f);
    } else {
      assert GroupOf(fills, e) + [] == GroupOf(fills, e);
    }
  }

  /** The ids that the clean-up deletes among the fills of some executions. */
  ghost function DoomedIds(mine: seq<Fill>, known: map<int, Execution>, keys: seq<int>): set<int> {
    set f | f in mine && f.execution in keys && !Kept(mine, known, f) :: f.id
  }

  ghost function DoomedOf(mine: seq<Fill>, known: map<int, Execution>, e: int): set<int> {
    set f | f in mine && f.execution == e && !Kept(mine, known, f) :: f.id
  }

  lemma NextDoomed(mine: seq<Fill>, known: map<int, Execution>, keys: seq<int>, e: int)
    ensures DoomedIds(mine, known, keys) + DoomedOf(mine, known, e) == DoomedIds(mine, known, keys + [e])
  {
  }

  /** The rest of a sorted group is the group without its first. */
  lemma RestOfGroup(mine: seq<Fill>, known: map<int, Execution>, e: int)
    requires NoRepeats(mine) && e in Keys(mine) && e in known
    ensures
      var sorted := SortBy(Newness, GroupOf(mine, e));
      && sorted != [] && sorted[0] == Newest(mine, e)
      && forall f :: f in sorted[1..] <==> f in mine && f.execution == e && !Kept(mine, known, f)
  {
    var group := GroupOf(mine, e);
    var sorted := SortBy(Newness, group);
    assert Newest(mine, e) in group;
    SortedIsRunning(group);
    SameMembers(Newness, group);
    assert |multiset(sorted)| == |multiset(group)|;
    assert sorted == [sorted[0]] + sorted[1..];
    GroupDistinct(mine, e);
    NoRepeatsCounts(group, sorted[0]);
    assert multiset(sorted)[sorted[0]] == multiset(sorted[1..])[sorted[0]] + 1;
    forall f
      ensures f in sorted[1..] <==> f in mine && f.execution == e && !Kept(mine, known, f)
    {
      assert f in sorted <==> f == sorted[0] || f in sorted[1..];
      assert f in sorted[1..] <==> f in multiset(sorted[1..]);
    }
  }

  lemma {:induction false} GroupDistinct(fills: seq<Fill>, e: int)
    requires NoRepeats(fills)
    ensures NoRepeats(GroupOf(fills, e))
  {
    if fills != [] {
      GroupDistinct(fills[..|fills| - 1], e);
      var before := GroupOf(fills[..|fills| - 1], e);
      forall i | 0 <= i < |before|
        ensures before[i] != fills[|fills| - 1]
      {
        assert before[i] in before;
      }
    }
  }

  /** One group: an unknown execution loses its fills, a known one keeps the first of the sorted group. */
  method CleanGroup(ledger: Ledger, mine: seq<Fill>, known: map<int, Execution>, e: int, group: seq<Fill>)
    returns (first: Option<Fill>)
    requires NoRepeats(mine) && e in Keys(mine) && group == GroupOf(mine, e)
    modifies ledger`fills
    ensures first == if e in known then Some(Newest(mine, e)) else None
    ensures ledger.fills == Drop(old(ledger.fills), DoomedOf(mine, known, e))
  {
    if e !in known {
      assert Ids(group) == DoomedOf(mine, known, e);
      DeleteFills(ledger, group);
      return None;
    }
    RestOfGroup(mine, known, e);
    var sorted := SortBy(Newness, group);
    assert Ids(sorted[1..]) == DoomedOf(mine, known, e);
    DeleteFills(ledger, sorted[1..]);
    first := Some(sorted[0]);
  }

  /** Deleting the orphans and the repeated fills, and collecting the unique ones. */
  method CleanUp(ledger: Ledger, mine: seq<Fill>, known: map<int, Execution>) returns (unique: seq<Fill>)
    requires NoRepeats(mine)
    modifies ledger`fills
    ensures unique == UniqueFills(mine, known)
    ensures ledger.fills == Drop(old(ledger.fills), DoomedIds(mine, known, Keys(mine)))
  {
    var keys, groups := GroupFills(mine);
    ghost var before, firsts := ledger.fills, Newests(mine);
    unique := [];
    DropNone(before);
    assert DoomedIds(mine, known, keys[..0]) == {};
    for k := 0 to |keys|
      invariant unique == KnownOnly(firsts[..k], known)
      invariant ledger.fills == Drop(before, DoomedIds(mine, known, keys[..k]))
    {
      assert keys[k] in keys && firsts[k] == Newest(mine, keys[k]);
      DroppedNext(before, mine, known, keys, k);
      UniqueNext(firsts, known, k);
      var group := groups[keys[k]];
      var first := CleanGroup(ledger, mine, known, keys[k], group);
      if first.Some? {
        unique := unique + [first.value];
      }
    }
    assert keys[..|keys|] == keys;
    assert firsts[..|keys|] == firsts;
  }

  lemma DroppedNext(before: seq<Fill>, mine: seq<Fill>, known: map<int, Execution>, keys: seq<int>, k: nat)
    requires k < |keys|
    ensures Drop(Drop(before, DoomedIds(mine, known, keys[..k])), DoomedOf(mine, known, keys[k])) ==
            Drop(before, DoomedIds(mine, known, keys[..k + 1]))
  {
    NextDoomed(mine, known, keys[..k], keys[k]);
    DropMore(before, DoomedIds(mine, known, keys[..k]), DoomedOf(mine, known, keys[k]));
    assert keys[..k + 1] == keys[..k] + [keys[k]];
  }

  lemma UniqueNext(firsts: seq<Fill>, known: map<int, Execution>, k: nat)
    requires k < |firsts|
    ensures KnownOnly(firsts[..k + 1], known) ==
            var unique := KnownOnly(firsts[..k], known);
            if firsts[k].execution in known then unique + [firsts[k]] else unique
  {
    assert firsts[..k + 1] == firsts[..k] + [firsts[k]];
    KnownOnlyNext(firsts[..k], firsts[k], known);
  }

  /** The first form, which also brings the quantities of BUY fills in line with their executions. */
  method GroupForm(ledger: Ledger, unique: seq<Fill>, known: map<int, Execution>, symbol: string)
    returns (totals: Totals)
    modifies ledger`fills
    ensures totals == Tally(known, symbol, unique)
    ensures ledger.fills == SyncIds(old(ledger.fills), Ids(unique), known)
  {
    totals := ZERO;
    ghost var before := ledger.fills;
    SyncNone(before, known);
    assert Ids(unique[..0]) == {};
    for i := 0 to |unique|
      invariant totals == Tally(known, symbol, unique[..i])
      invariant ledger.fills == SyncIds(before, Ids(unique[..i]), known)
    {
      ghost var done := Ids(unique[..i]);
      SyncMore(before, done, {unique[i].id}, known);
      assert unique[..i + 1] == unique[..i] + [unique[i]];
      assert done + {unique[i].id} == Ids(unique[..i + 1]);
      assert unique[..i + 1][..i] == unique[..i];
      totals := totals.Plus(Contribution(known, symbol, unique[i]));
      ledger.fills := SyncIds(ledger.fills, {unique[i].id}, known);
    }
    assert unique[..|unique|] == unique;
  }

  lemma IdsDecide(table: seq<Fill>, position: int, known: map<int, Execution>)
    requires DistinctIds(table)
    ensures
      var mine := FillsOf(table, position);
      var unique := Ids(UniqueFills(mine, known));
      forall f <- table ::
        && (f.id in DoomedIds(mine, known, Keys(mine)) <==> f.position == position && !Kept(mine, known, f))
        && (f.id in unique <==> f.position == position && Kept(mine, known, f))
  {
    var mine := FillsOf(table, position);
    OwnFillsDistinct(table, position);
    InFillsOf(table, position);
    forall f | f in table
      ensures f.id in DoomedIds(mine, known, Keys(mine)) <==> f.position == position && !Kept(mine, known, f)
    {
      KeysAreExecutions(mine, f.execution);
      if g :| g in mine && !Kept(mine, known, g) && g.id == f.id {
        IdDecides(table, f, g);
      }
    }
    forall f | f in table
      ensures f.id in Ids(UniqueFills(mine, known)) <==> f.position == position && Kept(mine, known, f)
    {
      forall g
        ensures g in UniqueFills(mine, known) <==> g in mine && Kept(mine, known, g)
      {
        UniqueAreKept(mine, known, g);
      }
      if g :| g in mine && Kept(mine, known, g) && g.id == f.id {
        IdDecides(table, f, g);
      }
    }
  }

  lemma CleanedByIds(table: seq<Fill>, position: int, known: map<int, Execution>)
    requires DistinctIds(table)
    ensures
      var mine := FillsOf(table, position);
      SyncIds(Drop(table, DoomedIds(mine, known, Keys(mine))), Ids(UniqueFills(mine, known)), known) ==
      CleanTable(table, position, mine, known)
  {
    var mine := FillsOf(table, position);
    IdsDecide(table, position, known);
    CleanedById(table, position, mine, known, DoomedIds(mine, known, Keys(mine)), Ids(UniqueFills(mine, known)));
  }

  /** The BUY branch of `POST system/fix-incorrect-fees` for an execution whose fee needs no correction. */
  method RecomputePosition(ledger: Ledger, id: int, symbol: string, grouped: set<int>) returns (before: Totals)
    requires id in ledger.positions && DistinctIds(ledger.fills)
    modifies ledger
    ensures ledger.Rows() == RecomputeOne(old(ledger.Rows()), id, symbol, grouped)
    ensures ledger.positions[id] == Recalculated(old(ledger.positions[id]), before)
  {
    var known := KnownExecutions(ledger.Rows(), ledger.positions[id], grouped);
    var mine := FillsOf(ledger.fills, id);
    ghost var table := ledger.fills;
    OwnFillsDistinct(table, id);
    var unique := CleanUp(ledger, mine, known);
    before := GroupForm(ledger, unique, known, symbol);
    CleanedByIds(table, id, known);
    var totals := RunningForm(FillsOf(ledger.fills, id), known, symbol);
    ledger.positions := ledger.positions[id := Recalculated(ledger.positions[id], totals)];
    RecomputeWritesGroupTotals(old(ledger.Rows()), id, symbol, grouped);
  }
}
