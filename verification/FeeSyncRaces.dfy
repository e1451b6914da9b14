/** What a batch of the fee sync loses when its tasks interleave, and exactly
    when it loses nothing. */
module FeeSyncRaces {
  import opened Collections
  import opened Tables
  import opened FeeSync
  import opened FeeSyncInterleaving
  import opened FeeSyncCharges

  // ------------------------------------------------------------------
  // Schedules
  // ------------------------------------------------------------------

  lemma {:induction false} InterleaveAppend(tasks: seq<Task>, c: Config, a: seq<nat>, b: seq<nat>)
    requires |c.locals| == |tasks| && Within(a, |tasks|) && Within(b, |tasks|)
    ensures Within(a + b, |tasks|)
    ensures Interleave(tasks, c, a + b) == Interleave(tasks, Interleave(tasks, c, a), b)
    decreases |a|
  {
    if a == [] {
      assert a + b == b;
    } else {
      InterleaveAppend(tasks, StepOf(tasks, c, a[0]), a[1..], b);
      assert (a + b)[1..] == a[1..] + b;
    }
  }

  /** Letting one task get to its writes. */
  lemma ReachWriting(tasks: seq<Task>, c: Config, i: nat) returns (schedule: seq<nat>)
    requires |c.locals| == |tasks| && i < |tasks|
    ensures Within(schedule, |tasks|)
    ensures Interleave(tasks, c, schedule).locals[i].Writing?
    ensures forall j :: 0 <= j < |tasks| && j != i ==> Interleave(tasks, c, schedule).locals[j] == c.locals[j]
    decreases if c.locals[i].Fetched? then 2 else if c.locals[i].Recorded? then 1 else 0
  {
    if c.locals[i].Writing? {
      schedule := [];
    } else {
      var rest := ReachWriting(tasks, StepOf(tasks, c, i), i);
      schedule := [i] + rest;
      assert schedule[1..] == rest;
    }
  }

  /** Every batch can run to completion, from any configuration. */
  lemma CanComplete(tasks: seq<Task>, c: Config) returns (schedule: seq<nat>)
    requires |c.locals| == |tasks|
    ensures Within(schedule, |tasks|) && AllDone(Interleave(tasks, c, schedule))
  {
    schedule := [];
    for i := 0 to |tasks|
      invariant Within(schedule, |tasks|)
      invariant forall j :: 0 <= j < i ==> Interleave(tasks, c, schedule).locals[j] == Writing([])
    {
      var now := Interleave(tasks, c, schedule);
      var first := ReachWriting(tasks, now, i);
      InterleaveAppend(tasks, c, schedule, first);
      var rest := AllWrites(tasks, Interleave(tasks, now, first), i);
      InterleaveAppend(tasks, c, schedule + first, rest);
      schedule := schedule + first + rest;
    }
  }

  /** Letting one task make its next `n` writes. */
  lemma {:induction false} SomeWrites(tasks: seq<Task>, c: Config, i: nat, n: nat) returns (schedule: seq<nat>)
    requires |c.locals| == |tasks| && i < |tasks| && c.locals[i].Writing? && n <= |c.locals[i].todo|
    ensures Within(schedule, |tasks|)
    ensures
      var todo := c.locals[i].todo;
      Interleave(tasks, c, schedule) ==
      Config(c.db.(positions := ApplyAll(c.db.positions, todo[..n])), c.locals[i := Writing(todo[n..])])
    decreases n
  {
    var todo := c.locals[i].todo;
    if n == 0 {
      schedule := [];
      assert todo[..0] == [] && todo[0..] == todo;
      assert c.locals[i := Writing(todo)] == c.locals;
    } else {
      var next := StepOf(tasks, c, i);
      var rest := SomeWrites(tasks, next, i, n - 1);
      schedule := [i] + rest;
      assert schedule[1..] == rest;
      assert todo[..n][1..] == todo[1..][..n - 1] && todo[1..][n - 1..] == todo[n..];
      assert next.locals[i := Writing(todo[n..])] == c.locals[i := Writing(todo[n..])];
    }
  }

  lemma AllWrites(tasks: seq<Task>, c: Config, i: nat) returns (schedule: seq<nat>)
    requires |c.locals| == |tasks| && i < |tasks| && c.locals[i].Writing?
    ensures Within(schedule, |tasks|)
    ensures Interleave(tasks, c, schedule) ==
            Config(c.db.(positions := ApplyAll(c.db.positions, c.locals[i].todo)), c.locals[i := Writing([])])
  {
    var todo := c.locals[i].todo;
    schedule := SomeWrites(tasks, c, i, |todo|);
    assert todo[..|todo|] == todo && todo[|todo|..] == [];
  }

  /** Letting one task record its fee and read. */
  lemma ReadNow(tasks: seq<Task>, c: Config, i: nat)
    requires |c.locals| == |tasks| && i < |tasks| && c.locals[i] == Fetched && Charges(tasks[i])
    ensures Interleave(tasks, c, [i, i]) ==
            Config(Record(tasks[i], c.db), c.locals[i := Writing(Plan(tasks[i], c.db))])
  {
    var next := StepOf(tasks, c, i);
    PlanIsLocal(tasks[i], c.db, Record(tasks[i], c.db));
    assert [i, i][1..] == [i] && [i][1..] == [];
    assert Interleave(tasks, next, [i]) == StepOf(tasks, next, i);
    assert c.locals[i := Recorded][i := Writing(Plan(tasks[i], c.db))] == c.locals[i := Writing(Plan(tasks[i], c.db))];
  }

  lemma {:induction false} WritesKeepRows(positions: map<int, Position>, writes: seq<Write>)
    ensures ApplyAll(positions, writes).Keys == positions.Keys
    ensures forall p <- positions ::
      && ApplyAll(positions, writes)[p].openJob == positions[p].openJob
      && ApplyAll(positions, writes)[p].status == positions[p].status
    decreases |writes|
  {
    if writes != [] {
      WritesKeepRows(Apply(positions, writes[0]), writes[1..]);
    }
  }

  lemma {:induction false} ScheduleKeepsShape(tasks: seq<Task>, c: Config, schedule: seq<nat>)
    requires |c.locals| == |tasks| && Within(schedule, |tasks|)
    ensures SameShape(c.db, Interleave(tasks, c, schedule).db)
    decreases |schedule|
  {
    if schedule != [] {
      ScheduleKeepsShape(tasks, StepOf(tasks, c, schedule[0]), schedule[1..]);
    }
  }

  /** Letting one task run from beginning to end. */
  lemma RunAlone(tasks: seq<Task>, c: Config, k: nat) returns (schedule: seq<nat>)
    requires |c.locals| == |tasks| && k < |tasks| && c.locals[k] == Fetched
    ensures Within(schedule, |tasks|)
    ensures Interleave(tasks, c, schedule) == Config(SyncOne(tasks[k], c.db), c.locals[k := Writing([])])
  {
    if Charges(tasks[k]) {
      ReadNow(tasks, c, k);
      PlanIsLocal(tasks[k], c.db, Record(tasks[k], c.db));
      var rest := AllWrites(tasks, Interleave(tasks, c, [k, k]), k);
      InterleaveAppend(tasks, c, [k, k], rest);
      schedule := [k, k] + rest;
    } else {
      schedule := [k];
      assert schedule[1..] == [];
      assert Interleave(tasks, c, schedule) == StepOf(tasks, c, k);
    }
  }

  /** The first `k` tasks but two. */
  function AllBut(tasks: seq<Task>, i: nat, j: nat, k: nat): seq<Task>
    requires k <= |tasks|
  {
    if k == 0 then []
    else
      var rest := AllBut(tasks, i, j, k - 1);
      if k - 1 == i || k - 1 == j then rest else rest + [tasks[k - 1]]
  }

  /** Everybody but two tasks runs to the end, one after the other. */
  lemma OthersFirst(tasks: seq<Task>, db: Db, i: nat, j: nat) returns (schedule: seq<nat>)
    requires i < |tasks| && j < |tasks|
    ensures Within(schedule, |tasks|)
    ensures OnlyTwoLeft(Interleave(tasks, Start(tasks, db), schedule), i, j)
    ensures Interleave(tasks, Start(tasks, db), schedule).db == SyncAll(AllBut(tasks, i, j, |tasks|), db)
  {
    schedule := [];
    var start := Start(tasks, db);
    for k := 0 to |tasks|
      invariant Within(schedule, |tasks|)
      invariant Interleave(tasks, start, schedule).db == SyncAll(AllBut(tasks, i, j, k), db)
      invariant var c := Interleave(tasks, start, schedule);
                forall l :: 0 <= l < |tasks| ==>
                  c.locals[l] == if l < k && l != i && l != j then Writing([]) else Fetched
    {
      if k != i && k != j {
        var now := Interleave(tasks, start, schedule);
        var alone := RunAlone(tasks, now, k);
        InterleaveAppend(tasks, start, schedule, alone);
        schedule := schedule + alone;
        SyncOneMore(AllBut(tasks, i, j, k), tasks[k], db);
      }
    }
  }

  lemma SyncOneMore(tasks: seq<Task>, t: Task, db: Db)
    ensures SyncAll(tasks + [t], db) == SyncOne(t, SyncAll(tasks, db))
  {
    SyncAppend(tasks, [t], db);
    assert [t][1..] == [];
    assert SyncAll([t], SyncAll(tasks, db)) == SyncAll([t][1..], SyncOne(t, SyncAll(tasks, db)));
  }

  ghost predicate OnlyTwoLeft(c: Config, i: nat, j: nat) {
    forall l :: 0 <= l < |c.locals| ==> c.locals[l] == if l == i || l == j then Fetched else Writing([])
  }

  // ------------------------------------------------------------------
  // What a race loses
  // ------------------------------------------------------------------

  /** What a task adds to the fees of a position. */
  function Charge(t: Task, db: Db, p: int): real
    requires Charges(t)
  {
    if t.job.side == Buy then
      if OpenedBy(db.positions, t.row.job, db.nextPosition) == Some(p)
      then BuyFeeUsd(t.row, t.job, t.fee.value) else 0.0
    else
      match LastOn(SalesOf(db.fills, t.execution, db.positions), p)
      case None => 0.0
      case Some(f) => Share(t.row, t.job, t.fee.value, f)
  }

  /** The plan of a task, applied whenever: the fees of its positions become the ones read plus its charge. */
  lemma PlanCharges(t: Task, read: Db, now: map<int, Position>, p: int)
    requires Charges(t) && now.Keys == read.positions.Keys && p in Footprint(t, read)
    ensures p in read.positions && p in ApplyAll(now, Plan(t, read))
    ensures ApplyAll(now, Plan(t, read))[p].totalFees == read.positions[p].totalFees + Charge(t, read, p)
  {
    if t.job.side == Sell {
      var sales := SalesOf(read.fills, t.execution, read.positions);
      LastFeesDecide(t, read.positions, now, sales, p);
    } else {
      assert ApplyAll(now, Plan(t, read)) == Apply(now, Plan(t, read)[0]);
    }
  }

  lemma {:induction false} LastFeesDecide(
    t: Task, read: map<int, Position>, now: map<int, Position>, sales: seq<Fill>, p: int)
    requires t.fee.Some? && now.Keys == read.Keys && p in read && forall f <- sales :: f.position in read
    ensures ApplyAll(now, SaleWrites(t, read, sales)).Keys == now.Keys
    ensures
      var after := ApplyAll(now, SaleWrites(t, read, sales))[p];
      && after.feesOnBuy == now[p].feesOnBuy
      && match LastOn(sales, p)
         case None => after.totalFees == now[p].totalFees && after.feesOnSell == now[p].feesOnSell
         case Some(f) =>
           var share := Share(t.row, t.job, t.fee.value, f);
           after.totalFees == read[p].totalFees + share && after.feesOnSell == read[p].feesOnSell + share
    decreases |sales|
  {
    if sales == [] {
    } else {
      assert sales[0] in sales;
      LastFeesDecide(t, read, Apply(now, SaleWrite(t, read[sales[0].position], sales[0])), sales[1..], p);
    }
  }

  lemma SameCharge(t: Task, a: Db, b: Db, p: int)
    requires Charges(t) && SameShape(a, b)
    ensures Charge(t, a, p) == Charge(t, b, p)
  {
    SameOpenedBy(a.positions, b.positions, t.row.job, a.nextPosition);
    SameSales(a.fills, t.execution, a.positions, b.positions);
  }

  /** One task reads and makes `n` of its writes; then another one reads. */
  lemma ReadAmidWrites(tasks: seq<Task>, c: Config, i: nat, j: nat, n: nat) returns (schedule: seq<nat>)
    requires |c.locals| == |tasks| && i < |tasks| && j < |tasks| && i != j && OnlyTwoLeft(c, i, j)
    requires Charges(tasks[i]) && Charges(tasks[j]) && n <= |Plan(tasks[i], c.db)|
    ensures Within(schedule, |tasks|)
    ensures
      var plan := Plan(tasks[i], c.db);
      var read := Record(tasks[i], c.db).(positions := ApplyAll(c.db.positions, plan[..n]));
      Interleave(tasks, c, schedule) ==
      Config(Record(tasks[j], read), c.locals[i := Writing(plan[n..])][j := Writing(Plan(tasks[j], read))])
  {
    ReadNow(tasks, c, i);
    var some := SomeWrites(tasks, Interleave(tasks, c, [i, i]), i, n);
    InterleaveAppend(tasks, c, [i, i], some);
    var now := Interleave(tasks, c, [i, i] + some);
    assert now.locals == c.locals[i := Writing(Plan(tasks[i], c.db)[n..])];
    ReadNow(tasks, now, j);
    InterleaveAppend(tasks, c, [i, i] + some, [j, j]);
    schedule := [i, i] + some + [j, j];
  }

  /** The last two tasks write what they still have to write. */
  lemma LastTwoWrite(tasks: seq<Task>, c: Config, i: nat, j: nat) returns (schedule: seq<nat>)
    requires |c.locals| == |tasks| && i < |tasks| && j < |tasks| && i != j
    requires c.locals[i].Writing? && c.locals[j].Writing?
    requires forall l :: 0 <= l < |tasks| && l != i && l != j ==> c.locals[l] == Writing([])
    ensures Within(schedule, |tasks|) && AllDone(Interleave(tasks, c, schedule))
    ensures Interleave(tasks, c, schedule).db.positions ==
            ApplyAll(ApplyAll(c.db.positions, c.locals[i].todo), c.locals[j].todo)
  {
    var rest := AllWrites(tasks, c, i);
    var now := Interleave(tasks, c, rest);
    var last := AllWrites(tasks, now, j);
    InterleaveAppend(tasks, c, rest, last);
    schedule := rest + last;
    assert now.locals[j := Writing([])] == c.locals[i := Writing([])][j := Writing([])];
  }

  /** One task reads and makes `n` of its writes, another one reads, and then both write to their ends. */
  lemma BothFinish(tasks: seq<Task>, c: Config, i: nat, j: nat, n: nat) returns (schedule: seq<nat>)
    requires |c.locals| == |tasks| && i < |tasks| && j < |tasks| && i != j && OnlyTwoLeft(c, i, j)
    requires Charges(tasks[i]) && Charges(tasks[j]) && n <= |Plan(tasks[i], c.db)|
    ensures Within(schedule, |tasks|) && AllDone(Interleave(tasks, c, schedule))
    ensures
      var plan := Plan(tasks[i], c.db);
      var read := Record(tasks[i], c.db).(positions := ApplyAll(c.db.positions, plan[..n]));
      Interleave(tasks, c, schedule).db.positions ==
      ApplyAll(ApplyAll(read.positions, plan[n..]), Plan(tasks[j], read))
  {
    var first := ReadAmidWrites(tasks, c, i, j, n);
    var last := LastTwoWrite(tasks, Interleave(tasks, c, first), i, j);
    InterleaveAppend(tasks, c, first, last);
    schedule := first + last;
  }

  /** What the first task writes after the second one has read is lost wherever the second one writes. */
  lemma ReadAfterWrites(tasks: seq<Task>, c: Config, i: nat, j: nat, n: nat, p: int) returns (schedule: seq<nat>)
    requires |c.locals| == |tasks| && i < |tasks| && j < |tasks| && i != j && OnlyTwoLeft(c, i, j)
    requires Charges(tasks[i]) && Charges(tasks[j]) && p in Footprint(tasks[j], c.db)
    requires n <= |Plan(tasks[i], c.db)|
    ensures Within(schedule, |tasks|) && AllDone(Interleave(tasks, c, schedule))
    ensures p in c.db.positions && p in Interleave(tasks, c, schedule).db.positions
    ensures p in ApplyAll(c.db.positions, Plan(tasks[i], c.db)[..n])
    ensures Interleave(tasks, c, schedule).db.positions[p].totalFees ==
            ApplyAll(c.db.positions, Plan(tasks[i], c.db)[..n])[p].totalFees + Charge(tasks[j], c.db, p)
  {
    var plan := Plan(tasks[i], c.db);
    var read := Record(tasks[i], c.db).(positions := ApplyAll(c.db.positions, plan[..n]));
    schedule := BothFinish(tasks, c, i, j, n);
    WritesKeepRows(c.db.positions, plan[..n]);
    WritesKeepRows(read.positions, plan[n..]);
    SameFootprint(tasks[j], c.db, read);
    SameCharge(tasks[j], c.db, read, p);
    PlanCharges(tasks[j], read, ApplyAll(read.positions, plan[n..]), p);
  }

  /** In every batch two tasks that concern a common position have two schedules: by turns, and with both
      reading first, which loses what the first of them charges. */
  lemma RaceLosesFee(tasks: seq<Task>, db: Db, i: nat, j: nat, p: int) returns (race: seq<nat>, turns: seq<nat>)
    requires i < |tasks| && j < |tasks| && i != j && Charges(tasks[i]) && Charges(tasks[j])
    requires p in Footprint(tasks[i], db) && p in Footprint(tasks[j], db)
    ensures Within(race, |tasks|) && AllDone(Interleave(tasks, Start(tasks, db), race))
    ensures Within(turns, |tasks|) && AllDone(Interleave(tasks, Start(tasks, db), turns))
    ensures
      var raced, ordered := Interleave(tasks, Start(tasks, db), race).db, Interleave(tasks, Start(tasks, db), turns).db;
      && p in raced.positions && p in ordered.positions
      && raced.positions[p].totalFees == ordered.positions[p].totalFees - Charge(tasks[i], db, p)
  {
    var start := Start(tasks, db);
    var others := OthersFirst(tasks, db, i, j);
    var c := Interleave(tasks, start, others);
    ScheduleKeepsShape(tasks, start, others);
    SameFootprint(tasks[i], db, c.db);
    SameFootprint(tasks[j], db, c.db);
    SameCharge(tasks[i], db, c.db, p);
    var plan := Plan(tasks[i], c.db);
    assert plan[..0] == [] && plan[..|plan|] == plan;
    race := ReadAfterWrites(tasks, c, i, j, 0, p);
    turns := ReadAfterWrites(tasks, c, i, j, |plan|, p);
    PlanCharges(tasks[i], c.db, c.db.positions, p);
    InterleaveAppend(tasks, start, others, race);
    InterleaveAppend(tasks, start, others, turns);
    race, turns := others + race, others + turns;
  }

  lemma {:induction false} ApplyOneMore(positions: map<int, Position>, writes: seq<Write>, m: nat)
    requires m < |writes|
    ensures ApplyAll(positions, writes[..m + 1]) == Apply(ApplyAll(positions, writes[..m]), writes[m])
    decreases m
  {
    if m == 0 {
      assert writes[..1][1..] == [] && writes[..0] == [];
    } else {
      assert writes[..m + 1][1..] == writes[1..][..m] && writes[..m][1..] == writes[1..][..m - 1];
      ApplyOneMore(Apply(positions, writes[0]), writes[1..], m - 1);
    }
  }

  /** A write that changes a row changes its fee total. */
  lemma MovingWrite(t: Task, db: Db, p: int) returns (m: nat)
    requires p in Moved(t, db)
    ensures Charges(t) && m < |Plan(t, db)| && Plan(t, db)[m].position == p
    ensures p in db.positions && Plan(t, db)[m].totalFees != db.positions[p].totalFees
  {
    if t.job.side == Buy {
      m := 0;
    } else {
      var sales := SalesOf(db.fills, t.execution, db.positions);
      var f :| f in sales && Share(t.row, t.job, t.fee.value, f) != 0.0 && f.position == p;
      m :| 0 <= m < |sales| && sales[m] == f;
      assert Plan(t, db)[m] == SaleWrite(t, db.positions[p], f);
    }
  }

  /** Two tasks, the first of which changes a row that the second reads, have two outcomes. */
  lemma TwoOutcomes(tasks: seq<Task>, db: Db, i: nat, j: nat, p: int) returns (race: seq<nat>, other: seq<nat>)
    requires i < |tasks| && j < |tasks| && i != j
    requires p in Moved(tasks[i], db) && p in Footprint(tasks[j], db)
    ensures Within(race, |tasks|) && AllDone(Interleave(tasks, Start(tasks, db), race))
    ensures Within(other, |tasks|) && AllDone(Interleave(tasks, Start(tasks, db), other))
    ensures Interleave(tasks, Start(tasks, db), race).db != Interleave(tasks, Start(tasks, db), other).db
  {
    var start := Start(tasks, db);
    var others := OthersFirst(tasks, db, i, j);
    var c := Interleave(tasks, start, others);
    ScheduleKeepsShape(tasks, start, others);
    SameFootprint(tasks[i], db, c.db);
    SameFootprint(tasks[j], db, c.db);
    var m := MovingWrite(tasks[i], c.db, p);
    var plan := Plan(tasks[i], c.db);
    assert plan[..0] == [];
    WritesKeepRows(c.db.positions, plan[..m]);
    ApplyOneMore(c.db.positions, plan, m);
    race := ReadAfterWrites(tasks, c, i, j, 0, p);
    other := ReadAfterWrites(tasks, c, i, j, m + 1, p);
    InterleaveAppend(tasks, start, others, race);
    InterleaveAppend(tasks, start, others, other);
    race, other := others + race, others + other;
  }

  // ------------------------------------------------------------------
  // When nothing is lost
  // ------------------------------------------------------------------

  /** Every complete interleaving of a batch gives what running its tasks one by one gives. */
  ghost predicate Safe(tasks: seq<Task>, db: Db) {
    forall schedule :: Within(schedule, |tasks|) && AllDone(Interleave(tasks, Start(tasks, db), schedule)) ==>
      Interleave(tasks, Start(tasks, db), schedule).db == SyncAll(tasks, db)
  }

  /** Main result: a batch of any size is safe to interleave if and only if no task of it changes a row
      that another one reads. */
  lemma BatchSafeIff(tasks: seq<Task>, db: Db)
    requires DistinctExecutions(tasks)
    ensures Safe(tasks, db) <==> Apart(tasks, db)
  {
    if Apart(tasks, db) {
      forall schedule | Within(schedule, |tasks|) && AllDone(Interleave(tasks, Start(tasks, db), schedule))
        ensures Interleave(tasks, Start(tasks, db), schedule).db == SyncAll(tasks, db)
      {
        InterleavingIsSequential(tasks, db, schedule);
      }
    } else {
      var i, j :| 0 <= i < |tasks| && 0 <= j < |tasks| && i != j && !(Moved(tasks[i], db) !! Footprint(tasks[j], db));
      Meet(Moved(tasks[i], db), Footprint(tasks[j], db));
      var p :| p in Moved(tasks[i], db) && p in Footprint(tasks[j], db);
      var race, other := TwoOutcomes(tasks, db, i, j, p);
    }
  }

  /** When every fill carries a part of its fee, that is: exactly when no two tasks concern one position. */
  lemma BatchSafeIffDisjoint(tasks: seq<Task>, db: Db)
    requires DistinctExecutions(tasks) && forall t <- tasks :: Footprint(t, db) <= Moved(t, db)
    ensures Safe(tasks, db) <==>
            (forall i, j :: 0 <= i < j < |tasks| ==> Footprint(tasks[i], db) !! Footprint(tasks[j], db))
  {
    BatchSafeIff(tasks, db);
    forall i | 0 <= i < |tasks|
      ensures Moved(tasks[i], db) == Footprint(tasks[i], db)
    {
      MovedIsRead(tasks[i], db);
    }
  }

  /** Two sales on one position are such a clash. */
  lemma TwoSalesClash(t: Task, u: Task, p: Position, at: int)
    requires t.execution != u.execution && Charges(t) && Charges(u) && t.job.side == Sell && u.job.side == Sell
    requires Share(t.row, t.job, t.fee.value, Fill(1, 1, t.execution, Sell, 1.0, t.row.avgPrice, at)) != 0.0
    ensures
      var fills := [Fill(1, 1, t.execution, Sell, 1.0, t.row.avgPrice, at),
                   Fill(2, 1, u.execution, Sell, 1.0, u.row.avgPrice, at)];
      !Safe([t, u], EMPTY_DB.(positions := map[1 := p], fills := fills))
  {
    var f, g := Fill(1, 1, t.execution, Sell, 1.0, t.row.avgPrice, at),
                Fill(2, 1, u.execution, Sell, 1.0, u.row.avgPrice, at);
    var db := EMPTY_DB.(positions := map[1 := p], fills := [f, g]);
    assert db.fills[0] == f && db.fills[1] == g;
    SaleIsListed(db.fills, db.positions, f);
    SaleIsListed(db.fills, db.positions, g);
    SaleIsMoved(t, db, f);
    SaleIsRead(u, db, g);
    assert [t, u][0] == t && [t, u][1] == u;
    assert !(Moved([t, u][0], db) !! Footprint([t, u][1], db));
    BatchSafeIff([t, u], db);
  }

  lemma {:induction false} SaleIsListed(fills: seq<Fill>, positions: map<int, Position>, f: Fill)
    requires f in fills && f.side == Sell && f.position in positions
    ensures f in SalesOf(fills, f.execution, positions)
  {
    var last, rest := fills[|fills| - 1], fills[..|fills| - 1];
    assert fills == rest + [last];
    if f in rest {
      SaleIsListed(rest, positions, f);
    }
  }

  lemma SaleIsMoved(t: Task, db: Db, f: Fill)
    requires Charges(t) && t.job.side == Sell && f in SalesOf(db.fills, t.execution, db.positions)
    requires Share(t.row, t.job, t.fee.value, f) != 0.0
    ensures f.position in Moved(t, db)
  {
  }

  lemma SaleIsRead(t: Task, db: Db, f: Fill)
    requires Charges(t) && t.job.side == Sell && f in SalesOf(db.fills, t.execution, db.positions)
    ensures f.position in Footprint(t, db)
  {
  }
}
