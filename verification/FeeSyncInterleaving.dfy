/** Batches of the fee sync do not depend on how their tasks interleave,
    as long as no task changes a row that another one reads. */
module FeeSyncInterleaving {
  import opened Tables
  import opened FeeSync

  /** The columns that the fee sync never writes and that decide which rows a task concerns. */
  ghost predicate SameShape(a: Db, b: Db) {
    && a.fills == b.fills && a.nextPosition == b.nextPosition
    && a.positions.Keys == b.positions.Keys
    && forall p <- a.positions ::
         a.positions[p].openJob == b.positions[p].openJob && a.positions[p].status == b.positions[p].status
  }

  ghost predicate Targets(writes: seq<Write>, foot: set<int>) {
    forall i :: 0 <= i < |writes| ==> writes[i].position in foot
  }

  ghost predicate NoOp(positions: map<int, Position>, w: Write) {
    w.position in positions ==> WriteRow(positions[w.position], w) == positions[w.position]
  }

  /** Outside `moved` the writes put back what is there. */
  ghost predicate Tame(positions: map<int, Position>, writes: seq<Write>, moved: set<int>) {
    forall i :: 0 <= i < |writes| ==> writes[i].position in moved || NoOp(positions, writes[i])
  }

  /** What holds of the writes that a task has still to do. */
  ghost predicate LocalSound(t: Task, db: Db, l: Local) {
    l.Writing? ==> Targets(l.todo, Footprint(t, db)) && Tame(db.positions, l.todo, Moved(t, db))
  }

  lemma {:induction false} SameOpenedBy(a: map<int, Position>, b: map<int, Position>, job: int, bound: int)
    requires a.Keys == b.Keys
    requires forall p <- a :: a[p].openJob == b[p].openJob && a[p].status == b[p].status
    ensures OpenedBy(a, job, bound) == OpenedBy(b, job, bound)
    decreases bound
  {
    if bound > 1 {
      SameOpenedBy(a, b, job, bound - 1);
    }
  }

  lemma {:induction false} SameSales(fills: seq<Fill>, e: int, a: map<int, Position>, b: map<int, Position>)
    requires a.Keys == b.Keys
    ensures SalesOf(fills, e, a) == SalesOf(fills, e, b)
  {
    if fills != [] {
      SameSales(fills[..|fills| - 1], e, a, b);
    }
  }

  lemma SameFootprint(t: Task, a: Db, b: Db)
    requires SameShape(a, b)
    ensures Footprint(t, a) == Footprint(t, b) && Moved(t, a) == Moved(t, b)
  {
    SameOpenedBy(a.positions, b.positions, t.row.job, a.nextPosition);
    SameSales(a.fills, t.execution, a.positions, b.positions);
  }

  /** A plan reads and writes nothing outside the footprint. */
  lemma PlanIsLocal(t: Task, a: Db, b: Db)
    requires Charges(t) && SameShape(a, b)
    requires forall p <- Footprint(t, a) :: p in a.positions ==> a.positions[p] == b.positions[p]
    ensures Plan(t, a) == Plan(t, b) && Targets(Plan(t, a), Footprint(t, a))
  {
    SameOpenedBy(a.positions, b.positions, t.row.job, a.nextPosition);
    SameSales(a.fills, t.execution, a.positions, b.positions);
    if t.job.side == Sell {
      var sales := SalesOf(a.fills, t.execution, a.positions);
      forall i | 0 <= i < |sales|
        ensures sales[i].position in Footprint(t, a)
      {
        assert sales[i] in sales;
      }
      assert forall i :: 0 <= i < |sales| ==> Plan(t, a)[i] == Plan(t, b)[i];
    }
  }

  lemma PlanIsTame(t: Task, db: Db)
    requires Charges(t)
    ensures LocalSound(t, db, Writing(Plan(t, db)))
  {
    PlanIsLocal(t, db, db);
    if t.job.side == Sell {
      var sales := SalesOf(db.fills, t.execution, db.positions);
      forall i | 0 <= i < |sales| && Share(t.row, t.job, t.fee.value, sales[i]) != 0.0
        ensures sales[i].position in Moved(t, db)
      {
        assert sales[i] in sales;
      }
      forall i | 0 <= i < |sales|
        ensures Plan(t, db)[i].position in Moved(t, db) || NoOp(db.positions, Plan(t, db)[i])
      {
        assert Plan(t, db)[i] == SaleWrite(t, db.positions[sales[i].position], sales[i]);
      }
    }
  }

  lemma MovedIsRead(t: Task, db: Db)
    ensures Moved(t, db) <= Footprint(t, db)
  {
  }

  lemma {:induction false} WritesKeepShape(positions: map<int, Position>, writes: seq<Write>, moved: set<int>)
    requires Tame(positions, writes, moved)
    ensures ApplyAll(positions, writes).Keys == positions.Keys
    ensures forall p <- positions ::
      && ApplyAll(positions, writes)[p].openJob == positions[p].openJob
      && ApplyAll(positions, writes)[p].status == positions[p].status
      && (p !in moved ==> ApplyAll(positions, writes)[p] == positions[p])
    decreases |writes|
  {
    if writes == [] {
    } else {
      var next := Apply(positions, writes[0]);
      assert forall p <- positions :: p !in moved ==> next[p] == positions[p];
      forall i | 0 <= i < |writes[1..]|
        ensures writes[1..][i].position in moved || NoOp(next, writes[1..][i])
      {
        assert writes[1..][i] == writes[i + 1];
      }
      WritesKeepShape(next, writes[1..], moved);
    }
  }

  lemma {:induction false} WritesCommute(positions: map<int, Position>, w: Write, writes: seq<Write>, foot: set<int>)
    requires Targets(writes, foot) && w.position !in foot
    ensures Apply(ApplyAll(positions, writes), w) == ApplyAll(Apply(positions, w), writes)
    decreases |writes|
  {
    if writes == [] {
    } else {
      assert writes[0].position in foot;
      assert Apply(Apply(positions, writes[0]), w) == Apply(Apply(positions, w), writes[0]);
      WritesCommute(Apply(positions, writes[0]), w, writes[1..], foot);
    }
  }

  /** A task run from where it stands to its end. */
  function Finish(t: Task, db: Db, l: Local): Db {
    match l
    case Fetched => SyncOne(t, db)
    case Recorded => db.(positions := ApplyAll(db.positions, if Charges(t) then Plan(t, db) else []))
    case Writing(todo) => db.(positions := ApplyAll(db.positions, todo))
  }

  function FinishFrom(tasks: seq<Task>, db: Db, locals: seq<Local>, k: nat): Db
    requires |tasks| == |locals| && k <= |tasks|
    decreases |tasks| - k
  {
    if k == |tasks| then db else FinishFrom(tasks, Finish(tasks[k], db, locals[k]), locals, k + 1)
  }

  lemma FinishKeepsShape(t: Task, db: Db, l: Local)
    requires LocalSound(t, db, l)
    ensures SameShape(db, Finish(t, db, l))
    ensures forall p <- db.positions :: p !in Moved(t, db) ==> Finish(t, db, l).positions[p] == db.positions[p]
  {
    if l.Writing? {
      WritesKeepShape(db.positions, l.todo, Moved(t, db));
    } else if Charges(t) {
      var read := if l == Fetched then Record(t, db) else db;
      PlanIsTame(t, read);
      SameFootprint(t, db, read);
      WritesKeepShape(db.positions, Plan(t, read), Moved(t, db));
    }
  }

  lemma StepKeepsShape(t: Task, db: Db, l: Local)
    requires LocalSound(t, db, l)
    ensures SameShape(db, Step(t, db, l).0)
    ensures forall p <- db.positions :: p !in Moved(t, db) ==> Step(t, db, l).0.positions[p] == db.positions[p]
  {
  }

  lemma StepKeepsLocal(t: Task, db: Db, l: Local)
    requires LocalSound(t, db, l)
    ensures LocalSound(t, Step(t, db, l).0, Step(t, db, l).1)
  {
    var (after, next) := Step(t, db, l);
    if l.Recorded? && Charges(t) {
      PlanIsTame(t, db);
    } else if l.Writing? && l.todo != [] {
      StepKeepsShape(t, db, l);
      SameFootprint(t, db, after);
      SoundElsewhere(t, db, after, Writing(l.todo[1..]));
    }
  }

  /** A task's remaining writes stay sound while the rows outside those it moves do not change. */
  lemma SoundElsewhere(t: Task, db: Db, after: Db, l: Local)
    requires LocalSound(t, db, l) && SameShape(db, after)
    requires forall p <- Footprint(t, db) ::
             p in db.positions && p !in Moved(t, db) ==> after.positions[p] == db.positions[p]
    ensures LocalSound(t, after, l)
  {
    SameFootprint(t, db, after);
  }

  /** A step of one task and the rest of another, in either order, when neither changes a row the other reads. */
  lemma StepCommutesWithFinish(t: Task, l: Local, u: Task, m: Local, db: Db)
    requires t.execution != u.execution
    requires Moved(t, db) !! Footprint(u, db) && Moved(u, db) !! Footprint(t, db)
    requires LocalSound(t, db, l) && LocalSound(u, db, m)
    ensures Step(t, Finish(u, db, m), l) == (Finish(u, Step(t, db, l).0, m), Step(t, db, l).1)
  {
    match l
    case Fetched =>
      RestCommutesWithRecord(t, u, m, db);
    case Recorded =>
      FinishKeepsShape(u, db, m);
      if Charges(t) {
        PlanIsLocal(t, db, Finish(u, db, m));
      }
    case Writing(todo) =>
      if todo != [] {
        assert todo[0].position in Footprint(t, db);
        if todo[0].position in Moved(t, db) {
          RestCommutesWithWrite(u, m, db, todo[0]);
        } else {
          FinishKeepsShape(u, db, m);
          NoOpApplies(db.positions, todo[0]);
          NoOpApplies(Finish(u, db, m).positions, todo[0]);
        }
      }
  }

  lemma NoOpApplies(positions: map<int, Position>, w: Write)
    requires NoOp(positions, w)
    ensures Apply(positions, w) == positions
  {
    if w.position in positions {
      assert positions[w.position := positions[w.position]] == positions;
    }
  }

  lemma RecordsCommute(t: Task, u: Task, db: Db)
    requires t.execution != u.execution && Charges(t) && Charges(u)
    ensures Record(u, Record(t, db)) == Record(t, Record(u, db))
  {
    var es, t', u' := db.executions, Net(t.row, t.job, t.fee.value), Net(u.row, u.job, u.fee.value);
    assert es[t.execution := t'][u.execution := u'] == es[u.execution := u'][t.execution := t'];
  }

  lemma RestCommutesWithRecord(t: Task, u: Task, m: Local, db: Db)
    requires t.execution != u.execution
    ensures Charges(t) ==> Record(t, Finish(u, db, m)) == Finish(u, Record(t, db), m)
  {
    if Charges(t) && Charges(u) && m.Fetched? {
      RecordsCommute(t, u, db);
      PlanIsLocal(u, Record(u, db), Record(t, Record(u, db)));
    } else if Charges(t) && Charges(u) && m.Recorded? {
      PlanIsLocal(u, db, Record(t, db));
    }
  }

  lemma RestCommutesWithWrite(u: Task, m: Local, db: Db, w: Write)
    requires w.position !in Footprint(u, db) && LocalSound(u, db, m)
    ensures Apply(Finish(u, db, m).positions, w) == Finish(u, db.(positions := Apply(db.positions, w)), m).positions
    ensures Finish(u, db, m).executions == Finish(u, db.(positions := Apply(db.positions, w)), m).executions
  {
    var written := db.(positions := Apply(db.positions, w));
    if m.Writing? {
      WritesCommute(db.positions, w, m.todo, Footprint(u, db));
    } else if Charges(u) {
      var read := if m == Fetched then Record(u, db) else db;
      SameFootprint(u, db, read);
      PlanIsLocal(u, read, if m == Fetched then Record(u, written) else written);
      WritesCommute(db.positions, w, Plan(u, read), Footprint(u, db));
    }
  }

  /** What every reachable configuration of a batch keeps. */
  ghost predicate Sound(tasks: seq<Task>, c: Config) {
    && |c.locals| == |tasks|
    && DistinctExecutions(tasks) && Apart(tasks, c.db)
    && forall i :: 0 <= i < |tasks| ==> LocalSound(tasks[i], c.db, c.locals[i])
  }

  /** A change that stays within the rows one task moves. */
  lemma SoundAfter(tasks: seq<Task>, c: Config, k: nat, db: Db)
    requires Sound(tasks, c) && k < |tasks| && SameShape(c.db, db)
    requires forall p <- c.db.positions :: p !in Moved(tasks[k], c.db) ==> db.positions[p] == c.db.positions[p]
    ensures Sound(tasks, c.(db := db))
  {
    forall i | 0 <= i < |tasks|
      ensures Footprint(tasks[i], c.db) == Footprint(tasks[i], db) && Moved(tasks[i], c.db) == Moved(tasks[i], db)
      ensures LocalSound(tasks[i], db, c.locals[i])
    {
      SameFootprint(tasks[i], c.db, db);
      SoundElsewhere(tasks[i], c.db, db, c.locals[i]);
    }
  }

  lemma {:induction false} FinishIgnoresEarlier(tasks: seq<Task>, db: Db, locals: seq<Local>, i: nat, l: Local, k: nat)
    requires |tasks| == |locals| && i < k <= |tasks|
    ensures FinishFrom(tasks, db, locals, k) == FinishFrom(tasks, db, locals[i := l], k)
    decreases |tasks| - k
  {
    if k < |tasks| {
      FinishIgnoresEarlier(tasks, Finish(tasks[k], db, locals[k]), locals, i, l, k + 1);
    }
  }

  /** In a sound configuration a step of a later task commutes with finishing an earlier one. */
  lemma FinishThenStep(tasks: seq<Task>, c: Config, i: nat, k: nat)
    requires Sound(tasks, c) && k < |tasks| && i < |tasks| && i != k
    ensures
      var rest := Finish(tasks[k], c.db, c.locals[k]);
      var (db, l) := Step(tasks[i], c.db, c.locals[i]);
      && Sound(tasks, c.(db := rest))
      && Step(tasks[i], rest, c.locals[i]) == (Finish(tasks[k], db, c.locals[k]), l)
  {
    StepCommutesWithFinish(tasks[i], c.locals[i], tasks[k], c.locals[k], c.db);
    FinishKeepsShape(tasks[k], c.db, c.locals[k]);
    SoundAfter(tasks, c, k, Finish(tasks[k], c.db, c.locals[k]));
  }

  /** No step changes the ledger that finishing the tasks one after the other would give. */
  lemma {:induction false} StepKeepsOutcome(tasks: seq<Task>, c: Config, i: nat, k: nat)
    requires Sound(tasks, c) && k <= i < |tasks|
    ensures FinishFrom(tasks, StepOf(tasks, c, i).db, StepOf(tasks, c, i).locals, k)
         == FinishFrom(tasks, c.db, c.locals, k)
    decreases i - k
  {
    var (db, l) := Step(tasks[i], c.db, c.locals[i]);
    if k == i {
      FinishIgnoresEarlier(tasks, Finish(tasks[i], c.db, c.locals[i]), c.locals, i, l, i + 1);
    } else {
      var rest := Finish(tasks[k], c.db, c.locals[k]);
      FinishThenStep(tasks, c, i, k);
      StepKeepsOutcome(tasks, c.(db := rest), i, k + 1);
    }
  }

  lemma StepKeepsSound(tasks: seq<Task>, c: Config, i: nat)
    requires Sound(tasks, c) && i < |tasks|
    ensures Sound(tasks, StepOf(tasks, c, i))
  {
    StepKeepsShape(tasks[i], c.db, c.locals[i]);
    StepKeepsLocal(tasks[i], c.db, c.locals[i]);
    SoundAfter(tasks, c, i, StepOf(tasks, c, i).db);
  }

  lemma {:induction false} ScheduleKeepsOutcome(tasks: seq<Task>, c: Config, schedule: seq<nat>)
    requires Sound(tasks, c) && Within(schedule, |tasks|)
    ensures Sound(tasks, Interleave(tasks, c, schedule))
    ensures FinishFrom(tasks, Interleave(tasks, c, schedule).db, Interleave(tasks, c, schedule).locals, 0)
         == FinishFrom(tasks, c.db, c.locals, 0)
    decreases |schedule|
  {
    if schedule == [] {
    } else {
      var i := schedule[0];
      StepKeepsSound(tasks, c, i);
      StepKeepsOutcome(tasks, c, i, 0);
      ScheduleKeepsOutcome(tasks, StepOf(tasks, c, i), schedule[1..]);
    }
  }

  lemma {:induction false} DoneIsFinished(tasks: seq<Task>, c: Config, k: nat)
    requires |c.locals| == |tasks| && AllDone(c) && k <= |tasks|
    ensures FinishFrom(tasks, c.db, c.locals, k) == c.db
    decreases |tasks| - k
  {
    if k < |tasks| {
      assert c.locals[k] in c.locals;
      DoneIsFinished(tasks, c, k + 1);
    }
  }

  lemma {:induction false} StartIsSequential(tasks: seq<Task>, db: Db, k: nat)
    requires k <= |tasks|
    ensures FinishFrom(tasks, db, seq(|tasks|, i => Fetched), k) == SyncAll(tasks[k..], db)
    decreases |tasks| - k
  {
    if k < |tasks| {
      assert tasks[k..][1..] == tasks[k + 1..];
      StartIsSequential(tasks, SyncOne(tasks[k], db), k + 1);
    }
  }

  /** Main result: when no task of a batch changes a row that another one reads, every complete interleaving
      ends in the ledger that running the tasks one by one gives. */
  lemma InterleavingIsSequential(tasks: seq<Task>, db: Db, schedule: seq<nat>)
    requires DistinctExecutions(tasks) && Apart(tasks, db) && Within(schedule, |tasks|)
    requires AllDone(Interleave(tasks, Start(tasks, db), schedule))
    ensures Interleave(tasks, Start(tasks, db), schedule).db == SyncAll(tasks, db)
  {
    ScheduleKeepsOutcome(tasks, Start(tasks, db), schedule);
    DoneIsFinished(tasks, Interleave(tasks, Start(tasks, db), schedule), 0);
    StartIsSequential(tasks, db, 0);
    assert tasks[0..] == tasks;
  }

  /** The batches of one call, each under a complete interleaving of its own tasks. */
  ghost predicate BatchesRun(batches: seq<seq<Task>>, db: Db, end: Db)
    decreases |batches|
  {
    if batches == [] then end == db
    else exists schedule: seq<nat> ::
      && Within(schedule, |batches[0]|)
      && AllDone(Interleave(batches[0], Start(batches[0], db), schedule))
      && BatchesRun(batches[1..], Interleave(batches[0], Start(batches[0], db), schedule).db, end)
  }

  /** Main result for the whole call: only tasks of one batch have to be apart. */
  lemma {:induction false} CallIsSequential(batches: seq<seq<Task>>, db: Db, end: Db)
    requires forall i :: 0 <= i < |batches| ==> DistinctExecutions(batches[i]) && Apart(batches[i], db)
    requires BatchesRun(batches, db, end)
    ensures end == SyncAll(Flatten(batches), db)
    decreases |batches|
  {
    if batches == [] {
    } else {
      var batch := batches[0];
      var schedule: seq<nat> :|
        && Within(schedule, |batch|)
        && AllDone(Interleave(batch, Start(batch, db), schedule))
        && BatchesRun(batches[1..], Interleave(batch, Start(batch, db), schedule).db, end);
      InterleavingIsSequential(batch, db, schedule);
      var next := SyncAll(batch, db);
      SyncKeepsShape(batch, db);
      forall i | 0 <= i < |batches[1..]|
        ensures DistinctExecutions(batches[1..][i]) && Apart(batches[1..][i], next)
      {
        SameShapeApart(batches[i + 1], db, next);
      }
      CallIsSequential(batches[1..], next, end);
      SyncAppend(batch, Flatten(batches[1..]), db);
    }
  }

  lemma SameShapeApart(tasks: seq<Task>, a: Db, b: Db)
    requires Apart(tasks, a) && SameShape(a, b)
    ensures Apart(tasks, b)
  {
    forall t <- tasks
      ensures Footprint(t, a) == Footprint(t, b) && Moved(t, a) == Moved(t, b)
    {
      SameFootprint(t, a, b);
    }
  }

  lemma {:induction false} SyncKeepsShape(tasks: seq<Task>, db: Db)
    ensures SameShape(db, SyncAll(tasks, db))
    decreases |tasks|
  {
    if tasks != [] {
      FinishKeepsShape(tasks[0], db, Fetched);
      SyncKeepsShape(tasks[1..], SyncOne(tasks[0], db));
    }
  }

  lemma {:induction false} SyncAppend(a: seq<Task>, b: seq<Task>, db: Db)
    ensures SyncAll(a + b, db) == SyncAll(b, SyncAll(a, db))
    decreases |a|
  {
    if a == [] {
      assert a + b == b;
    } else {
      SyncAppend(a[1..], b, SyncOne(a[0], db));
      assert (a + b)[1..] == a[1..] + b;
    }
  }
}
