/** How much of an execution the endpoints attach to positions: never more than
    it sold, as long as only jobs that are not yet filled are fixed. */
module Attachments {
  import opened Tables
  import opened LedgerModel
  import opened Runs

  ghost predicate NotOverAttached(db: Db) {
    forall e <- db.executions :: AttachedQty(db.fills, e) <= db.executions[e].executedQty
  }

  /** Only the executions of filled jobs have fills. */
  ghost predicate FillsOfFilledJobs(db: Db) {
    forall f <- db.fills ::
      && f.execution in db.executions && db.executions[f.execution].job in db.jobs
      && db.jobs[db.executions[f.execution].job].status == Filled
  }

  ghost predicate Attached(db: Db) {
    Conserved(db) && NotOverAttached(db) && FillsOfFilledJobs(db)
  }

  /** The guard of the orphan detection, on the job a step works on. */
  predicate OnOpenJob(db: Db, op: Op) {
    match op
    case FixOrphan(job, _, _) => job in db.jobs ==> db.jobs[job].status != Filled
    case _ => true
  }

  ghost predicate Guarded(ops: seq<Op>) {
    if ops == [] then true
    else
      Guarded(ops[..|ops| - 1]) && MovesQuantity(ops[|ops| - 1])
      && OnOpenJob(Run(EMPTY_DB, ops[..|ops| - 1]), ops[|ops| - 1])
  }

  /** A fix attaches no more of an execution than it sold exactly when nothing of it was attached before,
      or what is left of it covers the whole position: the endpoint itself checks neither. */
  lemma FixAttachesIff(db: Db, job: int, alternatives: seq<Alternative>, now: int)
    requires Conserved(db) && NotOverAttached(db) && FixOne(db, job, alternatives, now).1.Fixed?
    requires forall e <- db.executions :: AttachedQty(db.fills, e) >= 0.0
    ensures
      var r := FixOne(db, job, alternatives, now).1;
      var e := LatestExecution(db.executions, job, db.nextExecution).value;
      NotOverAttached(FixOne(db, job, alternatives, now).0) <==>
      || AttachedQty(db.fills, e) == 0.0
      || AttachedQty(db.fills, e) <= db.executions[e].executedQty - db.positions[r.position].qtyRemaining
  {
    FixStep(db, job, alternatives, now);
    var after := FixOne(db, job, alternatives, now).0;
    var f := after.fills[|db.fills|];
    forall e | e in db.executions
      ensures AttachedQty(after.fills, e) == AttachedQty(db.fills, e) + if e == f.execution then f.qty else 0.0
    {
      Append(db.fills, f, f.position, Sell, 0.0, e);
    }
    assert Balanced(db, f.position);
    assert f.execution in db.executions;
  }

  lemma NewExecutionAttaches(db: Db, after: Db, f: Fill)
    requires Attached(db) && Conserved(after) && after.fills == db.fills + [f]
    requires f.execution == db.nextExecution && f.execution in after.executions
    requires f.side == Sell ==> f.qty <= after.executions[f.execution].executedQty
    requires after.executions == db.executions[f.execution := after.executions[f.execution]]
    requires after.executions[f.execution].job == db.nextJob && db.nextJob in after.jobs
    requires after.jobs == db.jobs[db.nextJob := after.jobs[db.nextJob]] && after.jobs[db.nextJob].status == Filled
    ensures Attached(after)
  {
    NothingAttached(db.fills, f.execution);
    forall e | e in after.executions
      ensures AttachedQty(after.fills, e) <= after.executions[e].executedQty
    {
      Append(db.fills, f, f.position, Sell, 0.0, e);
    }
  }

  lemma FixAttaches(db: Db, job: int, alternatives: seq<Alternative>, now: int)
    requires Attached(db) && OnOpenJob(db, FixOrphan(job, alternatives, now))
    ensures Attached(FixOne(db, job, alternatives, now).0)
  {
    FixConserves(db, job, alternatives, now);
    var (after, r) := FixOne(db, job, alternatives, now);
    if r.Fixed? {
      FixStep(db, job, alternatives, now);
      FirstFillAttaches(db, after, after.fills[|db.fills|]);
    }
  }

  /** The first fill of a known execution whose job is now filled. */
  lemma FirstFillAttaches(db: Db, after: Db, f: Fill)
    requires NotOverAttached(db) && FillsOfFilledJobs(db) && Conserved(after)
    requires after.fills == db.fills + [f] && after.executions == db.executions && f.execution in db.executions
    requires f.qty <= db.executions[f.execution].executedQty
    requires
      var job := db.executions[f.execution].job;
      && job in db.jobs && db.jobs[job].status != Filled
      && job in after.jobs && after.jobs == db.jobs[job := after.jobs[job]] && after.jobs[job].status == Filled
    ensures Attached(after)
  {
    forall g | g in db.fills
      ensures g.execution != f.execution
    {
      assert db.jobs[db.executions[g.execution].job].status == Filled;
    }
    NothingAttached(db.fills, f.execution);
    forall e | e in db.executions
      ensures AttachedQty(after.fills, e) <= db.executions[e].executedQty
    {
      Append(db.fills, f, f.position, Sell, 0.0, e);
    }
  }

  lemma ImportAttaches(db: Db, account: Account, o: Order, now: int)
    requires Attached(db) && GoodQuantity(o)
    ensures Attached(ImportOne(db, account, o, now).0)
  {
    ImportConserves(db, account, o, now);
    var (after, ok) := ImportOne(db, account, o, now);
    if ok {
      ImportStep(db, account, o, now);
      NewExecutionAttaches(db, after, after.fills[|db.fills|]);
    }
  }

  lemma CloseAttaches(db: Db, id: int, now: int)
    requires Attached(db)
    ensures Attached(CloseBreakeven(db, id, now).0)
  {
    CloseConserves(db, id, now);
    var (after, r) := CloseBreakeven(db, id, now);
    if r.ClosedBy? {
      CloseStep(db, id, now);
      NewExecutionAttaches(db, after, after.fills[|db.fills|]);
    }
  }

  lemma RecordAttaches(db: Db, op: Op)
    requires Attached(db) && MovesQuantity(op) && OnOpenJob(db, op) && (op.RecordJob? || op.RecordExecution?)
    ensures Attached(Perform(db, op))
  {
    assert forall p <- db.positions :: Balanced(Perform(db, op), p) <==> Balanced(db, p);
    if op.RecordExecution? {
      NothingAttached(db.fills, db.nextExecution);
    }
  }

  lemma StepAttaches(db: Db, op: Op)
    requires Attached(db) && MovesQuantity(op) && OnOpenJob(db, op)
    ensures Attached(Perform(db, op))
  {
    match op
    case Import(account, o, now) => ImportAttaches(db, account, o, now);
    case FixOrphan(job, alternatives, now) => FixAttaches(db, job, alternatives, now);
    case Close(id, now) => CloseAttaches(db, id, now);
    case RecordJob(_) => RecordAttaches(db, op);
    case RecordExecution(_) => RecordAttaches(db, op);
  }

  /** Main result: over every run in which only unfilled jobs are fixed, no execution is attached to
      positions for more than the quantity it executed. */
  lemma {:induction false} RunNeverOverAttaches(ops: seq<Op>)
    requires Guarded(ops)
    ensures Attached(Run(EMPTY_DB, ops))
  {
    if ops == [] {
    } else {
      RunNeverOverAttaches(ops[..|ops| - 1]);
      StepAttaches(Run(EMPTY_DB, ops[..|ops| - 1]), ops[|ops| - 1]);
    }
  }

  /** Without the guard the bound fails: a job fixed again while its position is still open is attached again. */
  lemma RefixAttachesTwice(db: Db, job: int, alternatives: seq<Alternative>, now: int)
    requires FixOne(db, job, alternatives, now).1.Fixed?
    requires
      var p := db.positions[FixOne(db, job, alternatives, now).1.position];
      var e := db.executions[LatestExecution(db.executions, job, db.nextExecution).value];
      e.executedQty > 0.0 && p.qtyRemaining >= 2.0 * e.executedQty && p.qtyRemaining - e.executedQty > DUST
    ensures
      var e := LatestExecution(db.executions, job, db.nextExecution).value;
      var (once, r) := FixOne(db, job, alternatives, now);
      var (twice, again) := FixOne(once, job, alternatives, now);
      && again == r
      && AttachedQty(twice.fills, e) == AttachedQty(db.fills, e) + 2.0 * db.executions[e].executedQty
  {
    FixStep(db, job, alternatives, now);
    var e := LatestExecution(db.executions, job, db.nextExecution).value;
    var (once, r) := FixOne(db, job, alternatives, now);
    assert once.positions[r.position].status == Open;
    assert TargetOf(once, job, alternatives) == Attach(r.position);
    FixStep(once, job, alternatives, now);
    var (twice, again) := FixOne(once, job, alternatives, now);
    Append(db.fills, once.fills[|db.fills|], 0, Sell, 0.0, e);
    Append(once.fills, twice.fills[|once.fills|], 0, Sell, 0.0, e);
  }
}
