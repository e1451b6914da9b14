/** What the removals of duplicates leave and delete, in terms of the rows
    themselves: their accounts, orders, creation times, fills and jobs. */
module DuplicatesKept {
  import opened Collections
  import opened Tables
  import opened LedgerModel
  import opened DuplicateGroups
  import opened Duplicates

  // ------------------------------------------------------------------
  // Executions
  // ------------------------------------------------------------------

  /** The execution is the account's for the exchange's order. */
  ghost predicate IsFor(e: Execution, account: int, order: string) {
    e.account == account && e.order == ExchangeOrder(order)
  }

  ghost predicate HasFill(fills: seq<Fill>, execution: int) {
    exists f :: f in fills && f.execution == execution
  }

  lemma HasFillIff(fills: seq<Fill>, execution: int)
    ensures HasFill(fills, execution) <==> execution in FilledExecutions(fills)
  {
  }

  /** Of the account's executions for the order none was created later. */
  ghost predicate NewestFor(db: Db, account: int, order: string, e: int) {
    && e in db.executions && IsFor(db.executions[e], account, order)
    && forall d <- db.executions :: IsFor(db.executions[d], account, order) ==>
         db.executions[d].createdAt <= db.executions[e].createdAt
  }

  lemma NewestSortsFirst(db: Db, account: int, order: string, e: int)
    ensures SortsFirst(ExecutionKeys(db.executions), WithOrder(db.executions, account, order), e) <==>
            NewestFor(db, account, order, e)
  {
    var keys, group := ExecutionKeys(db.executions), WithOrder(db.executions, account, order);
    if SortsFirst(keys, group, e) {
      forall d | d in db.executions && IsFor(db.executions[d], account, order)
        ensures db.executions[d].createdAt <= db.executions[e].createdAt
      {
        assert d in keys && d in group;
      }
    }
  }

  /** Main result: a removal deletes only executions of the account for the given orders that have no fill. */
  lemma DeletedExecutions(db: Db, account: int, orders: seq<string>, after: Db)
    requires ExecutionsRemoved(db, account, orders, after)
    ensures after == db.(executions := after.executions) && after.executions.Keys <= db.executions.Keys
    ensures forall e <- db.executions ::
      if e in after.executions then after.executions[e] == db.executions[e]
      else !HasFill(db.fills, e) && exists o :: o in orders && IsFor(db.executions[e], account, o)
  {
    var keys, groups := ExecutionKeys(db.executions), OrderGroups(db.executions, account, orders);
    var left: set<int> :| Outcome(keys, groups, FilledExecutions(db.fills), left) && after == WithExecutions(db, left);
    OutcomeWithin(keys, groups, FilledExecutions(db.fills), left);
    forall e | e in db.executions && e !in after.executions
      ensures !HasFill(db.fills, e) && exists o :: o in orders && IsFor(db.executions[e], account, o)
    {
      HasFillIff(db.fills, e);
      var k :| 0 <= k < |groups| && e in groups[k];
      assert orders[k] in orders;
    }
  }

  /** Main result: of the account's executions for each order it leaves a newest one, and no other without fills. */
  lemma KeptExecutions(db: Db, account: int, orders: seq<string>, after: Db, order: string)
    requires ExecutionsRemoved(db, account, orders, after) && order in orders
    ensures (exists e <- db.executions :: IsFor(db.executions[e], account, order)) ==>
      exists e <- after.executions :: NewestFor(db, account, order, e)
    ensures forall d, e ::
      && d in after.executions && IsFor(after.executions[d], account, order) && !HasFill(db.fills, d)
      && e in after.executions && IsFor(after.executions[e], account, order) && !HasFill(db.fills, e) ==>
      d == e && NewestFor(db, account, order, e)
  {
    var keys, groups := ExecutionKeys(db.executions), OrderGroups(db.executions, account, orders);
    var staying, group := FilledExecutions(db.fills), WithOrder(db.executions, account, order);
    var left: set<int> :| Outcome(keys, groups, staying, left) && after == WithExecutions(db, left);
    OutcomeWithin(keys, groups, staying, left);
    OutcomeKeepsOne(keys, groups, staying, left);
    var k :| 0 <= k < |orders| && orders[k] == order;
    assert groups[k] == group && group in groups && KeepsOne(keys, group, staying, left);
    forall e
      ensures SortsFirst(keys, group, e) <==> NewestFor(db, account, order, e)
      ensures HasFill(db.fills, e) <==> e in staying
    {
      NewestSortsFirst(db, account, order, e);
      HasFillIff(db.fills, e);
    }
    if exists e <- db.executions :: IsFor(db.executions[e], account, order) {
      var e :| e in db.executions && IsFor(db.executions[e], account, order);
      assert e in keys && e in group;
      var x :| x in left && SortsFirst(keys, group, x);
      assert x in after.executions;
    }
  }

  // ------------------------------------------------------------------
  // Positions
  // ------------------------------------------------------------------

  ghost predicate PositionHasFill(fills: seq<Fill>, position: int) {
    exists f :: f in fills && f.position == position
  }

  /** Of the positions of the group none was created earlier. */
  ghost predicate OldestOf(db: Db, group: set<int>, p: int) {
    && p in db.positions && p in group
    && forall q <- db.positions :: q in group ==> db.positions[p].createdAt <= db.positions[q].createdAt
  }

  lemma OldestSortsFirst(db: Db, group: set<int>, p: int)
    ensures SortsFirst(PositionKeys(db.positions), group, p) <==> OldestOf(db, group, p)
  {
    var keys := PositionKeys(db.positions);
    if SortsFirst(keys, group, p) {
      forall q | q in db.positions && q in group
        ensures db.positions[p].createdAt <= db.positions[q].createdAt
      {
        assert q in keys;
      }
    }
  }

  /** Main result: a removal deletes only positions of the groups that have no fill; the jobs that were to close
      them forget them, and nothing else changes. */
  lemma DeletedPositions(db: Db, groups: seq<set<int>>, after: Db)
    requires PositionsRemoved(db, groups, after)
    ensures after == db.(positions := after.positions, jobs := after.jobs) && after.jobs.Keys == db.jobs.Keys
    ensures after.positions.Keys <= db.positions.Keys
    ensures forall p <- db.positions ::
      if p in after.positions then after.positions[p] == db.positions[p]
      else !PositionHasFill(db.fills, p) && exists k :: 0 <= k < |groups| && p in groups[k]
    ensures forall j <- db.jobs ::
      var id := db.jobs[j].positionToClose;
      after.jobs[j] == if id.Some? && id.value in db.positions && id.value !in after.positions
                       then db.jobs[j].(positionToClose := None) else db.jobs[j]
  {
    var keys, staying := PositionKeys(db.positions), FilledPositions(db.fills);
    var left: set<int> :|
      Outcome(keys, groups, staying, left) && after == WithoutUnfilled(db, db.positions.Keys - left);
    OutcomeWithin(keys, groups, staying, left);
  }

  /** Main result: of each of disjoint or equal groups it leaves an oldest position, and no other without fills. */
  lemma KeptPositions(db: Db, groups: seq<set<int>>, after: Db, group: set<int>)
    requires PositionsRemoved(db, groups, after) && SameOrDisjoint(groups) && group in groups
    ensures (exists p <- db.positions :: p in group) ==> exists p <- after.positions :: OldestOf(db, group, p)
    ensures forall p <- after.positions, q <- after.positions ::
      p in group && !PositionHasFill(db.fills, p) && q in group && !PositionHasFill(db.fills, q) ==>
      p == q && OldestOf(db, group, p)
  {
    var keys, staying := PositionKeys(db.positions), FilledPositions(db.fills);
    var left: set<int> :|
      Outcome(keys, groups, staying, left) && after == WithoutUnfilled(db, db.positions.Keys - left);
    OutcomeWithin(keys, groups, staying, left);
    OutcomeKeepsOne(keys, groups, staying, left);
    assert KeepsOne(keys, group, staying, left) && after.positions.Keys == left;
    forall p
      ensures SortsFirst(keys, group, p) <==> OldestOf(db, group, p)
      ensures PositionHasFill(db.fills, p) <==> p in staying
    {
      OldestSortsFirst(db, group, p);
    }
    if p :| p in db.positions && p in group {
      assert p in keys;
      var x :| x in left && SortsFirst(keys, group, x);
      assert x in after.positions;
    }
  }

  // ------------------------------------------------------------------
  // Jobs
  // ------------------------------------------------------------------

  ghost predicate OpenedAPosition(db: Db, job: int) {
    exists p :: p in db.positions && db.positions[p].openJob == job
  }

  /** Of the jobs of the group none was created later. */
  ghost predicate NewestOfJobs(db: Db, group: set<int>, j: int) {
    && j in db.jobs && j in group
    && forall i <- db.jobs :: i in group ==> db.jobs[i].createdAt <= db.jobs[j].createdAt
  }

  lemma NewestJobSortsFirst(db: Db, group: set<int>, j: int)
    ensures SortsFirst(JobKeys(db.jobs), group, j) <==> NewestOfJobs(db, group, j)
  {
    var keys := JobKeys(db.jobs);
    if SortsFirst(keys, group, j) {
      forall i | i in db.jobs && i in group
        ensures db.jobs[i].createdAt <= db.jobs[j].createdAt
      {
        assert i in keys;
      }
    }
  }

  /** The execution belongs to a job that is gone. */
  ghost predicate Orphaned(db: Db, after: Db, e: int) {
    e in db.executions && db.executions[e].job in db.jobs && db.executions[e].job !in after.jobs
  }

  /** Main result: a removal deletes only jobs of the groups that opened no position, with their executions and
      the fills of those, and nothing else. */
  lemma DeletedJobs(db: Db, groups: seq<set<int>>, after: Db)
    requires JobsRemoved(db, groups, after)
    ensures after == db.(jobs := after.jobs, executions := after.executions, fills := after.fills)
    ensures after.jobs.Keys <= db.jobs.Keys
    ensures forall j <- db.jobs ::
      if j in after.jobs then after.jobs[j] == db.jobs[j]
      else !OpenedAPosition(db, j) && exists k :: 0 <= k < |groups| && j in groups[k]
    ensures after.executions.Keys <= db.executions.Keys
    ensures forall e <- db.executions ::
      if Orphaned(db, after, e) then e !in after.executions
      else e in after.executions && after.executions[e] == db.executions[e]
    ensures forall f :: f in after.fills <==> f in db.fills && !Orphaned(db, after, f.execution)
  {
    var keys, staying := JobKeys(db.jobs), OpeningJobs(db.positions);
    var left: set<int> :| Outcome(keys, groups, staying, left) && after == WithoutJobs(db, db.jobs.Keys - left);
    OutcomeWithin(keys, groups, staying, left);
    var gone := db.jobs.Keys - left;
    assert after.jobs.Keys == left;
    forall e
      ensures Orphaned(db, after, e) <==> e in ExecutionsOf(db, gone)
    {
    }
  }

  /** Main result: of each of disjoint or equal groups it leaves a newest job, and no other that opened no position. */
  lemma KeptJobs(db: Db, groups: seq<set<int>>, after: Db, group: set<int>)
    requires JobsRemoved(db, groups, after) && SameOrDisjoint(groups) && group in groups
    ensures (exists j <- db.jobs :: j in group) ==> exists j <- after.jobs :: NewestOfJobs(db, group, j)
    ensures forall i <- after.jobs, j <- after.jobs ::
      i in group && !OpenedAPosition(db, i) && j in group && !OpenedAPosition(db, j) ==>
      i == j && NewestOfJobs(db, group, j)
  {
    var keys, staying := JobKeys(db.jobs), OpeningJobs(db.positions);
    var left: set<int> :| Outcome(keys, groups, staying, left) && after == WithoutJobs(db, db.jobs.Keys - left);
    OutcomeWithin(keys, groups, staying, left);
    OutcomeKeepsOne(keys, groups, staying, left);
    assert KeepsOne(keys, group, staying, left) && after.jobs.Keys == left;
    forall j
      ensures SortsFirst(keys, group, j) <==> NewestOfJobs(db, group, j)
      ensures OpenedAPosition(db, j) <==> j in staying
    {
      NewestJobSortsFirst(db, group, j);
    }
    if j :| j in db.jobs && j in group {
      assert j in keys;
      var x :| x in left && SortsFirst(keys, group, x);
      assert x in after.jobs;
    }
  }
}
