/** `POST system/delete-duplicates`, which deletes the rows it is given, and
    what the removal of duplicate jobs does to the balance of the positions. */
module DuplicateRequests {
  import opened Collections
  import opened Tables
  import opened LedgerModel
  import opened Duplicates
  import opened DuplicateGroups
  import opened Runs

  function UnfilledExecutions(db: Db, ids: set<int>): set<int> {
    set e | e in ids && e in db.executions && e !in FilledExecutions(db.fills)
  }

  function UnfilledPositions(db: Db, ids: set<int>): set<int> {
    set p | p in ids && p in db.positions && p !in FilledPositions(db.fills)
  }

  predicate HasFilledExecution(db: Db, job: int) {
    !(ExecutionsOf(db, {job}) !! FilledExecutions(db.fills))
  }

  function RemovableJobs(db: Db, ids: set<int>): set<int> {
    set j | j in ids && j in db.jobs && !HasFilledExecution(db, j) && j !in OpeningJobs(db.positions)
  }

  /** The tables after the request: what goes is decided by the tables it found. */
  function Requested(db: Db, executions: set<int>, jobs: set<int>, positions: set<int>): Db {
    var es, js, ps := UnfilledExecutions(db, executions), RemovableJobs(db, jobs), UnfilledPositions(db, positions);
    WithoutUnfilled(db.(executions := db.executions - (es + ExecutionsOf(db, js)), jobs := db.jobs - js), ps)
  }

  /** The tables when the executions and some of the jobs have been handled. */
  function JobsGone(db: Db, es: set<int>, js: set<int>): Db {
    db.(executions := db.executions - (es + ExecutionsOf(db, js)), jobs := db.jobs - js)
  }

  lemma OneMoreId(ids: seq<int>, i: nat)
    requires i < |ids|
    ensures IdSet(ids[..i + 1]) == IdSet(ids[..i]) + {ids[i]}
  {
    assert ids[..i + 1] == ids[..i] + [ids[i]];
  }

  lemma UnfilledNext(db: Db, ids: seq<int>, i: nat, left: set<int>)
    requires i < |ids| && left == db.executions.Keys - UnfilledExecutions(db, IdSet(ids[..i]))
    ensures var sofar, next := UnfilledExecutions(db, IdSet(ids[..i])), UnfilledExecutions(db, IdSet(ids[..i + 1]));
            var more := if ids[i] in left && ids[i] !in FilledExecutions(db.fills) then {ids[i]} else {};
            next == sofar + more && |next| == |sofar| + |more|
  {
    OneMoreId(ids, i);
  }

  method DeleteExecutionById(ledger: Ledger, id: int) returns (deleted: bool)
    modifies ledger
    ensures deleted == (id in old(ledger.executions) && id !in FilledExecutions(old(ledger.fills)))
    ensures ledger.Rows() == old(ledger.Rows()).(executions := old(ledger.executions) - if deleted then {id} else {})
  {
    deleted := false;
    if id in ledger.executions {
      deleted := DeleteUnfilledExecution(ledger, id);
    }
  }

  method DeleteExecutions(ledger: Ledger, ids: seq<int>) returns (deleted: nat, errors: nat)
    modifies ledger
    ensures var gone := UnfilledExecutions(old(ledger.Rows()), IdSet(ids));
            && ledger.Rows() == old(ledger.Rows()).(executions := old(ledger.executions) - gone)
            && deleted == |gone|
    ensures deleted + errors == |ids|
  {
    ghost var was := ledger.Rows();
    deleted, errors := 0, 0;
    assert was.executions - {} == was.executions;
    for i := 0 to |ids|
      invariant ledger.Rows() == was.(executions := was.executions - UnfilledExecutions(was, IdSet(ids[..i])))
      invariant deleted == |UnfilledExecutions(was, IdSet(ids[..i]))| && deleted + errors == i
    {
      UnfilledNext(was, ids, i, ledger.executions.Keys);
      var ok := DeleteExecutionById(ledger, ids[i]);
      deleted, errors := deleted + (if ok then 1 else 0), errors + if ok then 0 else 1;
    }
    assert ids[..|ids|] == ids;
  }

  method DeleteJobById(ledger: Ledger, id: int) returns (deleted: bool)
    modifies ledger
    ensures deleted == (id in RemovableJobs(old(ledger.Rows()), {id}))
    ensures ledger.Rows() == if deleted then WithoutJobs(old(ledger.Rows()), {id}) else old(ledger.Rows())
  {
    if id !in ledger.jobs {
      return false;
    }
    if HasFilledExecution(ledger.Rows(), id) {
      return false;
    }
    if id in OpeningJobs(ledger.positions) {
      return false;
    }
    DeleteJob(ledger, id);
    deleted := true;
  }

  /** A job that is still there has the filled executions it had before. */
  lemma StillFilled(db: Db, es: set<int>, js: set<int>, id: int)
    requires es !! FilledExecutions(db.fills) && id !in js
    ensures HasFilledExecution(JobsGone(db, es, js), id) == HasFilledExecution(db, id)
  {
    var now := JobsGone(db, es, js);
    if e :| e in ExecutionsOf(db, {id}) * FilledExecutions(db.fills) {
      assert e in ExecutionsOf(now, {id}) * FilledExecutions(db.fills);
    } else {
      assert ExecutionsOf(now, {id}) <= ExecutionsOf(db, {id});
    }
  }

  lemma OneMoreJob(db: Db, es: set<int>, js: set<int>, id: int)
    requires es !! FilledExecutions(db.fills) && !HasFilledExecution(db, id)
    ensures WithoutJobs(JobsGone(db, es, js), {id}) == JobsGone(db, es, js + {id})
  {
    var now := JobsGone(db, es, js);
    var mine := ExecutionsOf(now, {id});
    assert mine <= ExecutionsOf(db, {id});
    NothingLost(db.fills, mine, {});
    MinusTwice(db.executions, es + ExecutionsOf(db, js), mine, es + ExecutionsOf(db, js + {id}));
    MinusTwice(db.jobs, js, {id}, js + {id});
  }

  lemma RemovableNext(db: Db, es: set<int>, ids: seq<int>, i: nat)
    requires i < |ids| && es !! FilledExecutions(db.fills)
    ensures var js, next := RemovableJobs(db, IdSet(ids[..i])), RemovableJobs(db, IdSet(ids[..i + 1]));
            var now := JobsGone(db, es, js);
            var more := RemovableJobs(now, {ids[i]});
            && next == js + more && js !! more
            && (more == {} || more == {ids[i]})
            && (more != {} ==> WithoutJobs(now, {ids[i]}) == JobsGone(db, es, next))
  {
    var id, js := ids[i], RemovableJobs(db, IdSet(ids[..i]));
    OneMoreId(ids, i);
    if id !in js {
      StillFilled(db, es, js, id);
      if id in db.jobs && !HasFilledExecution(db, id) {
        OneMoreJob(db, es, js, id);
      }
    }
  }

  /** The request's `i`-th job. */
  method DeleteJobAt(ledger: Ledger, ids: seq<int>, i: nat, ghost db: Db, ghost es: set<int>) returns (deleted: bool)
    requires i < |ids| && es !! FilledExecutions(db.fills)
    requires ledger.Rows() == JobsGone(db, es, RemovableJobs(db, IdSet(ids[..i])))
    modifies ledger
    ensures var js, next := RemovableJobs(db, IdSet(ids[..i])), RemovableJobs(db, IdSet(ids[..i + 1]));
            ledger.Rows() == JobsGone(db, es, next) && |next| == |js| + if deleted then 1 else 0
  {
    RemovableNext(db, es, ids, i);
    deleted := DeleteJobById(ledger, ids[i]);
  }

  method DeleteJobs(ledger: Ledger, ids: seq<int>, ghost db: Db, ghost es: set<int>) returns (deleted: nat, errors: nat)
    requires es !! FilledExecutions(db.fills) && ledger.Rows() == JobsGone(db, es, {})
    modifies ledger
    ensures ledger.Rows() == JobsGone(db, es, RemovableJobs(db, IdSet(ids)))
    ensures deleted == |RemovableJobs(db, IdSet(ids))| && deleted + errors == |ids|
  {
    deleted, errors := 0, 0;
    assert RemovableJobs(db, IdSet(ids[..0])) == {};
    for i := 0 to |ids|
      invariant ledger.Rows() == JobsGone(db, es, RemovableJobs(db, IdSet(ids[..i])))
      invariant deleted == |RemovableJobs(db, IdSet(ids[..i]))| && deleted + errors == i
    {
      var ok := DeleteJobAt(ledger, ids, i, db, es);
      deleted, errors := deleted + (if ok then 1 else 0), errors + if ok then 0 else 1;
    }
    assert ids[..|ids|] == ids;
  }

  lemma UnfilledPositionsNext(db: Db, ids: seq<int>, i: nat, left: set<int>)
    requires i < |ids| && left == db.positions.Keys - UnfilledPositions(db, IdSet(ids[..i]))
    ensures var sofar, next := UnfilledPositions(db, IdSet(ids[..i])), UnfilledPositions(db, IdSet(ids[..i + 1]));
            var more := if ids[i] in left && ids[i] !in FilledPositions(db.fills) then {ids[i]} else {};
            next == sofar + more && |next| == |sofar| + |more|
  {
    OneMoreId(ids, i);
  }

  /** The request's `i`-th position. */
  method DeletePositionAt(ledger: Ledger, ids: seq<int>, i: nat, ghost was: Db) returns (deleted: bool)
    requires i < |ids| && ledger.Rows() == WithoutUnfilled(was, UnfilledPositions(was, IdSet(ids[..i])))
    modifies ledger
    ensures var sofar, next := UnfilledPositions(was, IdSet(ids[..i])), UnfilledPositions(was, IdSet(ids[..i + 1]));
            ledger.Rows() == WithoutUnfilled(was, next) && |next| == |sofar| + if deleted then 1 else 0
  {
    ghost var sofar := UnfilledPositions(was, IdSet(ids[..i]));
    UnfilledPositionsNext(was, ids, i, ledger.positions.Keys);
    assert sofar + {} == sofar;
    deleted := false;
    if ids[i] in ledger.positions {
      deleted := DeleteNextPosition(ledger, ids[i], was, sofar);
    }
  }

  method DeletePositions(ledger: Ledger, ids: seq<int>) returns (deleted: nat, errors: nat)
    modifies ledger
    ensures var gone := UnfilledPositions(old(ledger.Rows()), IdSet(ids));
            ledger.Rows() == WithoutUnfilled(old(ledger.Rows()), gone) && deleted == |gone|
    ensures deleted + errors == |ids|
  {
    ghost var was := ledger.Rows();
    deleted, errors := 0, 0;
    UnfilledNone(was);
    assert UnfilledPositions(was, IdSet(ids[..0])) == {};
    for i := 0 to |ids|
      invariant ledger.Rows() == WithoutUnfilled(was, UnfilledPositions(was, IdSet(ids[..i])))
      invariant deleted == |UnfilledPositions(was, IdSet(ids[..i]))| && deleted + errors == i
    {
      var ok := DeletePositionAt(ledger, ids, i, was);
      deleted, errors := deleted + (if ok then 1 else 0), errors + if ok then 0 else 1;
    }
    assert ids[..|ids|] == ids;
  }

  /** Main result: the request deletes exactly the rows nothing hangs on, loses no fill, and accounts for
      every id as one deletion or one error. */
  method DeleteDuplicates(ledger: Ledger, executionIds: seq<int>, jobIds: seq<int>, positionIds: seq<int>)
    returns (executionsDeleted: nat, jobsDeleted: nat, positionsDeleted: nat, errors: nat)
    modifies ledger
    ensures ledger.Rows() == Requested(old(ledger.Rows()), IdSet(executionIds), IdSet(jobIds), IdSet(positionIds))
    ensures ledger.fills == old(ledger.fills)
    ensures executionsDeleted == |UnfilledExecutions(old(ledger.Rows()), IdSet(executionIds))|
    ensures jobsDeleted == |RemovableJobs(old(ledger.Rows()), IdSet(jobIds))|
    ensures positionsDeleted == |UnfilledPositions(old(ledger.Rows()), IdSet(positionIds))|
    ensures executionsDeleted + jobsDeleted + positionsDeleted + errors == |executionIds| + |jobIds| + |positionIds|
  {
    ghost var was := ledger.Rows();
    ghost var es := UnfilledExecutions(was, IdSet(executionIds));
    var e, j, p: nat;
    executionsDeleted, e := DeleteExecutions(ledger, executionIds);
    assert ledger.Rows() == JobsGone(was, es, {}) by {
      assert ExecutionsOf(was, {}) == {} && was.jobs - {} == was.jobs && es + {} == es;
    }
    jobsDeleted, j := DeleteJobs(ledger, jobIds, was, es);
    assert UnfilledPositions(ledger.Rows(), IdSet(positionIds)) == UnfilledPositions(was, IdSet(positionIds));
    positionsDeleted, p := DeletePositions(ledger, positionIds);
    errors := e + j + p;
  }

  /** Main result: every fill still belongs to an execution and a position. */
  lemma RequestKeepsLinks(db: Db, executions: set<int>, jobs: set<int>, positions: set<int>)
    requires FillsLinked(db)
    ensures FillsLinked(Requested(db, executions, jobs, positions))
  {
    var js := RemovableJobs(db, jobs);
    forall e | e in ExecutionsOf(db, js)
      ensures e !in FilledExecutions(db.fills)
    {
      assert e in ExecutionsOf(db, {db.executions[e].job});
    }
  }

  /** Deleting rows that no fill belongs to keeps the balance of the rest. */
  lemma FewerRowsConserve(db: Db, after: Db)
    requires Conserved(db) && after.fills == db.fills && FillsLinked(after)
    requires after.executions.Keys <= db.executions.Keys
             && forall e <- after.executions :: after.executions[e] == db.executions[e]
    requires after.positions.Keys <= db.positions.Keys
             && forall p <- after.positions :: after.positions[p] == db.positions[p]
    requires after.jobs.Keys <= db.jobs.Keys
    requires after == db.(jobs := after.jobs, executions := after.executions, positions := after.positions)
    ensures Conserved(after)
  {
    forall f | f in after.fills
      ensures f.execution in after.executions && f.position in after.positions
    {
      assert f.execution in FilledExecutions(after.fills) && f.position in FilledPositions(after.fills);
    }
    forall p | p in after.positions
      ensures Balanced(after, p)
    {
      assert Balanced(db, p);
    }
  }

  /** Main result: the request keeps the balance of every position it leaves. */
  lemma RequestConserves(db: Db, executions: set<int>, jobs: set<int>, positions: set<int>)
    requires Conserved(db)
    ensures Conserved(Requested(db, executions, jobs, positions))
  {
    LinksOf(db);
    RequestKeepsLinks(db, executions, jobs, positions);
    FewerRowsConserve(db, Requested(db, executions, jobs, positions));
  }

  lemma LinksOf(db: Db)
    requires WellFormed(db)
    ensures FillsLinked(db)
  {
  }

  /** The jobs a second identical request would still find removable. */
  function Unlocked(db: Db, jobs: set<int>, positions: set<int>): set<int> {
    var ps := UnfilledPositions(db, positions);
    set j | j in jobs && j in db.jobs && !HasFilledExecution(db, j)
            && j in OpeningJobs(db.positions) && j !in OpeningJobs(db.positions - ps)
  }

  lemma RemovableAfter(db: Db, executions: set<int>, jobs: set<int>, positions: set<int>, j: int)
    ensures j in RemovableJobs(Requested(db, executions, jobs, positions), jobs) <==> j in Unlocked(db, jobs, positions)
  {
    var es, js, ps := UnfilledExecutions(db, executions), RemovableJobs(db, jobs), UnfilledPositions(db, positions);
    var after := Requested(db, executions, jobs, positions);
    assert after.jobs.Keys == db.jobs.Keys - js && after.positions == db.positions - ps;
    assert ExecutionsOf(after, {j}) == ExecutionsOf(JobsGone(db, es, js), {j});
    if j !in js {
      StillFilled(db, es, js, j);
      assert j in OpeningJobs(db.positions - ps) ==> j in OpeningJobs(db.positions);
    }
  }

  /** Main result: repeating a request changes nothing if and only if the first one did not delete the
      position that kept one of its jobs from being deleted: jobs are handled before positions. */
  lemma RepeatChangesNothingIff(db: Db, executions: set<int>, jobs: set<int>, positions: set<int>)
    ensures var once := Requested(db, executions, jobs, positions);
            Requested(once, executions, jobs, positions) == once <==> Unlocked(db, jobs, positions) == {}
  {
    var once := Requested(db, executions, jobs, positions);
    var js, more := RemovableJobs(once, jobs), Unlocked(db, jobs, positions);
    forall j: int
      ensures j in js <==> j in more
    {
      RemovableAfter(db, executions, jobs, positions, j);
    }
    assert js == more;
    assert UnfilledExecutions(once, executions) == {};
    assert UnfilledPositions(once, positions) == {};
    UnfilledNone(JobsGone(once, {}, js));
    assert Requested(once, executions, jobs, positions).jobs.Keys == once.jobs.Keys - js;
    if more == {} {
      NothingRequested(once);
    } else {
      assert |js| != 0;
      assert once.jobs.Keys - js != once.jobs.Keys by {
        Inhabited(js);
        var j :| j in js;
        assert j in once.jobs.Keys && j !in once.jobs.Keys - js;
      }
    }
  }

  lemma NothingRequested(db: Db)
    ensures WithoutUnfilled(JobsGone(db, {}, {}), {}) == db
  {
    assert ExecutionsOf(db, {}) == {} && {} + ExecutionsOf(db, {}) == {};
    assert db.executions - {} == db.executions && db.jobs - {} == db.jobs;
    UnfilledNone(db);
  }

  // ------------------------------------------------------------------
  // Fills lost with duplicate jobs
  // ------------------------------------------------------------------

  /** The fills that go with a set of jobs. */
  predicate Lost(db: Db, gone: set<int>, f: Fill) {
    f.execution in db.executions && db.executions[f.execution].job in gone
  }

  /** Removing duplicate jobs keeps the fill table if and only if no execution of theirs has a fill:
      `sync-with-exchange` does not check it. */
  lemma JobRemovalKeepsFillsIff(db: Db, gone: set<int>)
    ensures WithoutJobs(db, gone).fills == db.fills <==> forall f <- db.fills :: !Lost(db, gone, f)
  {
    NothingLost(db.fills, ExecutionsOf(db, gone), {});
    if f :| f in db.fills && Lost(db, gone, f) {
      assert f.execution in ExecutionsOf(db, gone) && f.execution in FilledExecutions(db.fills);
    } else {
      forall e | e in ExecutionsOf(db, gone)
        ensures e !in FilledExecutions(db.fills)
      {
        assert forall f <- db.fills :: f.execution == e ==> Lost(db, gone, f);
      }
    }
  }

  /** Deleting fills lowers a position's filled quantity exactly when one of the deleted ones counts in it. */
  lemma {:induction false} LostQuantity(fills: seq<Fill>, gone: set<int>, p: int, side: Side)
    requires forall f <- fills :: f.qty >= 0.0
    ensures FilledQty(FillsWithout(fills, gone, {}), p, side) <= FilledQty(fills, p, side)
    ensures FilledQty(FillsWithout(fills, gone, {}), p, side) == FilledQty(fills, p, side) <==>
            (forall f <- fills :: f.execution in gone && f.position == p && f.side == side ==> f.qty == 0.0)
  {
    if fills != [] {
      var f, rest := fills[|fills| - 1], fills[..|fills| - 1];
      LostQuantity(rest, gone, p, side);
      assert fills == rest + [f];
      var kept := FillsWithout(rest, gone, {});
      assert FillsWithout(fills, gone, {}) == if f.execution in gone then kept else kept + [f] by {
        assert kept + [] == kept;
      }
      Append(kept, f, p, side, 0.0, 0);
    }
  }

  /** Main result: after duplicate jobs are removed a position's quantities still agree with its fills
      if and only if none of the fills lost moved any quantity of it. */
  lemma JobRemovalKeepsBalanceIff(db: Db, gone: set<int>, p: int)
    requires p in db.positions && Balanced(db, p) && forall f <- db.fills :: f.qty >= 0.0
    ensures Balanced(WithoutJobs(db, gone), p) <==>
            (forall f <- db.fills :: Lost(db, gone, f) && f.position == p ==> f.qty == 0.0)
  {
    var es, after := ExecutionsOf(db, gone), WithoutJobs(db, gone);
    LostQuantity(db.fills, es, p, Buy);
    LostQuantity(db.fills, es, p, Sell);
    assert Balanced(after, p) <==>
      && FilledQty(after.fills, p, Buy) == FilledQty(db.fills, p, Buy)
      && FilledQty(after.fills, p, Sell) == FilledQty(db.fills, p, Sell);
    forall f | f in db.fills
      ensures Lost(db, gone, f) <==> f.execution in es
      ensures f.side == Buy || f.side == Sell
    {
    }
  }

  /** Such a removal: a sale of 1 unit that was imported twice, whose older job goes with its fill. */
  lemma SaleImportedTwice(account: Account)
    ensures
      var bought := Order("b", "BTCUSDT", Buy, 3.0, 10.0, 30.0, 0.0, "USDT", 0, None);
      var sold := Order("s", "BTCUSDT", Sell, 1.0, 10.0, 10.0, 0.0, "USDT", 0, Some(1));
      var db := Run(EMPTY_DB, [Import(account, bought, 1), Import(account, sold, 2), Import(account, sold, 3)]);
      && JobsRemoved(db, [{2, 3}], WithoutJobs(db, {2}))
      && 1 in db.positions && Balanced(db, 1) && !Balanced(WithoutJobs(db, {2}), 1)
  {
    var bought := Order("b", "BTCUSDT", Buy, 3.0, 10.0, 30.0, 0.0, "USDT", 0, None);
    var sold := Order("s", "BTCUSDT", Sell, 1.0, 10.0, 10.0, 0.0, "USDT", 0, Some(1));
    var ops := [Import(account, bought, 1), Import(account, sold, 2), Import(account, sold, 3)];
    forall op | op in ops
      ensures KeepsBalance(op)
    {
    }
    RunConserves(ops);
    assert IsValidSymbol("BTCUSDT");
    ThreeImports(account, bought, sold);
    OlderUnbalances(Run(EMPTY_DB, ops));
  }

  lemma OlderUnbalances(db: Db)
    requires Conserved(db) && SoldTwice(db)
    ensures JobsRemoved(db, [{2, 3}], WithoutJobs(db, {2}))
    ensures Balanced(db, 1) && !Balanced(WithoutJobs(db, {2}), 1)
  {
    OlderGoes(db);
    OneFillLost(db);
  }

  lemma OlderGoes(db: Db)
    requires db.jobs.Keys == {1, 2, 3} && db.positions.Keys == {1} && db.positions[1].openJob == 1
    requires db.jobs[1].createdAt == 1 && db.jobs[2].createdAt == 2 && db.jobs[3].createdAt == 3
    ensures JobsRemoved(db, [{2, 3}], WithoutJobs(db, {2}))
  {
    OpensOne(db.positions);
    OlderOfTwo(JobKeys(db.jobs));
    var left: set<int> := {1, 3};
    assert db.jobs.Keys - left == {2};
    assert Outcome(JobKeys(db.jobs), [{2, 3}], OpeningJobs(db.positions), left);
  }

  lemma OpensOne(positions: map<int, Position>)
    requires positions.Keys == {1} && positions[1].openJob == 1
    ensures OpeningJobs(positions) == {1}
  {
    assert 1 in positions;
  }

  lemma OlderOfTwo(keys: map<int, int>)
    requires keys.Keys == {1, 2, 3} && keys[3] < keys[2]
    ensures Outcome(keys, [{2, 3}], {1}, {1, 3})
  {
    var rows := [3, 2];
    assert 2 in rows && 3 in rows;
    assert Restricted(keys, keys.Keys) == keys && Answers(keys, {2, 3}, rows);
    assert [{2, 3}][..0] == [] && [{2, 3}][..1] == [{2, 3}];
    OutcomeNext(keys, [{2, 3}], 0, {1}, keys.Keys, rows);
    assert keys.Keys - Removed(rows, {1}) == {1, 3};
  }

  lemma OneFillLost(db: Db)
    requires Conserved(db) && 1 in db.positions && 2 in db.executions && db.executions[2].job == 2 && |db.fills| > 1
    requires db.fills[1].position == 1 && db.fills[1].execution == 2 && db.fills[1].qty == 1.0
    requires forall f <- db.fills :: f.qty >= 0.0
    ensures Balanced(db, 1) && !Balanced(WithoutJobs(db, {2}), 1)
  {
    assert db.fills[1] in db.fills && Lost(db, {2}, db.fills[1]);
    JobRemovalKeepsBalanceIff(db, {2}, 1);
  }

  lemma RunOfThree(a: Op, b: Op, c: Op)
    ensures Run(EMPTY_DB, [a, b, c]) == Perform(Perform(Perform(EMPTY_DB, a), b), c)
  {
    RunNext(EMPTY_DB, [], a);
    RunNext(EMPTY_DB, [a], b);
    RunNext(EMPTY_DB, [a, b], c);
    assert [] + [a] == [a] && [a] + [b] == [a, b] && [a, b] + [c] == [a, b, c];
  }

  /** What the example needs of its tables. */
  ghost predicate SoldTwice(db: Db) {
    && db.jobs.Keys == {1, 2, 3} && db.positions.Keys == {1} && db.positions[1].openJob == 1
    && db.jobs[1].createdAt == 1 && db.jobs[2].createdAt == 2 && db.jobs[3].createdAt == 3
    && 2 in db.executions && db.executions[2].job == 2
    && |db.fills| == 3 && db.fills[1].position == 1 && db.fills[1].execution == 2 && db.fills[1].qty == 1.0
    && forall f <- db.fills :: f.qty >= 0.0
  }

  lemma ThreeImports(account: Account, bought: Order, sold: Order)
    requires Acceptable(bought) && bought.side == Buy && bought.qty == 3.0
    requires Acceptable(sold) && sold.side == Sell && sold.qty == 1.0 && sold.positionId == Some(1)
    ensures SoldTwice(Run(EMPTY_DB, [Import(account, bought, 1), Import(account, sold, 2), Import(account, sold, 3)]))
  {
    RunOfThree(Import(account, bought, 1), Import(account, sold, 2), Import(account, sold, 3));
    var one := ImportOne(EMPTY_DB, account, bought, 1).0;
    assert one.jobs == map[1 := ImportJob(account, bought, 1)] && one.executions.Keys == {1};
    assert one.positions == map[1 := OpenedPosition(account, bought, 1)];
    assert one.fills == [Fill(1, 1, 1, Buy, 3.0, bought.price, 1)];
    OneSold(one, account, sold, 2);
    var two := ImportOne(one, account, sold, 2).0;
    OneSold(two, account, sold, 3);
    assert two.fills[1] == Fill(2, 1, 2, Sell, 1.0, sold.price, 2);
  }

  lemma OneSold(db: Db, account: Account, sold: Order, now: int)
    requires Acceptable(sold) && sold.side == Sell && sold.qty == 1.0 && sold.positionId == Some(1)
    requires db.positions.Keys == {1} && db.positions[1].qtyRemaining >= 1.0
    ensures
      var after := ImportOne(db, account, sold, now).0;
      && after.jobs == db.jobs[db.nextJob := ImportJob(account, sold, now)]
      && after.executions == db.executions[db.nextExecution := ImportExecution(account, sold, db.nextJob)]
      && after.fills == db.fills + [Fill(db.nextFill, 1, db.nextExecution, Sell, 1.0, sold.price, now)]
      && after.positions.Keys == {1} && after.positions[1].openJob == db.positions[1].openJob
      && after.positions[1].qtyRemaining == db.positions[1].qtyRemaining - 1.0
      && after.nextJob == db.nextJob + 1 && after.nextExecution == db.nextExecution + 1
      && after.nextFill == db.nextFill + 1
  {
  }

  /** Such a request: a job and the position it opened, neither with a fill. */
  lemma JobAfterItsPosition(job: Job, position: Position)
    requires position.openJob == 1
    ensures Unlocked(EMPTY_DB.(jobs := map[1 := job], positions := map[1 := position]), {1}, {1}) == {1}
  {
    var db := EMPTY_DB.(jobs := map[1 := job], positions := map[1 := position]);
    assert ExecutionsOf(db, {1}) == {};
    assert 1 in db.positions && db.positions[1].openJob == 1;
    assert 1 in OpeningJobs(db.positions);
    assert OpeningJobs(db.positions - UnfilledPositions(db, {1})) == {};
  }
}
