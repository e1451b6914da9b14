/** Removing duplicates: of executions, positions and jobs, in
    `POST system/delete-duplicates`, `fix-exchange-trades`, `sync-with-exchange`
    and the deletion mode of the trade audit. */
module Duplicates {
  import opened Collections
  import opened Tables
  import opened LedgerModel
  import opened DuplicateGroups

  // ------------------------------------------------------------------
  // Deleting rows, with what the schema's relations do
  // ------------------------------------------------------------------

  function FillsWithout(fills: seq<Fill>, executions: set<int>, positions: set<int>): (r: seq<Fill>)
    ensures forall f :: f in r <==> f in fills && f.execution !in executions && f.position !in positions
  {
    if fills == [] then []
    else
      var f := fills[|fills| - 1];
      assert fills == fills[..|fills| - 1] + [f];
      var rest := FillsWithout(fills[..|fills| - 1], executions, positions);
      if f.execution in executions || f.position in positions then rest else rest + [f]
  }

  function FilledExecutions(fills: seq<Fill>): set<int> {
    set f | f in fills :: f.execution
  }

  function FilledPositions(fills: seq<Fill>): set<int> {
    set f | f in fills :: f.position
  }

  lemma {:induction false} NothingLost(fills: seq<Fill>, executions: set<int>, positions: set<int>)
    ensures FillsWithout(fills, executions, positions) == fills <==>
            executions !! FilledExecutions(fills) && positions !! FilledPositions(fills)
    ensures |FillsWithout(fills, executions, positions)| <= |fills|
  {
    if fills != [] {
      var f, rest := fills[|fills| - 1], fills[..|fills| - 1];
      NothingLost(rest, executions, positions);
      assert fills == rest + [f];
      assert FilledExecutions(fills) == FilledExecutions(rest) + {f.execution};
      assert FilledPositions(fills) == FilledPositions(rest) + {f.position};
      var kept := FillsWithout(rest, executions, positions);
      assert (kept + [f])[..|kept|] == kept;
    }
  }

  lemma {:induction false} WithoutTwice(fills: seq<Fill>, a: set<int>, b: set<int>)
    ensures FillsWithout(FillsWithout(fills, a, {}), b, {}) == FillsWithout(fills, a + b, {})
  {
    if fills != [] {
      var f, rest := fills[|fills| - 1], fills[..|fills| - 1];
      WithoutTwice(rest, a, b);
      var once := FillsWithout(rest, a, {});
      assert (once + [f])[..|once|] == once;
      assert f.execution in a ==> FillsWithout(fills, a, {}) == once;
    }
  }

  /** Executions go with their fills. */
  function WithoutExecutions(db: Db, gone: set<int>): Db {
    db.(executions := db.executions - gone, fills := FillsWithout(db.fills, gone, {}))
  }

  function Forgetting(jobs: map<int, Job>, gone: set<int>): map<int, Job> {
    map j | j in jobs ::
      if jobs[j].positionToClose.Some? && jobs[j].positionToClose.value in gone
      then jobs[j].(positionToClose := None) else jobs[j]
  }

  /** Positions go with their fills, and jobs that were to close them forget them. */
  function WithoutPositions(db: Db, gone: set<int>): Db {
    db.(positions := db.positions - gone,
        fills := FillsWithout(db.fills, {}, gone),
        jobs := Forgetting(db.jobs, gone))
  }

  function ExecutionsOf(db: Db, jobs: set<int>): set<int> {
    set e | e in db.executions && db.executions[e].job in jobs
  }

  /** Jobs go with their executions and the fills of those. */
  function WithoutJobs(db: Db, gone: set<int>): Db {
    WithoutExecutions(db, ExecutionsOf(db, gone)).(jobs := db.jobs - gone)
  }

  // ------------------------------------------------------------------
  // Deleting through the ledger
  // ------------------------------------------------------------------

  method DeleteExecution(ledger: Ledger, id: int)
    modifies ledger
    ensures ledger.Rows() == WithoutExecutions(old(ledger.Rows()), {id})
  {
    ledger.executions := ledger.executions - {id};
    ledger.fills := FillsWithout(ledger.fills, {id}, {});
  }

  method DeletePosition(ledger: Ledger, id: int)
    modifies ledger
    ensures ledger.Rows() == WithoutPositions(old(ledger.Rows()), {id})
  {
    ledger.positions := ledger.positions - {id};
    ledger.fills := FillsWithout(ledger.fills, {}, {id});
    ledger.jobs := Forgetting(ledger.jobs, {id});
  }

  /** The schema refuses to delete a job that a position was opened by. */
  method DeleteJob(ledger: Ledger, id: int)
    requires id !in OpeningJobs(ledger.positions)
    modifies ledger
    ensures ledger.Rows() == WithoutJobs(old(ledger.Rows()), {id})
  {
    var mine := set e | e in ledger.executions && ledger.executions[e].job == id;
    assert mine == ExecutionsOf(ledger.Rows(), {id});
    ledger.executions := ledger.executions - mine;
    ledger.fills := FillsWithout(ledger.fills, mine, {});
    ledger.jobs := ledger.jobs - {id};
  }

  function OpeningJobs(positions: map<int, Position>): set<int> {
    set p | p in positions :: positions[p].openJob
  }

  // ------------------------------------------------------------------
  // Removing whole lists of groups
  // ------------------------------------------------------------------

  /** Every fill belongs to an execution and to a position of the tables. */
  ghost predicate FillsLinked(db: Db) {
    FilledExecutions(db.fills) <= db.executions.Keys && FilledPositions(db.fills) <= db.positions.Keys
  }

  /** The newest execution sorts first. */
  function ExecutionKeys(executions: map<int, Execution>): map<int, int> {
    map e | e in executions :: -executions[e].createdAt
  }

  /** The oldest position sorts first. */
  function PositionKeys(positions: map<int, Position>): map<int, int> {
    map p | p in positions :: positions[p].createdAt
  }

  /** The newest job sorts first. */
  function JobKeys(jobs: map<int, Job>): map<int, int> {
    map j | j in jobs :: -jobs[j].createdAt
  }

  function WithOrder(executions: map<int, Execution>, account: int, order: string): set<int> {
    set e | e in executions && executions[e].account == account && executions[e].order == ExchangeOrder(order)
  }

  function OrderGroups(executions: map<int, Execution>, account: int, orders: seq<string>): seq<set<int>> {
    seq(|orders|, i requires 0 <= i < |orders| => WithOrder(executions, account, orders[i]))
  }

  lemma RemovedNext(rows: seq<int>, i: nat, staying: set<int>)
    requires 0 < i < |rows| && rows[i] !in rows[..i]
    ensures Removed(rows[..i + 1], staying) ==
            Removed(rows[..i], staying) + if rows[i] in staying then {} else {rows[i]}
  {
    assert rows[..i + 1] == rows[..i] + [rows[i]];
  }

  /** An execution without fills goes alone. */
  method DeleteUnfilledExecution(ledger: Ledger, id: int) returns (deleted: bool)
    modifies ledger
    ensures deleted == (id !in FilledExecutions(old(ledger.fills)))
    ensures ledger.Rows() == old(ledger.Rows()).(
      executions := old(ledger.executions) - if deleted then {id} else {})
  {
    deleted := id !in FilledExecutions(ledger.fills);
    if deleted {
      NothingLost(ledger.fills, {id}, {});
      DeleteExecution(ledger, id);
    }
  }

  /** One order id: the newest execution is kept, the others go unless they have fills. */
  method RemoveExecutionsOf(ledger: Ledger, account: int, order: string) returns (ghost rows: seq<int>)
    modifies ledger
    ensures Answers(ExecutionKeys(old(ledger.executions)), WithOrder(old(ledger.executions), account, order), rows)
    ensures var gone := Removed(rows, FilledExecutions(old(ledger.fills)));
            ledger.Rows() == old(ledger.Rows()).(executions := old(ledger.executions) - gone)
  {
    var found := FindMany(ExecutionKeys(ledger.executions), WithOrder(ledger.executions, account, order));
    rows := found;
    if |found| <= 1 {
      return;
    }
    ghost var staying := FilledExecutions(ledger.fills);
    assert Removed(found[..1], staying) == {};
    for i := 1 to |found|
      invariant ledger.Rows() == old(ledger.Rows()).(
        executions := old(ledger.executions) - Removed(found[..i], staying))
    {
      RemovedNext(found, i, staying);
      var _ := DeleteUnfilledExecution(ledger, found[i]);
    }
    assert found[..|found|] == found;
  }

  function WithExecutions(db: Db, left: set<int>): Db {
    db.(executions := db.executions - (db.executions.Keys - left))
  }

  /** A result of removing the duplicates of some order ids: one for each way the queries may be answered. */
  ghost predicate ExecutionsRemoved(db: Db, account: int, orders: seq<string>, after: Db) {
    exists left: set<int> ::
      && Outcome(ExecutionKeys(db.executions), OrderGroups(db.executions, account, orders),
                 FilledExecutions(db.fills), left)
      && after == WithExecutions(db, left)
  }

  lemma RestOfExecutions(was: map<int, Execution>, gone: set<int>)
    requires gone <= was.Keys
    ensures ExecutionKeys(was - gone) == Restricted(ExecutionKeys(was), was.Keys - gone)
  {
  }

  lemma ExecutionsNext(was: map<int, Execution>, account: int, orders: seq<string>, i: nat, staying: set<int>,
                       gone: set<int>, rows: seq<int>)
    requires i < |orders| && gone <= was.Keys
    requires Outcome(ExecutionKeys(was), OrderGroups(was, account, orders)[..i], staying, was.Keys - gone)
    requires Answers(ExecutionKeys(was - gone), WithOrder(was - gone, account, orders[i]), rows)
    ensures gone + Removed(rows, staying) <= was.Keys
    ensures Outcome(ExecutionKeys(was), OrderGroups(was, account, orders)[..i + 1], staying,
                    was.Keys - (gone + Removed(rows, staying)))
  {
    var keys, groups := ExecutionKeys(was), OrderGroups(was, account, orders);
    RestOfExecutions(was, gone);
    forall x
      ensures x in was.Keys - gone && x in WithOrder(was - gone, account, orders[i]) <==>
              x in was.Keys - gone && x in groups[i]
    {
    }
    assert Answers(Restricted(keys, was.Keys - gone), groups[i], rows);
    OutcomeNextGone(keys, groups, i, staying, gone, rows);
  }

  method RemoveExecutionsAt(ledger: Ledger, account: int, orders: seq<string>, i: nat,
                            ghost was: Db, ghost gone: set<int>)
    returns (ghost more: set<int>)
    requires i < |orders| && gone <= was.executions.Keys
    requires ledger.Rows() == was.(executions := was.executions - gone)
    requires Outcome(ExecutionKeys(was.executions), OrderGroups(was.executions, account, orders)[..i],
                     FilledExecutions(was.fills), was.executions.Keys - gone)
    modifies ledger
    ensures gone + more <= was.executions.Keys
    ensures ledger.Rows() == was.(executions := was.executions - (gone + more))
    ensures Outcome(ExecutionKeys(was.executions), OrderGroups(was.executions, account, orders)[..i + 1],
                    FilledExecutions(was.fills), was.executions.Keys - (gone + more))
  {
    ghost var rows := RemoveExecutionsOf(ledger, account, orders[i]);
    more := Removed(rows, FilledExecutions(was.fills));
    ExecutionsNext(was.executions, account, orders, i, FilledExecutions(was.fills), gone, rows);
    MinusTwice(was.executions, gone, more, gone + more);
  }

  lemma ExecutionsOutcome(db: Db, account: int, orders: seq<string>, gone: set<int>)
    requires gone <= db.executions.Keys
    requires Outcome(ExecutionKeys(db.executions), OrderGroups(db.executions, account, orders),
                     FilledExecutions(db.fills), db.executions.Keys - gone)
    ensures ExecutionsRemoved(db, account, orders, db.(executions := db.executions - gone))
    ensures gone !! FilledExecutions(db.fills)
    ensures EachKeepsOne(ExecutionKeys(db.executions), OrderGroups(db.executions, account, orders),
                         FilledExecutions(db.fills), db.executions.Keys - gone)
    ensures FillsLinked(db) ==> FillsLinked(db.(executions := db.executions - gone))
  {
    var keys, groups := ExecutionKeys(db.executions), OrderGroups(db.executions, account, orders);
    var left := db.executions.Keys - gone;
    OutcomeWithin(keys, groups, FilledExecutions(db.fills), left);
    OutcomeKeepsOne(keys, groups, FilledExecutions(db.fills), left);
    assert db.executions.Keys - left == gone;
  }

  /** The de-duplication steps of the trade audit and of `fix-exchange-trades`. */
  method RemoveDuplicateExecutions(ledger: Ledger, account: int, orders: seq<string>) returns (ghost gone: set<int>)
    modifies ledger
    ensures ledger.Rows() == old(ledger.Rows()).(executions := old(ledger.executions) - gone)
    ensures ExecutionsRemoved(old(ledger.Rows()), account, orders, ledger.Rows())
    ensures gone !! FilledExecutions(ledger.fills)
    ensures var keys := ExecutionKeys(old(ledger.executions));
            EachKeepsOne(keys, OrderGroups(old(ledger.executions), account, orders),
                         FilledExecutions(ledger.fills), keys.Keys - gone)
    ensures old(FillsLinked(ledger.Rows())) ==> FillsLinked(ledger.Rows())
  {
    gone := {};
    ghost var was := ledger.Rows();
    ghost var groups := OrderGroups(was.executions, account, orders);
    assert was.executions.Keys - {} == was.executions.Keys && was.executions - {} == was.executions;
    for i := 0 to |orders|
      invariant ledger.Rows() == was.(executions := was.executions - gone) && gone <= was.executions.Keys
      invariant Outcome(ExecutionKeys(was.executions), groups[..i],
                        FilledExecutions(was.fills), was.executions.Keys - gone)
    {
      ghost var more := RemoveExecutionsAt(ledger, account, orders, i, was, gone);
      gone := gone + more;
    }
    assert groups[..|orders|] == groups;
    ExecutionsOutcome(old(ledger.Rows()), account, orders, gone);
  }

  /** A second call works on the rows that the first one left, and on the same groups as far as they are left. */
  lemma SecondCall(db: Db, account: int, orders: seq<string>, left: set<int>, again: set<int>)
    requires left <= db.executions.Keys
    ensures
      var once := WithExecutions(db, left);
      && once.executions.Keys == left
      && (Outcome(ExecutionKeys(once.executions), OrderGroups(once.executions, account, orders),
                  FilledExecutions(db.fills), again) <==>
          Outcome(Restricted(ExecutionKeys(db.executions), left), OrderGroups(db.executions, account, orders),
                  FilledExecutions(db.fills), again))
  {
    var once, staying := WithExecutions(db, left), FilledExecutions(db.fills);
    var a, b := OrderGroups(once.executions, account, orders), OrderGroups(db.executions, account, orders);
    var now := Restricted(ExecutionKeys(db.executions), left);
    assert ExecutionKeys(once.executions) == now && now.Keys == left;
    if Outcome(now, a, staying, again) {
      SameOutcome(now, a, b, staying, again);
    }
    if Outcome(now, b, staying, again) {
      SameOutcome(now, b, a, staying, again);
    }
  }

  lemma SecondCallSettled(db: Db, account: int, orders: seq<string>, once: Db, twice: Db)
    requires ExecutionsRemoved(db, account, orders, once) && ExecutionsRemoved(once, account, orders, twice)
    requires Repeatable(ExecutionKeys(db.executions), OrderGroups(db.executions, account, orders),
                        FilledExecutions(db.fills))
    ensures twice == once
  {
    var keys, groups := ExecutionKeys(db.executions), OrderGroups(db.executions, account, orders);
    var staying := FilledExecutions(db.fills);
    var left: set<int> :| Outcome(keys, groups, staying, left) && once == WithExecutions(db, left);
    OutcomeWithin(keys, groups, staying, left);
    var again: set<int> :|
      && Outcome(ExecutionKeys(once.executions), OrderGroups(once.executions, account, orders), staying, again)
      && twice == WithExecutions(once, again);
    SecondCall(db, account, orders, left, again);
    assert again == left;
    AllExecutions(once);
  }

  lemma AllExecutions(db: Db)
    ensures WithExecutions(db, db.executions.Keys) == db
  {
    assert db.executions.Keys - db.executions.Keys == {};
    assert db.executions - {} == db.executions;
  }

  lemma SecondCallDeletes(db: Db, account: int, orders: seq<string>) returns (once: Db, twice: Db)
    requires !Repeatable(ExecutionKeys(db.executions), OrderGroups(db.executions, account, orders),
                         FilledExecutions(db.fills))
    ensures ExecutionsRemoved(db, account, orders, once) && ExecutionsRemoved(once, account, orders, twice)
    ensures twice != once
  {
    var keys, groups := ExecutionKeys(db.executions), OrderGroups(db.executions, account, orders);
    var staying := FilledExecutions(db.fills);
    var left, again :| Outcome(keys, groups, staying, left) && Outcome(Restricted(keys, left), groups, staying, again)
                       && again != left;
    OutcomeWithin(keys, groups, staying, left);
    OutcomeWithin(Restricted(keys, left), groups, staying, again);
    SecondCall(db, account, orders, left, again);
    once := WithExecutions(db, left);
    twice := WithExecutions(once, again);
    assert once.executions.Keys == left && twice.executions.Keys == again;
  }

  /** Main result on the tables: a second call is sure to delete no execution if and only if no order id has
      both an execution with fills and one without among its newest. */
  lemma ExecutionsRepeatIff(db: Db, account: int, orders: seq<string>)
    ensures
      (forall once, twice ::
         ExecutionsRemoved(db, account, orders, once) && ExecutionsRemoved(once, account, orders, twice) ==>
         twice == once)
      <==> forall g <- OrderGroups(db.executions, account, orders) ::
             !Tied(ExecutionKeys(db.executions), g, FilledExecutions(db.fills))
  {
    var keys, groups := ExecutionKeys(db.executions), OrderGroups(db.executions, account, orders);
    var staying := FilledExecutions(db.fills);
    RepeatDeletesNothingIff(keys, groups, staying);
    if Repeatable(keys, groups, staying) {
      forall once, twice |
        ExecutionsRemoved(db, account, orders, once) && ExecutionsRemoved(once, account, orders, twice)
        ensures twice == once
      {
        SecondCallSettled(db, account, orders, once, twice);
      }
    } else {
      var once, twice := SecondCallDeletes(db, account, orders);
    }
  }

  // ------------------------------------------------------------------
  // Duplicate positions
  // ------------------------------------------------------------------

  lemma ForgettingMore(jobs: map<int, Job>, a: set<int>, b: set<int>)
    ensures Forgetting(Forgetting(jobs, a), b) == Forgetting(jobs, a + b)
  {
    var once, both := Forgetting(Forgetting(jobs, a), b), Forgetting(jobs, a + b);
    assert forall j <- jobs :: once[j] == both[j];
  }

  /** The rows after positions without fills are gone. */
  function WithoutUnfilled(db: Db, gone: set<int>): Db {
    db.(positions := db.positions - gone, jobs := Forgetting(db.jobs, gone))
  }

  lemma ForgettingNone(jobs: map<int, Job>)
    ensures Forgetting(jobs, {}) == jobs
  {
    assert forall j <- jobs :: Forgetting(jobs, {})[j] == jobs[j];
  }

  lemma UnfilledMore(db: Db, a: set<int>, b: set<int>)
    ensures WithoutUnfilled(WithoutUnfilled(db, a), b) == WithoutUnfilled(db, a + b)
  {
    ForgettingMore(db.jobs, a, b);
    assert db.positions - a - b == db.positions - (a + b);
  }

  lemma UnfilledNone(db: Db)
    ensures WithoutUnfilled(db, {}) == db
  {
    ForgettingNone(db.jobs);
    assert db.positions - {} == db.positions;
  }

  method DeleteUnfilledPosition(ledger: Ledger, id: int) returns (deleted: bool)
    modifies ledger
    ensures deleted == (id !in FilledPositions(old(ledger.fills)))
    ensures ledger.Rows() == WithoutUnfilled(old(ledger.Rows()), if deleted then {id} else {})
  {
    deleted := id !in FilledPositions(ledger.fills);
    UnfilledNone(ledger.Rows());
    if deleted {
      NothingLost(ledger.fills, {}, {id});
      DeletePosition(ledger, id);
    }
  }

  method DeleteNextPosition(ledger: Ledger, id: int, ghost was: Db, ghost sofar: set<int>) returns (deleted: bool)
    requires ledger.Rows() == WithoutUnfilled(was, sofar)
    modifies ledger
    ensures deleted == (id !in FilledPositions(was.fills))
    ensures ledger.Rows() == WithoutUnfilled(was, sofar + if deleted then {id} else {})
  {
    UnfilledMore(was, sofar, if id in FilledPositions(was.fills) then {} else {id});
    deleted := DeleteUnfilledPosition(ledger, id);
  }

  /** One group: the oldest position is kept, the others go unless they have fills. */
  method RemovePositionsOf(ledger: Ledger, ids: set<int>) returns (ghost rows: seq<int>)
    modifies ledger
    ensures Answers(PositionKeys(old(ledger.positions)), ids, rows)
    ensures ledger.Rows() == WithoutUnfilled(old(ledger.Rows()), Removed(rows, FilledPositions(old(ledger.fills))))
  {
    var found := FindMany(PositionKeys(ledger.positions), ids);
    rows := found;
    ghost var staying := FilledPositions(ledger.fills);
    UnfilledNone(ledger.Rows());
    if |found| <= 1 {
      assert Removed(rows, staying) == {};
      return;
    }
    assert Removed(found[..1], staying) == {};
    ghost var was := ledger.Rows();
    for i := 1 to |found|
      invariant ledger.Rows() == WithoutUnfilled(was, Removed(found[..i], staying))
    {
      RemovedNext(found, i, staying);
      var _ := DeleteNextPosition(ledger, found[i], was, Removed(found[..i], staying));
    }
    assert found[..|found|] == found;
  }

  ghost predicate PositionsRemoved(db: Db, groups: seq<set<int>>, after: Db) {
    exists left: set<int> ::
      && Outcome(PositionKeys(db.positions), groups, FilledPositions(db.fills), left)
      && after == WithoutUnfilled(db, db.positions.Keys - left)
  }

  /** Step 4.1 of `sync-with-exchange`. */
  method RemoveDuplicatePositions(ledger: Ledger, groups: seq<set<int>>) returns (ghost gone: set<int>)
    modifies ledger
    ensures ledger.Rows() == WithoutUnfilled(old(ledger.Rows()), gone)
    ensures PositionsRemoved(old(ledger.Rows()), groups, ledger.Rows())
    ensures gone !! FilledPositions(ledger.fills)
    ensures var keys := PositionKeys(old(ledger.positions));
            SameOrDisjoint(groups) ==> EachKeepsOne(keys, groups, FilledPositions(ledger.fills), keys.Keys - gone)
    ensures old(FillsLinked(ledger.Rows())) ==> FillsLinked(ledger.Rows())
  {
    gone := {};
    ghost var was, staying := ledger.positions, FilledPositions(ledger.fills);
    ghost var keys := PositionKeys(was);
    UnfilledNone(ledger.Rows());
    assert keys.Keys - {} == keys.Keys;
    for i := 0 to |groups|
      invariant ledger.Rows() == WithoutUnfilled(old(ledger.Rows()), gone) && gone <= keys.Keys
      invariant Outcome(keys, groups[..i], staying, keys.Keys - gone)
    {
      ghost var rows := RemovePositionsOf(ledger, groups[i]);
      ghost var more := Removed(rows, staying);
      assert PositionKeys(was - gone) == Restricted(keys, keys.Keys - gone);
      OutcomeNextGone(keys, groups, i, staying, gone, rows);
      UnfilledMore(old(ledger.Rows()), gone, more);
      gone := gone + more;
    }
    assert groups[..|groups|] == groups;
    assert was.Keys - (keys.Keys - gone) == gone;
    OutcomeWithin(keys, groups, staying, keys.Keys - gone);
    if SameOrDisjoint(groups) {
      OutcomeKeepsOne(keys, groups, staying, keys.Keys - gone);
    }
  }

  lemma PositionKeysOfRest(positions: map<int, Position>, left: set<int>)
    requires left <= positions.Keys
    ensures PositionKeys(positions - (positions.Keys - left)) == Restricted(PositionKeys(positions), left)
  {
    assert positions.Keys - (positions.Keys - left) == left;
  }

  lemma PositionsSettled(db: Db, groups: seq<set<int>>, once: Db, twice: Db)
    requires PositionsRemoved(db, groups, once) && PositionsRemoved(once, groups, twice)
    requires Repeatable(PositionKeys(db.positions), groups, FilledPositions(db.fills))
    ensures twice == once
  {
    var keys, staying := PositionKeys(db.positions), FilledPositions(db.fills);
    var left: set<int> :| Outcome(keys, groups, staying, left) && once == WithoutUnfilled(db, db.positions.Keys - left);
    OutcomeWithin(keys, groups, staying, left);
    PositionKeysOfRest(db.positions, left);
    var again: set<int> :| Outcome(Restricted(keys, left), groups, staying, again)
                           && twice == WithoutUnfilled(once, once.positions.Keys - again);
    assert again == left && once.positions.Keys - again == {};
    UnfilledNone(once);
  }

  lemma PositionsDeleted(db: Db, groups: seq<set<int>>) returns (once: Db, twice: Db)
    requires !Repeatable(PositionKeys(db.positions), groups, FilledPositions(db.fills))
    ensures PositionsRemoved(db, groups, once) && PositionsRemoved(once, groups, twice) && twice != once
  {
    var keys, staying := PositionKeys(db.positions), FilledPositions(db.fills);
    var left, again :| Outcome(keys, groups, staying, left) && Outcome(Restricted(keys, left), groups, staying, again)
                       && again != left;
    OutcomeWithin(keys, groups, staying, left);
    OutcomeWithin(Restricted(keys, left), groups, staying, again);
    PositionKeysOfRest(db.positions, left);
    once := WithoutUnfilled(db, db.positions.Keys - left);
    twice := WithoutUnfilled(once, once.positions.Keys - again);
    assert once.positions.Keys == left && twice.positions.Keys == again;
  }

  /** Main result on the tables: a second call is sure to delete no position if and only if no group has both
      a position with fills and one without among its oldest. */
  lemma PositionsRepeatIff(db: Db, groups: seq<set<int>>)
    requires SameOrDisjoint(groups)
    ensures
      (forall once, twice ::
         PositionsRemoved(db, groups, once) && PositionsRemoved(once, groups, twice) ==> twice == once)
      <==> forall g <- groups :: !Tied(PositionKeys(db.positions), g, FilledPositions(db.fills))
  {
    var keys, staying := PositionKeys(db.positions), FilledPositions(db.fills);
    RepeatDeletesNothingIff(keys, groups, staying);
    if Repeatable(keys, groups, staying) {
      forall once, twice | PositionsRemoved(db, groups, once) && PositionsRemoved(once, groups, twice)
        ensures twice == once
      {
        PositionsSettled(db, groups, once, twice);
      }
    } else {
      var once, twice := PositionsDeleted(db, groups);
    }
  }

  // ------------------------------------------------------------------
  // Duplicate jobs
  // ------------------------------------------------------------------

  lemma WithoutJobsMore(db: Db, a: set<int>, b: set<int>)
    ensures WithoutJobs(WithoutJobs(db, a), b) == WithoutJobs(db, a + b)
  {
    var once := WithoutJobs(db, a);
    var mine, rest := ExecutionsOf(db, a), ExecutionsOf(once, b);
    assert ExecutionsOf(db, a + b) == mine + rest;
    WithoutTwice(db.fills, mine, rest);
    assert db.executions - mine - rest == db.executions - (mine + rest);
    assert db.jobs - a - b == db.jobs - (a + b);
  }

  lemma WithoutNoJobs(db: Db)
    ensures WithoutJobs(db, {}) == db
  {
    assert ExecutionsOf(db, {}) == {};
    WithoutNoExecutions(db);
    assert db.jobs - {} == db.jobs;
  }

  lemma WithoutExecutionsMore(db: Db, a: set<int>, b: set<int>)
    ensures WithoutExecutions(WithoutExecutions(db, a), b) == WithoutExecutions(db, a + b)
  {
    WithoutTwice(db.fills, a, b);
    assert db.executions - a - b == db.executions - (a + b);
  }

  lemma WithoutNoExecutions(db: Db)
    ensures WithoutExecutions(db, {}) == db
  {
    NothingLost(db.fills, {}, {});
    assert db.executions - {} == db.executions;
  }

  /** The executions first, one by one, and then the job. */
  method DeleteJobWithExecutions(ledger: Ledger, id: int)
    requires id !in OpeningJobs(ledger.positions)
    modifies ledger
    ensures ledger.Rows() == WithoutJobs(old(ledger.Rows()), {id})
  {
    var mine := set e | e in ledger.executions && ledger.executions[e].job == id;
    assert mine == ExecutionsOf(ledger.Rows(), {id});
    var todo := mine;
    WithoutNoExecutions(ledger.Rows());
    assert mine - todo == {};
    while todo != {}
      invariant todo <= mine
      invariant ledger.Rows() == WithoutExecutions(old(ledger.Rows()), mine - todo)
      decreases |todo|
    {
      Inhabited(todo);
      var e :| e in todo;
      DeleteExecution(ledger, e);
      WithoutExecutionsMore(old(ledger.Rows()), mine - todo, {e});
      assert mine - todo + {e} == mine - (todo - {e});
      todo := todo - {e};
    }
    assert mine - todo == mine;
    DeleteEmptyJob(ledger, id);
  }

  method DeleteEmptyJob(ledger: Ledger, id: int)
    requires id !in OpeningJobs(ledger.positions) && ExecutionsOf(ledger.Rows(), {id}) == {}
    modifies ledger
    ensures ledger.Rows() == old(ledger.Rows()).(jobs := old(ledger.jobs) - {id})
  {
    WithoutNoExecutions(ledger.Rows());
    DeleteJob(ledger, id);
  }

  method DeleteUnopenedJob(ledger: Ledger, id: int) returns (deleted: bool)
    modifies ledger
    ensures deleted == (id !in OpeningJobs(old(ledger.positions)))
    ensures ledger.Rows() == WithoutJobs(old(ledger.Rows()), if deleted then {id} else {})
  {
    deleted := id !in OpeningJobs(ledger.positions);
    WithoutNoJobs(ledger.Rows());
    if deleted {
      DeleteJobWithExecutions(ledger, id);
    }
  }

  method DeleteNextJob(ledger: Ledger, id: int, ghost was: Db, ghost sofar: set<int>) returns (deleted: bool)
    requires ledger.Rows() == WithoutJobs(was, sofar)
    modifies ledger
    ensures deleted == (id !in OpeningJobs(was.positions))
    ensures ledger.Rows() == WithoutJobs(was, sofar + if deleted then {id} else {})
  {
    WithoutJobsMore(was, sofar, if id in OpeningJobs(was.positions) then {} else {id});
    deleted := DeleteUnopenedJob(ledger, id);
  }

  /** One group: the newest job is kept, the others go unless a position was opened by them. */
  method RemoveJobsOf(ledger: Ledger, ids: set<int>) returns (ghost rows: seq<int>)
    modifies ledger
    ensures Answers(JobKeys(old(ledger.jobs)), ids, rows)
    ensures ledger.Rows() == WithoutJobs(old(ledger.Rows()), Removed(rows, OpeningJobs(old(ledger.positions))))
  {
    var found := FindMany(JobKeys(ledger.jobs), ids);
    rows := found;
    ghost var opening := OpeningJobs(ledger.positions);
    WithoutNoJobs(ledger.Rows());
    if |found| <= 1 {
      assert Removed(rows, opening) == {};
      return;
    }
    assert Removed(found[..1], opening) == {};
    ghost var was := ledger.Rows();
    for i := 1 to |found|
      invariant ledger.Rows() == WithoutJobs(was, Removed(found[..i], opening))
    {
      RemovedNext(found, i, opening);
      var _ := DeleteNextJob(ledger, found[i], was, Removed(found[..i], opening));
    }
    assert found[..|found|] == found;
  }

  ghost predicate JobsRemoved(db: Db, groups: seq<set<int>>, after: Db) {
    exists left: set<int> ::
      && Outcome(JobKeys(db.jobs), groups, OpeningJobs(db.positions), left)
      && after == WithoutJobs(db, db.jobs.Keys - left)
  }

  /** Step 4.3 of `sync-with-exchange`.  The fills of the deleted jobs' executions go too. */
  method RemoveDuplicateJobs(ledger: Ledger, groups: seq<set<int>>) returns (ghost gone: set<int>)
    modifies ledger
    ensures ledger.Rows() == WithoutJobs(old(ledger.Rows()), gone)
    ensures JobsRemoved(old(ledger.Rows()), groups, ledger.Rows())
    ensures gone !! OpeningJobs(ledger.positions)
    ensures var keys := JobKeys(old(ledger.jobs));
            SameOrDisjoint(groups) ==> EachKeepsOne(keys, groups, OpeningJobs(ledger.positions), keys.Keys - gone)
  {
    gone := {};
    ghost var was, staying := ledger.jobs, OpeningJobs(ledger.positions);
    ghost var keys := JobKeys(was);
    WithoutNoJobs(ledger.Rows());
    assert keys.Keys - {} == keys.Keys;
    for i := 0 to |groups|
      invariant ledger.Rows() == WithoutJobs(old(ledger.Rows()), gone) && gone <= keys.Keys
      invariant Outcome(keys, groups[..i], staying, keys.Keys - gone)
    {
      ghost var rows := RemoveJobsOf(ledger, groups[i]);
      ghost var more := Removed(rows, staying);
      assert JobKeys(was - gone) == Restricted(keys, keys.Keys - gone);
      OutcomeNextGone(keys, groups, i, staying, gone, rows);
      WithoutJobsMore(old(ledger.Rows()), gone, more);
      gone := gone + more;
    }
    assert groups[..|groups|] == groups;
    assert was.Keys - (keys.Keys - gone) == gone;
    OutcomeWithin(keys, groups, staying, keys.Keys - gone);
    if SameOrDisjoint(groups) {
      OutcomeKeepsOne(keys, groups, staying, keys.Keys - gone);
    }
  }

  lemma JobKeysOfRest(jobs: map<int, Job>, left: set<int>)
    requires left <= jobs.Keys
    ensures JobKeys(jobs - (jobs.Keys - left)) == Restricted(JobKeys(jobs), left)
  {
    assert jobs.Keys - (jobs.Keys - left) == left;
  }

  lemma JobsSettled(db: Db, groups: seq<set<int>>, once: Db, twice: Db)
    requires JobsRemoved(db, groups, once) && JobsRemoved(once, groups, twice)
    requires Repeatable(JobKeys(db.jobs), groups, OpeningJobs(db.positions))
    ensures twice == once
  {
    var keys, staying := JobKeys(db.jobs), OpeningJobs(db.positions);
    var left: set<int> :| Outcome(keys, groups, staying, left) && once == WithoutJobs(db, db.jobs.Keys - left);
    OutcomeWithin(keys, groups, staying, left);
    JobKeysOfRest(db.jobs, left);
    var again: set<int> :| Outcome(Restricted(keys, left), groups, staying, again)
                           && twice == WithoutJobs(once, once.jobs.Keys - again);
    assert again == left && once.jobs.Keys - again == {};
    WithoutNoJobs(once);
  }

  lemma JobsDeleted(db: Db, groups: seq<set<int>>) returns (once: Db, twice: Db)
    requires !Repeatable(JobKeys(db.jobs), groups, OpeningJobs(db.positions))
    ensures JobsRemoved(db, groups, once) && JobsRemoved(once, groups, twice) && twice != once
  {
    var keys, staying := JobKeys(db.jobs), OpeningJobs(db.positions);
    var left, again :| Outcome(keys, groups, staying, left) && Outcome(Restricted(keys, left), groups, staying, again)
                       && again != left;
    OutcomeWithin(keys, groups, staying, left);
    OutcomeWithin(Restricted(keys, left), groups, staying, again);
    JobKeysOfRest(db.jobs, left);
    once := WithoutJobs(db, db.jobs.Keys - left);
    twice := WithoutJobs(once, once.jobs.Keys - again);
    assert once.jobs.Keys == left && twice.jobs.Keys == again;
  }

  /** Main result on the tables: a second call is sure to delete no job if and only if no group has both a job
      that opened a position and one that did not among its newest. */
  lemma JobsRepeatIff(db: Db, groups: seq<set<int>>)
    requires SameOrDisjoint(groups)
    ensures
      (forall once, twice :: JobsRemoved(db, groups, once) && JobsRemoved(once, groups, twice) ==> twice == once)
      <==> forall g <- groups :: !Tied(JobKeys(db.jobs), g, OpeningJobs(db.positions))
  {
    var keys, staying := JobKeys(db.jobs), OpeningJobs(db.positions);
    RepeatDeletesNothingIff(keys, groups, staying);
    if Repeatable(keys, groups, staying) {
      forall once, twice | JobsRemoved(db, groups, once) && JobsRemoved(once, groups, twice)
        ensures twice == once
      {
        JobsSettled(db, groups, once, twice);
      }
    } else {
      var once, twice := JobsDeleted(db, groups);
    }
  }
}
