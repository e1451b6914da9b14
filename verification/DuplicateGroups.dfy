/** Removing duplicates group by group, on the sort keys of the rows alone: which
    row of a group is kept, over lists of groups and over repeated removals. */
module DuplicateGroups {
  import opened Collections

  // ------------------------------------------------------------------
  // One group of duplicates
  // ------------------------------------------------------------------

  /** `rows` is an answer of `findMany ... orderBy`: the rows of the group, each once, with ascending keys.
      Rows with equal keys may come in any order. */
  ghost predicate Answers(keys: map<int, int>, group: set<int>, rows: seq<int>) {
    && (forall x :: x in rows <==> x in keys && x in group)
    && (forall i, j :: 0 <= i < j < |rows| ==> rows[i] != rows[j] && keys[rows[i]] <= keys[rows[j]])
  }

  /** What the loops delete: every row but the first of the answer, except those that must stay. */
  function Removed(rows: seq<int>, staying: set<int>): set<int> {
    set x | x in rows && x != rows[0] && x !in staying
  }

  ghost predicate SortsFirst(keys: map<int, int>, group: set<int>, x: int) {
    x in keys && x in group && forall y <- keys :: y in group ==> keys[x] <= keys[y]
  }

  /** What a removal owes a group: a row that sorts first is left, and besides the rows that must stay
      at most one row is left, which sorts first. */
  ghost predicate KeepsOne(keys: map<int, int>, group: set<int>, staying: set<int>, left: set<int>) {
    && ((exists x <- keys :: x in group) ==> exists x <- left :: SortsFirst(keys, group, x))
    && (forall x <- left :: x in group && x !in staying ==> SortsFirst(keys, group, x))
    && (forall x <- left, y <- left ::
          x in group && y in group && x !in staying && y !in staying ==> x == y)
  }

  function Restricted(keys: map<int, int>, left: set<int>): map<int, int> {
    map x | x in keys && x in left :: keys[x]
  }

  /** Main result for one group: on the rows left by earlier removals, which either did not touch the
      group or already thinned it, a removal keeps one row of it. */
  lemma RemovalKeepsOne(keys: map<int, int>, group: set<int>, staying: set<int>, left: set<int>, rows: seq<int>)
    requires left <= keys.Keys
    requires (keys.Keys * group <= left) || KeepsOne(keys, group, staying, left)
    requires Answers(Restricted(keys, left), group, rows)
    ensures KeepsOne(keys, group, staying, left - Removed(rows, staying))
  {
    var now := left - Removed(rows, staying);
    if rows != [] {
      var first := rows[0];
      assert first in rows;
      assert forall y <- left :: y in group ==> y in rows && keys[first] <= keys[y];
      if KeepsOne(keys, group, staying, left) {
        var x :| x in left && SortsFirst(keys, group, x);
      }
      assert SortsFirst(keys, group, first);
      assert first in now;
      assert forall x <- now :: x in group && x !in staying ==> x == first;
    } else {
      assert forall x <- left :: x !in group;
      assert forall x <- keys :: x !in group;
    }
  }

  /** A removal of one group leaves a disjoint group as it was. */
  lemma OthersKeepTheirs(keys: map<int, int>, group: set<int>, other: set<int>, staying: set<int>,
                         left: set<int>, rows: seq<int>)
    requires left <= keys.Keys && group !! other
    requires KeepsOne(keys, other, staying, left) && Answers(Restricted(keys, left), group, rows)
    ensures KeepsOne(keys, other, staying, left - Removed(rows, staying))
  {
    var now := left - Removed(rows, staying);
    assert forall x <- left :: x in other ==> x in now;
    if exists x <- keys :: x in other {
      var x :| x in left && SortsFirst(keys, other, x);
      assert x in now;
    }
  }

  /** Some answer exists for every group. */
  lemma {:induction false} AnswerExists(keys: map<int, int>, group: set<int>) returns (rows: seq<int>)
    ensures Answers(keys, group, rows)
    decreases |keys.Keys * group|
  {
    if keys.Keys * group == {} {
      rows := [];
    } else {
      var x := LeastExists(keys, keys.Keys * group);
      assert keys.Keys * (group - {x}) == keys.Keys * group - {x};
      var rest := AnswerExists(keys, group - {x});
      rows := [x] + rest;
    }
  }

  lemma {:induction false} LeastExists(keys: map<int, int>, group: set<int>) returns (x: int)
    requires group != {} && group <= keys.Keys
    ensures x in group && forall y <- group :: keys[x] <= keys[y]
    decreases |group|
  {
    Inhabited(group);
    x :| x in group;
    var rest := group - {x};
    if rest != {} {
      var z := LeastExists(keys, rest);
      assert group == rest + {x};
      if keys[z] < keys[x] {
        x := z;
      }
    }
  }

  /** A row that sorts first may come first. */
  lemma AnswerFirst(keys: map<int, int>, group: set<int>, x: int) returns (rows: seq<int>)
    requires SortsFirst(keys, group, x)
    ensures Answers(keys, group, rows) && rows != [] && rows[0] == x
  {
    var rest := AnswerExists(keys, group - {x});
    rows := [x] + rest;
    forall i, j | 0 <= i < j < |rows|
      ensures rows[i] != rows[j] && keys[rows[i]] <= keys[rows[j]]
    {
      assert rows[j] == rest[j - 1] && rows[j] in rest;
    }
    assert forall y :: y in rows <==> y == x || y in rest;
  }

  /** The query of one group. */
  method FindMany(keys: map<int, int>, group: set<int>) returns (rows: seq<int>)
    ensures Answers(keys, group, rows)
  {
    rows := [];
    var left := keys.Keys * group;
    while left != {}
      invariant left <= keys.Keys * group
      invariant forall x :: x in rows <==> x in keys && x in group && x !in left
      invariant forall i, j :: 0 <= i < j < |rows| ==> rows[i] != rows[j] && keys[rows[i]] <= keys[rows[j]]
      invariant forall x <- rows, y <- left :: keys[x] <= keys[y]
      decreases |left|
    {
      ghost var least := LeastExists(keys, left);
      var x :| x in left && forall y <- left :: keys[x] <= keys[y];
      rows, left := rows + [x], left - {x};
    }
  }

  // ------------------------------------------------------------------
  // A list of groups
  // ------------------------------------------------------------------

  /** What may be left after the groups are thinned one after the other, each by some answer on the rows
      that were left by then. */
  ghost predicate Outcome(keys: map<int, int>, groups: seq<set<int>>, staying: set<int>, left: set<int>)
    decreases |groups|
  {
    if groups == [] then left == keys.Keys
    else
      var n := |groups| - 1;
      exists before: set<int>, rows: seq<int> ::
        && Outcome(keys, groups[..n], staying, before)
        && Answers(Restricted(keys, before), groups[n], rows)
        && left == before - Removed(rows, staying)
  }

  ghost predicate SameOrDisjoint(groups: seq<set<int>>) {
    forall i, j :: 0 <= i < j < |groups| ==> groups[i] == groups[j] || groups[i] !! groups[j]
  }

  ghost predicate EachKeepsOne(keys: map<int, int>, groups: seq<set<int>>, staying: set<int>, left: set<int>) {
    forall g <- groups :: KeepsOne(keys, g, staying, left)
  }

  lemma OutcomeNext(keys: map<int, int>, groups: seq<set<int>>, i: nat, staying: set<int>,
                    before: set<int>, rows: seq<int>)
    requires i < |groups| && Outcome(keys, groups[..i], staying, before)
    requires Answers(Restricted(keys, before), groups[i], rows)
    ensures Outcome(keys, groups[..i + 1], staying, before - Removed(rows, staying))
  {
    assert groups[..i + 1][..i] == groups[..i];
  }

  /** The same, in terms of the rows that are gone. */
  lemma OutcomeNextGone(keys: map<int, int>, groups: seq<set<int>>, i: nat, staying: set<int>,
                        gone: set<int>, rows: seq<int>)
    requires i < |groups| && gone <= keys.Keys && Outcome(keys, groups[..i], staying, keys.Keys - gone)
    requires Answers(Restricted(keys, keys.Keys - gone), groups[i], rows)
    ensures gone + Removed(rows, staying) <= keys.Keys
    ensures Outcome(keys, groups[..i + 1], staying, keys.Keys - (gone + Removed(rows, staying)))
  {
    OutcomeNext(keys, groups, i, staying, keys.Keys - gone, rows);
    assert keys.Keys - gone - Removed(rows, staying) == keys.Keys - (gone + Removed(rows, staying));
  }

  lemma NextGroupKeepsOne(keys: map<int, int>, groups: seq<set<int>>, i: nat, staying: set<int>,
                          left: set<int>, rows: seq<int>)
    requires i < |groups| && left <= keys.Keys
    requires forall k :: 0 <= k < i ==> groups[k] == groups[i] || groups[k] !! groups[i]
    requires EachKeepsOne(keys, groups[..i], staying, left)
    requires forall x <- keys :: x !in left ==> exists k :: 0 <= k < i && x in groups[k]
    requires Answers(Restricted(keys, left), groups[i], rows)
    ensures EachKeepsOne(keys, groups[..i + 1], staying, left - Removed(rows, staying))
  {
    var g := groups[i];
    assert (keys.Keys * g <= left) || KeepsOne(keys, g, staying, left) by {
      var removed := keys.Keys * g - left;
      Inhabited(removed);
      if removed == {} {
        assert forall x :: x in keys.Keys * g ==> x !in removed;
      } else {
        var x :| x in removed;
        var k :| 0 <= k < i && x in groups[k];
        assert groups[k] in groups[..i] && groups[k] == g;
      }
    }
    RemovalKeepsOne(keys, g, staying, left, rows);
    forall h <- groups[..i + 1]
      ensures KeepsOne(keys, h, staying, left - Removed(rows, staying))
    {
      if h != g {
        var k :| 0 <= k < i + 1 && groups[..i + 1][k] == h;
        assert groups[k] == h && k < i && groups[..i][k] == h;
        OthersKeepTheirs(keys, g, h, staying, left, rows);
      }
    }
  }

  /** Only rows of the groups that need not stay are removed. */
  lemma {:induction false} OutcomeWithin(keys: map<int, int>, groups: seq<set<int>>, staying: set<int>, left: set<int>)
    requires Outcome(keys, groups, staying, left)
    ensures left <= keys.Keys
    ensures forall x <- keys :: x !in left ==> x !in staying && exists k :: 0 <= k < |groups| && x in groups[k]
    decreases |groups|
  {
    if groups != [] {
      var n := |groups| - 1;
      var before: set<int>, rows: seq<int> :|
        && Outcome(keys, groups[..n], staying, before)
        && Answers(Restricted(keys, before), groups[n], rows)
        && left == before - Removed(rows, staying);
      OutcomeWithin(keys, groups[..n], staying, before);
      forall x | x in keys && x !in left
        ensures exists k :: 0 <= k < |groups| && x in groups[k]
      {
        if x in before {
          assert x in groups[n];
        } else {
          var k :| 0 <= k < n && x in groups[..n][k];
          assert x in groups[k];
        }
      }
    }
  }

  /** Main result: every outcome of groups that are disjoint or the same keeps one row of each, besides
      the rows that must stay, and that row sorts first. */
  lemma {:induction false} OutcomeKeepsOne(keys: map<int, int>, groups: seq<set<int>>,
                                           staying: set<int>, left: set<int>)
    requires Outcome(keys, groups, staying, left) && SameOrDisjoint(groups)
    ensures EachKeepsOne(keys, groups, staying, left)
    decreases |groups|
  {
    if groups != [] {
      var n := |groups| - 1;
      var before: set<int>, rows: seq<int> :|
        && Outcome(keys, groups[..n], staying, before)
        && Answers(Restricted(keys, before), groups[n], rows)
        && left == before - Removed(rows, staying);
      OutcomeKeepsOne(keys, groups[..n], staying, before);
      OutcomeWithin(keys, groups[..n], staying, before);
      forall x | x in keys && x !in before
        ensures exists k :: 0 <= k < n && x in groups[k]
      {
        var k :| 0 <= k < n && x in groups[..n][k];
        assert x in groups[k];
      }
      NextGroupKeepsOne(keys, groups, n, staying, before, rows);
      assert groups[..n + 1] == groups;
    }
  }

  /** What is left after some groups can be thinned further, down to an outcome of all of them. */
  lemma {:induction false} OutcomeExtends(keys: map<int, int>, groups: seq<set<int>>, staying: set<int>,
                                          n: nat, before: set<int>) returns (left: set<int>)
    requires n <= |groups| && Outcome(keys, groups[..n], staying, before)
    ensures Outcome(keys, groups, staying, left) && left <= before
    decreases |groups| - n
  {
    if n == |groups| {
      left := before;
      assert groups[..n] == groups;
    } else {
      var rows := AnswerExists(Restricted(keys, before), groups[n]);
      OutcomeNext(keys, groups, n, staying, before, rows);
      left := OutcomeExtends(keys, groups, staying, n + 1, before - Removed(rows, staying));
    }
  }

  lemma OutcomeExists(keys: map<int, int>, groups: seq<set<int>>, staying: set<int>) returns (left: set<int>)
    ensures Outcome(keys, groups, staying, left)
  {
    left := OutcomeExtends(keys, groups, staying, 0, keys.Keys);
  }

  // ------------------------------------------------------------------
  // Which groups are safe
  // ------------------------------------------------------------------

  /** Whatever the creation times, the rows that must stay and the answers are, every group keeps a row. */
  ghost predicate SafeGroups(groups: seq<set<int>>) {
    forall keys, staying, left ::
      Outcome(keys, groups, staying, left) && (forall g <- groups :: g <= keys.Keys) ==>
      forall g <- groups :: g * left != {}
  }

  lemma {:induction false} FirstClash(groups: seq<set<int>>) returns (i: nat, j: nat)
    requires !SameOrDisjoint(groups)
    ensures i < j < |groups| && SameOrDisjoint(groups[..j])
    ensures groups[i] != groups[j] && !(groups[i] !! groups[j])
    decreases |groups|
  {
    var n := |groups| - 1;
    if SameOrDisjoint(groups[..n]) {
      j := n;
      i :| 0 <= i < n && groups[i] != groups[n] && !(groups[i] !! groups[n]);
    } else {
      i, j := FirstClash(groups[..n]);
      assert groups[..n][..j] == groups[..j];
    }
  }

  function Union(groups: seq<set<int>>): (all: set<int>)
    ensures forall g <- groups :: g <= all
    decreases |groups|
  {
    if groups == [] then {}
    else
      assert groups == [groups[0]] + groups[1..];
      groups[0] + Union(groups[1..])
  }

  /** The one row with the least key of all is never removed. */
  lemma {:induction false} LeastStays(keys: map<int, int>, groups: seq<set<int>>,
                                      staying: set<int>, left: set<int>, y: int)
    requires Outcome(keys, groups, staying, left) && y in keys && forall z <- keys :: z != y ==> keys[y] < keys[z]
    ensures y in left
    decreases |groups|
  {
    if groups != [] {
      var n := |groups| - 1;
      var before: set<int>, rows: seq<int> :|
        && Outcome(keys, groups[..n], staying, before)
        && Answers(Restricted(keys, before), groups[n], rows)
        && left == before - Removed(rows, staying);
      LeastStays(keys, groups[..n], staying, before, y);
      if y in rows {
        assert rows[0] in rows;
        assert keys[rows[0]] <= keys[y];
      }
    }
  }

  /** Of a group whose least key belongs to one row, that row alone is left. */
  lemma OnlyFirstLeft(keys: map<int, int>, group: set<int>, left: set<int>, x: int)
    requires KeepsOne(keys, group, {}, left) && x in keys && x in group
    requires forall z <- keys :: z in group && z != x ==> keys[x] < keys[z]
    ensures x in left && forall z <- left :: z in group ==> z == x
  {
    var r :| r in left && SortsFirst(keys, group, r);
  }

  /** The second group holds a row newer than the one kept for the first. */
  lemma NewerElsewhere(groups: seq<set<int>>, i: nat, j: nat, x: int, y: int)
    requires i < j < |groups| && SameOrDisjoint(groups[..j])
    requires x in groups[i] && x in groups[j] && y in groups[j] && y !in groups[i]
    ensures !SafeGroups(groups)
  {
    var keys := map z | z in Union(groups) :: if z == y then 0 else if z == x then 1 else 2;
    assert groups[i] in groups && groups[j] in groups;
    assert x in keys && y in keys;
    var before := OutcomeExists(keys, groups[..j], {});
    OutcomeKeepsOne(keys, groups[..j], {}, before);
    OutcomeWithin(keys, groups[..j], {}, before);
    assert groups[..j][i] == groups[i] && groups[i] in groups[..j];
    OnlyFirstLeft(keys, groups[i], before, x);
    LeastStays(keys, groups[..j], {}, before, y);
    var rows := AnswerExists(Restricted(keys, before), groups[j]);
    assert x in rows && y in rows && rows[0] in rows;
    assert keys[rows[0]] <= keys[y];
    OutcomeNext(keys, groups, j, {}, before, rows);
    var left := OutcomeExtends(keys, groups, {}, j + 1, before - Removed(rows, {}));
    assert x !in left;
    assert forall z: int :: z in groups[i] ==> z !in left;
    assert groups[i] * left == {};
  }

  /** The row kept for the first group is none of the second, which lies within the first. */
  lemma KeptOutside(groups: seq<set<int>>, i: nat, j: nat, c: int)
    requires i < j < |groups| && SameOrDisjoint(groups[..j])
    requires (forall z <- groups[j] :: z in groups[i]) && c in groups[i] && c !in groups[j]
    ensures !SafeGroups(groups)
  {
    var keys := map z | z in Union(groups) :: if z == c then 0 else 1;
    assert groups[i] in groups && groups[j] in groups;
    assert c in keys;
    var before := OutcomeExists(keys, groups[..j], {});
    OutcomeKeepsOne(keys, groups[..j], {}, before);
    assert groups[..j][i] == groups[i] && groups[i] in groups[..j];
    OnlyFirstLeft(keys, groups[i], before, c);
    var left := OutcomeExtends(keys, groups, {}, j, before);
    assert forall z: int :: z in groups[j] ==> z !in left;
    assert groups[j] * left == {};
  }

  /** Main result: a list of groups is sure to keep a row of each, if and only if any two of them are
      disjoint or the same. */
  lemma GroupsAreSafeIff(groups: seq<set<int>>)
    requires forall g <- groups :: g != {}
    ensures SafeGroups(groups) <==> SameOrDisjoint(groups)
  {
    if SameOrDisjoint(groups) {
      forall keys, staying, left, g |
        Outcome(keys, groups, staying, left) && (forall h <- groups :: h <= keys.Keys) && g in groups
        ensures g * left != {}
      {
        OutcomeKeepsOne(keys, groups, staying, left);
        Inhabited(g);
        var x :| x in g;
        assert x in keys;
        var r :| r in left && SortsFirst(keys, g, r);
        assert r in g * left;
      }
    } else {
      var i, j := FirstClash(groups);
      Meet(groups[i], groups[j]);
      var x :| x in groups[i] && x in groups[j];
      SomeOutside(groups[i], groups[j]);
      if y :| y in groups[j] && y !in groups[i] {
        NewerElsewhere(groups, i, j, x, y);
      } else {
        var c :| c in groups[i] && c !in groups[j];
        KeptOutside(groups, i, j, c);
      }
    }
  }

  /** Overlapping groups: the job kept for the first order id is deleted for the second,
      and no job of the first is left. */
  lemma OverlapLosesAGroup(a: int, b: int, c: int)
    requires a != b && b != c && a != c
    ensures var keys := map[a := -1, b := -2, c := -3];
            var gone := Removed([b, a], {});
            && Answers(keys, {a, b}, [b, a])
            && Answers(keys - gone, {b, c}, [c, b])
            && (keys - gone - Removed([c, b], {})).Keys == {c}
  {
    assert a in [b, a] && b in [b, a] && b in [c, b] && c in [c, b];
  }

  // ------------------------------------------------------------------
  // Repeating a removal
  // ------------------------------------------------------------------

  /** Two rows of a group sort first, one of which must stay and one of which need not. */
  ghost predicate Tied(keys: map<int, int>, group: set<int>, staying: set<int>) {
    exists x, y :: SortsFirst(keys, group, x) && SortsFirst(keys, group, y) && x in staying && y !in staying
  }

  /** A second pass deletes nothing, whatever the answers of both passes. */
  ghost predicate Repeatable(keys: map<int, int>, groups: seq<set<int>>, staying: set<int>) {
    forall left, again ::
      Outcome(keys, groups, staying, left) && Outcome(Restricted(keys, left), groups, staying, again) ==> again == left
  }

  lemma NothingMoreRemoved(keys: map<int, int>, group: set<int>, staying: set<int>, left: set<int>, rows: seq<int>)
    requires left <= keys.Keys && KeepsOne(keys, group, staying, left) && !Tied(keys, group, staying)
    requires Answers(Restricted(keys, left), group, rows)
    ensures Removed(rows, staying) == {}
  {
    if rows != [] {
      var first := rows[0];
      assert first in rows;
      assert first in keys && first in group;
      var r :| r in left && SortsFirst(keys, group, r);
      assert r in rows && keys[first] <= keys[r];
      assert SortsFirst(keys, group, first);
      forall z | z in rows && z !in staying
        ensures z == rows[0]
      {
        assert SortsFirst(keys, group, z);
      }
    }
  }

  lemma {:induction false} SettledStays(keys: map<int, int>, groups: seq<set<int>>, staying: set<int>,
                                        left: set<int>, again: set<int>)
    requires left <= keys.Keys && EachKeepsOne(keys, groups, staying, left)
    requires forall g <- groups :: !Tied(keys, g, staying)
    requires Outcome(Restricted(keys, left), groups, staying, again)
    ensures again == left
    decreases |groups|
  {
    var now := Restricted(keys, left);
    assert now.Keys == left;
    if groups != [] {
      var n := |groups| - 1;
      var before: set<int>, rows: seq<int> :|
        && Outcome(now, groups[..n], staying, before)
        && Answers(Restricted(now, before), groups[n], rows)
        && again == before - Removed(rows, staying);
      SettledStays(keys, groups[..n], staying, left, before);
      assert Restricted(now, left) == now;
      assert groups[n] in groups;
      NothingMoreRemoved(keys, groups[n], staying, left, rows);
    }
  }

  /** A row that sorts first in its groups can be the one that is kept. */
  lemma {:induction false} OutcomeKeeping(keys: map<int, int>, groups: seq<set<int>>, staying: set<int>, y: int)
    returns (left: set<int>)
    requires y in keys && forall g <- groups :: y in g ==> SortsFirst(keys, g, y)
    ensures Outcome(keys, groups, staying, left) && y in left
    decreases |groups|
  {
    if groups == [] {
      left := keys.Keys;
    } else {
      var n := |groups| - 1;
      var before := OutcomeKeeping(keys, groups[..n], staying, y);
      OutcomeWithin(keys, groups[..n], staying, before);
      assert groups[n] in groups && groups[..n + 1] == groups;
      var now := Restricted(keys, before);
      var rows: seq<int>;
      if y in groups[n] {
        assert SortsFirst(now, groups[n], y);
        rows := AnswerFirst(now, groups[n], y);
      } else {
        rows := AnswerExists(now, groups[n]);
      }
      OutcomeNext(keys, groups, n, staying, before, rows);
      left := before - Removed(rows, staying);
    }
  }

  /** The second pass can list first the row that must stay, and delete the one the first pass kept. */
  lemma RepeatDeletes(keys: map<int, int>, groups: seq<set<int>>, staying: set<int>, i: nat)
    returns (left: set<int>, again: set<int>)
    requires SameOrDisjoint(groups) && i < |groups| && Tied(keys, groups[i], staying)
    ensures Outcome(keys, groups, staying, left) && Outcome(Restricted(keys, left), groups, staying, again)
    ensures again != left
  {
    var x, y :| SortsFirst(keys, groups[i], x) && SortsFirst(keys, groups[i], y) && x in staying && y !in staying;
    forall g | g in groups && y in g
      ensures g == groups[i]
    {
      var k :| 0 <= k < |groups| && groups[k] == g;
    }
    left := OutcomeKeeping(keys, groups, staying, y);
    OutcomeWithin(keys, groups, staying, left);
    var now := Restricted(keys, left);
    assert now.Keys == left && x in now;
    var before := OutcomeExists(now, groups[..i], staying);
    OutcomeWithin(now, groups[..i], staying, before);
    assert x in before;
    var after := before;
    if y in before {
      assert SortsFirst(Restricted(now, before), groups[i], x);
      var rows := AnswerFirst(Restricted(now, before), groups[i], x);
      assert y in rows;
      OutcomeNext(now, groups, i, staying, before, rows);
      again := OutcomeExtends(now, groups, staying, i + 1, before - Removed(rows, staying));
    } else {
      again := OutcomeExtends(now, groups, staying, i, before);
    }
    assert y in left && y !in again;
  }

  /** Main result: over any list of disjoint or equal groups, a second pass is sure to delete nothing if and
      only if no group has both a row that must stay and one that need not at its first key. */
  lemma RepeatDeletesNothingIff(keys: map<int, int>, groups: seq<set<int>>, staying: set<int>)
    requires SameOrDisjoint(groups)
    ensures Repeatable(keys, groups, staying) <==> forall g <- groups :: !Tied(keys, g, staying)
  {
    if forall g <- groups :: !Tied(keys, g, staying) {
      forall left, again |
        Outcome(keys, groups, staying, left) && Outcome(Restricted(keys, left), groups, staying, again)
        ensures again == left
      {
        OutcomeWithin(keys, groups, staying, left);
        OutcomeKeepsOne(keys, groups, staying, left);
        SettledStays(keys, groups, staying, left, again);
      }
    } else {
      var g :| g in groups && Tied(keys, g, staying);
      var i :| 0 <= i < |groups| && groups[i] == g;
      var left, again := RepeatDeletes(keys, groups, staying, i);
    }
  }

  /** Two rows of one instant, one of which must stay: both survive a removal that kept the other, and a
      second removal may delete the row that the first one kept. */
  lemma TiedRowIsLost(id: int, filled: int, at: int)
    requires id != filled
    ensures var keys := map[id := at, filled := at];
            && Answers(keys, {id, filled}, [id, filled]) && Removed([id, filled], {filled}) == {}
            && Answers(keys, {id, filled}, [filled, id]) && Removed([filled, id], {filled}) == {id}
  {
    assert id in [filled, id] && id in [id, filled];
  }

  /** Only the members that are in the table matter. */
  lemma {:induction false} SameOutcome(keys: map<int, int>, a: seq<set<int>>, b: seq<set<int>>,
                                       staying: set<int>, left: set<int>)
    requires |a| == |b| && forall i :: 0 <= i < |a| ==> a[i] * keys.Keys == b[i] * keys.Keys
    requires Outcome(keys, a, staying, left)
    ensures Outcome(keys, b, staying, left)
    decreases |a|
  {
    if a != [] {
      var n := |a| - 1;
      var before: set<int>, rows: seq<int> :|
        && Outcome(keys, a[..n], staying, before)
        && Answers(Restricted(keys, before), a[n], rows)
        && left == before - Removed(rows, staying);
      SameOutcome(keys, a[..n], b[..n], staying, before);
      forall x
        ensures x in keys && x in a[n] <==> x in keys && x in b[n]
      {
        assert x in a[n] * keys.Keys <==> x in b[n] * keys.Keys;
      }
      assert Answers(Restricted(keys, before), b[n], rows);
    }
  }
}
