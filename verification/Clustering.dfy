/** The time windows of `POST system/audit-duplicates`: jobs of one order,
    symbol and side that were created within a minute of the first of them. */
module Clustering {
  import opened Collections
  import opened Sorting

  datatype JobRow = JobRow(id: int, createdAt: int)

  /** One minute, in milliseconds. */
  const WINDOW := 60 * 1000

  function JobAge(j: JobRow): int {
    j.createdAt
  }

  predicate Near(a: JobRow, b: JobRow) {
    -WINDOW <= a.createdAt - b.createdAt <= WINDOW
  }

  ghost predicate WithinAMinute(a: JobRow, b: JobRow) {
    a.createdAt - b.createdAt <= 60000 && b.createdAt - a.createdAt <= 60000
  }

  lemma NearIff(a: JobRow, b: JobRow)
    ensures Near(a, b) <==> WithinAMinute(a, b)
  {
  }

  /** How many jobs from `i` on, one after the other, are near the leader. */
  function Reach(jobs: seq<JobRow>, leader: JobRow, i: nat): (n: nat)
    requires i <= |jobs|
    ensures i <= n <= |jobs|
    ensures forall k :: i <= k < n ==> Near(jobs[k], leader)
    ensures n < |jobs| ==> !Near(jobs[n], leader)
    decreases |jobs| - i
  {
    if i == |jobs| || !Near(jobs[i], leader) then i else Reach(jobs, leader, i + 1)
  }

  /** Where the windows start: each at the first job beyond the reach of the one before. */
  function Starts(jobs: seq<JobRow>, i: nat): (starts: seq<nat>)
    requires i <= |jobs|
    ensures forall k :: 0 <= k < |starts| ==> i <= starts[k] < |jobs|
    decreases |jobs| - i
  {
    if i == |jobs| then [] else [i] + Starts(jobs, Reach(jobs, jobs[i], i + 1))
  }

  /** The windows themselves, those of a single job included. */
  function Windows(jobs: seq<JobRow>, i: nat): seq<seq<JobRow>>
    requires i <= |jobs|
    decreases |jobs| - i
  {
    if i == |jobs| then []
    else
      var n := Reach(jobs, jobs[i], i + 1);
      [jobs[i..n]] + Windows(jobs, n)
  }

  function Repeated(windows: seq<seq<JobRow>>): seq<seq<JobRow>> {
    if windows == [] then []
    else if |windows[0]| > 1 then [windows[0]] + Repeated(windows[1..])
    else Repeated(windows[1..])
  }

  /** The inner loop: the job at `i` and the ones after it that are near. */
  method CollectNear(sorted: seq<JobRow>, i: nat) returns (duplicates: seq<JobRow>)
    requires i < |sorted|
    ensures duplicates == sorted[i..Reach(sorted, sorted[i], i + 1)]
  {
    var current := sorted[i];
    duplicates := [current];
    var j := i + 1;
    while j < |sorted|
      invariant i < j <= |sorted|
      invariant duplicates == sorted[i..j]
      invariant Reach(sorted, current, i + 1) == Reach(sorted, current, j)
    {
      if !Near(sorted[j], current) {
        return;
      }
      duplicates := duplicates + [sorted[j]];
      j := j + 1;
    }
  }

  lemma NextWindow(jobs: seq<JobRow>, i: nat)
    requires i < |jobs|
    ensures
      var n := Reach(jobs, jobs[i], i + 1);
      Repeated(Windows(jobs, i)) ==
      if n - i > 1 then [jobs[i..n]] + Repeated(Windows(jobs, n)) else Repeated(Windows(jobs, n))
  {
    var n := Reach(jobs, jobs[i], i + 1);
    assert Windows(jobs, i)[0] == jobs[i..n] && Windows(jobs, i)[1..] == Windows(jobs, n);
  }

  lemma Regroup<T>(a: seq<T>, x: T, b: seq<T>)
    ensures a + ([x] + b) == a + [x] + b
  {
  }

  /** The outer loop, whose index skips the jobs of a window already reported. */
  method ReportWindows(sorted: seq<JobRow>) returns (reported: seq<seq<JobRow>>)
    ensures reported == Repeated(Windows(sorted, 0))
  {
    reported := [];
    var i := 0;
    while i < |sorted|
      invariant 0 <= i <= |sorted|
      invariant reported + Repeated(Windows(sorted, i)) == Repeated(Windows(sorted, 0))
    {
      NextWindow(sorted, i);
      var duplicates := CollectNear(sorted, i);
      if |duplicates| > 1 {
        Regroup(reported, duplicates, Repeated(Windows(sorted, i + |duplicates|)));
        reported := reported + [duplicates];
        i := i + |duplicates| - 1;
      }
      i := i + 1;
    }
  }

  method DuplicateWindows(group: seq<JobRow>) returns (reported: seq<seq<JobRow>>)
    ensures reported == Repeated(Windows(SortBy(JobAge, group), 0))
  {
    reported := ReportWindows(SortBy(JobAge, group));
  }

  function Concat(windows: seq<seq<JobRow>>): seq<JobRow> {
    if windows == [] then [] else windows[0] + Concat(windows[1..])
  }

  /** The windows cut the list into contiguous runs. */
  lemma {:induction false} WindowsPartition(jobs: seq<JobRow>, i: nat)
    requires i <= |jobs|
    ensures Concat(Windows(jobs, i)) == jobs[i..]
    decreases |jobs| - i
  {
    if i < |jobs| {
      var n := Reach(jobs, jobs[i], i + 1);
      WindowsPartition(jobs, n);
      assert jobs[i..] == jobs[i..n] + jobs[n..];
      assert Windows(jobs, i)[1..] == Windows(jobs, n);
    }
  }

  /** They begin at the starts, and every member of one is within a minute of its first. */
  lemma {:induction false} WindowsBeginAtStarts(jobs: seq<JobRow>, i: nat)
    requires i <= |jobs|
    ensures |Windows(jobs, i)| == |Starts(jobs, i)|
    ensures forall k :: 0 <= k < |Starts(jobs, i)| ==>
      && Windows(jobs, i)[k] != [] && Windows(jobs, i)[k][0] == jobs[Starts(jobs, i)[k]]
      && forall x <- Windows(jobs, i)[k] :: WithinAMinute(x, Windows(jobs, i)[k][0])
    decreases |jobs| - i
  {
    if i < |jobs| {
      var n := Reach(jobs, jobs[i], i + 1);
      WindowsBeginAtStarts(jobs, n);
      var window := jobs[i..n];
      forall x | x in window
        ensures WithinAMinute(x, jobs[i])
      {
        var k :| 0 <= k < |window| && window[k] == x;
        assert x == jobs[i + k];
      }
    }
  }

  /** Each window is maximal: the next one starts more than a minute after it does. */
  lemma {:induction false} StartsFarApart(jobs: seq<JobRow>, i: nat)
    requires i <= |jobs| && Ascending(JobAge, jobs)
    ensures forall k :: 0 <= k < |Starts(jobs, i)| - 1 ==>
      jobs[Starts(jobs, i)[k + 1]].createdAt - jobs[Starts(jobs, i)[k]].createdAt > 60000
    ensures forall k, l :: 0 <= k < l < |Starts(jobs, i)| ==>
      jobs[Starts(jobs, i)[l]].createdAt - jobs[Starts(jobs, i)[k]].createdAt > 60000
    decreases |jobs| - i
  {
    if i < |jobs| {
      var n := Reach(jobs, jobs[i], i + 1);
      StartsFarApart(jobs, n);
      var rest := Starts(jobs, n);
      forall l | 0 <= l < |rest|
        ensures jobs[rest[l]].createdAt - jobs[i].createdAt > 60000
      {
        assert JobAge(jobs[i]) <= JobAge(jobs[n]) <= JobAge(jobs[rest[l]]);
      }
    }
  }

  /** A way of putting the jobs into `m` groups so that jobs of one group are near each other. */
  ghost predicate Grouping(jobs: seq<JobRow>, group: seq<nat>, m: nat) {
    && |group| == |jobs|
    && (forall i :: 0 <= i < |jobs| ==> group[i] < m)
    && forall i, j :: 0 <= i < |jobs| && 0 <= j < |jobs| && group[i] == group[j] ==>
         WithinAMinute(jobs[i], jobs[j])
  }

  function Below(m: nat): (s: set<nat>)
    ensures |s| == m && forall x: nat :: x in s <==> x < m
  {
    if m == 0 then {} else Below(m - 1) + {m - 1}
  }

  function Values(s: seq<nat>): (values: set<nat>)
    ensures forall x :: x in values <==> x in s
    ensures NoRepeats(s) ==> |values| == |s|
  {
    if s == [] then {}
    else
      assert s == s[..|s| - 1] + [s[|s| - 1]];
      Values(s[..|s| - 1]) + {s[|s| - 1]}
  }

  lemma Pigeonhole(s: seq<nat>, m: nat)
    requires NoRepeats(s) && forall i :: 0 <= i < |s| ==> s[i] < m
    ensures |s| <= m
  {
    Fits(Values(s), Below(m));
  }

  lemma Fits(a: set<nat>, b: set<nat>)
    requires a <= b
    ensures |a| <= |b|
  {
    assert b == a + (b - a);
  }

  /** Main result: no grouping at all, contiguous or not, that keeps jobs of one group within a minute of
      each other has fewer groups than there are windows. */
  lemma FewestWindows(jobs: seq<JobRow>, group: seq<nat>, m: nat)
    requires Ascending(JobAge, jobs) && Grouping(jobs, group, m)
    ensures |Windows(jobs, 0)| <= m
  {
    WindowsBeginAtStarts(jobs, 0);
    StartsFarApart(jobs, 0);
    var starts := Starts(jobs, 0);
    var leaders := seq(|starts|, k requires 0 <= k < |starts| => group[starts[k]]);
    forall k, l | 0 <= k < l < |leaders|
      ensures leaders[k] != leaders[l]
    {
      assert !WithinAMinute(jobs[starts[k]], jobs[starts[l]]);
    }
    Pigeonhole(leaders, m);
  }
}
