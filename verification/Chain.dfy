/** The script that rebuilds the replacement chains of the webhook monitor's
    alerts: each alert may point at the alert it replaced, and the first alert
    of the chain gives the others its price. */
module Chain {
  import opened Tables

  datatype Alert = Alert(
    priceAlert: real, priceOriginal: Option<real>, priceFirst: Option<real>,
    replacementCount: int, replaced: Option<int>, executed: bool, side: Side,
    executionPrice: Option<real>, priceMinimum: Option<real>, priceMaximum: Option<real>,
    savingsPct: Option<real>, efficiencyPct: Option<real>)

  // ------------------------------------------------------------------
  // Walking a chain
  // ------------------------------------------------------------------

  /** The id an alert points at; an id of 0 counts as none. */
  function Next(a: Alert): Option<int> {
    if a.replaced == Some(0) then None else a.replaced
  }

  /** `getFirstAlertInChain` */
  function FirstInChain(t: map<int, Alert>, id: int, visited: set<int>): Option<int>
    decreases t.Keys - visited
  {
    if id in visited then None
    else if id !in t then None
    else if Next(t[id]).None? then Some(id)
    else FirstInChain(t, Next(t[id]).value, visited + {id})
  }

  /** The id after `n` pointers, if the walk gets that far. */
  function Walk(t: map<int, Alert>, id: int, n: nat): Option<int> {
    if n == 0 then Some(id)
    else
      var w := Walk(t, id, n - 1);
      if w.None? || w.value !in t then None else Next(t[w.value])
  }

  predicate Root(t: map<int, Alert>, id: int) {
    id in t && Next(t[id]).None?
  }

  /** The walk arrives at this root after `n` pointers. */
  predicate Reaches(t: map<int, Alert>, id: int, n: nat, root: int) {
    Walk(t, id, n) == Some(root) && Root(t, root)
  }

  ghost predicate HitsMissing(t: map<int, Alert>, id: int) {
    exists n: nat :: Walk(t, id, n).Some? && Walk(t, id, n).value !in t
  }

  ghost predicate HitsCycle(t: map<int, Alert>, id: int) {
    exists m: nat, n: nat :: m < n && Walk(t, id, m).Some? && Walk(t, id, m) == Walk(t, id, n)
  }

  /** Once the walk has ended it stays ended. */
  lemma {:induction false} WalkStaysEnded(t: map<int, Alert>, id: int, n: nat, k: nat)
    requires Walk(t, id, n).None? && n <= k
    ensures Walk(t, id, k).None?
    decreases k - n
  {
    if n < k {
      WalkStaysEnded(t, id, n + 1, k);
    }
  }

  /** From equal points the walk goes on equally. */
  lemma {:induction false} WalkRepeats(t: map<int, Alert>, id: int, m: nat, n: nat, j: nat)
    requires Walk(t, id, m) == Walk(t, id, n)
    ensures Walk(t, id, m + j) == Walk(t, id, n + j)
    decreases j
  {
    if j > 0 {
      WalkRepeats(t, id, m, n, j - 1);
    }
  }

  /** A walk that ends does not repeat itself on the way. */
  lemma EndedWalkIsSimple(t: map<int, Alert>, id: int, end: nat, m: nat, n: nat)
    requires Walk(t, id, end + 1).None? && m < n <= end && Walk(t, id, end).Some?
    ensures Walk(t, id, m) != Walk(t, id, n)
  {
    if Walk(t, id, m) == Walk(t, id, n) {
      WalkRepeats(t, id, m, n, end + 1 - n);
      WalkStaysEnded(t, id, m + (end + 1 - n), end);
    }
  }

  ghost predicate VisitedSoFar(t: map<int, Alert>, start: int, visited: set<int>, k: nat) {
    && (forall i: nat :: i < k ==> Walk(t, start, i).Some? && Walk(t, start, i).value in visited)
    && forall v <- visited :: exists i: nat :: i < k && Walk(t, start, i) == Some(v)
  }

  /** What the recursion finds out, `k` pointers into the walk. */
  lemma {:induction false} SearchOutcome(t: map<int, Alert>, start: int, id: int, visited: set<int>, k: nat)
    requires Walk(t, start, k) == Some(id) && VisitedSoFar(t, start, visited, k)
    ensures FirstInChain(t, id, visited).Some? ==>
      exists n: nat :: Reaches(t, start, n, FirstInChain(t, id, visited).value)
    ensures FirstInChain(t, id, visited).None? ==> HitsMissing(t, start) || HitsCycle(t, start)
    decreases t.Keys - visited
  {
    if id in visited {
      var i: nat :| i < k && Walk(t, start, i) == Some(id);
      assert Walk(t, start, i) == Walk(t, start, k);
    } else if id !in t {
    } else if Next(t[id]).None? {
      assert Reaches(t, start, k, id);
    } else {
      assert Walk(t, start, k + 1) == Next(t[id]);
      forall v | v in visited + {id}
        ensures exists i: nat :: i < k + 1 && Walk(t, start, i) == Some(v)
      {
        if v == id {
          assert Walk(t, start, k) == Some(v);
        } else {
          var i: nat :| i < k && Walk(t, start, i) == Some(v);
        }
      }
      SearchOutcome(t, start, Next(t[id]).value, visited + {id}, k + 1);
    }
  }

  /** A walk that reaches a root reaches no other, hits no missing alert and no cycle. */
  lemma RootExcludesTheRest(t: map<int, Alert>, id: int, n: nat, root: int)
    requires Reaches(t, id, n, root)
    ensures !HitsMissing(t, id) && !HitsCycle(t, id)
    ensures forall m: nat, r :: Reaches(t, id, m, r) ==> m == n && r == root
  {
    assert Walk(t, id, n + 1).None?;
    forall m: nat | Walk(t, id, m).Some? && (Walk(t, id, m).value !in t || Root(t, Walk(t, id, m).value))
      ensures m == n
    {
      assert Walk(t, id, m + 1).None?;
      if m < n {
        WalkStaysEnded(t, id, m + 1, n);
      } else if n < m {
        WalkStaysEnded(t, id, n + 1, m);
      }
    }
    forall m: nat, k: nat | m < k && Walk(t, id, m).Some?
      ensures Walk(t, id, m) != Walk(t, id, k)
    {
      if k <= n {
        EndedWalkIsSimple(t, id, n, m, k);
      } else {
        WalkStaysEnded(t, id, n + 1, k);
      }
    }
  }

  /** Main result: on any table, with cycles and dangling ids, the search terminates and finds exactly the
      root the walk reaches; it finds none exactly when the walk meets a cycle or a missing alert. */
  lemma SearchFindsRoot(t: map<int, Alert>, id: int)
    ensures forall r :: FirstInChain(t, id, {}) == Some(r) <==> exists n: nat :: Reaches(t, id, n, r)
    ensures FirstInChain(t, id, {}).None? <==> HitsMissing(t, id) || HitsCycle(t, id)
  {
    assert VisitedSoFar(t, id, {}, 0);
    SearchOutcome(t, id, id, {}, 0);
    forall r, n: nat | Reaches(t, id, n, r)
      ensures FirstInChain(t, id, {}) == Some(r) && !HitsMissing(t, id) && !HitsCycle(t, id)
    {
      RootExcludesTheRest(t, id, n, r);
    }
  }

  /** The pointers between an alert and the root of its chain. */
  function Distance(t: map<int, Alert>, id: int, visited: set<int>): nat
    decreases t.Keys - visited
  {
    if id in visited || id !in t || Next(t[id]).None? then 0
    else 1 + Distance(t, Next(t[id]).value, visited + {id})
  }

  lemma {:induction false} WalkFromNext(t: map<int, Alert>, id: int, n: nat)
    requires id in t && Next(t[id]).Some?
    ensures Walk(t, id, n + 1) == Walk(t, Next(t[id]).value, n)
  {
    if n == 0 {
      assert Walk(t, id, 1) == Next(t[id]);
    } else {
      WalkFromNext(t, id, n - 1);
    }
  }

  lemma {:induction false} DistanceReaches(t: map<int, Alert>, id: int, visited: set<int>)
    requires FirstInChain(t, id, visited).Some?
    ensures Reaches(t, id, Distance(t, id, visited), FirstInChain(t, id, visited).value)
    decreases t.Keys - visited
  {
    if Next(t[id]).Some? {
      DistanceReaches(t, Next(t[id]).value, visited + {id});
      WalkFromNext(t, id, Distance(t, id, visited) - 1);
    }
  }

  // ------------------------------------------------------------------
  // Rewriting one alert
  // ------------------------------------------------------------------

  datatype ChainData = ChainData(priceFirst: real, count: nat)

  /** What `rebuildChain` gives: the root's price and the distance to it. */
  function Rebuilt(t: map<int, Alert>, id: int): Option<ChainData> {
    var first := FirstInChain(t, id, {});
    if first.None? || first == Some(0) || first.value !in t then None
    else Some(ChainData(t[first.value].priceAlert, Distance(t, id, {})))
  }

  function Clamp(x: real): real {
    Min(100.0, Max(0.0, x))
  }

  /** How much better than the first alert's price the execution was, in percent of it. */
  function SavingsAgainst(first: real, price: real, side: Side): real
    requires first > 0.0
  {
    if side == Buy then (first - price) / first * 100.0 else (price - first) / first * 100.0
  }

  /** `recalculateMetrics` */
  function Metrics(a: Alert): (Option<real>, Option<real>) {
    if !a.executed || a.executionPrice.None? || a.priceFirst.None? then (a.savingsPct, a.efficiencyPct)
    else
      var first, price := a.priceFirst.value, a.executionPrice.value;
      var savings :=
        if first > 0.0 then SavingsAgainst(first, price, a.side) else a.savingsPct.GetOr(0.0);
      var efficiency :=
        if a.side == Buy && a.priceMinimum.Some? && Abs(first - a.priceMinimum.value) > 0.000001
        then Clamp((first - price) / (first - a.priceMinimum.value) * 100.0)
        else if a.side == Sell && a.priceMaximum.Some? && Abs(a.priceMaximum.value - first) > 0.000001
        then Clamp((price - first) / (a.priceMaximum.value - first) * 100.0)
        else a.efficiencyPct.GetOr(0.0);
      (Some(savings), Some(efficiency))
  }

  function WithMetrics(a: Alert): Alert {
    a.(savingsPct := Metrics(a).0, efficiencyPct := Metrics(a).1)
  }

  function Initialised(a: Alert): Alert {
    if a.priceOriginal.None? || a.priceFirst.None?
    then a.(priceOriginal := Some(a.priceAlert), priceFirst := Some(a.priceAlert), replacementCount := 0)
    else a
  }

  /** An alert of a rebuilt chain; the metrics still use the price it had before. */
  function Rewritten(a: Alert, data: ChainData): Alert {
    (if a.executed then WithMetrics(a) else a).(
      priceFirst := Some(data.priceFirst), priceOriginal := Some(a.priceAlert), replacementCount := data.count)
  }

  // ------------------------------------------------------------------
  // The three passes
  // ------------------------------------------------------------------

  function Initialise(t: map<int, Alert>): map<int, Alert> {
    map id | id in t :: Initialised(t[id])
  }

  function RebuildAll(t: map<int, Alert>): map<int, Alert> {
    map id | id in t ::
      if t[id].replaced.Some? && Rebuilt(t, id).Some? then Rewritten(t[id], Rebuilt(t, id).value) else t[id]
  }

  predicate Measured(a: Alert) {
    a.executed && a.priceFirst.Some? && a.executionPrice.Some?
  }

  function Measure(t: map<int, Alert>): map<int, Alert> {
    map id | id in t :: if Measured(t[id]) then WithMetrics(t[id]) else t[id]
  }

  function AfterMain(t: map<int, Alert>): map<int, Alert> {
    Measure(RebuildAll(Initialise(t)))
  }

  /** Tables that agree on what the walk reads: the pointers and the alert prices. */
  ghost predicate SameChains(a: map<int, Alert>, b: map<int, Alert>) {
    a.Keys == b.Keys && forall id <- a :: a[id].replaced == b[id].replaced && a[id].priceAlert == b[id].priceAlert
  }

  lemma {:induction false} SameSearch(a: map<int, Alert>, b: map<int, Alert>, id: int, visited: set<int>)
    requires SameChains(a, b)
    ensures FirstInChain(a, id, visited) == FirstInChain(b, id, visited)
    ensures Distance(a, id, visited) == Distance(b, id, visited)
    decreases a.Keys - visited
  {
    if id in visited || id !in a || Next(a[id]).None? {
    } else {
      SameSearch(a, b, Next(a[id]).value, visited + {id});
    }
  }

  lemma SameRebuilt(a: map<int, Alert>, b: map<int, Alert>, id: int)
    requires SameChains(a, b)
    ensures Rebuilt(a, id) == Rebuilt(b, id)
  {
    SameSearch(a, b, id, {});
    var first := FirstInChain(a, id, {});
    if first.Some? && first.value in a {
      var root := first.value;
      assert a[root].priceAlert == b[root].priceAlert;
    }
  }

  lemma SameMap(a: map<int, Alert>, b: map<int, Alert>)
    requires a.Keys == b.Keys && forall k <- a :: a[k] == b[k]
    ensures a == b
  {
    assert forall k <- a :: a[k] == b[k];
  }

  class AlertTable {
    var alerts: map<int, Alert>

    constructor (rows: map<int, Alert>)
      ensures alerts == rows
    {
      alerts := rows;
    }

    /** `rebuildChain`: the loop's own visited set never stops it. */
    method RebuildChain(id: int) returns (data: Option<ChainData>)
      requires id in alerts && forall i <- alerts :: i > 0
      ensures data == Rebuilt(alerts, id)
    {
      var firstId := FirstInChain(alerts, id, {});
      if firstId.None? || firstId.value == 0 {
        return None;
      }
      if firstId.value !in alerts {
        return None;
      }
      DistanceReaches(alerts, id, {});
      ghost var length := Distance(alerts, id, {});
      assert Walk(alerts, id, length + 1).None?;
      var count := 0;
      var current := Some(id);
      var visited: set<int> := {};
      while current.Some? && current.value != 0 && current.value != firstId.value && current.value !in visited
        invariant 0 <= count <= length && Walk(alerts, id, count) == current
        invariant current.Some? && current.value != 0
        invariant forall v <- visited :: exists i: nat :: i < count && Walk(alerts, id, i) == Some(v)
        decreases length - count
      {
        assert count < length;
        assert Walk(alerts, id, count + 1).Some? by {
          if Walk(alerts, id, count + 1).None? {
            WalkStaysEnded(alerts, id, count + 1, length);
          }
        }
        ghost var before := visited;
        visited := visited + {current.value};
        forall v | v in visited
          ensures exists i: nat :: i < count + 1 && Walk(alerts, id, i) == Some(v)
        {
          if v in before {
            var i: nat :| i < count && Walk(alerts, id, i) == Some(v);
          } else {
            assert Walk(alerts, id, count) == Some(v);
          }
        }
        count := count + 1;
        current := if current.value in alerts then Next(alerts[current.value]) else None;
      }
      if current.value in visited {
        var i: nat :| i < count && Walk(alerts, id, i) == current;
        EndedWalkIsSimple(alerts, id, length, i, count);
      }
      assert count == length by {
        if count < length {
          EndedWalkIsSimple(alerts, id, length, count, length);
        }
      }
      data := Some(ChainData(alerts[firstId.value].priceAlert, count));
    }

    /** The second pass, over the alerts that replaced another, listed in any order; it reads the rows
        to rewrite before it starts and the chains as it goes. */
    method RebuildPass(chained: seq<int>)
      requires forall i <- alerts :: i > 0
      requires forall id :: id in chained <==> id in alerts && alerts[id].replaced.Some?
      modifies this
      ensures alerts == RebuildAll(old(alerts))
    {
      var rows := alerts;
      for k := 0 to |chained|
        invariant SameChains(rows, alerts)
        invariant forall id <- rows :: alerts[id] == if id in chained[..k] then RebuildAll(rows)[id] else rows[id]
      {
        var id := chained[k];
        SameRebuilt(rows, alerts, id);
        var data := RebuildChain(id);
        assert chained[..k + 1] == chained[..k] + [id];
        if data.Some? {
          alerts := alerts[id := Rewritten(rows[id], data.value)];
        }
      }
      assert chained[..|chained|] == chained;
      SameMap(alerts, RebuildAll(rows));
    }

    /** The third pass, over the executed alerts, listed in any order. */
    method MeasurePass(measured: seq<int>)
      requires forall id :: id in measured <==> id in alerts && Measured(alerts[id])
      modifies this
      ensures alerts == Measure(old(alerts))
    {
      var rows := alerts;
      for k := 0 to |measured|
        invariant alerts.Keys == rows.Keys
        invariant forall id <- rows :: alerts[id] == if id in measured[..k] then Measure(rows)[id] else rows[id]
      {
        var id := measured[k];
        assert measured[..k + 1] == measured[..k] + [id];
        alerts := alerts[id := WithMetrics(rows[id])];
      }
      assert measured[..|measured|] == measured;
      SameMap(alerts, Measure(rows));
    }

    /** The whole script: its result does not depend on the order in which either list is processed. */
    method RunScript(chained: seq<int>, measured: seq<int>)
      requires forall i <- alerts :: i > 0
      requires forall id :: id in chained <==> id in alerts && alerts[id].replaced.Some?
      requires forall id :: id in measured <==>
        id in alerts && alerts[id].executed && alerts[id].executionPrice.Some?
      modifies this
      ensures alerts == AfterMain(old(alerts))
    {
      alerts := map id | id in alerts :: Initialised(alerts[id]);
      assert alerts == Initialise(old(alerts));
      RebuildPass(chained);
      MeasurePass(measured);
    }
  }

  lemma PassesKeepChains(t: map<int, Alert>)
    ensures SameChains(t, Initialise(t)) && SameChains(t, RebuildAll(Initialise(t))) && SameChains(t, AfterMain(t))
  {
  }

  /** Main result: after the script every alert that replaced another and whose chain reaches a root holds
      the root's price and its distance to the root. */
  lemma ChainsAreRebuilt(t: map<int, Alert>, id: int, n: nat, root: int)
    requires (forall i <- t :: i > 0) && id in t && t[id].replaced.Some? && Reaches(t, id, n, root)
    ensures AfterMain(t)[id].priceFirst == Some(t[root].priceAlert)
    ensures AfterMain(t)[id].replacementCount == n
    ensures AfterMain(t)[id].priceOriginal == Some(t[id].priceAlert)
  {
    PassesKeepChains(t);
    SearchFindsRoot(t, id);
    DistanceReaches(t, id, {});
    RootExcludesTheRest(t, id, n, root);
    SameRebuilt(t, Initialise(t), id);
  }

  /** The percentage that a part is of a whole, kept between 0 and 100; the whole may be negative. */
  ghost predicate IsPercentage(e: real, part: real, whole: real) {
    && 0.0 <= e <= 100.0
    && (0.0 < e < 100.0 ==> e * whole == part * 100.0)
    && (e == 0.0 ==> part * whole <= 0.0)
    && (e == 100.0 ==> part * whole >= whole * whole)
  }

  lemma PercentageIsUnique(d: real, e: real, part: real, whole: real)
    requires whole != 0.0 && IsPercentage(d, part, whole) && IsPercentage(e, part, whole)
    ensures d == e
  {
    var x := part / whole;
    assert part == x * whole && whole * whole > 0.0;
    assert part * whole == x * (whole * whole);
    assert (x > 0.0 ==> part * whole > 0.0) && (x < 1.0 ==> part * whole < whole * whole);
    assert d * whole == part * 100.0 ==> d == x * 100.0 by {
      assert (d - x * 100.0) * whole == d * whole - part * 100.0;
    }
    assert e * whole == part * 100.0 ==> e == x * 100.0 by {
      assert (e - x * 100.0) * whole == e * whole - part * 100.0;
    }
  }

  lemma ClampIsPercentage(part: real, whole: real)
    requires whole != 0.0
    ensures IsPercentage(Clamp(part / whole * 100.0), part, whole)
  {
    var x := part / whole;
    assert part == x * whole && whole * whole > 0.0;
    assert part * whole == x * (whole * whole);
    assert (x <= 0.0 ==> part * whole <= 0.0) && (x >= 1.0 ==> part * whole >= whole * whole);
  }

  /** A percentage of a price: what a BUY paid less than it, or a SELL got more than it. */
  ghost predicate IsSaving(pct: real, side: Side, price: real, paid: real) {
    && pct * price == (if side == Buy then price - paid else paid - price) * 100.0
    && (pct > 0.0 <==> if side == Buy then paid < price else paid > price)
  }

  lemma SavingsSpelledOut(a: Alert)
    requires Measured(a)
    ensures Metrics(a).0.Some?
    ensures
      if a.priceFirst.value > 0.0
      then IsSaving(Metrics(a).0.value, a.side, a.priceFirst.value, a.executionPrice.value)
      else Metrics(a).0 == Some(if a.savingsPct.Some? then a.savingsPct.value else 0.0)
  {
    var first, paid := a.priceFirst.value, a.executionPrice.value;
    if first > 0.0 {
      RatioOf(if a.side == Buy then first - paid else paid - first, first);
    }
  }

  lemma RatioOf(gain: real, first: real)
    requires first > 0.0
    ensures gain / first * 100.0 * first == gain * 100.0 && (gain / first * 100.0 > 0.0 <==> gain > 0.0)
  {
    var x := gain / first;
    assert gain == x * first;
  }

  /** The extreme price an alert is compared with: for a BUY the lowest seen, for a SELL the highest. */
  function Extreme(a: Alert): Option<real> {
    match a.side
    case Buy => a.priceMinimum
    case Sell => a.priceMaximum
  }

  /** The extreme is too close to a price, or unknown, to measure an efficiency. */
  predicate Immeasurable(a: Alert, price: real) {
    Extreme(a).None? || -0.000001 <= price - Extreme(a).value <= 0.000001
  }

  lemma EfficiencySpelledOut(a: Alert)
    requires Measured(a)
    ensures Metrics(a).1.Some?
    ensures
      var first, price := a.priceFirst.value, a.executionPrice.value;
      if Immeasurable(a, first) then Metrics(a).1 == Some(if a.efficiencyPct.Some? then a.efficiencyPct.value else 0.0)
      else IsPercentage(Metrics(a).1.value, first - price, first - Extreme(a).value)
  {
    var first, price := a.priceFirst.value, a.executionPrice.value;
    if !Immeasurable(a, first) {
      var part, whole := first - price, first - Extreme(a).value;
      if a.side == Buy {
        ClampIsPercentage(part, whole);
      } else {
        ClampIsPercentage(-part, -whole);
        SignsCancel(Metrics(a).1.value, part, whole);
      }
    }
  }

  lemma SignsCancel(e: real, part: real, whole: real)
    requires IsPercentage(e, -part, -whole)
    ensures IsPercentage(e, part, whole)
  {
    assert (-part) * (-whole) == part * whole && (-whole) * (-whole) == whole * whole;
  }

  /** The first price that an alert had before its chain was rebuilt. */
  function EarlierFirst(a: Alert): real {
    if a.priceOriginal.Some? && a.priceFirst.Some? then a.priceFirst.value else a.priceAlert
  }

  /** Main result: an executed alert's savings are, in percent of the root's price, what it paid less than
      that price as a BUY or got more than it as a SELL, although the second pass still uses the price the
      alert had before; a positive percentage means just that.  If the root's price is not positive, it keeps
      what the second pass made of them. */
  lemma SavingsFollowRoot(t: map<int, Alert>, id: int, n: nat, root: int)
    requires (forall i <- t :: i > 0) && id in t && t[id].replaced.Some? && Reaches(t, id, n, root)
    requires t[id].executed && t[id].executionPrice.Some?
    ensures
      var first, earlier, savings := t[root].priceAlert, EarlierFirst(t[id]), AfterMain(t)[id].savingsPct;
      && savings.Some?
      && (first > 0.0 ==> IsSaving(savings.value, t[id].side, first, t[id].executionPrice.value))
      && (first <= 0.0 < earlier ==> IsSaving(savings.value, t[id].side, earlier, t[id].executionPrice.value))
      && (first <= 0.0 && earlier <= 0.0 ==>
            savings.value == if t[id].savingsPct.Some? then t[id].savingsPct.value else 0.0)
  {
    ChainsAreRebuilt(t, id, n, root);
    SecondPass(t, id, n, root);
    ThirdPass(t, id);
    SavingsSpelledOut(Initialise(t)[id]);
    SavingsSpelledOut(RebuildAll(Initialise(t))[id]);
  }

  /** Main result: its efficiency is the way from the root's price to its own, as a percentage of the way to
      the extreme price and between 0 and 100, if the extreme is known and not too close to the root's price.
      Otherwise it keeps what the second pass made of it. */
  lemma EfficiencyFollowsRoot(t: map<int, Alert>, id: int, n: nat, root: int)
    requires (forall i <- t :: i > 0) && id in t && t[id].replaced.Some? && Reaches(t, id, n, root)
    requires t[id].executed && t[id].executionPrice.Some?
    ensures
      var first, earlier := t[root].priceAlert, EarlierFirst(t[id]);
      var paid, efficiency := t[id].executionPrice.value, AfterMain(t)[id].efficiencyPct;
      && efficiency.Some?
      && (!Immeasurable(t[id], first) ==> IsPercentage(efficiency.value, first - paid, first - Extreme(t[id]).value))
      && (Immeasurable(t[id], first) && !Immeasurable(t[id], earlier) ==>
            IsPercentage(efficiency.value, earlier - paid, earlier - Extreme(t[id]).value))
      && (Immeasurable(t[id], first) && Immeasurable(t[id], earlier) ==>
            efficiency.value == if t[id].efficiencyPct.Some? then t[id].efficiencyPct.value else 0.0)
  {
    ChainsAreRebuilt(t, id, n, root);
    SecondPass(t, id, n, root);
    ThirdPass(t, id);
    EfficiencySpelledOut(Initialise(t)[id]);
    EfficiencySpelledOut(RebuildAll(Initialise(t))[id]);
  }

  lemma SecondPass(t: map<int, Alert>, id: int, n: nat, root: int)
    requires (forall i <- t :: i > 0) && id in t && t[id].replaced.Some? && Reaches(t, id, n, root)
    requires t[id].executed && t[id].executionPrice.Some?
    ensures
      var a, b := Initialise(t)[id], RebuildAll(Initialise(t))[id];
      && Measured(a) && Measured(b)
      && a == t[id].(priceOriginal := a.priceOriginal, priceFirst := a.priceFirst,
                     replacementCount := a.replacementCount)
      && b == WithMetrics(a).(priceOriginal := b.priceOriginal, priceFirst := Some(t[root].priceAlert),
                              replacementCount := b.replacementCount)
  {
    PassesKeepChains(t);
    SearchFindsRoot(t, id);
    SameRebuilt(t, Initialise(t), id);
  }

  /** An efficiency that the script leaves as it was against a price that is no longer the first: the alert
      bought at 95 halfway between its old first price of 90 and its minimum of 100, which is the root's price. */
  lemma StaleEfficiency(root: Alert, later: Alert)
    requires root.replaced.None? && root.priceAlert == 100.0
    requires later.replaced == Some(1) && later.executed && later.side == Buy && later.executionPrice == Some(95.0)
    requires later.priceOriginal.Some? && later.priceFirst == Some(90.0) && later.priceMinimum == Some(100.0)
    ensures AfterMain(map[1 := root, 2 := later])[2].priceFirst == Some(100.0)
    ensures AfterMain(map[1 := root, 2 := later])[2].efficiencyPct == Some(50.0)
  {
    var t := map[1 := root, 2 := later];
    assert Walk(t, 2, 1) == Some(1) by {
      assert Walk(t, 2, 0) == Some(2);
    }
    ChainsAreRebuilt(t, 2, 1, 1);
    EfficiencyFollowsRoot(t, 2, 1, 1);
    assert IsPercentage(50.0, 90.0 - 95.0, 90.0 - 100.0);
    PercentageIsUnique(AfterMain(t)[2].efficiencyPct.value, 50.0, 90.0 - 95.0, 90.0 - 100.0);
  }

  lemma ThirdPass(t: map<int, Alert>, id: int)
    requires id in t
    ensures
      var a := RebuildAll(Initialise(t))[id];
      && a.executed == t[id].executed && a.executionPrice == t[id].executionPrice && a.side == t[id].side
      && a.priceMinimum == t[id].priceMinimum && a.priceMaximum == t[id].priceMaximum
      && a.priceFirst == AfterMain(t)[id].priceFirst
      && AfterMain(t)[id] == if Measured(a) then WithMetrics(a) else a
  {
  }

  /** An alert that replaced none, or whose chain is broken, keeps its prices and its count if both prices
      are known, and otherwise starts a chain of its own. */
  lemma BrokenChainsAreLeft(t: map<int, Alert>, id: int)
    requires id in t && (t[id].replaced.None? || HitsMissing(t, id) || HitsCycle(t, id))
    ensures
      var before, after := t[id], AfterMain(t)[id];
      if before.priceOriginal.Some? && before.priceFirst.Some? then
        && after.priceFirst == before.priceFirst && after.priceOriginal == before.priceOriginal
        && after.replacementCount == before.replacementCount
      else
        && after.priceFirst == after.priceOriginal == Some(before.priceAlert)
        && after.replacementCount == 0
  {
    PassesKeepChains(t);
    SearchFindsRoot(t, id);
    SameRebuilt(t, Initialise(t), id);
  }

  /** What the script never writes, and what it leaves as it is on an alert that was not executed. */
  lemma OtherColumnsAreKept(t: map<int, Alert>, id: int)
    ensures AfterMain(t).Keys == t.Keys
    ensures id in t ==>
      var before, after := t[id], AfterMain(t)[id];
      && after == before.(priceOriginal := after.priceOriginal, priceFirst := after.priceFirst,
                          replacementCount := after.replacementCount,
                          savingsPct := after.savingsPct, efficiencyPct := after.efficiencyPct)
      && (!before.executed || before.executionPrice.None? ==>
            after.savingsPct == before.savingsPct && after.efficiencyPct == before.efficiencyPct)
  {
  }

  lemma MetricsSettle(a: Alert)
    ensures WithMetrics(WithMetrics(a)) == WithMetrics(a)
  {
  }

  /** A row that the script has written. */
  ghost predicate Settled(a: Alert) {
    && a.priceOriginal.Some? && a.priceFirst.Some?
    && WithMetrics(a) == a
  }

  lemma RowSettles(t: map<int, Alert>, id: int)
    requires id in t
    ensures Settled(AfterMain(t)[id])
    ensures t[id].replaced.Some? && Rebuilt(t, id).Some? ==>
      AfterMain(t)[id] == Rewritten(AfterMain(t)[id], Rebuilt(t, id).value)
  {
    PassesKeepChains(t);
    SameRebuilt(t, Initialise(t), id);
    MetricsSettle(RebuildAll(Initialise(t))[id]);
  }

  /** Main result: running the script again changes nothing. */
  lemma MainIsIdempotent(t: map<int, Alert>)
    ensures AfterMain(AfterMain(t)) == AfterMain(t)
  {
    var once := AfterMain(t);
    PassesKeepChains(t);
    forall id | id in once
      ensures Settled(once[id]) && RebuildAll(once)[id] == once[id]
    {
      RowSettles(t, id);
      SameRebuilt(t, once, id);
    }
    SettledPasses(once);
    SameMap(RebuildAll(once), once);
  }

  lemma SettledPasses(t: map<int, Alert>)
    requires forall id <- t :: Settled(t[id])
    ensures Initialise(t) == t && Measure(t) == t
  {
    SameMap(Initialise(t), t);
    SameMap(Measure(t), t);
  }
}
