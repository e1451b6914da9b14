/** Stable sorting by an integer key, as `Array.prototype.sort` with a subtracting comparator does. */
module Sorting {

  ghost predicate Ascending<T>(key: T -> int, s: seq<T>) {
    forall i, j :: 0 <= i < j < |s| ==> key(s[i]) <= key(s[j])
  }

  ghost predicate StrictlyAscending<T>(key: T -> int, s: seq<T>) {
    forall i, j :: 0 <= i < j < |s| ==> key(s[i]) < key(s[j])
  }

  /** `x` goes before every element whose key is not smaller, so equal keys keep their order. */
  function Insert<T>(key: T -> int, x: T, s: seq<T>): (r: seq<T>)
    ensures multiset(r) == multiset(s) + multiset{x}
  {
    if s == [] then [x]
    else if key(x) <= key(s[0]) then [x] + s
    else
      assert s == [s[0]] + s[1..];
      [s[0]] + Insert(key, x, s[1..])
  }

  function SortBy<T>(key: T -> int, s: seq<T>): (r: seq<T>)
    ensures multiset(r) == multiset(s)
  {
    if s == [] then []
    else
      assert s == [s[0]] + s[1..];
      Insert(key, s[0], SortBy(key, s[1..]))
  }

  lemma {:induction false} InsertKeepsOrder<T>(key: T -> int, x: T, s: seq<T>)
    requires Ascending(key, s)
    ensures Ascending(key, Insert(key, x, s))
  {
    if s == [] || key(x) <= key(s[0]) {
    } else {
      InsertKeepsOrder(key, x, s[1..]);
      var r := Insert(key, x, s[1..]);
      forall i | 0 <= i < |r|
        ensures key(s[0]) <= key(r[i])
      {
        assert r[i] in multiset(s[1..]) + multiset{x};
      }
    }
  }

  lemma {:induction false} SortOrders<T>(key: T -> int, s: seq<T>)
    ensures Ascending(key, SortBy(key, s))
  {
    if s == [] {
    } else {
      SortOrders(key, s[1..]);
      InsertKeepsOrder(key, s[0], SortBy(key, s[1..]));
    }
  }

  lemma SameMembers<T>(key: T -> int, s: seq<T>)
    ensures forall x :: x in SortBy(key, s) <==> x in s
  {
    forall x
      ensures x in SortBy(key, s) <==> x in s
    {
      assert x in multiset(SortBy(key, s)) <==> x in multiset(s);
    }
  }

  /** A list with ascending distinct keys is determined by its members. */
  lemma {:induction false} StrictOrderIsUnique<T>(key: T -> int, a: seq<T>, b: seq<T>)
    requires StrictlyAscending(key, a) && StrictlyAscending(key, b)
    requires forall x :: x in a <==> x in b
    ensures a == b
  {
    assert (a != [] ==> a[0] in b) && (b != [] ==> b[0] in a);
    if a == [] || b == [] {
    } else {
      FirstIsLeast(key, a, b);
      assert a == [a[0]] + a[1..] && b == [b[0]] + b[1..];
      forall x
        ensures x in a[1..] <==> x in b[1..]
      {
        HeadNotInTail(key, a);
        HeadNotInTail(key, b);
        assert x in a <==> x == a[0] || x in a[1..];
        assert x in b <==> x == b[0] || x in b[1..];
      }
      StrictOrderIsUnique(key, a[1..], b[1..]);
    }
  }

  lemma HeadNotInTail<T>(key: T -> int, a: seq<T>)
    requires a != [] && StrictlyAscending(key, a)
    ensures a[0] !in a[1..]
  {
  }

  lemma FirstIsLeast<T>(key: T -> int, a: seq<T>, b: seq<T>)
    requires a != [] && b != []
    requires StrictlyAscending(key, a) && StrictlyAscending(key, b)
    requires forall x :: x in a <==> x in b
    ensures a[0] == b[0]
  {
    assert b[0] in a && a[0] in b;
    var i :| 0 <= i < |a| && a[i] == b[0];
    var j :| 0 <= j < |b| && b[j] == a[0];
  }

  ghost predicate DistinctKeys<T>(key: T -> int, s: seq<T>) {
    forall i, j :: 0 <= i < j < |s| ==> key(s[i]) != key(s[j])
  }

  lemma {:induction false} DistinctOnce<T>(key: T -> int, s: seq<T>, x: T)
    requires DistinctKeys(key, s)
    ensures multiset(s)[x] <= 1
  {
    if s != [] {
      DistinctOnce(key, s[1..], x);
      assert s == [s[0]] + s[1..];
    }
  }

  lemma RepeatedTwice<T>(s: seq<T>, i: nat, j: nat)
    requires i < j < |s| && s[i] == s[j]
    ensures multiset(s)[s[i]] >= 2
  {
    assert s == s[..i] + [s[i]] + s[i + 1..j] + [s[j]] + s[j + 1..];
  }

  /** A permutation of a list with distinct keys has distinct keys. */
  lemma PermutedDistinct<T>(key: T -> int, s: seq<T>, r: seq<T>)
    requires DistinctKeys(key, s) && multiset(r) == multiset(s)
    ensures DistinctKeys(key, r)
  {
    forall i, j | 0 <= i < j < |r|
      ensures key(r[i]) != key(r[j])
    {
      assert r[i] in multiset(s) && r[j] in multiset(s);
      DistinctOnce(key, s, r[i]);
      if r[i] == r[j] {
        RepeatedTwice(r, i, j);
      }
    }
  }

  /** Sorting distinct keys puts them in strict order. */
  lemma SortStrict<T>(key: T -> int, s: seq<T>)
    requires DistinctKeys(key, s)
    ensures StrictlyAscending(key, SortBy(key, s))
  {
    SortOrders(key, s);
    PermutedDistinct(key, s, SortBy(key, s));
  }
}
