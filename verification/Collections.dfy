/** Small notions about sequences and sets that several components share. */
module Collections {

  function IdSet(ids: seq<int>): set<int> {
    set id | id in ids
  }

  /** The keys of the elements, in order. */
  function Project<T>(key: T -> int, s: seq<T>): (keys: seq<int>)
    ensures |keys| == |s| && forall i :: 0 <= i < |s| ==> keys[i] == key(s[i])
    decreases |s|
  {
    if s == [] then [] else [key(s[0])] + Project(key, s[1..])
  }

  ghost predicate NoRepeats<T>(s: seq<T>) {
    forall i, j :: 0 <= i < j < |s| ==> s[i] != s[j]
  }

  lemma Inhabited(s: set<int>)
    ensures s == {} <==> forall x :: x !in s
  {
    assert (forall x: int :: x !in s) ==> s == {};
  }

  lemma Meet(a: set<int>, b: set<int>)
    ensures a !! b || exists x :: x in a && x in b
  {
    assert (forall x: int :: !(x in a && x in b)) ==> a !! b;
  }

  lemma SomeOutside(a: set<int>, b: set<int>)
    requires a != b
    ensures exists x :: (x in a && x !in b) || (x in b && x !in a)
  {
    assert (forall x: int :: x in a <==> x in b) ==> a == b;
  }

  lemma MinusTwice<V>(m: map<int, V>, a: set<int>, b: set<int>, c: set<int>)
    requires forall x <- m :: x in c <==> x in a || x in b
    ensures m - a - b == m - c
  {
    var one, other := m - a - b, m - c;
    assert forall x: int :: x in one <==> x in other;
    assert forall x <- one :: one[x] == other[x];
  }
}
