/**
  The `ORDER BY a DESC, b DESC` clauses of the queries. A row's sort key is a
  pair of naturals compared lexicographically; the queries leave the order of
  rows with equal keys unspecified, so what is promised about a sorted result
  is that it is ordered by key and is a permutation of its input.
 */
module Ordering {

  type Key = (nat, nat)

  /** `a` may come before `b` in a `DESC, DESC` ordering. */
  predicate AtLeast(a: Key, b: Key)
  {
    a.0 > b.0 || (a.0 == b.0 && a.1 >= b.1)
  }

  /** The rows of `s` appear in non-increasing order of their keys. */
  predicate SortedDesc<T>(s: seq<T>, key: T -> Key)
  {
    forall i, j :: 0 <= i < j < |s| ==> AtLeast(key(s[i]), key(s[j]))
  }

  /** The first row of a descending sequence is at least every later row. */
  lemma HeadBound<T>(s: seq<T>, key: T -> Key, y: T)
    requires SortedDesc(s, key) && s != [] && y in s[1..]
    ensures AtLeast(key(s[0]), key(y))
  {
    var m :| 0 <= m < |s| - 1 && s[1..][m] == y;
    assert s[m + 1] == y;
  }

  /** A row at least every row of a descending sequence may be put in front. */
  lemma ConsSorted<T>(y: T, t: seq<T>, key: T -> Key)
    requires SortedDesc(t, key)
    requires forall j :: 0 <= j < |t| ==> AtLeast(key(y), key(t[j]))
    ensures SortedDesc([y] + t, key)
  {
    var r := [y] + t;
    forall i, j | 0 <= i < j < |r| ensures AtLeast(key(r[i]), key(r[j])) {
      assert r[j] == t[j - 1];
      assert i > 0 ==> r[i] == t[i - 1];
    }
  }

  /** Places `x` in front of the first row whose key it is at least. */
  function Insert<T>(x: T, s: seq<T>, key: T -> Key): (r: seq<T>)
    requires SortedDesc(s, key)
    ensures SortedDesc(r, key)
    ensures |r| == |s| + 1 && multiset(r) == multiset(s) + multiset{x}
  {
    if s == [] then
      [x]
    else if AtLeast(key(x), key(s[0])) then
      ConsSorted(x, s, key);
      [x] + s
    else
      var t := Insert(x, s[1..], key);
      assert s == [s[0]] + s[1..];
      forall j | 0 <= j < |t| ensures AtLeast(key(s[0]), key(t[j])) {
        assert t[j] in multiset(t);
        if t[j] != x {
          assert t[j] in multiset(s[1..]);
          HeadBound(s, key, t[j]);
        }
      }
      ConsSorted(s[0], t, key);
      [s[0]] + t
  }

  /** The `ORDER BY` of a query: the rows of `s` by non-increasing key. */
  function SortDesc<T>(s: seq<T>, key: T -> Key): (r: seq<T>)
    ensures SortedDesc(r, key)
    ensures |r| == |s| && multiset(r) == multiset(s)
  {
    if s == [] then
      []
    else
      assert s == [s[0]] + s[1..];
      Insert(s[0], SortDesc(s[1..], key), key)
  }
}
