/**
 * Sorting a table by one real-valued column (`DataFrame.sort_values(by=...)`),
 * modelled as a stable insertion sort over a sequence of rows.
 */
module Sorting {

  /** Rows are in non-decreasing order of `key`. */
  ghost predicate SortedBy<T>(s: seq<T>, key: T -> real)
  {
    forall i, j :: 0 <= i < j < |s| ==> key(s[i]) <= key(s[j])
  }

  /** Inserts `x` into sorted `s` before the first row whose key is not smaller. */
  function Insert<T>(x: T, s: seq<T>, key: T -> real): (r: seq<T>)
    requires SortedBy(s, key)
    ensures SortedBy(r, key)
    ensures multiset(r) == multiset(s) + multiset{x}
    ensures |r| == |s| + 1
  {
    if s == [] then [x]
    else if key(x) <= key(s[0]) then [x] + s
    else
      var rest := Insert(x, s[1..], key);
      assert s == [s[0]] + s[1..];
      BoundKept(x, s[1..], rest, key, key(s[0]));
      [s[0]] + rest
  }

  /** A lower bound on the keys of `x` and of every row of `s` bounds every row of a reordering of them. */
  lemma BoundKept<T>(x: T, s: seq<T>, r: seq<T>, key: T -> real, bound: real)
    requires multiset(r) == multiset(s) + multiset{x}
    requires bound <= key(x) && forall j :: 0 <= j < |s| ==> bound <= key(s[j])
    ensures forall j :: 0 <= j < |r| ==> bound <= key(r[j])
  {
    forall j | 0 <= j < |r| ensures bound <= key(r[j]) {
      assert r[j] in multiset(r);
      assert r[j] == x || r[j] in s;
    }
  }

  /** The rows of `s`, reordered by non-decreasing key. */
  function SortBy<T>(s: seq<T>, key: T -> real): (r: seq<T>)
    ensures SortedBy(r, key)
    ensures multiset(r) == multiset(s)
    ensures |r| == |s|
  {
    if s == [] then []
    else
      assert s == [s[0]] + s[1..];
      Insert(s[0], SortBy(s[1..], key), key)
  }

  /** No two different rows share a key. */
  ghost predicate KeysDistinct<T>(s: seq<T>, key: T -> real)
  {
    forall x, y :: x in s && y in s && key(x) == key(y) ==> x == y
  }

  /** Reordering rows keeps their keys distinct. */
  lemma KeysDistinctPermuted<T>(a: seq<T>, b: seq<T>, key: T -> real)
    requires multiset(a) == multiset(b) && KeysDistinct(a, key)
    ensures KeysDistinct(b, key)
  {
    forall x, y | x in b && y in b && key(x) == key(y)
      ensures x == y
    {
      assert x in multiset(b) && y in multiset(b);
    }
  }

  /** Two orderings by key of the same rows start with the same row when no two rows share a key. */
  lemma SortedHeads<T>(a: seq<T>, b: seq<T>, key: T -> real)
    requires SortedBy(a, key) && SortedBy(b, key)
    requires multiset(a) == multiset(b) && KeysDistinct(a, key) && a != []
    ensures b != [] && a[0] == b[0]
  {
    assert a[0] in multiset(b);
    assert a[0] in b;
    var i :| 0 <= i < |b| && b[i] == a[0];
    assert b[0] in multiset(a);
    assert b[0] in a;
    var j :| 0 <= j < |a| && a[j] == b[0];
    assert key(b[0]) <= key(b[i]) && key(a[0]) <= key(a[j]);
  }

  /** Dropping the first row keeps the sequence sorted and the keys distinct. */
  lemma DropFirst<T>(a: seq<T>, key: T -> real)
    requires SortedBy(a, key) && KeysDistinct(a, key) && a != []
    ensures SortedBy(a[1..], key) && KeysDistinct(a[1..], key)
    ensures multiset(a[1..]) == multiset(a) - multiset{a[0]}
  {
    assert a == [a[0]] + a[1..];
    forall x, y | x in a[1..] && y in a[1..] && key(x) == key(y)
      ensures x == y
    {
      assert x in a && y in a;
    }
  }

  /** Two sorted orderings of the same rows with equal heads have sorted tails of the same rows. */
  lemma DropHeads<T>(a: seq<T>, b: seq<T>, key: T -> real)
    requires SortedBy(a, key) && SortedBy(b, key)
    requires multiset(a) == multiset(b) && KeysDistinct(a, key)
    requires a != [] && b != [] && a[0] == b[0]
    ensures SortedBy(a[1..], key) && SortedBy(b[1..], key)
    ensures multiset(a[1..]) == multiset(b[1..]) && KeysDistinct(a[1..], key)
  {
    DropFirst(a, key);
    KeysDistinctPermuted(a, b, key);
    DropFirst(b, key);
  }

  /** Two orderings by key of the same rows coincide when no two different rows share a key. */
  lemma {:induction false} SortedUnique<T>(a: seq<T>, b: seq<T>, key: T -> real)
    requires SortedBy(a, key) && SortedBy(b, key)
    requires multiset(a) == multiset(b) && KeysDistinct(a, key)
    ensures a == b
  {
    if a == [] {
      assert |multiset(b)| == |b|;
    } else {
      SortedHeads(a, b, key);
      DropHeads(a, b, key);
      SortedUnique(a[1..], b[1..], key);
      assert a == [a[0]] + a[1..] && b == [b[0]] + b[1..];
    }
  }

  /**
   * Sorting rows no two of which share a key has one result: the same rows
   * in any arrival order sort to the same sequence.
   */
  lemma SortByUnique<T>(a: seq<T>, b: seq<T>, key: T -> real)
    requires multiset(a) == multiset(b) && KeysDistinct(a, key)
    ensures SortBy(a, key) == SortBy(b, key)
  {
    var sa, sb := SortBy(a, key), SortBy(b, key);
    KeysDistinctPermuted(a, sa, key);
    SortedUnique(sa, sb, key);
  }
}
