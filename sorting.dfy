/** Ordering of table rows: `sort_values` as a stable insertion sort over a
    total preorder, `nlargest` / `nsmallest` on top of it, and the
    lexicographic string order that Python uses for `str` comparison. */
module Sorting {

  predicate SortedBy<T>(s: seq<T>, le: (T, T) -> bool)
  {
    forall i, j :: 0 <= i < j < |s| ==> le(s[i], s[j])
  }

  ghost predicate TotalPreorder<T(!new)>(le: (T, T) -> bool)
  {
    && (forall a, b :: le(a, b) || le(b, a))
    && (forall a, b, c :: le(a, b) && le(b, c) ==> le(a, c))
  }

  /** Places `x` before the first element it does not exceed; equal rows that
      were already in `s` stay after `x`, which keeps the sort stable. */
  function Insert<T>(x: T, s: seq<T>, le: (T, T) -> bool): (r: seq<T>)
    ensures |r| == |s| + 1
    ensures multiset(r) == multiset(s) + multiset{x}
  {
    if s == [] then [x]
    else if le(x, s[0]) then [x] + s
    else
      assert s == [s[0]] + s[1..];
      [s[0]] + Insert(x, s[1..], le)
  }

  lemma {:induction false} InsertSorted<T(!new)>(x: T, s: seq<T>, le: (T, T) -> bool)
    requires TotalPreorder(le)
    requires SortedBy(s, le)
    ensures SortedBy(Insert(x, s, le), le)
  {
    if s != [] && !le(x, s[0]) {
      InsertSorted(x, s[1..], le);
      var r := Insert(x, s, le);
      var t := Insert(x, s[1..], le);
      assert r == [s[0]] + t;
      forall j | 0 < j < |r|
        ensures le(r[0], r[j])
      {
        assert r[j] in multiset(t);
        assert r[j] in multiset(s[1..]) + multiset{x};
        if r[j] == x {
        } else {
          assert r[j] in s[1..];
        }
      }
    }
  }

  /** `sort_values` by the order `le`. */
  function Sort<T>(s: seq<T>, le: (T, T) -> bool): (r: seq<T>)
    ensures |r| == |s|
    ensures multiset(r) == multiset(s)
  {
    if s == [] then []
    else
      assert s == [s[0]] + s[1..];
      Insert(s[0], Sort(s[1..], le), le)
  }

  lemma {:induction false} SortSorted<T(!new)>(s: seq<T>, le: (T, T) -> bool)
    requires TotalPreorder(le)
    ensures SortedBy(Sort(s, le), le)
  {
    if s != [] {
      SortSorted(s[1..], le);
      InsertSorted(s[0], Sort(s[1..], le), le);
    }
  }

  function Descending<T>(key: T -> real): (T, T) -> bool
  {
    (a: T, b: T) => key(a) >= key(b)
  }

  function Ascending<T>(key: T -> real): (T, T) -> bool
  {
    (a: T, b: T) => key(a) <= key(b)
  }

  function Min(a: nat, b: nat): nat
  {
    if a <= b then a else b
  }

  lemma DescendingTotal<T(!new)>(key: T -> real)
    ensures TotalPreorder(Descending(key))
  {
  }

  lemma AscendingTotal<T(!new)>(key: T -> real)
    ensures TotalPreorder(Ascending(key))
  {
  }

  /** The first `m` rows of a sorted permutation of `s` come from `s`, and
      no row left out precedes one taken. */
  lemma TakeFirst<T>(s: seq<T>, sorted: seq<T>, m: nat, le: (T, T) -> bool)
    requires multiset(sorted) == multiset(s) && SortedBy(sorted, le) && m <= |sorted|
    ensures multiset(sorted[..m]) <= multiset(s)
    ensures forall x, i :: x in s && x !in sorted[..m] && 0 <= i < m ==> le(sorted[i], x)
  {
    var r := sorted[..m];
    assert sorted == r + sorted[m..];
    assert multiset(sorted) == multiset(r) + multiset(sorted[m..]);
    forall x, i | x in s && x !in r && 0 <= i < m
      ensures le(sorted[i], x)
    {
      assert x in multiset(sorted);
      var p :| 0 <= p < |sorted| && sorted[p] == x;
      assert p >= m;
    }
  }

  /** `nlargest(n, key)`: the `n` rows with the largest key, largest first. */
  function Largest<T(!new)>(s: seq<T>, n: nat, key: T -> real): (r: seq<T>)
    ensures |r| == Min(n, |s|)
    ensures multiset(r) <= multiset(s)
    ensures forall i, j :: 0 <= i < j < |r| ==> key(r[i]) >= key(r[j])
    ensures forall x, i :: x in s && x !in r && 0 <= i < |r| ==> key(x) <= key(r[i])
  {
    var le := Descending(key);
    var sorted := Sort(s, le);
    DescendingTotal(key);
    SortSorted(s, le);
    TakeFirst(s, sorted, Min(n, |s|), le);
    sorted[..Min(n, |s|)]
  }

  /** `nsmallest(n, key)`: the `n` rows with the smallest key, smallest first. */
  function Smallest<T(!new)>(s: seq<T>, n: nat, key: T -> real): (r: seq<T>)
    ensures |r| == Min(n, |s|)
    ensures multiset(r) <= multiset(s)
    ensures forall i, j :: 0 <= i < j < |r| ==> key(r[i]) <= key(r[j])
    ensures forall x, i :: x in s && x !in r && 0 <= i < |r| ==> key(r[i]) <= key(x)
  {
    var le := Ascending(key);
    var sorted := Sort(s, le);
    AscendingTotal(key);
    SortSorted(s, le);
    TakeFirst(s, sorted, Min(n, |s|), le);
    sorted[..Min(n, |s|)]
  }

  // ---------------------------------------------------------------------------
  // Python's order on strings
  // ---------------------------------------------------------------------------

  /** `a <= b` for Python strings: lexicographic by code point, a proper
      prefix first. */
  predicate StrLe(a: string, b: string)
  {
    a == [] || (b != [] && (a[0] < b[0] || (a[0] == b[0] && StrLe(a[1..], b[1..]))))
  }

  lemma {:induction false} StrLeTotal(a: string, b: string)
    ensures StrLe(a, b) || StrLe(b, a)
  {
    if a != [] && b != [] && a[0] == b[0] {
      StrLeTotal(a[1..], b[1..]);
    }
  }

  lemma {:induction false} StrLeAntisymmetric(a: string, b: string)
    requires StrLe(a, b) && StrLe(b, a)
    ensures a == b
  {
    if a != [] && b != [] {
      StrLeAntisymmetric(a[1..], b[1..]);
      assert a == [a[0]] + a[1..];
      assert b == [b[0]] + b[1..];
    }
  }

  lemma {:induction false} StrLeTransitive(a: string, b: string, c: string)
    requires StrLe(a, b) && StrLe(b, c)
    ensures StrLe(a, c)
  {
    if a != [] && b != [] && c != [] && a[0] == b[0] == c[0] {
      StrLeTransitive(a[1..], b[1..], c[1..]);
    }
  }
}
