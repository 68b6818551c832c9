/** `groupby(key)[col].sum()` and `.mean()`.

    A group-by is modelled as one pass over the rows that keeps, per distinct
    key, the running sum and count of the values seen so far; groups come out
    in order of first appearance. */
module Grouping {
  import opened Common

  /** One component of a group-by key: a text column (country, ISO code,
      sector, continent) or an integer column (year). */
  datatype KeyPart = Name(text: string) | Num(n: int)

  /** A group-by key: the values of the grouping columns, in order. */
  type Key = seq<KeyPart>

  datatype Acc = Acc(key: Key, sum: real, count: nat)

  /** Values of the rows whose key is `k`, in row order. */
  function ValuesWhere(rows: seq<(Key, real)>, k: Key): seq<real>
  {
    if rows == [] then []
    else ValuesWhere(rows[..|rows| - 1], k) + (if rows[|rows| - 1].0 == k then [rows[|rows| - 1].1] else [])
  }

  function SumWhere(rows: seq<(Key, real)>, k: Key): real
  {
    Sum(ValuesWhere(rows, k))
  }

  function CountWhere(rows: seq<(Key, real)>, k: Key): nat
  {
    |ValuesWhere(rows, k)|
  }

  function Values(rows: seq<(Key, real)>): seq<real>
  {
    seq(|rows|, i requires 0 <= i < |rows| => rows[i].1)
  }

  predicate HasKey(rows: seq<(Key, real)>, k: Key)
  {
    exists j :: 0 <= j < |rows| && rows[j].0 == k
  }

  predicate DistinctKeys(g: seq<Acc>)
  {
    forall i, j :: 0 <= i < j < |g| ==> g[i].key != g[j].key
  }

  /** Position of the group for `k`, or `|g|` when there is none. */
  function Pos(g: seq<Acc>, k: Key): (p: nat)
    ensures p <= |g|
    ensures p < |g| ==> g[p].key == k
    ensures forall i :: 0 <= i < p ==> g[i].key != k
  {
    if g == [] then 0 else if g[0].key == k then 0 else 1 + Pos(g[1..], k)
  }

  /** Adds one row to the running groups. */
  function Add(g: seq<Acc>, k: Key, v: real): seq<Acc>
  {
    var p := Pos(g, k);
    if p < |g| then g[p := Acc(k, g[p].sum + v, g[p].count + 1)] else g + [Acc(k, v, 1)]
  }

  /** No row has key `k`. */
  predicate Absent(rows: seq<(Key, real)>, k: Key)
  {
    forall j :: 0 <= j < |rows| ==> rows[j].0 != k
  }

  lemma {:induction false} ValuesWhereAbsent(rows: seq<(Key, real)>, k: Key)
    requires Absent(rows, k)
    ensures ValuesWhere(rows, k) == []
    decreases |rows|
  {
    if rows != [] {
      ValuesWhereAbsent(rows[..|rows| - 1], k);
    }
  }

  /** A key has rows exactly when some row carries it. */
  lemma {:induction false} CountWhereHasKey(rows: seq<(Key, real)>, k: Key)
    ensures CountWhere(rows, k) > 0 <==> HasKey(rows, k)
    decreases |rows|
  {
    if rows != [] {
      var n := |rows| - 1;
      var pre := rows[..n];
      CountWhereHasKey(pre, k);
      if HasKey(pre, k) {
        var j :| 0 <= j < |pre| && pre[j].0 == k;
        assert rows[j].0 == k;
      }
      if HasKey(rows, k) && rows[n].0 != k {
        var j :| 0 <= j < |rows| && rows[j].0 == k;
        assert pre[j].0 == k;
      }
    }
  }

  lemma HasKeyNotAbsent(rows: seq<(Key, real)>, k: Key)
    ensures HasKey(rows, k) <==> !Absent(rows, k)
  {
  }

  /** The running groups of `rows`, one per distinct key, in order of first
      appearance (see `Grouped` for what each group holds). */
  function Accumulate(rows: seq<(Key, real)>): seq<Acc>
  {
    if rows == [] then []
    else Add(Accumulate(rows[..|rows| - 1]), rows[|rows| - 1].0, rows[|rows| - 1].1)
  }

  /** Every group holds the sum and the (positive) count of its key's rows. */
  ghost predicate Totals(rows: seq<(Key, real)>, g: seq<Acc>)
  {
    forall i :: 0 <= i < |g| ==>
      g[i].sum == SumWhere(rows, g[i].key) && g[i].count == CountWhere(rows, g[i].key) > 0
  }

  /** The keys of the groups, in group order. */
  function KeysOf(g: seq<Acc>): (ks: seq<Key>)
    ensures |ks| == |g|
  {
    seq(|g|, i requires 0 <= i < |g| => g[i].key)
  }

  /** Every row's key has a group. */
  ghost predicate Covered(rows: seq<(Key, real)>, g: seq<Acc>)
  {
    forall j :: 0 <= j < |rows| ==> rows[j].0 in KeysOf(g)
  }

  /** `g` holds one group per distinct key of `rows`, with that key's sum and
      count. */
  ghost predicate Grouped(rows: seq<(Key, real)>, g: seq<Acc>)
  {
    DistinctKeys(g) && |g| <= |rows| && Totals(rows, g) && Covered(rows, g)
  }

  lemma ValuesWhereSnoc(pre: seq<(Key, real)>, k: Key, v: real, x: Key)
    ensures ValuesWhere(pre + [(k, v)], x) == ValuesWhere(pre, x) + (if x == k then [v] else [])
  {
    assert (pre + [(k, v)])[..|pre|] == pre;
  }

  lemma SumSnoc(s: seq<real>, v: real)
    ensures Sum(s + [v]) == Sum(s) + v
  {
    assert (s + [v])[..|s|] == s;
  }

  lemma SnocOther(pre: seq<(Key, real)>, k: Key, v: real, x: Key)
    requires x != k
    ensures SumWhere(pre + [(k, v)], x) == SumWhere(pre, x)
    ensures CountWhere(pre + [(k, v)], x) == CountWhere(pre, x)
  {
    ValuesWhereSnoc(pre, k, v, x);
    assert ValuesWhere(pre, x) + [] == ValuesWhere(pre, x);
  }

  lemma SnocSame(pre: seq<(Key, real)>, k: Key, v: real)
    ensures SumWhere(pre + [(k, v)], k) == SumWhere(pre, k) + v
    ensures CountWhere(pre + [(k, v)], k) == CountWhere(pre, k) + 1
  {
    ValuesWhereSnoc(pre, k, v, k);
    SumSnoc(ValuesWhere(pre, k), v);
  }

  lemma NewKeyDistinct(g0: seq<Acc>, a: Acc)
    requires DistinctKeys(g0) && forall i :: 0 <= i < |g0| ==> g0[i].key != a.key
    ensures DistinctKeys(g0 + [a])
  {
    var g := g0 + [a];
    forall i, j | 0 <= i < j < |g| ensures g[i].key != g[j].key {
      assert g[i] == g0[i];
      if j < |g0| {
        assert g[j] == g0[j];
      }
    }
  }

  lemma NewKeyTotals(pre: seq<(Key, real)>, g0: seq<Acc>, k: Key, v: real)
    requires Totals(pre, g0) && ValuesWhere(pre, k) == []
    requires forall i :: 0 <= i < |g0| ==> g0[i].key != k
    ensures Totals(pre + [(k, v)], g0 + [Acc(k, v, 1)])
  {
    var rows := pre + [(k, v)];
    var g := g0 + [Acc(k, v, 1)];
    forall i | 0 <= i < |g|
      ensures g[i].sum == SumWhere(rows, g[i].key) && g[i].count == CountWhere(rows, g[i].key) > 0
    {
      if i < |g0| {
        assert g[i] == g0[i];
        SnocOther(pre, k, v, g0[i].key);
      } else {
        SnocSame(pre, k, v);
      }
    }
  }

  lemma NewKeyCovered(pre: seq<(Key, real)>, g0: seq<Acc>, a: Acc, v: real)
    requires Covered(pre, g0) && a.key !in KeysOf(g0)
    ensures Covered(pre + [(a.key, v)], g0 + [a])
  {
    var rows := pre + [(a.key, v)];
    assert KeysOf(g0 + [a]) == KeysOf(g0) + [a.key];
    forall j | 0 <= j < |rows| ensures rows[j].0 in KeysOf(g0 + [a]) {
      if j < |pre| {
        assert rows[j] == pre[j];
      }
    }
  }

  /** A key with no group has no rows. */
  lemma UncoveredAbsent(pre: seq<(Key, real)>, g0: seq<Acc>, k: Key)
    requires Covered(pre, g0) && k !in KeysOf(g0)
    ensures Absent(pre, k)
  {
  }

  /** `Pos` finds exactly the keys that have a group. */
  lemma PosKeysOf(g: seq<Acc>, k: Key)
    ensures Pos(g, k) < |g| <==> k in KeysOf(g)
  {
    if k in KeysOf(g) {
      var i :| 0 <= i < |g| && KeysOf(g)[i] == k;
      assert Pos(g, k) <= i;
    }
    if Pos(g, k) < |g| {
      assert KeysOf(g)[Pos(g, k)] == k;
    }
  }

  /** Adding a row for a key not seen before appends a new group. */
  lemma AddNewKey(pre: seq<(Key, real)>, g0: seq<Acc>, k: Key, v: real)
    requires Grouped(pre, g0) && Pos(g0, k) == |g0|
    ensures Grouped(pre + [(k, v)], Add(g0, k, v))
  {
    assert Add(g0, k, v) == g0 + [Acc(k, v, 1)];
    PosKeysOf(g0, k);
    NewKeyDistinct(g0, Acc(k, v, 1));
    UncoveredAbsent(pre, g0, k);
    ValuesWhereAbsent(pre, k);
    NewKeyTotals(pre, g0, k, v);
    NewKeyCovered(pre, g0, Acc(k, v, 1), v);
  }

  lemma KnownKeyTotals(pre: seq<(Key, real)>, g0: seq<Acc>, p: nat, v: real)
    requires Totals(pre, g0) && DistinctKeys(g0) && p < |g0|
    ensures Totals(pre + [(g0[p].key, v)], g0[p := Acc(g0[p].key, g0[p].sum + v, g0[p].count + 1)])
    ensures DistinctKeys(g0[p := Acc(g0[p].key, g0[p].sum + v, g0[p].count + 1)])
  {
    var k := g0[p].key;
    var rows := pre + [(k, v)];
    var g := g0[p := Acc(k, g0[p].sum + v, g0[p].count + 1)];
    forall i | 0 <= i < |g|
      ensures g[i].sum == SumWhere(rows, g[i].key) && g[i].count == CountWhere(rows, g[i].key) > 0
    {
      if i != p {
        assert g[i] == g0[i] && g0[i].key != k;
        SnocOther(pre, k, v, g0[i].key);
      } else {
        SnocSame(pre, k, v);
      }
    }
    assert forall i :: 0 <= i < |g| ==> g[i].key == g0[i].key;
  }

  lemma KnownKeyCovered(pre: seq<(Key, real)>, g0: seq<Acc>, p: nat, a: Acc, v: real)
    requires Covered(pre, g0) && p < |g0| && g0[p].key == a.key
    ensures Covered(pre + [(a.key, v)], g0[p := a])
  {
    var rows := pre + [(a.key, v)];
    assert KeysOf(g0[p := a]) == KeysOf(g0);
    assert KeysOf(g0)[p] == a.key;
    forall j | 0 <= j < |rows| ensures rows[j].0 in KeysOf(g0) {
      if j < |pre| {
        assert rows[j] == pre[j];
      }
    }
  }

  /** Adding a row for a known key updates that key's group in place. */
  lemma AddKnownKey(pre: seq<(Key, real)>, g0: seq<Acc>, k: Key, v: real)
    requires Grouped(pre, g0) && Pos(g0, k) < |g0|
    ensures Grouped(pre + [(k, v)], Add(g0, k, v))
  {
    var p := Pos(g0, k);
    var a := Acc(k, g0[p].sum + v, g0[p].count + 1);
    assert Add(g0, k, v) == g0[p := a];
    KnownKeyTotals(pre, g0, p, v);
    KnownKeyCovered(pre, g0, p, a, v);
  }

  lemma {:induction false} AccumulateGrouped(rows: seq<(Key, real)>)
    ensures Grouped(rows, Accumulate(rows))
    decreases |rows|
  {
    if rows != [] {
      var pre := rows[..|rows| - 1];
      var k, v := rows[|rows| - 1].0, rows[|rows| - 1].1;
      assert rows == pre + [(k, v)];
      AccumulateGrouped(pre);
      if Pos(Accumulate(pre), k) < |Accumulate(pre)| {
        AddKnownKey(pre, Accumulate(pre), k, v);
      } else {
        AddNewKey(pre, Accumulate(pre), k, v);
      }
    }
  }

  /** Total of the group sums. */
  function TotalOf(g: seq<Acc>): real
  {
    if g == [] then 0.0 else TotalOf(g[..|g| - 1]) + g[|g| - 1].sum
  }

  lemma {:induction false} TotalOfUpdate(g: seq<Acc>, p: nat, a: Acc)
    requires p < |g|
    ensures TotalOf(g[p := a]) == TotalOf(g) - g[p].sum + a.sum
    decreases |g|
  {
    var h := g[p := a];
    if p < |g| - 1 {
      assert h[..|h| - 1] == g[..|g| - 1][p := a];
      TotalOfUpdate(g[..|g| - 1], p, a);
    } else {
      assert h[..|h| - 1] == g[..|g| - 1];
    }
  }

  lemma TotalOfAdd(g: seq<Acc>, k: Key, v: real)
    ensures TotalOf(Add(g, k, v)) == TotalOf(g) + v
  {
    var p := Pos(g, k);
    if p < |g| {
      TotalOfUpdate(g, p, Acc(k, g[p].sum + v, g[p].count + 1));
    } else {
      assert (g + [Acc(k, v, 1)])[..|g|] == g;
    }
  }

  lemma ValuesSnoc(pre: seq<(Key, real)>, k: Key, v: real)
    ensures Values(pre + [(k, v)]) == Values(pre) + [v]
  {
  }

  /** Aggregation conservation: the group sums add up to the column total. */
  lemma {:induction false} AccumulateConserves(rows: seq<(Key, real)>)
    ensures TotalOf(Accumulate(rows)) == Sum(Values(rows))
    decreases |rows|
  {
    if rows != [] {
      var pre := rows[..|rows| - 1];
      var k, v := rows[|rows| - 1].0, rows[|rows| - 1].1;
      assert rows == pre + [(k, v)];
      AccumulateConserves(pre);
      TotalOfAdd(Accumulate(pre), k, v);
      ValuesSnoc(pre, k, v);
      SumSnoc(Values(pre), v);
    }
  }

  // ---------------------------------------------------------------------------
  // The two aggregations the pipeline uses
  // ---------------------------------------------------------------------------

  /** The groups of `rows` are exactly its keys. */
  lemma GroupedKeys(rows: seq<(Key, real)>, g: seq<Acc>)
    requires Grouped(rows, g)
    ensures forall i :: 0 <= i < |g| ==> HasKey(rows, g[i].key)
    ensures forall k :: HasKey(rows, k) ==> Pos(g, k) < |g|
  {
    forall i | 0 <= i < |g| ensures HasKey(rows, g[i].key) {
      if !HasKey(rows, g[i].key) {
        HasKeyNotAbsent(rows, g[i].key);
        ValuesWhereAbsent(rows, g[i].key);
      }
    }
    forall k | HasKey(rows, k) ensures Pos(g, k) < |g| {
      var j :| 0 <= j < |rows| && rows[j].0 == k;
      PosKeysOf(g, k);
    }
  }

  predicate UniqueKeys(r: seq<(Key, real)>)
  {
    forall i, j :: 0 <= i < j < |r| ==> r[i].0 != r[j].0
  }

  /** `groupby(key).sum()`: one row per distinct key, valued at the sum of
      that key's rows. */
  function GroupSum(rows: seq<(Key, real)>): (r: seq<(Key, real)>)
    ensures UniqueKeys(r)
    ensures |r| <= |rows|
    ensures forall i :: 0 <= i < |r| ==> HasKey(rows, r[i].0) && r[i].1 == SumWhere(rows, r[i].0)
    ensures forall k :: HasKey(rows, k) ==> HasKey(r, k)
  {
    var g := Accumulate(rows);
    AccumulateGrouped(rows);
    GroupedKeys(rows, g);
    var r := seq(|g|, i requires 0 <= i < |g| => (g[i].key, g[i].sum));
    forall k | HasKey(rows, k) ensures HasKey(r, k) {
      assert r[Pos(g, k)].0 == k;
    }
    r
  }

  /** `groupby(key).mean()`: one row per distinct key, valued at the mean of
      that key's rows. */
  function GroupMean(rows: seq<(Key, real)>): (r: seq<(Key, real)>)
    ensures UniqueKeys(r)
    ensures |r| <= |rows|
    ensures forall i :: 0 <= i < |r| ==>
      HasKey(rows, r[i].0) && CountWhere(rows, r[i].0) > 0 &&
      r[i].1 == SumWhere(rows, r[i].0) / (CountWhere(rows, r[i].0) as real)
    ensures forall k :: HasKey(rows, k) ==> HasKey(r, k)
  {
    var g := Accumulate(rows);
    AccumulateGrouped(rows);
    GroupedKeys(rows, g);
    var r := seq(|g|, i requires 0 <= i < |g| => (g[i].key, g[i].sum / (g[i].count as real)));
    forall k | HasKey(rows, k) ensures HasKey(r, k) {
      assert r[Pos(g, k)].0 == k;
    }
    r
  }

  /** Aggregation conservation for additive metrics: the grouped table has
      the same total as the rows that were grouped. */
  lemma GroupSumConserves(rows: seq<(Key, real)>)
    ensures Sum(Values(GroupSum(rows))) == Sum(Values(rows))
  {
    var g := Accumulate(rows);
    AccumulateConserves(rows);
    TotalOfIsSum(g);
  }

  lemma {:induction false} TotalOfIsSum(g: seq<Acc>)
    ensures TotalOf(g) == Sum(Values(seq(|g|, i requires 0 <= i < |g| => (g[i].key, g[i].sum))))
    decreases |g|
  {
    var r := seq(|g|, i requires 0 <= i < |g| => (g[i].key, g[i].sum));
    if g != [] {
      var g' := g[..|g| - 1];
      TotalOfIsSum(g');
      assert Values(r)[..|g| - 1] == Values(seq(|g'|, i requires 0 <= i < |g'| => (g'[i].key, g'[i].sum)));
    }
  }

  /** Value of key `k` in a keyed series (`series.get(k)`). */
  function Lookup(r: seq<(Key, real)>, k: Key): (v: Option<real>)
    ensures v.Some? <==> HasKey(r, k)
    ensures v.Some? ==> exists i :: 0 <= i < |r| && r[i] == (k, v.value)
  {
    if r == [] then None
    else if r[0].0 == k then Some(r[0].1)
    else
      var v := Lookup(r[1..], k);
      assert HasKey(r, k) <==> HasKey(r[1..], k) by {
        if HasKey(r, k) {
          var j :| 0 <= j < |r| && r[j].0 == k;
          assert j > 0 && r[1..][j - 1] == r[j];
        }
        if HasKey(r[1..], k) {
          var j :| 0 <= j < |r[1..]| && r[1..][j].0 == k;
          assert r[j + 1] == r[1..][j];
        }
      }
      if v.Some? then
        var i :| 0 <= i < |r[1..]| && r[1..][i] == (k, v.value);
        assert r[i + 1] == (k, v.value);
        v
      else v
  }

  /** In a series with unique keys, the value found for `k` is the one
      stored at `k`'s position. */
  lemma LookupUnique(r: seq<(Key, real)>, i: nat)
    requires UniqueKeys(r) && i < |r|
    ensures Lookup(r, r[i].0) == Some(r[i].1)
  {
    var v := Lookup(r, r[i].0);
    var j :| 0 <= j < |r| && r[j] == (r[i].0, v.value);
  }
}
