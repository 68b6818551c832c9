// The benchmarking radar shared by the overview modal and the analysis tab:
// historical debt, growth speed against 1970, and the per-column 0-1
// normalisation that rewrites the radar table's columns in place.

module Radar {
  import opened Common
  import opened Tables
  import opened Grouping
  import opened Selection
  import opened Sorting

  // ---------------------------------------------------------------------------
  // Historical debt
  // ---------------------------------------------------------------------------

  function UpTo(year: int): Obs -> bool
  {
    (o: Obs) => o.year <= year
  }

  function ByCountry(o: Obs): Key
  {
    [Name(o.country)]
  }

  /** `df[df["Year"] <= year].groupby("Country")["Value"].sum()`: the
      Cumulative_Debt column. */
  function HistoricalDebt(totals: seq<Obs>, year: int): seq<(Key, real)>
  {
    GroupSum(KeyedRows(totals, UpTo(year), ByCountry))
  }

  /** The emissions of country `c` summed over the years up to `year`. */
  function DebtOf(totals: seq<Obs>, year: int, c: string): real
  {
    GroupTotal(totals, UpTo(year), ByCountry, [Name(c)])
  }

  /** Country `c` has a row up to `year`. */
  ghost predicate EmittedBy(totals: seq<Obs>, year: int, c: string)
  {
    exists o :: o in totals && o.year <= year && o.country == c
  }

  /** The debt table lists a country exactly when it has a row up to the
      year, with the sum of its Values over those years. */
  lemma HistoricalDebtSpec(totals: seq<Obs>, year: int, c: string)
    ensures Lookup(HistoricalDebt(totals, year), [Name(c)])
      == if EmittedBy(totals, year, c) then Some(DebtOf(totals, year, c)) else None
  {
    GroupSumLookup(totals, UpTo(year), ByCountry, [Name(c)]);
    GroupCountPositive(totals, UpTo(year), ByCountry, [Name(c)]);
    if EmittedBy(totals, year, c) {
      var o :| o in totals && o.year <= year && o.country == c;
      assert UpTo(year)(o) && ByCountry(o) == [Name(c)];
    }
  }

  /** With non-negative emissions the debt never shrinks as the slider
      moves forward. */
  lemma {:induction false} DebtMonotone(totals: seq<Obs>, y1: int, y2: int, c: string)
    requires y1 <= y2
    requires forall o :: o in totals ==> o.value >= 0.0
    ensures DebtOf(totals, y1, c) <= DebtOf(totals, y2, c)
    decreases |totals|
  {
    if totals != [] {
      var pre := totals[..|totals| - 1];
      assert forall o :: o in pre ==> o in totals;
      DebtMonotone(pre, y1, y2, c);
      assert totals[|totals| - 1] in totals;
    }
  }

  /** With non-negative emissions the debt is non-negative. */
  lemma {:induction false} DebtNonNegative(totals: seq<Obs>, year: int, c: string)
    requires forall o :: o in totals ==> o.value >= 0.0
    ensures DebtOf(totals, year, c) >= 0.0
    decreases |totals|
  {
    if totals != [] {
      var pre := totals[..|totals| - 1];
      assert forall o :: o in pre ==> o in totals;
      DebtNonNegative(pre, year, c);
      assert totals[|totals| - 1] in totals;
    }
  }

  // ---------------------------------------------------------------------------
  // Top emitters
  // ---------------------------------------------------------------------------

  function ByValue(o: Obs): real
  {
    o.value
  }

  /** `dff_now.nlargest(n, "Value")`: the `n` largest emitters of the year,
      largest first. */
  function TopEmitters(totals: seq<Obs>, year: int, n: nat): (r: seq<Obs>)
    ensures |r| == Min(n, |YearRows(totals, year)|)
    ensures forall o :: o in r ==> o in totals && o.year == year
    ensures forall i, j :: 0 <= i < j < |r| ==> ByValue(r[i]) >= ByValue(r[j])
    ensures forall o, i :: o in totals && o.year == year && o !in r && 0 <= i < |r| ==>
      ByValue(o) <= ByValue(r[i])
  {
    var rows := YearRows(totals, year);
    var r := Largest(rows, n, ByValue);
    forall o | o in r
      ensures o in totals && o.year == year
    {
      assert o in multiset(rows);
    }
    r
  }

  // ---------------------------------------------------------------------------
  // Growth speed
  // ---------------------------------------------------------------------------

  /** `Value / Value_1970` when the 1970 value exists and is positive, else
      1. */
  function GrowthSpeed(value: real, base: Option<real>): (r: real)
    ensures base.Some? && base.value > 0.0 ==> r * base.value == value
    ensures !(base.Some? && base.value > 0.0) ==> r == 1.0
  {
    if base.Some? && base.value > 0.0 then value / base.value else 1.0
  }

  /** A country that emits more than in 1970 grows faster than 1, one that
      emits as much grows at exactly 1. */
  lemma GrowthSpeedCompare(value: real, base: real)
    requires base > 0.0
    ensures value > base <==> GrowthSpeed(value, Some(base)) > 1.0
    ensures value == base <==> GrowthSpeed(value, Some(base)) == 1.0
    ensures value >= 0.0 ==> GrowthSpeed(value, Some(base)) >= 0.0
  {
    var r := GrowthSpeed(value, Some(base));
    assert (r - 1.0) * base == value - base;
    ProductSign(r - 1.0, base);
    ProductSign(r, base);
  }

  lemma ProductSign(x: real, b: real)
    requires b > 0.0
    ensures x > 0.0 <==> x * b > 0.0
    ensures x == 0.0 <==> x * b == 0.0
  {
  }

  // ---------------------------------------------------------------------------
  // Normalisation
  // ---------------------------------------------------------------------------

  /** A column divided by its maximum when that maximum is positive, else
      unchanged (pandas gives `NaN` for the maximum of an empty column, and
      `NaN > 0` is false). */
  function Normalised(s: seq<real>): (r: seq<real>)
    ensures |r| == |s|
  {
    if |s| > 0 && Max(s) > 0.0 then
      var m := Max(s);
      seq(|s|, i requires 0 <= i < |s| => s[i] / m)
    else s
  }

  /** Non-negative columns land in [0, 1]; a column whose maximum is not
      positive is then all zeros and stays so. */
  lemma NormalisedRange(s: seq<real>)
    requires forall i :: 0 <= i < |s| ==> s[i] >= 0.0
    ensures forall i :: 0 <= i < |s| ==> InUnit(Normalised(s)[i])
  {
    if |s| > 0 {
      var m := Max(s);
      forall i | 0 <= i < |s|
        ensures InUnit(Normalised(s)[i])
      {
        if m > 0.0 {
          QuotientInUnit(s[i], m);
        }
      }
    }
  }

  predicate InUnit(x: real)
  {
    0.0 <= x <= 1.0
  }

  lemma QuotientInUnit(x: real, m: real)
    requires 0.0 <= x <= m && m > 0.0
    ensures 0.0 <= x / m <= 1.0
  {
    var q := x / m;
    assert (1.0 - q) * m == m - x;
    ProductSign(1.0 - q, m);
    ProductSign(q, m);
  }

  /** A positive maximum maps to 1. */
  lemma NormalisedMaxIsOne(s: seq<real>)
    requires |s| > 0 && Max(s) > 0.0
    ensures Normalised(s)[ArgMax(s)] == 1.0
  {
    var m := Max(s);
    var k := ArgMax(s);
    assert s[k] == m;
    assert Normalised(s)[k] == s[k] / m;
    QuotientSelf(m);
  }

  lemma QuotientSelf(m: real)
    requires m != 0.0
    ensures m / m == 1.0
  {
  }

  /** Multiplying back by the maximum gives the original column. */
  lemma NormalisedInverse(s: seq<real>, i: nat)
    requires i < |s| && |s| > 0 && Max(s) > 0.0
    ensures Normalised(s)[i] * Max(s) == s[i]
  {
    var m := Max(s);
    assert Normalised(s)[i] == s[i] / m;
    QuotientTimes(s[i], m);
  }

  lemma QuotientTimes(x: real, m: real)
    requires m != 0.0
    ensures (x / m) * m == x
  {
  }

  /** Normalising keeps the order of the rows. */
  lemma NormalisedOrder(s: seq<real>, i: nat, j: nat)
    requires i < |s| && j < |s| && s[i] <= s[j]
    ensures Normalised(s)[i] <= Normalised(s)[j]
  {
    if |s| > 0 && Max(s) > 0.0 {
      var m := Max(s);
      QuotientOrder(s[i], s[j], m);
    }
  }

  lemma QuotientOrder(x: real, y: real, m: real)
    requires x <= y && m > 0.0
    ensures x / m <= y / m
  {
    assert (y / m - x / m) * m == y - x;
    ProductSign(y / m - x / m, m);
  }

  /** Normalising twice is normalising once. */
  lemma NormalisedIdempotent(s: seq<real>)
    ensures Normalised(Normalised(s)) == Normalised(s)
  {
    if |s| > 0 && Max(s) > 0.0 {
      var r := Normalised(s);
      var k := ArgMax(s);
      NormalisedMaxIsOne(s);
      forall i | 0 <= i < |s|
        ensures r[i] <= 1.0
      {
        QuotientOrder(s[i], s[k], Max(s));
      }
      assert Max(r) == 1.0 by {
        assert r[k] == 1.0;
        assert r[k] in r;
      }
      assert Normalised(r) == r;
    }
  }

  /** The in-place loop: finds the column maximum, and divides every cell
      by it when it is positive. */
  method NormaliseColumn(a: array<real>)
    modifies a
    ensures a[..] == Normalised(old(a[..]))
  {
    if a.Length == 0 {
      return;
    }
    var m := a[0];
    var i := 1;
    while i < a.Length
      invariant 1 <= i <= a.Length
      invariant m in a[..i]
      invariant forall j :: 0 <= j < i ==> a[j] <= m
    {
      if a[i] > m {
        m := a[i];
      }
      i := i + 1;
    }
    assert a[..i] == a[..];
    MaxUnique(a[..], m);
    if m > 0.0 {
      ghost var s := a[..];
      i := 0;
      while i < a.Length
        invariant 0 <= i <= a.Length
        invariant forall j :: 0 <= j < i ==> a[j] == s[j] / m
        invariant forall j :: i <= j < a.Length ==> a[j] == s[j]
      {
        a[i] := a[i] / m;
        i := i + 1;
      }
      assert a[..] == Normalised(s);
    }
  }

  /** The maximum is the element that bounds all the others. */
  lemma MaxUnique(s: seq<real>, m: real)
    requires m in s && forall j :: 0 <= j < |s| ==> s[j] <= m
    ensures |s| > 0 && Max(s) == m
  {
    var k :| 0 <= k < |s| && s[k] == m;
    assert Max(s) in s;
  }

  // ---------------------------------------------------------------------------
  // The radar table
  // ---------------------------------------------------------------------------

  /** One country of the radar: current scale, growth speed and historical
      debt. */
  datatype RadarRow = RadarRow(country: string, scale: real, growth: real, debt: real)

  function Scales(rows: seq<RadarRow>): (r: seq<real>)
    ensures |r| == |rows| && forall i :: 0 <= i < |rows| ==> r[i] == rows[i].scale
  {
    seq(|rows|, i requires 0 <= i < |rows| => rows[i].scale)
  }

  function Growths(rows: seq<RadarRow>): (r: seq<real>)
    ensures |r| == |rows| && forall i :: 0 <= i < |rows| ==> r[i] == rows[i].growth
  {
    seq(|rows|, i requires 0 <= i < |rows| => rows[i].growth)
  }

  function Debts(rows: seq<RadarRow>): (r: seq<real>)
    ensures |r| == |rows| && forall i :: 0 <= i < |rows| ==> r[i] == rows[i].debt
  {
    seq(|rows|, i requires 0 <= i < |rows| => rows[i].debt)
  }

  /** The radar table with each of its three metric columns normalised. */
  function NormalisedRows(rows: seq<RadarRow>): (r: seq<RadarRow>)
    ensures |r| == |rows|
  {
    var sc := Normalised(Scales(rows));
    var gr := Normalised(Growths(rows));
    var de := Normalised(Debts(rows));
    seq(|rows|, i requires 0 <= i < |rows| => RadarRow(rows[i].country, sc[i], gr[i], de[i]))
  }

  /** The loop over the three metric columns, each column rewritten in
      place. */
  method NormaliseRadar(rows: seq<RadarRow>) returns (r: seq<RadarRow>)
    ensures r == NormalisedRows(rows)
  {
    var scale := new real[|rows|](i requires 0 <= i < |rows| => rows[i].scale);
    var growth := new real[|rows|](i requires 0 <= i < |rows| => rows[i].growth);
    var debt := new real[|rows|](i requires 0 <= i < |rows| => rows[i].debt);
    assert scale[..] == Scales(rows);
    assert growth[..] == Growths(rows);
    assert debt[..] == Debts(rows);
    NormaliseColumn(scale);
    NormaliseColumn(growth);
    NormaliseColumn(debt);
    r := seq(|rows|, i requires 0 <= i < |rows| reads scale, growth, debt =>
      RadarRow(rows[i].country, scale[i], growth[i], debt[i]));
  }

  /** Normalising keeps the countries, and with non-negative metrics every
      score lies in [0, 1]. */
  lemma NormalisedRowsRange(rows: seq<RadarRow>)
    requires forall i :: 0 <= i < |rows| ==> rows[i].scale >= 0.0 && rows[i].growth >= 0.0 && rows[i].debt >= 0.0
    ensures forall i :: 0 <= i < |rows| ==>
      var n := NormalisedRows(rows)[i];
      n.country == rows[i].country && InUnit(n.scale) && InUnit(n.growth) && InUnit(n.debt)
  {
    NormalisedRange(Scales(rows));
    NormalisedRange(Growths(rows));
    NormalisedRange(Debts(rows));
  }
}
