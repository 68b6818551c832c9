/** The derived tables of the pipeline: the CO2 tables restricted to real
    countries, the per-country running total of emissions, the per-sector
    sums of one year, and the inner-join merges that feed the correlation
    views. */
module Aggregates {
  import opened Common
  import opened Tables
  import opened Reconcile
  import opened Grouping
  import opened Sorting
  import opened Gdp

  // ---------------------------------------------------------------------------
  // CO2 tables
  // ---------------------------------------------------------------------------

  /** `df[df['ISOcode'].isin(REAL_COUNTRY_ISO3)]` over a CO2 sheet melted with
      id columns Country and ISOcode. Unlike the GDP and life-expectancy
      tables, the rows are neither renamed nor collapsed. */
  function Co2Table(t: seq<Melted>, realIsos: set<string>): (r: seq<Obs>)
    ensures forall i :: 0 <= i < |r| ==> r[i].iso in realIsos && r[i] in ObsOfAll(t)
    ensures forall m :: m in t && IdAt(m.ids, 1) in realIsos ==> ObsOfMelted(m) in r
  {
    var all := ObsOfAll(t);
    var r := Filter(all, (o: Obs) => o.iso in realIsos);
    forall m | m in t && IdAt(m.ids, 1) in realIsos
      ensures ObsOfMelted(m) in r
    {
      var j :| 0 <= j < |t| && t[j] == m;
      assert all[j] == ObsOfMelted(m);
    }
    r
  }

  /** The region of a code in `ISO_TO_REGION`, "Other" when it has none
      (`.map(ISO_TO_REGION).fillna("Other")`). */
  function RegionOf(regions: map<string, string>, iso: string): (r: string)
    ensures iso in regions ==> r == regions[iso]
    ensures iso !in regions ==> r == "Other"
  {
    if iso in regions then regions[iso] else "Other"
  }

  // ---------------------------------------------------------------------------
  // get_cumulative_data
  // ---------------------------------------------------------------------------

  /** A CO2 row with its `Cumulative_Value`. */
  datatype CumObs = CumObs(obs: Obs, cumulative: real)

  /** The order of `sort_values(['Country', 'Year'])`. */
  predicate CountryYearLe(a: Obs, b: Obs)
  {
    if a.country == b.country then a.year <= b.year else StrLe(a.country, b.country)
  }

  lemma CountryYearTotal()
    ensures TotalPreorder(CountryYearLe)
  {
    forall a: Obs, b: Obs
      ensures CountryYearLe(a, b) || CountryYearLe(b, a)
    {
      StrLeTotal(a.country, b.country);
    }
    forall a: Obs, b: Obs, c: Obs | CountryYearLe(a, b) && CountryYearLe(b, c)
      ensures CountryYearLe(a, c)
    {
      if a.country != b.country && b.country != c.country {
        StrLeTransitive(a.country, b.country, c.country);
        if a.country == c.country {
          StrLeAntisymmetric(a.country, b.country);
        }
      }
    }
  }

  /** The rows of one country are adjacent. */
  predicate Contiguous(s: seq<Obs>)
  {
    forall i, j, k :: 0 <= i < j < k < |s| && s[i].country == s[k].country ==> s[j].country == s[i].country
  }

  lemma SortedContiguous(s: seq<Obs>)
    requires SortedBy(s, CountryYearLe)
    ensures Contiguous(s)
  {
    forall i, j, k | 0 <= i < j < k < |s| && s[i].country == s[k].country
      ensures s[j].country == s[i].country
    {
      assert CountryYearLe(s[i], s[j]) && CountryYearLe(s[j], s[k]);
      if s[j].country != s[i].country {
        StrLeAntisymmetric(s[i].country, s[j].country);
      }
    }
  }

  /** Sum of the values of the rows of country `c`. */
  function CountryTotal(s: seq<Obs>, c: string): real
  {
    if s == [] then 0.0
    else CountryTotal(s[..|s| - 1], c) + (if s[|s| - 1].country == c then s[|s| - 1].value else 0.0)
  }

  lemma {:induction false} CountryTotalAbsent(s: seq<Obs>, c: string)
    requires forall j :: 0 <= j < |s| ==> s[j].country != c
    ensures CountryTotal(s, c) == 0.0
  {
    if s != [] {
      CountryTotalAbsent(s[..|s| - 1], c);
    }
  }

  /** `groupby('Country')['Value'].cumsum()` over rows whose countries are
      adjacent: each row adds its value to the running total of the row
      before it when that row is of the same country, and starts afresh
      otherwise. */
  function RunningTotals(s: seq<Obs>): (r: seq<real>)
    requires Contiguous(s)
    ensures |r| == |s|
    ensures forall i :: 0 <= i < |s| ==> r[i] == CountryTotal(s[..i + 1], s[i].country)
  {
    if s == [] then []
    else
      var n := |s| - 1;
      ContiguousPrefix(s, n);
      var pre := RunningTotals(s[..n]);
      var prev := if n > 0 && s[n - 1].country == s[n].country then pre[n - 1] else 0.0;
      RunningLast(s, pre);
      RunningPrefix(s, pre);
      pre + [prev + s[n].value]
  }

  lemma ContiguousPrefix(s: seq<Obs>, n: nat)
    requires Contiguous(s) && n <= |s|
    ensures Contiguous(s[..n])
  {
  }

  lemma RunningPrefix(s: seq<Obs>, pre: seq<real>)
    requires |s| > 0 && |pre| == |s| - 1
    requires forall i :: 0 <= i < |pre| ==> pre[i] == CountryTotal(s[..|s| - 1][..i + 1], s[..|s| - 1][i].country)
    ensures forall i :: 0 <= i < |pre| ==> pre[i] == CountryTotal(s[..i + 1], s[i].country)
  {
    forall i | 0 <= i < |pre|
      ensures pre[i] == CountryTotal(s[..i + 1], s[i].country)
    {
      assert s[..|s| - 1][..i + 1] == s[..i + 1];
    }
  }

  lemma RunningLast(s: seq<Obs>, pre: seq<real>)
    requires |s| > 0 && Contiguous(s) && |pre| == |s| - 1
    requires forall i :: 0 <= i < |pre| ==> pre[i] == CountryTotal(s[..|s| - 1][..i + 1], s[..|s| - 1][i].country)
    ensures var n := |s| - 1;
      (if n > 0 && s[n - 1].country == s[n].country then pre[n - 1] else 0.0) + s[n].value
        == CountryTotal(s[..n + 1], s[n].country)
  {
    var n := |s| - 1;
    var c := s[n].country;
    assert s[..n + 1] == s;
    assert s[..n + 1][..n] == s[..n];
    if n > 0 && s[n - 1].country == c {
      assert s[..n][..n] == s[..n];
    } else {
      forall j | 0 <= j < n
        ensures s[..n][j].country != c
      {
      }
      CountryTotalAbsent(s[..n], c);
    }
  }

  function Rows(r: seq<CumObs>): (s: seq<Obs>)
    ensures |s| == |r|
    ensures forall i :: 0 <= i < |r| ==> s[i] == r[i].obs
  {
    seq(|r|, i requires 0 <= i < |r| => r[i].obs)
  }

  /** `get_cumulative_data`: the CO2 totals sorted by country and year, each
      row carrying the sum of its country's values up to and including it. */
  function CumulativeData(totals: seq<Obs>): (r: seq<CumObs>)
    ensures multiset(Rows(r)) == multiset(totals)
    ensures SortedBy(Rows(r), CountryYearLe)
    ensures forall i :: 0 <= i < |r| ==> r[i].cumulative == CountryTotal(Rows(r)[..i + 1], r[i].obs.country)
  {
    var sorted := Sort(totals, CountryYearLe);
    CountryYearTotal();
    SortSorted(totals, CountryYearLe);
    SortedContiguous(sorted);
    var run := RunningTotals(sorted);
    var r := seq(|sorted|, i requires 0 <= i < |sorted| => CumObs(sorted[i], run[i]));
    assert Rows(r) == sorted;
    r
  }

  /** With non-negative emissions a country's running total never falls as
      the years go by. */
  lemma CumulativeMonotone(totals: seq<Obs>, i: nat, j: nat)
    requires forall k :: 0 <= k < |totals| ==> totals[k].value >= 0.0
    requires i <= j < |CumulativeData(totals)|
    requires CumulativeData(totals)[i].obs.country == CumulativeData(totals)[j].obs.country
    ensures CumulativeData(totals)[i].cumulative <= CumulativeData(totals)[j].cumulative
  {
    var r := CumulativeData(totals);
    NonNegativePerm(totals, Rows(r));
    RowsMonotone(r, i, j);
  }

  lemma RowsMonotone(r: seq<CumObs>, i: nat, j: nat)
    requires i <= j < |r| && r[i].obs.country == r[j].obs.country
    requires forall k :: 0 <= k < |r| ==> r[k].obs.value >= 0.0
    requires forall k :: 0 <= k < |r| ==> r[k].cumulative == CountryTotal(Rows(r)[..k + 1], r[k].obs.country)
    ensures r[i].cumulative <= r[j].cumulative
  {
    PrefixMonotone(Rows(r), r[i].obs.country, i + 1, j + 1);
  }

  lemma NonNegativePerm(totals: seq<Obs>, s: seq<Obs>)
    requires forall k :: 0 <= k < |totals| ==> totals[k].value >= 0.0
    requires multiset(s) == multiset(totals)
    ensures forall k :: 0 <= k < |s| ==> s[k].value >= 0.0
  {
    forall k | 0 <= k < |s|
      ensures s[k].value >= 0.0
    {
      assert s[k] in multiset(totals);
      var m :| 0 <= m < |totals| && totals[m] == s[k];
    }
  }

  lemma {:induction false} PrefixMonotone(s: seq<Obs>, c: string, i: nat, j: nat)
    requires i <= j <= |s|
    requires forall k :: 0 <= k < |s| ==> s[k].value >= 0.0
    ensures CountryTotal(s[..i], c) <= CountryTotal(s[..j], c)
    decreases j
  {
    if i < j {
      PrefixMonotone(s, c, i, j - 1);
      assert s[..j][..j - 1] == s[..j - 1];
    }
  }

  /** The running total of a country's last row is the country's total over
      the whole CO2 table. */
  lemma CumulativeLast(totals: seq<Obs>, i: nat)
    requires i < |CumulativeData(totals)|
    requires forall j :: i < j < |CumulativeData(totals)| ==>
      CumulativeData(totals)[j].obs.country != CumulativeData(totals)[i].obs.country
    ensures CumulativeData(totals)[i].cumulative == CountryTotal(totals, CumulativeData(totals)[i].obs.country)
  {
    var r := CumulativeData(totals);
    var s := Rows(r);
    var c := r[i].obs.country;
    LastOfCountry(s, i, c);
    CountryTotalPerm(s, totals, c);
  }

  lemma LastOfCountry(s: seq<Obs>, i: nat, c: string)
    requires i < |s|
    requires forall j :: i < j < |s| ==> s[j].country != c
    ensures CountryTotal(s[..i + 1], c) == CountryTotal(s, c)
  {
    assert s == s[..i + 1] + s[i + 1..];
    CountryTotalAppend(s[..i + 1], s[i + 1..], c);
    CountryTotalAbsent(s[i + 1..], c);
  }

  lemma {:induction false} CountryTotalAppend(a: seq<Obs>, b: seq<Obs>, c: string)
    ensures CountryTotal(a + b, c) == CountryTotal(a, c) + CountryTotal(b, c)
    decreases |b|
  {
    if b == [] {
      assert a + b == a;
    } else {
      assert (a + b)[..|a + b| - 1] == a + b[..|b| - 1];
      CountryTotalAppend(a, b[..|b| - 1], c);
    }
  }

  /** The total of a country does not depend on the order of the rows. */
  lemma {:induction false} CountryTotalPerm(s: seq<Obs>, t: seq<Obs>, c: string)
    requires multiset(s) == multiset(t)
    ensures CountryTotal(s, c) == CountryTotal(t, c)
    decreases |s|
  {
    if s == [] {
      assert |t| == |multiset(t)| == 0;
    } else {
      var n := |s| - 1;
      var x := s[n];
      assert s == s[..n] + [x];
      assert x in multiset(t);
      var j :| 0 <= j < |t| && t[j] == x;
      var rest := t[..j] + t[j + 1..];
      assert t == t[..j] + [x] + t[j + 1..];
      assert multiset(t) == multiset(t[..j]) + multiset{x} + multiset(t[j + 1..]);
      assert multiset(s) == multiset(s[..n]) + multiset{x};
      assert multiset(rest) == multiset(t[..j]) + multiset(t[j + 1..]);
      assert multiset(s[..n]) == multiset(s) - multiset{x};
      assert multiset(rest) == multiset(t) - multiset{x};
      CountryTotalPerm(s[..n], rest, c);
      CountryTotalAppend(t[..j] + [x], t[j + 1..], c);
      CountryTotalAppend(t[..j], [x], c);
      CountryTotalAppend(t[..j], t[j + 1..], c);
      CountryTotalAppend(s[..n], [x], c);
    }
  }

  // ---------------------------------------------------------------------------
  // get_sector_summary
  // ---------------------------------------------------------------------------

  /** The Sector cell of a row melted with id columns Country, ISOcode, Sector. */
  function SectorOf(m: Melted): string
  {
    IdAt(m.ids, 2)
  }

  /** `df_sectors[df_sectors['Year'] == year]`, keyed by Sector for the
      group-by. */
  function SectorRows(sectors: seq<Melted>, year: int): seq<(Key, real)>
  {
    if sectors == [] then []
    else
      var m := sectors[|sectors| - 1];
      SectorRows(sectors[..|sectors| - 1], year) + (if m.year == year then [([Name(SectorOf(m))], m.value)] else [])
  }

  /** `get_sector_summary(year)`: the year's rows summed per sector. */
  function SectorSummary(sectors: seq<Melted>, year: int): seq<(Key, real)>
  {
    GroupSum(SectorRows(sectors, year))
  }

  /** Sum of the values of sector `name` in `year`. */
  function SectorTotal(sectors: seq<Melted>, year: int, name: string): real
  {
    if sectors == [] then 0.0
    else
      var m := sectors[|sectors| - 1];
      SectorTotal(sectors[..|sectors| - 1], year, name) + (if m.year == year && SectorOf(m) == name then m.value else 0.0)
  }

  /** Sum of all values of `year`. */
  function YearTotal(sectors: seq<Melted>, year: int): real
  {
    if sectors == [] then 0.0
    else
      var m := sectors[|sectors| - 1];
      YearTotal(sectors[..|sectors| - 1], year) + (if m.year == year then m.value else 0.0)
  }

  /** One row per sector present in `year`, each the sum of that sector's
      values in that year, and together they add up to the year's total. */
  lemma SectorSummarySpec(sectors: seq<Melted>, year: int)
    ensures var r := SectorSummary(sectors, year);
      && UniqueKeys(r)
      && (forall i :: 0 <= i < |r| ==> exists m :: m in sectors && m.year == year && r[i].0 == [Name(SectorOf(m))])
      && (forall i :: 0 <= i < |r| ==> |r[i].0| == 1 && r[i].0[0].Name? && r[i].1 == SectorTotal(sectors, year, r[i].0[0].text))
      && (forall m :: m in sectors && m.year == year ==> HasKey(r, [Name(SectorOf(m))]))
      && Sum(Values(r)) == YearTotal(sectors, year)
  {
    var rows := SectorRows(sectors, year);
    var r := GroupSum(rows);
    GroupSumConserves(rows);
    SectorRowsTotal(sectors, year);
    forall i | 0 <= i < |r|
      ensures exists m :: m in sectors && m.year == year && r[i].0 == [Name(SectorOf(m))]
      ensures |r[i].0| == 1 && r[i].0[0].Name? && r[i].1 == SectorTotal(sectors, year, r[i].0[0].text)
    {
      var j :| 0 <= j < |rows| && rows[j].0 == r[i].0;
      var m := SectorRowOrigin(sectors, year, j);
      SectorRowsSum(sectors, year, SectorOf(m));
    }
    forall m | m in sectors && m.year == year
      ensures HasKey(r, [Name(SectorOf(m))])
    {
      SectorRowsHave(sectors, year, m);
    }
  }

  lemma {:induction false} SectorRowOrigin(sectors: seq<Melted>, year: int, j: nat) returns (m: Melted)
    requires j < |SectorRows(sectors, year)|
    ensures m in sectors && m.year == year
    ensures SectorRows(sectors, year)[j] == ([Name(SectorOf(m))], m.value)
    decreases |sectors|
  {
    var n := |sectors| - 1;
    var pre := SectorRows(sectors[..n], year);
    if j < |pre| {
      m := SectorRowOrigin(sectors[..n], year, j);
    } else {
      m := sectors[n];
    }
  }

  lemma {:induction false} SectorRowsHave(sectors: seq<Melted>, year: int, m: Melted)
    requires m in sectors && m.year == year
    ensures HasKey(SectorRows(sectors, year), [Name(SectorOf(m))])
    decreases |sectors|
  {
    var n := |sectors| - 1;
    var rows := SectorRows(sectors, year);
    var pre := SectorRows(sectors[..n], year);
    if sectors[n] == m {
      assert rows[|rows| - 1].0 == [Name(SectorOf(m))];
    } else {
      assert m in sectors[..n];
      SectorRowsHave(sectors[..n], year, m);
      var j :| 0 <= j < |pre| && pre[j].0 == [Name(SectorOf(m))];
      assert rows[j] == pre[j];
    }
  }

  lemma {:induction false} SectorRowsSum(sectors: seq<Melted>, year: int, name: string)
    ensures SumWhere(SectorRows(sectors, year), [Name(name)]) == SectorTotal(sectors, year, name)
    decreases |sectors|
  {
    if sectors != [] {
      var n := |sectors| - 1;
      var m := sectors[n];
      var pre := SectorRows(sectors[..n], year);
      SectorRowsSum(sectors[..n], year, name);
      if m.year == year {
        var k: Key := [Name(SectorOf(m))];
        if SectorOf(m) == name {
          SnocSame(pre, k, m.value);
        } else {
          assert k != [Name(name)] by { assert k[0] != Name(name); }
          SnocOther(pre, k, m.value, [Name(name)]);
        }
      } else {
        assert SectorRows(sectors, year) == pre;
      }
    }
  }

  lemma {:induction false} SectorRowsTotal(sectors: seq<Melted>, year: int)
    ensures Sum(Values(SectorRows(sectors, year))) == YearTotal(sectors, year)
    decreases |sectors|
  {
    if sectors != [] {
      var n := |sectors| - 1;
      var m := sectors[n];
      var pre := SectorRows(sectors[..n], year);
      SectorRowsTotal(sectors[..n], year);
      if m.year == year {
        var rows := SectorRows(sectors, year);
        assert Values(rows) == Values(pre) + [m.value];
        SumAppend(Values(pre), [m.value]);
        assert Sum([m.value]) == m.value by { assert [m.value][..0] == []; }
      } else {
        assert SectorRows(sectors, year) == pre;
      }
    }
  }

  // ---------------------------------------------------------------------------
  // get_correlation_data
  // ---------------------------------------------------------------------------

  /** A row of `get_correlation_data`: Total_Emissions and Per_Capita of one
      (Country, ISOcode, Year). */
  datatype Emissions = Emissions(country: string, iso: string, year: int, total: real, perCapita: real)

  predicate SameKey(a: Obs, b: Obs)
  {
    a.country == b.country && a.iso == b.iso && a.year == b.year
  }

  function EmissionsOf(t: Obs, c: Obs): Emissions
  {
    Emissions(t.country, t.iso, t.year, t.value, c.value)
  }

  /** `pd.merge(df_totals, df_capita, on=['Country', 'ISOcode', 'Year'])`:
      every row pairs a totals row and a per-capita row of the same country,
      code and year, and every such pair is present. */
  function CorrelationData(totals: seq<Obs>, capita: seq<Obs>): (r: seq<Emissions>)
    ensures |r| <= |totals| * |capita|
    ensures forall k :: 0 <= k < |r| ==> FromJoin(r[k], totals, capita, SameKey, EmissionsOf)
    ensures forall t, c :: t in totals && c in capita && SameKey(t, c) ==> EmissionsOf(t, c) in r
  {
    Join(totals, capita, SameKey, EmissionsOf)
  }

  // ---------------------------------------------------------------------------
  // Three-way merges on (ISOcode, Year)
  // ---------------------------------------------------------------------------

  predicate SameIsoYear(a: Obs, b: Obs)
  {
    a.iso == b.iso && a.year == b.year
  }

  function Pair(a: Obs, b: Obs): (Obs, Obs)
  {
    (a, b)
  }

  predicate PairOn(p: (Obs, Obs), t: Obs)
  {
    SameIsoYear(p.0, t)
  }

  function Triple(p: (Obs, Obs), t: Obs): (Obs, Obs, Obs)
  {
    (p.0, p.1, t)
  }

  /** `q` takes one row from each table, all three of the same ISOcode and
      Year. */
  predicate Matched(q: (Obs, Obs, Obs), a: seq<Obs>, b: seq<Obs>, c: seq<Obs>)
  {
    q.0 in a && q.1 in b && q.2 in c && SameIsoYear(q.0, q.1) && SameIsoYear(q.0, q.2)
  }

  /** `pd.merge(pd.merge(a, b, on=["ISOcode", "Year"]), c, on=["ISOcode", "Year"])`. */
  function Join3(a: seq<Obs>, b: seq<Obs>, c: seq<Obs>): (r: seq<(Obs, Obs, Obs)>)
    ensures forall k :: 0 <= k < |r| ==> Matched(r[k], a, b, c)
    ensures forall x, y, z :: Matched((x, y, z), a, b, c) ==> (x, y, z) in r
  {
    var ab := Join(a, b, SameIsoYear, Pair);
    var r := Join(ab, c, PairOn, Triple);
    Join3Sound(a, b, c, ab, r);
    forall x, y, z | Matched((x, y, z), a, b, c)
      ensures (x, y, z) in r
    {
      assert Pair(x, y) in ab;
      assert Triple((x, y), z) in r;
    }
    r
  }

  lemma Join3Sound(a: seq<Obs>, b: seq<Obs>, c: seq<Obs>, ab: seq<(Obs, Obs)>, r: seq<(Obs, Obs, Obs)>)
    requires forall k :: 0 <= k < |ab| ==> FromJoin(ab[k], a, b, SameIsoYear, Pair)
    requires forall k :: 0 <= k < |r| ==> FromJoin(r[k], ab, c, PairOn, Triple)
    ensures forall k :: 0 <= k < |r| ==> Matched(r[k], a, b, c)
  {
    forall k | 0 <= k < |r|
      ensures Matched(r[k], a, b, c)
    {
      var p, t :| p in ab && t in c && PairOn(p, t) && r[k] == Triple(p, t);
      var j :| 0 <= j < |ab| && ab[j] == p;
      var x, y :| x in a && y in b && SameIsoYear(x, y) && p == Pair(x, y);
    }
  }

  // ---------------------------------------------------------------------------
  // get_merged_for_correlation
  // ---------------------------------------------------------------------------

  /** A row of `get_merged_for_correlation`. */
  datatype CorrRow = CorrRow(
    iso: string, country: string, year: int,
    co2pc: real, gdppc: real, co2total: real, population: real, region: string)

  /** Both per-capita values positive: `(CO2_pc > 0) & (GDP_pc > 0)`. */
  predicate PositivePc(q: (Obs, Obs, Obs))
  {
    q.0.value > 0.0 && q.1.value > 0.0
  }

  /** The merged row of a (per-capita CO2, per-capita GDP, total CO2)
      triple; Population is the proxy `CO2_total / CO2_pc`. */
  function CorrRowOf(q: (Obs, Obs, Obs), regions: map<string, string>): CorrRow
    requires q.0.value != 0.0
  {
    CorrRow(q.0.iso, q.0.country, q.0.year, q.0.value, q.1.value, q.2.value, q.2.value / q.0.value, RegionOf(regions, q.0.iso))
  }

  function CorrRows(kept: seq<(Obs, Obs, Obs)>, regions: map<string, string>): (r: seq<CorrRow>)
    requires forall i :: 0 <= i < |kept| ==> PositivePc(kept[i])
    ensures |r| == |kept|
    ensures forall i :: 0 <= i < |kept| ==> PositivePc(kept[i]) && r[i] == CorrRowOf(kept[i], regions)
  {
    seq(|kept|, i requires 0 <= i < |kept| => assert PositivePc(kept[i]); CorrRowOf(kept[i], regions))
  }

  /** `get_merged_for_correlation`. pandas divides before it filters; the
      rows a zero CO2_pc would make infinite are the ones the filter drops,
      so the model filters first. */
  function MergedForCorrelation(capita: seq<Obs>, gdpCapita: seq<Obs>, totals: seq<Obs>, regions: map<string, string>): seq<CorrRow>
  {
    CorrRows(Filter(Join3(capita, gdpCapita, totals), PositivePc), regions)
  }

  /** Every row has positive per-capita values, a population proxy that
      multiplies back to the CO2 total, and the region of its ISOcode. */
  lemma MergedForCorrelationRows(capita: seq<Obs>, gdpCapita: seq<Obs>, totals: seq<Obs>, regions: map<string, string>)
    ensures var r := MergedForCorrelation(capita, gdpCapita, totals, regions);
      forall k :: 0 <= k < |r| ==>
        && r[k].co2pc > 0.0 && r[k].gdppc > 0.0
        && r[k].population == r[k].co2total / r[k].co2pc
        && r[k].region == RegionOf(regions, r[k].iso)
  {
    CorrRowsSpec(Filter(Join3(capita, gdpCapita, totals), PositivePc), regions);
  }

  /** Every row is built from a per-capita CO2 row, a per-capita GDP row and
      a totals row of the same ISOcode and Year, both per-capita values
      positive. */
  lemma MergedForCorrelationSound(capita: seq<Obs>, gdpCapita: seq<Obs>, totals: seq<Obs>, regions: map<string, string>)
    ensures var r := MergedForCorrelation(capita, gdpCapita, totals, regions);
      forall k :: 0 <= k < |r| ==> CorrFrom(r[k], capita, gdpCapita, totals, regions)
  {
    var joined := Join3(capita, gdpCapita, totals);
    CorrRowsSound(joined, Filter(joined, PositivePc), capita, gdpCapita, totals, regions);
  }

  /** Every matching triple with positive per-capita values gives a row. */
  lemma MergedForCorrelationComplete(capita: seq<Obs>, gdpCapita: seq<Obs>, totals: seq<Obs>, regions: map<string, string>)
    ensures var r := MergedForCorrelation(capita, gdpCapita, totals, regions);
      forall x, y, z :: Matched((x, y, z), capita, gdpCapita, totals) && x.value > 0.0 && y.value > 0.0 ==>
        CorrRowOf((x, y, z), regions) in r
  {
    var joined := Join3(capita, gdpCapita, totals);
    CorrRowsComplete(joined, Filter(joined, PositivePc), capita, gdpCapita, totals, regions);
  }

  /** `row` is built from a matching triple with positive per-capita values. */
  ghost predicate CorrFrom(row: CorrRow, capita: seq<Obs>, gdpCapita: seq<Obs>, totals: seq<Obs>, regions: map<string, string>)
  {
    exists q :: Matched(q, capita, gdpCapita, totals) && PositivePc(q) && row == CorrRowOf(q, regions)
  }

  lemma CorrRowsSpec(kept: seq<(Obs, Obs, Obs)>, regions: map<string, string>)
    requires forall i :: 0 <= i < |kept| ==> PositivePc(kept[i])
    ensures var r := CorrRows(kept, regions);
      forall k :: 0 <= k < |r| ==>
        && r[k].co2pc > 0.0 && r[k].gdppc > 0.0
        && r[k].population == r[k].co2total / r[k].co2pc
        && r[k].region == RegionOf(regions, r[k].iso)
  {
  }

  lemma CorrRowsSound(joined: seq<(Obs, Obs, Obs)>, kept: seq<(Obs, Obs, Obs)>,
                      capita: seq<Obs>, gdpCapita: seq<Obs>, totals: seq<Obs>, regions: map<string, string>)
    requires forall k :: 0 <= k < |joined| ==> Matched(joined[k], capita, gdpCapita, totals)
    requires forall i :: 0 <= i < |kept| ==> PositivePc(kept[i])
    requires forall x :: x in kept ==> x in joined
    ensures var r := CorrRows(kept, regions);
      forall k :: 0 <= k < |r| ==> CorrFrom(r[k], capita, gdpCapita, totals, regions)
  {
    var r := CorrRows(kept, regions);
    forall k | 0 <= k < |r|
      ensures CorrFrom(r[k], capita, gdpCapita, totals, regions)
    {
      assert kept[k] in kept;
      var j :| 0 <= j < |joined| && joined[j] == kept[k];
      assert Matched(kept[k], capita, gdpCapita, totals) && PositivePc(kept[k]) && r[k] == CorrRowOf(kept[k], regions);
    }
  }

  lemma CorrRowsComplete(joined: seq<(Obs, Obs, Obs)>, kept: seq<(Obs, Obs, Obs)>,
                         capita: seq<Obs>, gdpCapita: seq<Obs>, totals: seq<Obs>, regions: map<string, string>)
    requires forall x, y, z :: Matched((x, y, z), capita, gdpCapita, totals) ==> (x, y, z) in joined
    requires forall i :: 0 <= i < |kept| ==> PositivePc(kept[i])
    requires forall i :: 0 <= i < |joined| && PositivePc(joined[i]) ==> joined[i] in kept
    ensures var r := CorrRows(kept, regions);
      forall x, y, z :: Matched((x, y, z), capita, gdpCapita, totals) && x.value > 0.0 && y.value > 0.0 ==>
        CorrRowOf((x, y, z), regions) in r
  {
    var r := CorrRows(kept, regions);
    forall x, y, z | Matched((x, y, z), capita, gdpCapita, totals) && x.value > 0.0 && y.value > 0.0
      ensures CorrRowOf((x, y, z), regions) in r
    {
      var j :| 0 <= j < |joined| && joined[j] == (x, y, z);
      var i :| 0 <= i < |kept| && kept[i] == (x, y, z);
      assert r[i] == CorrRowOf(kept[i], regions);
    }
  }

  // ---------------------------------------------------------------------------
  // get_merged_life_progress
  // ---------------------------------------------------------------------------

  /** A row of `get_merged_life_progress`. */
  datatype LifeRow = LifeRow(
    iso: string, country: string, year: int,
    valueCapita: real, valueTotal: real, proxy: real, life: real, region: string)

  /** Every ISOcode cleaned with `.astype(str).str.strip().str.replace('"', '')`. */
  function CleanIsos(s: seq<Obs>): (r: seq<Obs>)
    ensures |r| == |s|
    ensures forall i :: 0 <= i < |s| ==> r[i] == s[i].(iso := CleanIso(s[i].iso))
  {
    seq(|s|, i requires 0 <= i < |s| => s[i].(iso := CleanIso(s[i].iso)))
  }

  /** `Population_Proxy`: total over per-capita when the per-capita value is
      positive, 1 otherwise. */
  function Proxy(total: real, capita: real): real
  {
    if capita > 0.0 then total / capita else 1.0
  }

  /** The merged row of a (per-capita CO2, total CO2, life expectancy)
      triple; Country comes from the CO2 table. */
  function LifeRowOf(q: (Obs, Obs, Obs), regions: map<string, string>): LifeRow
  {
    LifeRow(q.0.iso, q.0.country, q.0.year, q.0.value, q.1.value, Proxy(q.1.value, q.0.value), q.2.value, RegionOf(regions, q.0.iso))
  }

  /** `Value_capita > 0` and `Life_Expectancy > 0`, read on the source rows. */
  predicate LifePositive(q: (Obs, Obs, Obs))
  {
    q.0.value > 0.0 && q.2.value > 0.0
  }

  function LifeRows(qs: seq<(Obs, Obs, Obs)>, regions: map<string, string>): (r: seq<LifeRow>)
    ensures |r| == |qs|
    ensures forall i :: 0 <= i < |qs| ==> r[i] == LifeRowOf(qs[i], regions)
  {
    seq(|qs|, i requires 0 <= i < |qs| => LifeRowOf(qs[i], regions))
  }

  /** `get_merged_life_progress`: the ISOcodes of the three tables are
      cleaned, then merged. */
  function MergedLifeProgress(capita: seq<Obs>, totals: seq<Obs>, life: seq<Obs>, regions: map<string, string>): seq<LifeRow>
  {
    LifeMerge(CleanIsos(capita), CleanIsos(totals), CleanIsos(life), regions)
  }

  /** The merges and filters of `get_merged_life_progress` on tables whose
      ISOcodes are already cleaned. The two filters read Value_capita and
      Life_Expectancy, which are copied unchanged from the per-capita and
      life rows, so the model filters the triples before building rows. */
  function LifeMerge(a: seq<Obs>, b: seq<Obs>, c: seq<Obs>, regions: map<string, string>): seq<LifeRow>
  {
    LifeRows(Filter(Join3(a, b, c), LifePositive), regions)
  }

  /** Every row has a positive per-capita value and life expectancy, a
      proxy equal to total over per-capita, and the region of its ISOcode. */
  lemma MergedLifeProgressRows(a: seq<Obs>, b: seq<Obs>, c: seq<Obs>, regions: map<string, string>)
    ensures var r := LifeMerge(a, b, c, regions);
      forall k :: 0 <= k < |r| ==>
        && r[k].valueCapita > 0.0 && r[k].life > 0.0
        && r[k].proxy == r[k].valueTotal / r[k].valueCapita
        && r[k].region == RegionOf(regions, r[k].iso)
  {
    LifeRowsValues(Filter(Join3(a, b, c), LifePositive), regions);
  }

  lemma LifeRowsValues(kept: seq<(Obs, Obs, Obs)>, regions: map<string, string>)
    requires forall i :: 0 <= i < |kept| ==> LifePositive(kept[i])
    ensures var r := LifeRows(kept, regions);
      forall k :: 0 <= k < |r| ==>
        && r[k].valueCapita > 0.0 && r[k].life > 0.0
        && r[k].proxy == r[k].valueTotal / r[k].valueCapita
        && r[k].region == RegionOf(regions, r[k].iso)
  {
  }

  /** `row` is built from a triple of the same ISOcode and Year. */
  ghost predicate LifeFrom(row: LifeRow, a: seq<Obs>, b: seq<Obs>, c: seq<Obs>, regions: map<string, string>)
  {
    exists q :: Matched(q, a, b, c) && row == LifeRowOf(q, regions)
  }

  /** Every row joins a per-capita row, a totals row and a life row of the
      same ISOcode and Year; Country comes from the per-capita row. */
  lemma MergedLifeProgressSound(a: seq<Obs>, b: seq<Obs>, c: seq<Obs>, regions: map<string, string>)
    ensures var r := LifeMerge(a, b, c, regions);
      forall k :: 0 <= k < |r| ==> LifeFrom(r[k], a, b, c, regions)
  {
    var joined := Join3(a, b, c);
    LifeRowsSound(joined, Filter(joined, LifePositive), a, b, c, regions);
  }

  lemma LifeRowsSound(joined: seq<(Obs, Obs, Obs)>, kept: seq<(Obs, Obs, Obs)>,
                      a: seq<Obs>, b: seq<Obs>, c: seq<Obs>, regions: map<string, string>)
    requires forall k :: 0 <= k < |joined| ==> Matched(joined[k], a, b, c)
    requires forall x :: x in kept ==> x in joined
    ensures var r := LifeRows(kept, regions);
      forall k :: 0 <= k < |r| ==> LifeFrom(r[k], a, b, c, regions)
  {
    var r := LifeRows(kept, regions);
    forall k | 0 <= k < |r|
      ensures LifeFrom(r[k], a, b, c, regions)
    {
      assert kept[k] in kept;
      var j :| 0 <= j < |joined| && joined[j] == kept[k];
      assert Matched(kept[k], a, b, c) && r[k] == LifeRowOf(kept[k], regions);
    }
  }

  /** Every triple of the same ISOcode and Year with a positive per-capita
      value and life expectancy gives a row. */
  lemma MergedLifeProgressComplete(a: seq<Obs>, b: seq<Obs>, c: seq<Obs>, regions: map<string, string>)
    ensures forall x, y, z :: Matched((x, y, z), a, b, c) && x.value > 0.0 && z.value > 0.0 ==>
      LifeRowOf((x, y, z), regions) in LifeMerge(a, b, c, regions)
  {
    var joined := Join3(a, b, c);
    LifeRowsComplete(joined, Filter(joined, LifePositive), a, b, c, regions);
  }

  lemma LifeRowsComplete(joined: seq<(Obs, Obs, Obs)>, kept: seq<(Obs, Obs, Obs)>,
                         a: seq<Obs>, b: seq<Obs>, c: seq<Obs>, regions: map<string, string>)
    requires forall x, y, z :: Matched((x, y, z), a, b, c) ==> (x, y, z) in joined
    requires forall i :: 0 <= i < |joined| && LifePositive(joined[i]) ==> joined[i] in kept
    ensures forall x, y, z :: Matched((x, y, z), a, b, c) && x.value > 0.0 && z.value > 0.0 ==>
      LifeRowOf((x, y, z), regions) in LifeRows(kept, regions)
  {
    var r := LifeRows(kept, regions);
    forall x, y, z | Matched((x, y, z), a, b, c) && x.value > 0.0 && z.value > 0.0
      ensures LifeRowOf((x, y, z), regions) in r
    {
      var j :| 0 <= j < |joined| && joined[j] == (x, y, z);
      var i :| 0 <= i < |kept| && kept[i] == (x, y, z);
      assert r[i] == LifeRowOf(kept[i], regions);
    }
  }
}
