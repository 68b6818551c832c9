/** `load_gdp`: a World Bank GDP table (wide, one column per year) becomes a
    long table of reconciled countries, one row per (Country, ISOcode, Year),
    restricted to the CO2 year range and to the real countries. */
module Gdp {
  import opened Common
  import opened Tables
  import opened Reconcile
  import opened Metadata
  import opened Grouping

  /** The id columns of the World Bank layout. */
  const GdpIdVars: seq<string> := ["Country Name", "Country Code"]

  /** `[c for c in columns if str(c).isdigit()]`, as positions. */
  function DigitColumns(h: seq<string>): (r: seq<nat>)
    ensures forall i :: 0 <= i < |r| ==> r[i] < |h| && IsDigits(h[r[i]])
    ensures forall c :: 0 <= c < |h| && IsDigits(h[c]) ==> c in r
  {
    if h == [] then []
    else
      var n := |h| - 1;
      var pre := DigitColumns(h[..n]);
      assert forall c :: 0 <= c < n ==> h[..n][c] == h[c];
      pre + (if IsDigits(h[n]) then [n] else [])
  }

  /** The i-th id cell of a melted row, or "" when there is none. */
  function IdAt(ids: seq<string>, t: nat): string
  {
    if t < |ids| then ids[t] else ""
  }

  /** A melted row with id cells (Country, ISOcode) read as an observation. */
  function ObsOfMelted(m: Melted): Obs
  {
    Obs(IdAt(m.ids, 0), IdAt(m.ids, 1), m.year, m.value)
  }

  function ObsOfAll(ms: seq<Melted>): (r: seq<Obs>)
    ensures |r| == |ms|
    ensures forall i :: 0 <= i < |ms| ==> r[i] == ObsOfMelted(ms[i])
  {
    seq(|ms|, i requires 0 <= i < |ms| => ObsOfMelted(ms[i]))
  }

  /** `y` is the year of some all-digit header. */
  ghost predicate DigitYear(h: seq<string>, y: int)
  {
    exists c :: 0 <= c < |h| && IsDigits(h[c]) && y == DigitsValue(h[c])
  }

  /** The melted GDP rows with numeric values, before reconciliation:
      `melt` over the all-digit columns of the stripped header `h`, then
      `dropna`. A missing id column raises `KeyError`. */
  function GdpMelted(h: seq<string>, rows: seq<seq<string>>): (r: Result<seq<Obs>>)
    ensures r.Err? <==> "Country Name" !in h || "Country Code" !in h
    ensures r.Err? ==> r.error.KeyError? && r.error.key in GdpIdVars && r.error.key !in h
  {
    var ids := IdColumns(h, GdpIdVars);
    GdpIdVarsAre();
    if ids.Err? then Err(ids.error)
    else Ok(ObsOfAll(Melt(rows, ids.value, h, DigitColumns(h))))
  }

  lemma GdpIdVarsAre()
    ensures forall v :: v in GdpIdVars <==> v == "Country Name" || v == "Country Code"
  {
  }

  /** Every GDP observation carries the year of an all-digit column. */
  lemma GdpYears(h: seq<string>, rows: seq<seq<string>>)
    requires GdpMelted(h, rows).Ok?
    ensures forall o :: o in GdpMelted(h, rows).value ==> DigitYear(h, o.year)
  {
    MeltedObsYears(h, rows, IdColumns(h, GdpIdVars).value);
  }

  lemma MeltedObsYears(h: seq<string>, rows: seq<seq<string>>, idIdx: seq<nat>)
    ensures forall o :: o in ObsOfAll(Melt(rows, idIdx, h, DigitColumns(h))) ==> DigitYear(h, o.year)
  {
    DigitYears(rows, idIdx, h);
    ObsYearsOf(Melt(rows, idIdx, h, DigitColumns(h)), h);
  }

  lemma ObsYearsOf(ms: seq<Melted>, h: seq<string>)
    requires forall k :: 0 <= k < |ms| ==> DigitYear(h, ms[k].year)
    ensures forall o :: o in ObsOfAll(ms) ==> DigitYear(h, o.year)
  {
    forall o | o in ObsOfAll(ms)
      ensures DigitYear(h, o.year)
    {
      var k :| 0 <= k < |ms| && ObsOfAll(ms)[k] == o;
      assert DigitYear(h, ms[k].year);
    }
  }

  /** Every numeric cell under an all-digit header becomes an observation
      carrying the row's Country Name and Country Code. */
  lemma GdpComplete(h: seq<string>, rows: seq<seq<string>>, i: nat, c: nat)
    requires GdpMelted(h, rows).Ok?
    requires i < |rows| && c < |h| && IsDigits(h[c])
    requires ParseDecimal(CellAt(rows[i], c)).Some?
    ensures var idIdx := IdColumns(h, GdpIdVars).value;
      Obs(CellAt(rows[i], idIdx[0]), CellAt(rows[i], idIdx[1]), DigitsValue(h[c]),
          ParseDecimal(CellAt(rows[i], c)).value)
        in GdpMelted(h, rows).value
  {
    MeltedObsComplete(h, rows, IdColumns(h, GdpIdVars).value, i, c);
  }

  lemma MeltedObsComplete(h: seq<string>, rows: seq<seq<string>>, idIdx: seq<nat>, i: nat, c: nat)
    requires |idIdx| == 2
    requires i < |rows| && c < |h| && IsDigits(h[c])
    requires ParseDecimal(CellAt(rows[i], c)).Some?
    ensures Obs(CellAt(rows[i], idIdx[0]), CellAt(rows[i], idIdx[1]), DigitsValue(h[c]),
                ParseDecimal(CellAt(rows[i], c)).value)
      in ObsOfAll(Melt(rows, idIdx, h, DigitColumns(h)))
  {
    var cols := DigitColumns(h);
    var m := MeltCell(rows[i], idIdx, h, c);
    assert m.Some? && ObsOfMelted(m.value) ==
      Obs(CellAt(rows[i], idIdx[0]), CellAt(rows[i], idIdx[1]), DigitsValue(h[c]),
          ParseDecimal(CellAt(rows[i], c)).value);
    MeltHas(rows, idIdx, h, cols, i, c);
    ObsOfAllHas(Melt(rows, idIdx, h, cols), m.value);
  }

  lemma ObsOfAllHas(ms: seq<Melted>, m: Melted)
    requires m in ms
    ensures ObsOfMelted(m) in ObsOfAll(ms)
  {
    var k :| 0 <= k < |ms| && ms[k] == m;
    assert ObsOfAll(ms)[k] == ObsOfMelted(m);
  }

  lemma DigitYears(rows: seq<seq<string>>, idIdx: seq<nat>, h: seq<string>)
    ensures var ms := Melt(rows, idIdx, h, DigitColumns(h));
      forall k :: 0 <= k < |ms| ==> DigitYear(h, ms[k].year)
  {
    var cols := DigitColumns(h);
    var ms := Melt(rows, idIdx, h, cols);
    forall k | 0 <= k < |ms|
      ensures DigitYear(h, ms[k].year)
    {
      var i, c := MeltOrigin(rows, idIdx, h, cols, k);
      assert IsDigits(h[c]);
    }
  }

  /** The year-range and real-country filter of the loader. */
  function Kept(minYear: int, maxYear: int, realIsos: set<string>): Obs -> bool
  {
    (o: Obs) => minYear <= o.year <= maxYear && o.iso in realIsos
  }

  /** The long GDP table `load_gdp` returns, for the stripped header `h`:
      the melted observations reconciled, summed per (Country, ISOcode, Year)
      and filtered. */
  function GdpTable(h: seq<string>, rows: seq<seq<string>>, minYear: int, maxYear: int, realIsos: set<string>)
    : Result<seq<Obs>>
  {
    match GdpMelted(h, rows)
    case Err(e) => Err(e)
    case Ok(ms) => Ok(Filter(SumByKey(ReconciledAll(ms)), Kept(minYear, maxYear, realIsos)))
  }

  /** What the GDP table holds: one row per key, within the year range and
      the real countries, each the sum of the reconciled observations that
      share its key, and a row for every such observation. */
  lemma GdpTableSpec(h: seq<string>, rows: seq<seq<string>>, minYear: int, maxYear: int, realIsos: set<string>)
    requires GdpMelted(h, rows).Ok?
    ensures var r := GdpTable(h, rows, minYear, maxYear, realIsos).value;
      var obs := ReconciledAll(GdpMelted(h, rows).value);
      && UniqueObs(r)
      && (forall i :: 0 <= i < |r| ==>
            && minYear <= r[i].year <= maxYear && r[i].iso in realIsos
            && DigitYear(h, r[i].year)
            && HasKey(Keyed(obs), ObsKey(r[i]))
            && r[i].value == SumWhere(Keyed(obs), ObsKey(r[i])))
      && (forall o :: o in obs && minYear <= o.year <= maxYear && o.iso in realIsos ==>
            HasKey(Keyed(r), ObsKey(o)))
  {
    ObsYears(h, rows);
    SummedKept(ReconciledAll(GdpMelted(h, rows).value), h, minYear, maxYear, realIsos);
  }

  lemma SummedKept(obs: seq<Obs>, h: seq<string>, minYear: int, maxYear: int, realIsos: set<string>)
    requires forall i :: 0 <= i < |obs| ==> DigitYear(h, obs[i].year)
    ensures var r := Filter(SumByKey(obs), Kept(minYear, maxYear, realIsos));
      && UniqueObs(r)
      && (forall i :: 0 <= i < |r| ==>
            && minYear <= r[i].year <= maxYear && r[i].iso in realIsos
            && DigitYear(h, r[i].year)
            && HasKey(Keyed(obs), ObsKey(r[i]))
            && r[i].value == SumWhere(Keyed(obs), ObsKey(r[i])))
      && (forall o :: o in obs && minYear <= o.year <= maxYear && o.iso in realIsos ==>
            HasKey(Keyed(r), ObsKey(o)))
  {
    var grouped := SumByKey(obs);
    var p := Kept(minYear, maxYear, realIsos);
    var kept := Filter(grouped, p);
    FilterUnique(grouped, p);
    KeptYears(obs, grouped, kept, h);
    KeptSums(obs, grouped, kept);
    KeptByKey(minYear, maxYear, realIsos);
    KeptCover(obs, grouped, p);
  }

  lemma KeptSums(obs: seq<Obs>, grouped: seq<Obs>, kept: seq<Obs>)
    requires grouped == SumByKey(obs)
    requires forall x :: x in kept ==> x in grouped
    ensures forall i :: 0 <= i < |kept| ==>
      HasKey(Keyed(obs), ObsKey(kept[i])) && kept[i].value == SumWhere(Keyed(obs), ObsKey(kept[i]))
  {
    forall i | 0 <= i < |kept|
      ensures HasKey(Keyed(obs), ObsKey(kept[i])) && kept[i].value == SumWhere(Keyed(obs), ObsKey(kept[i]))
    {
      assert kept[i] in grouped;
      var g :| 0 <= g < |grouped| && grouped[g] == kept[i];
    }
  }

  /** `load_gdp`: melt, coerce and drop non-numeric values, rename member
      countries, force composite ISO codes (the in-place loop over
      `ISO_MAP`), sum duplicate (Country, ISOcode, Year) rows, then keep the
      years in [minYear, maxYear] and the ISO codes in `realIsos`. The two
      filters run unconditionally because `min_year` and
      `REAL_COUNTRY_ISO3` exist by the time the loader is called. */
  method LoadGdp(header: seq<string>, rows: seq<seq<string>>, minYear: int, maxYear: int, realIsos: set<string>)
    returns (r: Result<seq<Obs>>)
    ensures r == GdpTable(StripAll(header), rows, minYear, maxYear, realIsos)
  {
    var h := StripAll(header);
    var melted := GdpMelted(h, rows);
    if melted.Err? {
      return Err(melted.error);
    }
    var obs := ReconcileRows(melted.value);
    r := Ok(Filter(SumByKey(obs), Kept(minYear, maxYear, realIsos)));
  }

  /** Reconciliation keeps the years. */
  lemma ObsYears(h: seq<string>, rows: seq<seq<string>>)
    requires GdpMelted(h, rows).Ok?
    ensures forall i :: 0 <= i < |GdpMelted(h, rows).value| ==>
      DigitYear(h, ReconciledAll(GdpMelted(h, rows).value)[i].year)
  {
    GdpYears(h, rows);
    var ms := GdpMelted(h, rows).value;
    forall i | 0 <= i < |ms|
      ensures DigitYear(h, ReconciledAll(ms)[i].year)
    {
      assert ms[i] in ms;
    }
  }

  lemma KeptYears(obs: seq<Obs>, grouped: seq<Obs>, kept: seq<Obs>, h: seq<string>)
    requires forall i :: 0 <= i < |obs| ==> DigitYear(h, obs[i].year)
    requires grouped == SumByKey(obs)
    requires forall x :: x in kept ==> x in grouped
    ensures forall i :: 0 <= i < |kept| ==> DigitYear(h, kept[i].year)
  {
    forall i | 0 <= i < |kept|
      ensures DigitYear(h, kept[i].year)
    {
      assert kept[i] in grouped;
      var g :| 0 <= g < |grouped| && grouped[g] == kept[i];
      assert HasKey(Keyed(obs), ObsKey(grouped[g]));
      var j :| 0 <= j < |Keyed(obs)| && Keyed(obs)[j].0 == ObsKey(kept[i]);
      ObsKeyInjective(obs[j], kept[i]);
    }
  }

  /** The filter looks only at Country, ISOcode and Year. */
  lemma KeptByKey(minYear: int, maxYear: int, realIsos: set<string>)
    ensures forall a, b :: ObsKey(a) == ObsKey(b) && Kept(minYear, maxYear, realIsos)(a) ==>
      Kept(minYear, maxYear, realIsos)(b)
  {
    forall a, b | ObsKey(a) == ObsKey(b)
      ensures a.iso == b.iso && a.year == b.year
    {
      ObsKeyInjective(a, b);
    }
  }

  lemma KeptCover(obs: seq<Obs>, grouped: seq<Obs>, p: Obs -> bool)
    requires forall o :: o in obs ==> HasKey(Keyed(grouped), ObsKey(o))
    requires forall a, b :: ObsKey(a) == ObsKey(b) && p(a) ==> p(b)
    ensures forall o :: o in obs && p(o) ==> HasKey(Keyed(Filter(grouped, p)), ObsKey(o))
  {
    var kept := Filter(grouped, p);
    forall o | o in obs && p(o)
      ensures HasKey(Keyed(kept), ObsKey(o))
    {
      var g :| 0 <= g < |Keyed(grouped)| && Keyed(grouped)[g].0 == ObsKey(o);
      ObsKeyInjective(grouped[g], o);
      assert grouped[g] in kept;
      var k :| 0 <= k < |kept| && kept[k] == grouped[g];
      assert Keyed(kept)[k].0 == ObsKey(o);
    }
  }

  /** Filtering keeps keys unique. */
  lemma {:induction false} FilterUnique(s: seq<Obs>, p: Obs -> bool)
    requires UniqueObs(s)
    ensures UniqueObs(Filter(s, p))
  {
    if s != [] {
      var n := |s| - 1;
      var pre := s[..n];
      assert UniqueObs(pre) by {
        forall i, j | 0 <= i < j < |pre|
          ensures ObsKey(pre[i]) != ObsKey(pre[j])
        {
          assert pre[i] == s[i] && pre[j] == s[j];
        }
      }
      FilterUnique(pre, p);
      var f := Filter(pre, p);
      forall x | x in f
        ensures ObsKey(x) != ObsKey(s[n])
      {
        var i :| 0 <= i < n && pre[i] == x;
        assert s[i] == x;
      }
    }
  }
}
