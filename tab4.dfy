// The analysis tab: growth against the 1970 baseline, historical debt and
// the normalised radar of the year's five largest emitters.

module Tab4 {
  import opened Common
  import opened Tables
  import opened Selection
  import opened Radar

  /** The baseline year of the growth table. */
  const BaseYear: int := 1970

  // ---------------------------------------------------------------------------
  // Growth table
  // ---------------------------------------------------------------------------

  /** A row of the year with the Value of a 1970 row of the same country
      and the Growth_Multiplier between them. */
  datatype GrowthRow = GrowthRow(now: Obs, base: real, multiplier: real)

  predicate SameCountry(a: Obs, b: Obs)
  {
    a.country == b.country
  }

  function Matching(a: Obs, b: Obs): (Obs, Obs)
  {
    (a, b)
  }

  /** Kept when the 1970 Value is positive, which guards the division. */
  function GrowthOf(p: (Obs, Obs)): Option<GrowthRow>
  {
    if p.1.value > 0.0 then Some(GrowthRow(p.0, p.1.value, GrowthSpeed(p.0.value, Some(p.1.value)))) else None
  }

  /** `pd.merge(dff_now, df_1970, on="Country")` restricted to positive
      `Value_1970`, with `Growth_Multiplier = Value / Value_1970`. */
  function GrowthTable(totals: seq<Obs>, year: int): seq<GrowthRow>
  {
    FilterMap(Join(YearRows(totals, year), YearRows(totals, BaseYear), SameCountry, Matching), GrowthOf)
  }

  /** A growth row joins a row of the year with a positive 1970 row of the
      same country, and its multiplier scales the 1970 Value to the current
      one. */
  ghost predicate GrowthFrom(g: GrowthRow, totals: seq<Obs>, year: int)
  {
    && g.now in totals && g.now.year == year
    && g.base > 0.0 && g.multiplier * g.base == g.now.value
    && exists b :: b in totals && b.year == BaseYear && b.country == g.now.country && b.value == g.base
  }

  lemma GrowthTableSound(totals: seq<Obs>, year: int)
    ensures forall g :: g in GrowthTable(totals, year) ==> GrowthFrom(g, totals, year)
  {
    var left := YearRows(totals, year);
    var right := YearRows(totals, BaseYear);
    var pairs := Join(left, right, SameCountry, Matching);
    assert GrowthTable(totals, year) == FilterMap(pairs, GrowthOf);
    forall g | g in FilterMap(pairs, GrowthOf)
      ensures GrowthFrom(g, totals, year)
    {
      GrowthFromPairs(left, right, pairs, g);
      var a, b :| a in left && b in right && JoinedGrowth(g, a, b);
      JoinedGrowthFrom(g, a, b, totals, year);
    }
  }

  lemma JoinedGrowthFrom(g: GrowthRow, a: Obs, b: Obs, totals: seq<Obs>, year: int)
    requires a in totals && a.year == year && b in totals && b.year == BaseYear
    requires JoinedGrowth(g, a, b)
    ensures GrowthFrom(g, totals, year)
  {
  }

  /** `g` is the growth row of `a` against the positive 1970 row `b` of its
      country. */
  predicate JoinedGrowth(g: GrowthRow, a: Obs, b: Obs)
  {
    a.country == b.country && b.value > 0.0 && g == GrowthRow(a, b.value, GrowthSpeed(a.value, Some(b.value)))
  }

  lemma GrowthFromPairs(left: seq<Obs>, right: seq<Obs>, pairs: seq<(Obs, Obs)>, g: GrowthRow)
    requires forall k :: 0 <= k < |pairs| ==> FromJoin(pairs[k], left, right, SameCountry, Matching)
    requires g in FilterMap(pairs, GrowthOf)
    ensures exists a, b :: a in left && b in right && JoinedGrowth(g, a, b)
  {
    var r := FilterMap(pairs, GrowthOf);
    var k :| 0 <= k < |r| && r[k] == g;
    var i :| 0 <= i < |pairs| && GrowthOf(pairs[i]) == Some(r[k]);
    assert FromJoin(pairs[i], left, right, SameCountry, Matching);
    var a, b :| a in left && b in right && SameCountry(a, b) && pairs[i] == Matching(a, b);
    assert JoinedGrowth(g, a, b);
  }

  /** Every row of the year with a positive 1970 row of its country is in
      the growth table. */
  lemma GrowthTableComplete(totals: seq<Obs>, year: int, o: Obs, b: Obs)
    requires o in totals && o.year == year
    requires b in totals && b.year == BaseYear && b.country == o.country && b.value > 0.0
    ensures GrowthRow(o, b.value, GrowthSpeed(o.value, Some(b.value))) in GrowthTable(totals, year)
  {
    var pairs := Join(YearRows(totals, year), YearRows(totals, BaseYear), SameCountry, Matching);
    assert Matching(o, b) in pairs;
    var i :| 0 <= i < |pairs| && pairs[i] == Matching(o, b);
    assert GrowthOf(pairs[i]).Some?;
  }

  // ---------------------------------------------------------------------------
  // Spider
  // ---------------------------------------------------------------------------

  /** The countries of the year's five largest emitters. */
  function Top5(totals: seq<Obs>, year: int): (r: set<string>)
    ensures forall c :: c in r <==> exists o :: o in TopEmitters(totals, year, 5) && o.country == c
  {
    set o | o in TopEmitters(totals, year, 5) :: o.country
  }

  function SpiderRowOf(g: GrowthRow, totals: seq<Obs>, year: int): RadarRow
  {
    RadarRow(g.now.country, g.now.value, g.multiplier, DebtOf(totals, year, g.now.country))
  }

  /** The growth rows of the `top` countries merged with their historical
      debt. */
  function SpiderOf(growth: seq<GrowthRow>, top: set<string>, totals: seq<Obs>, year: int): (r: seq<RadarRow>)
    ensures forall x :: x in r ==> exists g :: g in growth && g.now.country in top && x == SpiderRowOf(g, totals, year)
    ensures forall g :: g in growth && g.now.country in top ==> SpiderRowOf(g, totals, year) in r
  {
    var kept := Filter(growth, (g: GrowthRow) => g.now.country in top);
    var r := seq(|kept|, i requires 0 <= i < |kept| => SpiderRowOf(kept[i], totals, year));
    assert forall i :: 0 <= i < |kept| ==> kept[i] in kept;
    forall g | g in growth && g.now.country in top
      ensures SpiderRowOf(g, totals, year) in r
    {
      var i :| 0 <= i < |kept| && kept[i] == g;
      assert r[i] == SpiderRowOf(g, totals, year);
    }
    r
  }

  /** The spider before normalisation: the growth rows restricted to the top
      five countries, merged with the historical debt. Every growth row's
      country has a row up to the year, so the inner merge with the debt
      table keeps them all (`Radar.HistoricalDebtSpec`). */
  function SpiderRows(totals: seq<Obs>, year: int): seq<RadarRow>
  {
    SpiderOf(GrowthTable(totals, year), Top5(totals, year), totals, year)
  }

  /** The spider holds a row for each top-five country's growth row, and
      nothing else. */
  lemma SpiderRowsSpec(totals: seq<Obs>, year: int)
    ensures forall x :: x in SpiderRows(totals, year) ==> x.country in Top5(totals, year)
    ensures forall g :: g in GrowthTable(totals, year) && g.now.country in Top5(totals, year) ==>
      SpiderRowOf(g, totals, year) in SpiderRows(totals, year)
  {
  }

  /** With non-negative emissions every normalised spider score lies in
      [0, 1]. */
  lemma SpiderScoresInUnit(totals: seq<Obs>, year: int)
    requires forall o :: o in totals ==> o.value >= 0.0
    ensures forall x :: x in NormalisedRows(SpiderRows(totals, year)) ==>
      InUnit(x.scale) && InUnit(x.growth) && InUnit(x.debt)
  {
    var growth := GrowthTable(totals, year);
    GrowthTableSound(totals, year);
    SpiderNonNegative(growth, Top5(totals, year), totals, year);
    var rows := SpiderRows(totals, year);
    NormalisedRowsRange(rows);
    var n := NormalisedRows(rows);
    forall x | x in n
      ensures InUnit(x.scale) && InUnit(x.growth) && InUnit(x.debt)
    {
      var i :| 0 <= i < |n| && n[i] == x;
    }
  }

  lemma SpiderNonNegative(growth: seq<GrowthRow>, top: set<string>, totals: seq<Obs>, year: int)
    requires forall o :: o in totals ==> o.value >= 0.0
    requires forall g :: g in growth ==> GrowthFrom(g, totals, year)
    ensures var rows := SpiderOf(growth, top, totals, year);
      forall i :: 0 <= i < |rows| ==> rows[i].scale >= 0.0 && rows[i].growth >= 0.0 && rows[i].debt >= 0.0
  {
    var rows := SpiderOf(growth, top, totals, year);
    forall i | 0 <= i < |rows|
      ensures rows[i].scale >= 0.0 && rows[i].growth >= 0.0 && rows[i].debt >= 0.0
    {
      assert rows[i] in rows;
      var g :| g in growth && g.now.country in top && rows[i] == SpiderRowOf(g, totals, year);
      assert GrowthFrom(g, totals, year);
      ProductSign(g.multiplier, g.base);
      DebtNonNegative(totals, year, g.now.country);
    }
  }

  // ---------------------------------------------------------------------------
  // update_tab4_graphics
  // ---------------------------------------------------------------------------

  datatype Tab4View =
    | SelectYear
    | Charts(now: seq<Obs>, growth: seq<GrowthRow>, spider: seq<RadarRow>)

  /** `update_tab4_graphics`: the "Select a year" message without a year;
      otherwise the year's rows, the growth table and the spider with its
      three metric columns normalised in place. */
  method UpdateTab4(totals: seq<Obs>, year: Option<int>) returns (r: Tab4View)
    ensures r.SelectYear? <==> year.None?
    ensures r.Charts? ==>
      && r.now == YearRows(totals, year.value)
      && r.growth == GrowthTable(totals, year.value)
      && r.spider == NormalisedRows(SpiderRows(totals, year.value))
  {
    if year.None? {
      return SelectYear;
    }
    var spider := NormaliseRadar(SpiderRows(totals, year.value));
    return Charts(YearRows(totals, year.value), GrowthTable(totals, year.value), spider);
  }
}
