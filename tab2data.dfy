/** The data helpers of the GDP and life expectancy tab: one year of a
    table, the default country of a year, one country's series and the
    averages drawn on the line charts. */
module Tab2Data {
  import opened Common
  import opened Tables
  import opened Grouping
  import opened Selection
  import opened Reconcile
  import opened Aggregates

  /** `TAB2_SMALL_COUNTRY_ISOS`: codes left off the life expectancy map. */
  const SmallCountryIsos: set<string> := {"AND", "MCO", "LIE", "SMR", "VAT", "MNE", "PSE", "SSD"}

  /** `tab2_get_gdp_year_df(year, view)`: the year's rows of the GDP totals
      when `view` is "total", of GDP per capita otherwise. */
  function GdpYearRows(gdpTotal: seq<Obs>, gdpCapita: seq<Obs>, year: int, view: string): (r: seq<Obs>)
    ensures view == "total" ==> forall o :: o in r <==> o in gdpTotal && o.year == year
    ensures view != "total" ==> forall o :: o in r <==> o in gdpCapita && o.year == year
  {
    YearRows(if view == "total" then gdpTotal else gdpCapita, year)
  }

  /** `tab2_get_gdp_map_df(year, view)`: the rows of `GdpYearRows` with a
      positive Value, the only ones with a log colour. */
  function GdpMapRows(gdpTotal: seq<Obs>, gdpCapita: seq<Obs>, year: int, view: string): (r: seq<Obs>)
    ensures forall o :: o in r <==> o in GdpYearRows(gdpTotal, gdpCapita, year, view) && o.value > 0.0
  {
    Filter(GdpYearRows(gdpTotal, gdpCapita, year, view), (o: Obs) => o.value > 0.0)
  }

  /** `tab2_get_life_year_df(year, filter_small_isos)`. */
  function LifeYearRows(life: seq<Obs>, year: int, filterSmall: bool): (r: seq<Obs>)
    ensures forall o :: o in r <==> o in life && o.year == year && (filterSmall ==> o.iso !in SmallCountryIsos)
  {
    var rows := YearRows(life, year);
    if filterSmall then Filter(rows, (o: Obs) => o.iso !in SmallCountryIsos) else rows
  }

  ghost predicate MaxIso(rows: seq<Obs>, iso: string)
  {
    exists k: nat :: FirstMax(rows, k) && rows[k].iso == iso
  }

  /** `rows.loc[rows["Value"].idxmax(), "ISOcode"]`, or nothing for no rows. */
  function DefaultIso(rows: seq<Obs>): (r: Option<string>)
    ensures r.None? <==> rows == []
    ensures r.Some? ==> MaxIso(rows, r.value)
  {
    if rows == [] then None
    else
      var k := ArgMax(ObsValues(rows));
      assert FirstMax(rows, k) && rows[k].iso == rows[k].iso;
      Some(rows[k].iso)
  }

  /** `tab2_get_default_iso_gdp(year)`: the ISOcode of the largest GDP total
      of the year, nothing when the year has no rows. */
  function DefaultIsoGdp(gdpTotal: seq<Obs>, year: int): (r: Option<string>)
    ensures r.None? <==> forall o :: o in gdpTotal ==> o.year != year
    ensures r.Some? ==> MaxIso(YearRows(gdpTotal, year), r.value)
  {
    var rows := YearRows(gdpTotal, year);
    assert rows != [] ==> rows[0] in rows;
    DefaultIso(rows)
  }

  /** `tab2_get_default_iso_life(year)`: the ISOcode of the longest life
      expectancy of the year, small countries included. */
  function DefaultIsoLife(life: seq<Obs>, year: int): (r: Option<string>)
    ensures r.None? <==> forall o :: o in life ==> o.year != year
    ensures r.Some? ==> MaxIso(LifeYearRows(life, year, false), r.value)
  {
    var rows := LifeYearRows(life, year, false);
    assert rows != [] ==> rows[0] in rows;
    DefaultIso(rows)
  }

  /** The result of `tab2_get_gdp_country_series`. */
  datatype GdpSeries = GdpSeries(total: seq<Obs>, capita: seq<Obs>, name: Option<string>)

  /** `tab2_get_gdp_country_series(iso)`: both GDP series of the cleaned code,
      and the Country of the first total row, or of the first per-capita row
      when there is no total row, or nothing. */
  function GdpCountrySeries(gdpTotal: seq<Obs>, gdpCapita: seq<Obs>, iso: string): (r: GdpSeries)
    ensures forall o :: o in r.total <==> o in gdpTotal && o.iso == CleanIso(iso)
    ensures forall o :: o in r.capita <==> o in gdpCapita && o.iso == CleanIso(iso)
    ensures r.name.None? <==> r.total == [] && r.capita == []
    ensures r.total != [] ==> r.name.Some? && NamedFrom(gdpTotal, CleanIso(iso), r.name.value)
    ensures r.total == [] && r.capita != [] ==> r.name.Some? && NamedFrom(gdpCapita, CleanIso(iso), r.name.value)
  {
    var c := CleanIso(iso);
    var total := IsoRows(gdpTotal, c);
    var capita := IsoRows(gdpCapita, c);
    NoRowsNoIso(gdpTotal, c);
    NoRowsNoIso(gdpCapita, c);
    var name := if total != [] then FirstCountry(gdpTotal, c) else FirstCountry(gdpCapita, c);
    GdpSeries(total, capita, name)
  }

  /** The selection of a code is empty exactly when no row has the code. */
  lemma NoRowsNoIso(t: seq<Obs>, iso: string)
    ensures IsoRows(t, iso) == [] <==> forall j :: 0 <= j < |t| ==> t[j].iso != iso
  {
    var r := IsoRows(t, iso);
    if r != [] {
      assert r[0] in r;
    }
    forall j | 0 <= j < |t| && t[j].iso == iso
      ensures r != []
    {
      assert t[j] in r;
    }
  }

  /** `tab2_get_life_country_series(iso)`: the life expectancy rows of the
      cleaned code. */
  function LifeCountrySeries(life: seq<Obs>, iso: string): (r: seq<Obs>)
    ensures forall o :: o in r <==> o in life && o.iso == CleanIso(iso)
  {
    IsoRows(life, CleanIso(iso))
  }

  // ---------------------------------------------------------------------------
  // Averages for the line charts
  // ---------------------------------------------------------------------------

  function Everything(o: Obs): bool
  {
    true
  }

  function ByYear(o: Obs): Key
  {
    [Num(o.year)]
  }

  /** `TAB2_*_AVG_BY_YEAR`: `groupby("Year")[col].mean()`. */
  function AverageByYear(t: seq<Obs>): seq<(Key, real)>
  {
    GroupMean(KeyedRows(t, Everything, ByYear))
  }

  /** The average of a year is the mean of all that year's Values, and a
      year without rows has none. */
  lemma AverageByYearSpec(t: seq<Obs>, year: int)
    ensures var n := GroupCount(t, Everything, ByYear, [Num(year)]);
      Lookup(AverageByYear(t), [Num(year)])
        == if n == 0 then None else Some(GroupTotal(t, Everything, ByYear, [Num(year)]) / (n as real))
    ensures GroupCount(t, Everything, ByYear, [Num(year)]) > 0 <==> exists o :: o in t && o.year == year
  {
    GroupMeanLookup(t, Everything, ByYear, [Num(year)]);
    GroupCountPositive(t, Everything, ByYear, [Num(year)]);
  }

  /** Rows whose ISOcode has a region other than "Other". */
  function InContinent(regions: map<string, string>): Obs -> bool
  {
    (o: Obs) => RegionOf(regions, o.iso) != "Other"
  }

  function ByYearContinent(regions: map<string, string>): Obs -> Key
  {
    (o: Obs) => [Num(o.year), Name(RegionOf(regions, o.iso))]
  }

  /** `TAB2_LIFE_CONTINENT_AVG`: life expectancy averaged per (Year,
      Continent), leaving out codes without a region. */
  function ContinentAverage(life: seq<Obs>, regions: map<string, string>): seq<(Key, real)>
  {
    GroupMean(KeyedRows(life, InContinent(regions), ByYearContinent(regions)))
  }

  /** The average of (year, continent) is the mean of the Values of that
      year's rows whose code lies in that continent; "Other" never appears. */
  lemma ContinentAverageSpec(life: seq<Obs>, regions: map<string, string>, year: int, continent: string)
    ensures var k: Key := [Num(year), Name(continent)];
      var n := GroupCount(life, InContinent(regions), ByYearContinent(regions), k);
      Lookup(ContinentAverage(life, regions), k)
        == if n == 0 then None
           else Some(GroupTotal(life, InContinent(regions), ByYearContinent(regions), k) / (n as real))
    ensures continent == "Other" ==> Lookup(ContinentAverage(life, regions), [Num(year), Name(continent)]).None?
    ensures Lookup(ContinentAverage(life, regions), [Num(year), Name(continent)]).Some? <==>
      exists o :: o in life && o.year == year && RegionOf(regions, o.iso) == continent && continent != "Other"
  {
    var k: Key := [Num(year), Name(continent)];
    GroupMeanLookup(life, InContinent(regions), ByYearContinent(regions), k);
    GroupCountPositive(life, InContinent(regions), ByYearContinent(regions), k);
  }
}
