// The economy tab's callbacks: the clicked ISO, the view and layout
// switches, the fallback chain of the country lines and the summary cards.

module Tab2 {
  import opened Common
  import opened Tables
  import opened Sorting
  import opened Selection
  import opened Reconcile
  import opened Clicks
  import opened Controls
  import opened Tab2Data
  import opened Grouping
  import opened Tab3Data

  const Tab2Id: string := "tab-2"
  const LifeView: string := "life"
  const ClickPrompt: string := "Click on a country"
  const NoCountryData: string := "No data for selected country"

  // ---------------------------------------------------------------------------
  // Clicks and switches
  // ---------------------------------------------------------------------------

  /** `_clicked_iso`: the `location` of the first clicked point, nothing
      without a click or a point. */
  function ClickedIso(click: Option<ClickData>): (r: Option<string>)
    ensures r.Some? ==> HasPoints(click) && r == FirstPoint(click).location
    ensures HasPoints(click) && FirstPoint(click).location.Some? ==> r.Some?
  {
    if HasPoints(click) then FirstPoint(click).location else None
  }

  /** `toggle_gdp_controls_visibility`: the GDP controls are hidden in the
      life view. */
  function GdpControlsHidden(viewMode: string): (r: bool)
    ensures r <==> viewMode == LifeView
  {
    viewMode == LifeView
  }

  /** `toggle_layout_visibility`: (GDP container hidden, life container
      hidden); exactly one of the two is hidden. */
  function LayoutHidden(viewMode: string): (r: (bool, bool))
    ensures r.0 != r.1
    ensures r.0 <==> viewMode == LifeView
  {
    if viewMode == LifeView then (true, false) else (false, true)
  }

  /** The GDP controls disappear together with the GDP container. */
  lemma ControlsFollowLayout(viewMode: string)
    ensures GdpControlsHidden(viewMode) == LayoutHidden(viewMode).0
    ensures GdpControlsHidden(viewMode) != LayoutHidden(viewMode).1
  {
  }

  // ---------------------------------------------------------------------------
  // update_country_lines
  // ---------------------------------------------------------------------------

  /** What the country lines panel shows. */
  datatype Lines =
    | NoFigure
    | Placeholder(message: string)
    | LifeLines(iso: string, life: seq<Obs>, name: string)
    | GdpLines(gdpIso: string, series: GdpSeries)

  /** The click of the map of the active view. */
  function ActiveClick(clickGdp: Option<ClickData>, clickLife: Option<ClickData>, viewMode: string): Option<ClickData>
  {
    if viewMode == LifeView then clickLife else clickGdp
  }

  /** The fallback ISO of the active view: the year's largest value. */
  function FallbackIso(gdpTotal: seq<Obs>, life: seq<Obs>, year: int, viewMode: string): Option<string>
  {
    if viewMode == LifeView then DefaultIsoLife(life, year) else DefaultIsoGdp(gdpTotal, year)
  }

  /** The ISO the panel is about: the clicked one, else the fallback. */
  function LinesIso(clickGdp: Option<ClickData>, clickLife: Option<ClickData>, year: int, viewMode: string,
                    gdpTotal: seq<Obs>, life: seq<Obs>): (r: Option<string>)
    ensures ClickedIso(ActiveClick(clickGdp, clickLife, viewMode)).Some? ==>
      r == ClickedIso(ActiveClick(clickGdp, clickLife, viewMode))
    ensures ClickedIso(ActiveClick(clickGdp, clickLife, viewMode)).None? ==>
      r == FallbackIso(gdpTotal, life, year, viewMode)
  {
    var clicked := ClickedIso(ActiveClick(clickGdp, clickLife, viewMode));
    if clicked.Some? then clicked else FallbackIso(gdpTotal, life, year, viewMode)
  }

  /** `update_country_lines`: nothing outside the tab or without a year; a
      prompt when neither a click nor the year gives an ISO; then the life
      series (with the Country of its first row) or the two GDP series of
      that ISO, or "No data" when the ISO has no rows. */
  function CountryLines(clickGdp: Option<ClickData>, clickLife: Option<ClickData>, year: Option<int>,
                        activeTab: string, viewMode: string,
                        gdpTotal: seq<Obs>, gdpCapita: seq<Obs>, life: seq<Obs>): (r: Lines)
    ensures r.NoFigure? <==> activeTab != Tab2Id || year.None?
    ensures r == Placeholder(ClickPrompt) <==>
      activeTab == Tab2Id && year.Some? && LinesIso(clickGdp, clickLife, year.value, viewMode, gdpTotal, life).None?
    ensures r.LifeLines? ==>
      && viewMode == LifeView && year.Some?
      && Some(r.iso) == LinesIso(clickGdp, clickLife, year.value, viewMode, gdpTotal, life)
      && r.life == LifeCountrySeries(life, r.iso) && r.life != [] && r.name == r.life[0].country
    ensures r.GdpLines? ==>
      && viewMode != LifeView && year.Some?
      && Some(r.gdpIso) == LinesIso(clickGdp, clickLife, year.value, viewMode, gdpTotal, life)
      && r.series == GdpCountrySeries(gdpTotal, gdpCapita, r.gdpIso) && r.series.name.Some?
    ensures r.Placeholder? ==> r.message == ClickPrompt || r.message == NoCountryData
    ensures r == Placeholder(NoCountryData) ==>
      year.Some? && var iso := LinesIso(clickGdp, clickLife, year.value, viewMode, gdpTotal, life);
      iso.Some? &&
      (if viewMode == LifeView then LifeCountrySeries(life, iso.value) == []
       else GdpCountrySeries(gdpTotal, gdpCapita, iso.value).name.None?)
  {
    if activeTab != Tab2Id || year.None? then NoFigure
    else
      var iso := LinesIso(clickGdp, clickLife, year.value, viewMode, gdpTotal, life);
      if iso.None? then Placeholder(ClickPrompt)
      else if viewMode == LifeView then
        var series := LifeCountrySeries(life, iso.value);
        if series == [] then Placeholder(NoCountryData) else LifeLines(iso.value, series, series[0].country)
      else
        var series := GdpCountrySeries(gdpTotal, gdpCapita, iso.value);
        if series.name.None? then Placeholder(NoCountryData) else GdpLines(iso.value, series)
  }

  /** Without a click on the active map the panel follows the ISO of the
      year's largest value, and it prompts for a click only when the year
      has no rows at all. */
  lemma CountryLinesFallback(gdpTotal: seq<Obs>, gdpCapita: seq<Obs>, life: seq<Obs>,
                             clickGdp: Option<ClickData>, clickLife: Option<ClickData>, year: int, viewMode: string)
    requires ClickedIso(ActiveClick(clickGdp, clickLife, viewMode)).None?
    ensures var r := CountryLines(clickGdp, clickLife, Some(year), Tab2Id, viewMode, gdpTotal, gdpCapita, life);
      r == Placeholder(ClickPrompt) <==>
        (if viewMode == LifeView then forall o :: o in life ==> o.year != year
         else forall o :: o in gdpTotal ==> o.year != year)
    ensures viewMode != LifeView ==>
      var r := CountryLines(clickGdp, clickLife, Some(year), Tab2Id, viewMode, gdpTotal, gdpCapita, life);
      r.GdpLines? ==> MaxIso(YearRows(gdpTotal, year), r.gdpIso)
  {
  }

  // ---------------------------------------------------------------------------
  // update_gdp_cards
  // ---------------------------------------------------------------------------

  function RealLe(a: real, b: real): bool
  {
    a <= b
  }

  /** `Series.median()`: the middle of the sorted values, or the mean of the
      two middle ones for an even count. */
  function Median(s: seq<real>): real
    requires |s| > 0
  {
    var t := Sort(s, RealLe);
    var n := |t|;
    if n % 2 == 1 then t[n / 2] else (t[n / 2 - 1] + t[n / 2]) / 2.0
  }

  /** The median lies between the smallest and the largest value. */
  lemma MedianBounds(s: seq<real>)
    requires |s| > 0
    ensures s[ArgMin(s)] <= Median(s) <= Max(s)
  {
    var t := Sort(s, RealLe);
    var n := |t|;
    forall i | 0 <= i < n
      ensures s[ArgMin(s)] <= t[i] <= Max(s)
    {
      assert t[i] in multiset(s);
    }
  }

  /** Row `k` holds the first smallest Value of `rows` (`idxmin`). */
  predicate FirstMin(rows: seq<Obs>, k: nat)
  {
    && k < |rows|
    && (forall j :: 0 <= j < |rows| ==> rows[k].value <= rows[j].value)
    && (forall j :: 0 <= j < k ==> rows[k].value < rows[j].value)
  }

  ghost predicate BottomCountry(rows: seq<Obs>, country: string)
  {
    exists k: nat :: FirstMin(rows, k) && rows[k].country == country
  }

  /** The summary cards of the economy tab. */
  datatype Cards =
    | NoCards
    | NoDataWarning
    | LifeCards(mean: real, highest: string, lowest: string)
    | GdpCards(left: real, top: string, right: real)

  /** `update_gdp_cards`: nothing outside the tab or without a year; a
      warning for a year without rows. The life view shows the mean life
      expectancy (small countries left out) and the Countries of its first
      maximum and first minimum; the GDP view shows the sum (total view) or
      the mean (per-capita view), the Country of the first maximum, and the
      mean (total view) or the median (per-capita view). */
  function UpdateGdpCards(year: Option<int>, view: string, activeTab: string, viewMode: string,
                          gdpTotal: seq<Obs>, gdpCapita: seq<Obs>, life: seq<Obs>): (r: Cards)
    ensures r.NoCards? <==> activeTab != Tab2Id || year.None?
    ensures r.NoDataWarning? <==>
      && activeTab == Tab2Id && year.Some?
      && (if viewMode == LifeView then LifeYearRows(life, year.value, true) == []
          else GdpYearRows(gdpTotal, gdpCapita, year.value, view) == [])
    ensures r.LifeCards? ==>
      var rows := LifeYearRows(life, year.value, true);
      viewMode == LifeView && |rows| > 0 && r.mean == Mean(ObsValues(rows)) &&
      TopCountry(rows, r.highest) && BottomCountry(rows, r.lowest)
    ensures r.GdpCards? ==>
      var rows := GdpYearRows(gdpTotal, gdpCapita, year.value, view);
      var values := ObsValues(rows);
      viewMode != LifeView && |rows| > 0 && TopCountry(rows, r.top) &&
      r.left == (if view == "total" then Sum(values) else Mean(values)) &&
      r.right == (if view == "total" then Mean(values) else Median(values))
  {
    if activeTab != Tab2Id || year.None? then NoCards
    else if viewMode == LifeView then
      var rows := LifeYearRows(life, year.value, true);
      if rows == [] then NoDataWarning
      else
        var values := ObsValues(rows);
        var hi := ArgMax(values);
        var lo := ArgMin(values);
        assert FirstMax(rows, hi) && rows[hi].country == rows[hi].country;
        assert FirstMin(rows, lo) && rows[lo].country == rows[lo].country;
        LifeCards(Mean(values), rows[hi].country, rows[lo].country)
    else
      var rows := GdpYearRows(gdpTotal, gdpCapita, year.value, view);
      if rows == [] then NoDataWarning
      else
        var values := ObsValues(rows);
        var hi := ArgMax(values);
        assert FirstMax(rows, hi) && rows[hi].country == rows[hi].country;
        if view == "total" then GdpCards(Sum(values), rows[hi].country, Mean(values))
        else GdpCards(Mean(values), rows[hi].country, Median(values))
  }

  /** The mean life expectancy lies between the lowest and the highest. */
  lemma LifeCardsOrdered(life: seq<Obs>, year: int)
    requires LifeYearRows(life, year, true) != []
    ensures var values := ObsValues(LifeYearRows(life, year, true));
      values[ArgMin(values)] <= Mean(values) <= values[ArgMax(values)]
  {
    var values := ObsValues(LifeYearRows(life, year, true));
    MeanAtMost(values, values[ArgMax(values)]);
    MeanAtLeast(values, values[ArgMin(values)]);
  }

  lemma MeanAtLeast(s: seq<real>, m: real)
    requires |s| > 0
    requires forall i :: 0 <= i < |s| ==> m <= s[i]
    ensures m <= Mean(s)
  {
    SumAtLeastMin(s, m);
    QuotientAtLeast(Sum(s), |s| as real, m);
  }

  lemma QuotientAtLeast(a: real, n: real, m: real)
    requires n > 0.0 && n * m <= a
    ensures m <= a / n
  {
    var q := a / n;
    assert q * n == a;
    assert (q - m) * n == a - n * m;
  }

  lemma {:induction false} SumAtLeastMin(s: seq<real>, m: real)
    requires forall i :: 0 <= i < |s| ==> m <= s[i]
    ensures (|s| as real) * m <= Sum(s)
  {
    if s != [] {
      SumAtLeastMin(s[..|s| - 1], m);
    }
  }

  // ---------------------------------------------------------------------------
  // Year-over-year growth of create_gdp_advanced_analysis
  // ---------------------------------------------------------------------------

  /** The order of `sort_values(["ISOcode", "Year"])`. */
  predicate IsoYearLe(a: Obs, b: Obs)
  {
    if a.iso == b.iso then a.year <= b.year else StrLe(a.iso, b.iso)
  }

  lemma IsoYearTotal()
    ensures TotalPreorder(IsoYearLe)
  {
    forall a: Obs, b: Obs
      ensures IsoYearLe(a, b) || IsoYearLe(b, a)
    {
      StrLeTotal(a.iso, b.iso);
    }
    forall a: Obs, b: Obs, c: Obs | IsoYearLe(a, b) && IsoYearLe(b, c)
      ensures IsoYearLe(a, c)
    {
      if a.iso != b.iso && b.iso != c.iso {
        StrLeTransitive(a.iso, b.iso, c.iso);
        if a.iso == c.iso {
          StrLeAntisymmetric(a.iso, b.iso);
        }
      }
    }
  }

  function HistoryKept(year: int): Obs -> bool
  {
    (o: Obs) => o.year <= year && o.value > 0.0
  }

  /** The history behind the growth charts: the total-GDP rows up to the
      selected year with a positive value, sorted by ISO code then year. */
  function History(gdpTotal: seq<Obs>, year: int): (r: seq<Obs>)
    ensures multiset(r) == multiset(Filter(gdpTotal, HistoryKept(year)))
    ensures forall o :: o in r <==> o in gdpTotal && o.year <= year && o.value > 0.0
    ensures SortedBy(r, IsoYearLe)
  {
    var kept := Filter(gdpTotal, HistoryKept(year));
    IsoYearTotal();
    SortSorted(kept, IsoYearLe);
    var r := Sort(kept, IsoYearLe);
    assert forall o :: o in r <==> o in multiset(kept);
    r
  }

  /** Every row of the history has a positive value. */
  predicate Positive(hist: seq<Obs>)
  {
    forall i :: 0 <= i < |hist| ==> hist[i].value > 0.0
  }

  lemma HistoryPositive(gdpTotal: seq<Obs>, year: int)
    ensures Positive(History(gdpTotal, year))
  {
    var hist := History(gdpTotal, year);
    forall i | 0 <= i < |hist|
      ensures hist[i].value > 0.0
    {
      assert hist[i] in hist;
    }
  }

  /** `groupby("ISOcode")["Value"].pct_change() * 100`: the percent change
      from the previous row when that row has the same ISO code, and
      undefined (NaN) on each code's first row. */
  function PctYoy(hist: seq<Obs>): (r: seq<Option<real>>)
    requires Positive(hist)
    ensures |r| == |hist|
    ensures forall i :: 0 <= i < |hist| ==> (r[i].Some? <==> i > 0 && hist[i - 1].iso == hist[i].iso)
  {
    seq(|hist|, i requires 0 <= i < |hist| => PctAt(hist, i))
  }

  function PctAt(hist: seq<Obs>, i: nat): Option<real>
    requires Positive(hist) && i < |hist|
  {
    if i > 0 && hist[i - 1].iso == hist[i].iso then Some(PercentChange(hist[i - 1].value, hist[i].value))
    else None
  }

  /** A defined growth compounds the previous value into the current one, and
      is positive exactly when the value rose. */
  lemma PctYoyInverse(hist: seq<Obs>, i: nat)
    requires Positive(hist) && i < |hist| && PctYoy(hist)[i].Some?
    ensures hist[i - 1].value * (1.0 + PctYoy(hist)[i].value / 100.0) == hist[i].value
    ensures PctYoy(hist)[i].value > 0.0 <==> hist[i].value > hist[i - 1].value
    ensures PctYoy(hist)[i].value < 0.0 <==> hist[i].value < hist[i - 1].value
  {
    var r := PctYoy(hist);
    assert r[i] == PctAt(hist, i);
    Compounds(hist[i - 1].value, hist[i].value, r[i].value);
  }

  lemma Compounds(start: real, end: real, p: real)
    requires start > 0.0 && p == PercentChange(start, end)
    ensures start * (1.0 + p / 100.0) == end
    ensures p > 0.0 <==> end > start
    ensures p < 0.0 <==> end < start
  {
    PercentChangeInverse(start, end);
    PercentChangeSign(start, end);
  }

  /** In the sorted history, a defined growth compares a row with the latest
      earlier year of its ISO code: no row of that code lies between them. */
  lemma PctYoyPrevious(hist: seq<Obs>, i: nat)
    requires Positive(hist) && SortedBy(hist, IsoYearLe)
    requires i < |hist| && PctYoy(hist)[i].Some?
    ensures hist[i - 1].iso == hist[i].iso && hist[i - 1].year <= hist[i].year
    ensures forall j :: 0 <= j < |hist| && j != i - 1 && j != i && hist[j].iso == hist[i].iso ==>
      hist[j].year <= hist[i - 1].year || hist[i].year <= hist[j].year
  {
    assert IsoYearLe(hist[i - 1], hist[i]);
    forall j | 0 <= j < |hist| && j != i - 1 && j != i && hist[j].iso == hist[i].iso
      ensures hist[j].year <= hist[i - 1].year || hist[i].year <= hist[j].year
    {
      if j < i - 1 {
        assert IsoYearLe(hist[j], hist[i - 1]);
      } else {
        assert IsoYearLe(hist[i], hist[j]);
      }
    }
  }

  /** In the sorted history, the growth is undefined exactly on the earliest
      year of each ISO code. */
  lemma PctYoyFirst(hist: seq<Obs>, i: nat)
    requires Positive(hist) && SortedBy(hist, IsoYearLe)
    requires i < |hist| && PctYoy(hist)[i].None?
    ensures forall j :: 0 <= j < |hist| && hist[j].iso == hist[i].iso ==> hist[i].year <= hist[j].year
  {
    forall j | 0 <= j < |hist| && hist[j].iso == hist[i].iso
      ensures hist[i].year <= hist[j].year
    {
      if j > i {
        assert IsoYearLe(hist[i], hist[j]);
      } else if j < i {
        assert hist[i - 1].iso != hist[i].iso;
        assert IsoYearLe(hist[i - 1], hist[i]);
        if j < i - 1 {
          assert IsoYearLe(hist[j], hist[i - 1]);
        }
        StrLeAntisymmetric(hist[i - 1].iso, hist[i].iso);
      }
    }
  }

  /** In the sorted history, the growth is undefined exactly on the first
      row of each ISO code. */
  lemma PctYoyUndefinedOnFirst(hist: seq<Obs>, i: nat)
    requires Positive(hist) && SortedBy(hist, IsoYearLe) && i < |hist|
    ensures PctYoy(hist)[i].None? <==> FirstWithIso(hist, hist[i].iso, i)
  {
    if PctYoy(hist)[i].None? {
      forall j | 0 <= j < i
        ensures hist[j].iso != hist[i].iso
      {
        if hist[j].iso == hist[i].iso {
          assert hist[i - 1].iso != hist[i].iso;
          assert IsoYearLe(hist[i - 1], hist[i]);
          if j < i - 1 {
            assert IsoYearLe(hist[j], hist[i - 1]);
          }
          StrLeAntisymmetric(hist[i - 1].iso, hist[i].iso);
        }
      }
    }
  }

  /** A defined growth value of row `i`, keyed by its ISO code. */
  ghost predicate YoyFrom(x: (Key, real), hist: seq<Obs>, pct: seq<Option<real>>)
    requires |pct| == |hist|
  {
    exists i :: 0 <= i < |hist| && pct[i].Some? && x == ([Name(hist[i].iso)], pct[i].value)
  }

  /** The defined growth values keyed by ISO code, in row order (what the
      per-code aggregation sees once NaN is skipped). */
  function YoyRows(hist: seq<Obs>, pct: seq<Option<real>>): (r: seq<(Key, real)>)
    requires |pct| == |hist|
    ensures forall x :: x in r <==> YoyFrom(x, hist, pct)
  {
    if hist == [] then []
    else
      var n := |hist| - 1;
      var r := YoyRows(hist[..n], pct[..n]) + YoyAt(hist, pct, n);
      assert forall x :: x in r <==> YoyFrom(x, hist, pct) by {
        forall x
          ensures x in r <==> YoyFrom(x, hist, pct)
        {
          YoyFromSplit(hist, pct, x);
        }
      }
      r
  }

  /** The keyed growth value of row `i`, if defined. */
  function YoyAt(hist: seq<Obs>, pct: seq<Option<real>>, i: nat): seq<(Key, real)>
    requires |pct| == |hist| && i < |hist|
  {
    if pct[i].Some? then [([Name(hist[i].iso)], pct[i].value)] else []
  }

  lemma YoyFromSplit(hist: seq<Obs>, pct: seq<Option<real>>, x: (Key, real))
    requires |pct| == |hist| > 0
    ensures var n := |hist| - 1;
      YoyFrom(x, hist, pct) <==> YoyFrom(x, hist[..n], pct[..n]) || x in YoyAt(hist, pct, n)
  {
    var n := |hist| - 1;
    if YoyFrom(x, hist[..n], pct[..n]) {
      var i :| 0 <= i < n && pct[..n][i].Some? && x == ([Name(hist[..n][i].iso)], pct[..n][i].value);
      assert pct[i].Some? && x == ([Name(hist[i].iso)], pct[i].value);
    }
    if YoyFrom(x, hist, pct) {
      var i :| 0 <= i < |hist| && pct[i].Some? && x == ([Name(hist[i].iso)], pct[i].value);
      if i < n {
        assert pct[..n][i].Some? && x == ([Name(hist[..n][i].iso)], pct[..n][i].value);
      }
    }
  }

  /** One point of the risk/return scatter. */
  datatype RiskPoint = RiskPoint(iso: string, country: string, avgGrowth: real)

  /** A group survives `dropna` (at least two defined values, so the
      standard deviation exists) and the `Avg_Growth < 50` filter. */
  function RiskPointOf(hist: seq<Obs>, a: Acc): Option<RiskPoint>
  {
    if |a.key| == 1 && a.key[0].Name? && a.count >= 2 && a.sum / (a.count as real) < 50.0 then
      Some(RiskPoint(a.key[0].text, CountryOfIso(hist, a.key[0].text), a.sum / (a.count as real)))
    else None
  }

  function RiskOf(hist: seq<Obs>): Acc -> Option<RiskPoint>
  {
    (a: Acc) => RiskPointOf(hist, a)
  }

  /** The ISO code's defined growth values. */
  function GrowthValues(hist: seq<Obs>, iso: string): seq<real>
    requires Positive(hist)
  {
    ValuesWhere(YoyRows(hist, PctYoy(hist)), [Name(iso)])
  }

  /** The risk/return points: per ISO code of the history, the mean of its
      defined growth values, with the Country of its first row. */
  function RiskReturn(gdpTotal: seq<Obs>, year: int): seq<RiskPoint>
  {
    var hist := History(gdpTotal, year);
    HistoryPositive(gdpTotal, year);
    FilterMap(Accumulate(YoyRows(hist, PctYoy(hist))), RiskOf(hist))
  }

  /** The values aggregated for an ISO code are exactly the growth values
      defined on that code's rows. */
  lemma GrowthValuesSpec(hist: seq<Obs>, iso: string, v: real)
    requires Positive(hist)
    ensures v in GrowthValues(hist, iso) <==>
      exists i :: 0 <= i < |hist| && hist[i].iso == iso && PctYoy(hist)[i] == Some(v)
  {
    var pct := PctYoy(hist);
    var rows := YoyRows(hist, pct);
    ValuesWhereMember(rows, [Name(iso)], v);
    if v in GrowthValues(hist, iso) {
      assert YoyFrom(([Name(iso)], v), hist, pct);
      var i :| 0 <= i < |hist| && pct[i].Some? && ([Name(iso)], v) == ([Name(hist[i].iso)], pct[i].value);
      assert [Name(iso)][0] == [Name(hist[i].iso)][0];
    }
    if exists i :: 0 <= i < |hist| && hist[i].iso == iso && pct[i] == Some(v) {
      var i :| 0 <= i < |hist| && hist[i].iso == iso && pct[i] == Some(v);
      assert YoyFrom(([Name(iso)], v), hist, pct);
    }
  }

  lemma {:induction false} ValuesWhereMember(rows: seq<(Key, real)>, k: Key, v: real)
    ensures v in ValuesWhere(rows, k) <==> (k, v) in rows
    decreases |rows|
  {
    if rows != [] {
      var n := |rows| - 1;
      ValuesWhereMember(rows[..n], k, v);
      assert rows == rows[..n] + [rows[n]];
    }
  }

  /** What a point of the scatter says about its ISO code. */
  ghost predicate RiskFacts(p: RiskPoint, hist: seq<Obs>)
    requires Positive(hist)
  {
    var vs := GrowthValues(hist, p.iso);
    && |vs| >= 2 && p.avgGrowth == Mean(vs) && p.avgGrowth < 50.0
    && p.country == CountryOfIso(hist, p.iso)
  }

  /** Every point is an ISO code with at least two defined growth values,
      their mean below 50 as its average growth, and its Country. */
  lemma RiskReturnSound(gdpTotal: seq<Obs>, year: int)
    ensures Positive(History(gdpTotal, year))
    ensures forall p :: p in RiskReturn(gdpTotal, year) ==> RiskFacts(p, History(gdpTotal, year))
  {
    var hist := History(gdpTotal, year);
    HistoryPositive(gdpTotal, year);
    var rows := YoyRows(hist, PctYoy(hist));
    AccumulateGrouped(rows);
    RiskPointsSound(hist, rows, Accumulate(rows));
  }

  lemma RiskPointsSound(hist: seq<Obs>, rows: seq<(Key, real)>, g: seq<Acc>)
    requires Grouped(rows, g)
    ensures forall p :: p in FilterMap(g, RiskOf(hist)) ==>
      var vs := ValuesWhere(rows, [Name(p.iso)]);
      |vs| >= 2 && p.avgGrowth == Mean(vs) && p.avgGrowth < 50.0 && p.country == CountryOfIso(hist, p.iso)
  {
    var r := FilterMap(g, RiskOf(hist));
    forall p | p in r
      ensures var vs := ValuesWhere(rows, [Name(p.iso)]);
        |vs| >= 2 && p.avgGrowth == Mean(vs) && p.avgGrowth < 50.0 && p.country == CountryOfIso(hist, p.iso)
    {
      var k :| 0 <= k < |r| && r[k] == p;
      var i :| 0 <= i < |g| && RiskOf(hist)(g[i]) == Some(p);
      RiskPointFacts(hist, rows, g, i);
    }
  }

  lemma RiskPointFacts(hist: seq<Obs>, rows: seq<(Key, real)>, g: seq<Acc>, i: nat)
    requires Totals(rows, g) && i < |g| && RiskPointOf(hist, g[i]).Some?
    ensures var p := RiskPointOf(hist, g[i]).value; var vs := ValuesWhere(rows, [Name(p.iso)]);
      |vs| >= 2 && p.avgGrowth == Mean(vs) && p.avgGrowth < 50.0 && p.country == CountryOfIso(hist, p.iso)
  {
    assert g[i].key == [Name(g[i].key[0].text)];
  }

  /** Every ISO code with at least two defined growth values averaging
      below 50 has its point. */
  lemma RiskReturnComplete(gdpTotal: seq<Obs>, year: int, iso: string)
    requires Positive(History(gdpTotal, year))
    requires var vs := GrowthValues(History(gdpTotal, year), iso); |vs| >= 2 && Mean(vs) < 50.0
    ensures exists p :: p in RiskReturn(gdpTotal, year) && p.iso == iso
  {
    var hist := History(gdpTotal, year);
    var rows := YoyRows(hist, PctYoy(hist));
    AccumulateGrouped(rows);
    RiskPointComplete(hist, rows, Accumulate(rows), iso);
  }

  lemma RiskPointComplete(hist: seq<Obs>, rows: seq<(Key, real)>, g: seq<Acc>, iso: string)
    requires Grouped(rows, g)
    requires var vs := ValuesWhere(rows, [Name(iso)]); |vs| >= 2 && Mean(vs) < 50.0
    ensures exists p :: p in FilterMap(g, RiskOf(hist)) && p.iso == iso
  {
    var key: Key := [Name(iso)];
    CountWhereHasKey(rows, key);
    var j :| 0 <= j < |rows| && rows[j].0 == key;
    assert key in KeysOf(g);
    var i :| 0 <= i < |g| && KeysOf(g)[i] == key;
    assert RiskOf(hist)(g[i]).Some?;
    assert RiskOf(hist)(g[i]).value in FilterMap(g, RiskOf(hist));
  }

  /** The content of the advanced modal: the risk/return scatter of the GDP
      analysis; the charts themselves are not modelled. */
  datatype Advanced = NoAnalysis | LifeAnalysis(year: int) | GdpAnalysis(year: int, risk: seq<RiskPoint>)

  /** `update_advanced_modal_gdp`: nothing outside the tab or without a
      year; the life analysis in the life view; otherwise the GDP analysis
      with its risk/return points. */
  function AdvancedModalGdp(year: Option<int>, activeTab: string, viewMode: string, gdpTotal: seq<Obs>): (r: Advanced)
    ensures r.NoAnalysis? <==> activeTab != Tab2Id || year.None?
    ensures r.LifeAnalysis? <==> activeTab == Tab2Id && year.Some? && viewMode == LifeView
    ensures r.LifeAnalysis? ==> r.year == year.value
    ensures r.GdpAnalysis? ==> r.year == year.value && r.risk == RiskReturn(gdpTotal, year.value)
  {
    if activeTab != Tab2Id || year.None? then NoAnalysis
    else if viewMode == LifeView then LifeAnalysis(year.value)
    else GdpAnalysis(year.value, RiskReturn(gdpTotal, year.value))
  }
}
