// The overview tab's callbacks: the selected-country store, the detail
// modal's open/close rules, and the benchmarking radar of the detail modal.

module Tab1 {
  import opened Common
  import opened Tables
  import opened Sorting
  import opened Selection
  import opened Clicks
  import opened Radar

  const ResetButton: string := "reset-global-btn"
  const CountryStoreId: string := "selected-country-store"
  const CloseButton: string := "close-advanced"

  // ---------------------------------------------------------------------------
  // update_country_store
  // ---------------------------------------------------------------------------

  /** `update_country_store`: the reset button clears the selection;
      otherwise a click payload with a `points` key selects the first
      point's hovertext. An empty point list raises `IndexError` and a point
      without hovertext raises `KeyError`. */
  function CountryStore(trigger: Option<string>, click: Option<ClickData>): (r: Result<Option<string>>)
    ensures trigger == Some(ResetButton) ==> r == Ok(None)
    ensures trigger != Some(ResetButton) && (click.None? || click.value.points.None?) ==> r == Ok(None)
    ensures r.Ok? && r.value.Some? ==>
      HasPoints(click) && FirstPoint(click).hovertext == r.value
    ensures trigger != Some(ResetButton) && HasPoints(click) && FirstPoint(click).hovertext.Some? ==>
      r == Ok(FirstPoint(click).hovertext)
    ensures r.Err? <==>
      trigger != Some(ResetButton) && click.Some? && click.value.points.Some? &&
      (click.value.points.value == [] || click.value.points.value[0].hovertext.None?)
  {
    if trigger == Some(ResetButton) then Ok(None)
    else if click.Some? && click.value.points.Some? then
      var points := click.value.points.value;
      if points == [] then Err(IndexError)
      else if points[0].hovertext.None? then Err(KeyError("hovertext"))
      else Ok(points[0].hovertext)
    else Ok(None)
  }

  // ---------------------------------------------------------------------------
  // toggle_advanced_modal
  // ---------------------------------------------------------------------------

  /** A non-empty selected country name (Python truthiness of a string). */
  predicate Selected(country: Option<string>)
  {
    country.Some? && country.value != ""
  }

  /** `toggle_advanced_modal`: reset opens the modal, selecting a country
      opens it, the close button closes it; anything else leaves it. */
  function ToggleAdvancedModal(trigger: Option<string>, country: Option<string>, isOpen: bool): (r: bool)
    ensures trigger == Some(ResetButton) ==> r
    ensures trigger == Some(CloseButton) ==> !r
    ensures trigger == Some(CountryStoreId) ==> r == (Selected(country) || isOpen)
    ensures trigger !in {Some(ResetButton), Some(CountryStoreId), Some(CloseButton)} ==> r == isOpen
  {
    if trigger == Some(ResetButton) then true
    else if trigger == Some(CountryStoreId) then
      if Selected(country) then true else isOpen
    else if trigger == Some(CloseButton) then false
    else isOpen
  }

  /** Only the close button closes an open modal, and only a reset or a
      country selection opens a closed one. */
  lemma ToggleAdvancedModalCauses(trigger: Option<string>, country: Option<string>, isOpen: bool)
    ensures isOpen && !ToggleAdvancedModal(trigger, country, isOpen) ==> trigger == Some(CloseButton)
    ensures !isOpen && ToggleAdvancedModal(trigger, country, isOpen) ==>
      trigger == Some(ResetButton) || (trigger == Some(CountryStoreId) && Selected(country))
  {
  }

  // ---------------------------------------------------------------------------
  // The radar of update_advanced_modal
  // ---------------------------------------------------------------------------

  /** The country the radar is centred on: the selected one, else a largest
      emitter of the year; with neither, `.iloc[0]` on an empty table raises
      `IndexError`. */
  function RadarTarget(totals: seq<Obs>, year: int, country: Option<string>): (r: Result<string>)
    ensures Selected(country) ==> r == Ok(country.value)
    ensures !Selected(country) ==> (r.Err? <==> YearRows(totals, year) == [])
    ensures !Selected(country) && r.Ok? ==>
      exists o :: o in totals && o.year == year && o.country == r.value &&
        forall p :: p in totals && p.year == year ==> p.value <= o.value
  {
    if Selected(country) then Ok(country.value)
    else
      var top := TopEmitters(totals, year, 1);
      if top == [] then Err(IndexError)
      else
        var o := top[0];
        assert o in top;
        assert forall p :: p in totals && p.year == year ==> p.value <= o.value by {
          forall p | p in totals && p.year == year
            ensures p.value <= o.value
          {
            if p != o && p !in top {
              assert ByValue(p) <= ByValue(top[0]);
            }
          }
        }
        Ok(o.country)
  }

  /** The countries the radar compares: the year's five largest emitters
      and the stripped target when the target is not empty; a set, so
      without duplicates. */
  function CompareList(totals: seq<Obs>, year: int, target: string): (r: set<string>)
    ensures forall c :: c in r <==> AmongTop(TopEmitters(totals, year, 5), c) || (target != "" && c == Strip(target))
  {
    CountrySet(TopEmitters(totals, year, 5), target)
  }

  /** Some row of `top` belongs to country `c`. */
  ghost predicate AmongTop(top: seq<Obs>, c: string)
  {
    exists o :: o in top && o.country == c
  }

  function CountrySet(top: seq<Obs>, target: string): (r: set<string>)
    ensures forall c :: c in r <==> AmongTop(top, c) || (target != "" && c == Strip(target))
  {
    (set o | o in top :: o.country) + (if target != "" then {Strip(target)} else {})
  }

  /** The 1970 rows of the same country. */
  function BaseRowsOf(totals: seq<Obs>, c: string): (r: seq<Obs>)
    ensures forall b :: b in r <==> b in totals && b.year == 1970 && b.country == c
  {
    Filter(totals, (b: Obs) => b.year == 1970 && b.country == c)
  }

  /** The radar rows of one current-year row after the left merge with the
      1970 snapshot: one per matching 1970 row, or one with no baseline. */
  function MetricRowsOf(o: Obs, totals: seq<Obs>, year: int): (r: seq<RadarRow>)
    ensures |r| == if BaseRowsOf(totals, o.country) == [] then 1 else |BaseRowsOf(totals, o.country)|
    ensures forall x :: x in r ==> MetricRowOf(x, o, totals, year)
  {
    var base := BaseRowsOf(totals, o.country);
    var debt := DebtOf(totals, year, o.country);
    if base == [] then [RadarRow(o.country, o.value, GrowthSpeed(o.value, None), debt)]
    else
      var r := seq(|base|, j requires 0 <= j < |base| => RadarRow(o.country, o.value, GrowthSpeed(o.value, Some(base[j].value)), debt));
      assert forall j :: 0 <= j < |base| ==> base[j] in base;
      r
  }

  /** A radar row built from current-year row `o`. */
  ghost predicate MetricRowOf(x: RadarRow, o: Obs, totals: seq<Obs>, year: int)
  {
    && x.country == o.country && x.scale == o.value
    && x.debt == DebtOf(totals, year, o.country)
    && ((exists b :: b in totals && b.year == 1970 && b.country == o.country && x.growth == GrowthSpeed(o.value, Some(b.value)))
        || ((forall b :: b in totals && b.year == 1970 ==> b.country != o.country) && x.growth == 1.0))
  }

  function MetricsFn(totals: seq<Obs>, year: int): Obs -> seq<RadarRow>
  {
    (o: Obs) => MetricRowsOf(o, totals, year)
  }

  /** The radar table before normalisation: the current-year rows of the
      compared countries with their growth speed and historical debt. */
  function Metrics(totals: seq<Obs>, year: int, compare: set<string>): seq<RadarRow>
  {
    var now := Filter(YearRows(totals, year), (o: Obs) => o.country in compare);
    ConcatMap(now, MetricsFn(totals, year))
  }

  /** A row comes from a compared country's current-year row. */
  ghost predicate FromCurrentYear(x: RadarRow, totals: seq<Obs>, year: int, compare: set<string>)
  {
    exists o :: o in totals && o.year == year && o.country in compare && MetricRowOf(x, o, totals, year)
  }

  /** Every radar row is the current scale, growth speed against 1970 and
      historical debt of a compared country's row of the year. */
  lemma MetricsSound(totals: seq<Obs>, year: int, compare: set<string>)
    ensures forall x :: x in Metrics(totals, year, compare) ==> FromCurrentYear(x, totals, year, compare)
  {
    var now := Filter(YearRows(totals, year), (o: Obs) => o.country in compare);
    var r := ConcatMap(now, MetricsFn(totals, year));
    forall x | x in r
      ensures FromCurrentYear(x, totals, year, compare)
    {
      var k :| 0 <= k < |r| && r[k] == x;
      var o :| o in now && r[k] in MetricsFn(totals, year)(o);
      assert MetricRowOf(x, o, totals, year);
    }
  }

  /** Every compared country of the year has a radar row. */
  lemma MetricsComplete(totals: seq<Obs>, year: int, compare: set<string>, o: Obs)
    requires o in totals && o.year == year && o.country in compare
    ensures exists x :: x in Metrics(totals, year, compare) && x.country == o.country
  {
    var now := Filter(YearRows(totals, year), (p: Obs) => p.country in compare);
    assert o in now;
    var g := MetricRowsOf(o, totals, year);
    assert g[0] in g;
    assert g[0] in MetricsFn(totals, year)(o);
  }

  /** The radar of the detail modal: the target, the compared countries,
      their metrics, and the three metric columns normalised in place. */
  method AdvancedRadar(totals: seq<Obs>, year: int, country: Option<string>) returns (r: Result<seq<RadarRow>>)
    ensures r.Err? <==> RadarTarget(totals, year, country).Err?
    ensures r.Ok? ==>
      r.value == NormalisedRows(Metrics(totals, year, CompareList(totals, year, RadarTarget(totals, year, country).value)))
  {
    var target := RadarTarget(totals, year, country);
    if target.Err? {
      return Err(target.error);
    }
    var compare := CompareList(totals, year, target.value);
    var scores := NormaliseRadar(Metrics(totals, year, compare));
    return Ok(scores);
  }
}
