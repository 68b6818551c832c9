/** The data helpers of the correlation tab: one year of the merged tables,
    a country's trajectory, the per-ISO snapshots and the two tables of
    change between a start year and the selected year. */
module Tab3Data {
  import opened Common
  import opened Tables
  import opened Grouping
  import opened Sorting
  import opened Selection
  import opened Aggregates

  // ---------------------------------------------------------------------------
  // One year of the merged tables
  // ---------------------------------------------------------------------------

  /** `tab3_get_gdp_bubble_year_df`: the rows of `get_merged_for_correlation`
      of one year. */
  function GdpBubbleYear(merged: seq<CorrRow>, year: int): (r: seq<CorrRow>)
    ensures forall row :: row in r <==> row in merged && row.year == year
  {
    Filter(merged, (row: CorrRow) => row.year == year)
  }

  /** `tab3_get_life_bubble_year_df`: the rows of `get_merged_life_progress`
      of one year. */
  function LifeBubbleYear(merged: seq<LifeRow>, year: int): (r: seq<LifeRow>)
    ensures forall row :: row in r <==> row in merged && row.year == year
  {
    Filter(merged, (row: LifeRow) => row.year == year)
  }

  // ---------------------------------------------------------------------------
  // Trajectories
  // ---------------------------------------------------------------------------

  function CorrYear(row: CorrRow): real
  {
    row.year as real
  }

  function LifeYear(row: LifeRow): real
  {
    row.year as real
  }

  /** A row of the GDP trajectory of (cleaned) ISO `iso`: that ISO, and both
      per-capita values positive for the log axes. */
  predicate GdpTrajectoryRow(row: CorrRow, iso: string)
  {
    row.iso == iso && row.gdppc > 0.0 && row.co2pc > 0.0
  }

  /** A row of the life trajectory of (cleaned) ISO `iso`. */
  predicate LifeTrajectoryRow(row: LifeRow, iso: string)
  {
    row.iso == iso && row.valueCapita > 0.0 && row.life > 0.0
  }

  /** `tab3_get_gdp_country_trajectory_df`: the rows of the cleaned ISO
      sorted by Year. The filters are applied before the sort, which keeps
      the same rows in the same order. */
  function GdpTrajectory(merged: seq<CorrRow>, iso: string): (r: seq<CorrRow>)
    ensures forall row :: row in r <==> row in merged && GdpTrajectoryRow(row, CleanIso(iso))
    ensures multiset(r) == multiset(Filter(merged, (row: CorrRow) => GdpTrajectoryRow(row, CleanIso(iso))))
    ensures SortedBy(r, Ascending(CorrYear))
  {
    var c := CleanIso(iso);
    var kept := Filter(merged, (row: CorrRow) => GdpTrajectoryRow(row, c));
    AscendingTotal(CorrYear);
    SortSorted(kept, Ascending(CorrYear));
    var r := Sort(kept, Ascending(CorrYear));
    assert forall row :: row in r <==> row in multiset(kept);
    r
  }

  /** `tab3_get_life_country_trajectory_df`. */
  function LifeTrajectory(merged: seq<LifeRow>, iso: string): (r: seq<LifeRow>)
    ensures forall row :: row in r <==> row in merged && LifeTrajectoryRow(row, CleanIso(iso))
    ensures multiset(r) == multiset(Filter(merged, (row: LifeRow) => LifeTrajectoryRow(row, CleanIso(iso))))
    ensures SortedBy(r, Ascending(LifeYear))
  {
    var c := CleanIso(iso);
    var kept := Filter(merged, (row: LifeRow) => LifeTrajectoryRow(row, c));
    AscendingTotal(LifeYear);
    SortSorted(kept, Ascending(LifeYear));
    var r := Sort(kept, Ascending(LifeYear));
    assert forall row :: row in r <==> row in multiset(kept);
    r
  }

  // ---------------------------------------------------------------------------
  // _tab3_aggregate_iso
  // ---------------------------------------------------------------------------

  /** Rows of one year. */
  function InYear(year: int): Obs -> bool
  {
    (o: Obs) => o.year == year
  }

  /** Group-by key: the ISOcode cleaned with `.astype(str).str.strip().str.replace('"', '')`. */
  function ByCleanIso(o: Obs): Key
  {
    [Name(CleanIso(o.iso))]
  }

  /** `_tab3_aggregate_iso(df, year, col, agg)`: the year's rows grouped by
      cleaned ISOcode, averaged when `agg` is "mean" and summed otherwise. */
  function AggregateIso(t: seq<Obs>, year: int, agg: string): (r: seq<(Key, real)>)
    ensures UniqueKeys(r)
  {
    var rows := KeyedRows(t, InYear(year), ByCleanIso);
    if agg == "mean" then GroupMean(rows) else GroupSum(rows)
  }

  /** Reference: the value of ISO `iso` in the `year` snapshot — the sum (or
      the mean) of the Values of that year's rows whose cleaned ISOcode is
      `iso`, and nothing when there are none. */
  function Snapshot(t: seq<Obs>, year: int, agg: string, iso: string): Option<real>
  {
    var n := GroupCount(t, InYear(year), ByCleanIso, [Name(iso)]);
    var total := GroupTotal(t, InYear(year), ByCleanIso, [Name(iso)]);
    if n == 0 then None
    else if agg == "mean" then Some(total / (n as real))
    else Some(total)
  }

  /** The aggregate series holds exactly the snapshot of every ISO, and an
      ISO has a snapshot exactly when a row of that year carries it. */
  lemma AggregateIsoSpec(t: seq<Obs>, year: int, agg: string, iso: string)
    ensures Lookup(AggregateIso(t, year, agg), [Name(iso)]) == Snapshot(t, year, agg, iso)
    ensures Snapshot(t, year, agg, iso).Some? <==> exists o :: o in t && o.year == year && CleanIso(o.iso) == iso
  {
    if agg == "mean" {
      GroupMeanLookup(t, InYear(year), ByCleanIso, [Name(iso)]);
    } else {
      GroupSumLookup(t, InYear(year), ByCleanIso, [Name(iso)]);
    }
    GroupCountPositive(t, InYear(year), ByCleanIso, [Name(iso)]);
  }

  // ---------------------------------------------------------------------------
  // Changes between two years
  // ---------------------------------------------------------------------------

  /** `((end / start) - 1) * 100`, guarded by a nonzero start. */
  function PercentChange(start: real, end: real): real
    requires start != 0.0
  {
    (end / start - 1.0) * 100.0
  }

  /** The change compounds back to the end value. */
  lemma PercentChangeInverse(start: real, end: real)
    requires start != 0.0
    ensures start * (1.0 + PercentChange(start, end) / 100.0) == end
  {
    assert 1.0 + PercentChange(start, end) / 100.0 == end / start;
  }

  /** From a positive start, the change is negative exactly when the value
      fell and positive exactly when it rose. */
  lemma PercentChangeSign(start: real, end: real)
    requires start > 0.0
    ensures PercentChange(start, end) < 0.0 <==> end < start
    ensures PercentChange(start, end) > 0.0 <==> end > start
  {
    assert end / start < 1.0 <==> end < start;
    assert end / start > 1.0 <==> end > start;
  }

  /** The bounding filter on a percent change: `-80 < d < 400`. */
  predicate InGrowthBounds(d: real)
  {
    -80.0 < d < 400.0
  }

  /** The bounding filter on a change of life expectancy: `-20 < d < 40`. */
  predicate InLifeBounds(d: real)
  {
    -20.0 < d < 40.0
  }

  /** The ISO code a snapshot key stands for. */
  predicate IsoKey(k: Key)
  {
    |k| == 1 && k[0].Name?
  }

  // ---------------------------------------------------------------------------
  // tab3_get_decoupling_delta
  // ---------------------------------------------------------------------------

  datatype DecouplingRow = DecouplingRow(
    iso: string, co2Start: real, co2End: real, gdpStart: real, gdpEnd: real,
    dCo2: real, dGdp: real, country: string, region: string)

  /** The other three snapshots of the decoupling table, with the table the
      Country names come from and the region map. */
  datatype DecouplingInputs = DecouplingInputs(
    co2End: seq<(Key, real)>, gdpStart: seq<(Key, real)>, gdpEnd: seq<(Key, real)>,
    source: seq<Obs>, regions: map<string, string>)

  /** The row of one ISO of the CO2 start series: present in the three
      other series (`dropna`), nonzero baselines, changes within the bounds. */
  function DecouplingOf(g: (Key, real), x: DecouplingInputs): Option<DecouplingRow>
  {
    var k := g.0;
    var ce := Lookup(x.co2End, k);
    var gs := Lookup(x.gdpStart, k);
    var ge := Lookup(x.gdpEnd, k);
    if IsoKey(k) && ce.Some? && gs.Some? && ge.Some? && g.1 != 0.0 && gs.value != 0.0 then
      var dCo2 := PercentChange(g.1, ce.value);
      var dGdp := PercentChange(gs.value, ge.value);
      if InGrowthBounds(dGdp) && InGrowthBounds(dCo2) then
        var iso := k[0].text;
        Some(DecouplingRow(iso, g.1, ce.value, gs.value, ge.value, dCo2, dGdp,
                           CountryOfIso(x.source, iso), RegionOf(x.regions, iso)))
      else None
    else None
  }

  function DecouplingFn(x: DecouplingInputs): ((Key, real)) -> Option<DecouplingRow>
  {
    (g: (Key, real)) => DecouplingOf(g, x)
  }

  /** `tab3_get_decoupling_delta(selected, start)`: nothing when the selected
      year does not come after the start year; otherwise one row per ISO
      present in the four snapshots (CO2 totals and GDP totals, summed per
      ISO, at both years) with nonzero baselines and both changes within
      (-80, 400). */
  function DecouplingDelta(totals: seq<Obs>, gdpTotal: seq<Obs>, regions: map<string, string>,
                           selected: int, start: int): (r: Option<seq<DecouplingRow>>)
    ensures r.None? <==> selected <= start
  {
    if selected <= start then None
    else
      var co2s := AggregateIso(totals, start, "sum");
      var x := DecouplingInputs(AggregateIso(totals, selected, "sum"), AggregateIso(gdpTotal, start, "sum"),
                                AggregateIso(gdpTotal, selected, "sum"), totals, regions);
      Some(FilterMap(co2s, DecouplingFn(x)))
  }

  /** What a decoupling row holds: the four snapshots of its ISO, nonzero
      baselines, both percent changes, both within the bounds, the Country
      of its ISO in the CO2 table (or the ISO itself) and its region ("Other"
      when it has none). */
  predicate DecouplingSound(row: DecouplingRow, totals: seq<Obs>, gdpTotal: seq<Obs>,
                            regions: map<string, string>, selected: int, start: int)
  {
    && Snapshot(totals, start, "sum", row.iso) == Some(row.co2Start)
    && Snapshot(totals, selected, "sum", row.iso) == Some(row.co2End)
    && Snapshot(gdpTotal, start, "sum", row.iso) == Some(row.gdpStart)
    && Snapshot(gdpTotal, selected, "sum", row.iso) == Some(row.gdpEnd)
    && row.co2Start != 0.0 && row.gdpStart != 0.0
    && row.dCo2 == PercentChange(row.co2Start, row.co2End)
    && row.dGdp == PercentChange(row.gdpStart, row.gdpEnd)
    && InGrowthBounds(row.dCo2) && InGrowthBounds(row.dGdp)
    && row.country == CountryOfIso(totals, row.iso)
    && row.region == RegionOf(regions, row.iso)
  }

  /** An ISO the decoupling table must list. */
  predicate DecouplingQualifies(iso: string, totals: seq<Obs>, gdpTotal: seq<Obs>, selected: int, start: int)
  {
    var cs := Snapshot(totals, start, "sum", iso);
    var ce := Snapshot(totals, selected, "sum", iso);
    var gs := Snapshot(gdpTotal, start, "sum", iso);
    var ge := Snapshot(gdpTotal, selected, "sum", iso);
    && cs.Some? && ce.Some? && gs.Some? && ge.Some?
    && cs.value != 0.0 && gs.value != 0.0
    && InGrowthBounds(PercentChange(cs.value, ce.value))
    && InGrowthBounds(PercentChange(gs.value, ge.value))
  }

  /** Some row of `rows` is about ISO `iso`. */
  ghost predicate ListsDecoupling(rows: seq<DecouplingRow>, iso: string)
  {
    exists row :: row in rows && row.iso == iso
  }

  /** Every row of the decoupling table carries the snapshots of its ISO,
      nonzero baselines, the two percent changes within the bounds, its
      Country and its region. */
  lemma DecouplingDeltaSound(totals: seq<Obs>, gdpTotal: seq<Obs>, regions: map<string, string>,
                             selected: int, start: int)
    requires start < selected
    ensures forall row :: row in DecouplingDelta(totals, gdpTotal, regions, selected, start).value ==>
      DecouplingSound(row, totals, gdpTotal, regions, selected, start)
  {
    var co2s := AggregateIso(totals, start, "sum");
    var x := DecouplingInputs(AggregateIso(totals, selected, "sum"), AggregateIso(gdpTotal, start, "sum"),
                              AggregateIso(gdpTotal, selected, "sum"), totals, regions);
    forall row | row in FilterMap(co2s, DecouplingFn(x))
      ensures DecouplingSound(row, totals, gdpTotal, regions, selected, start)
    {
      DecouplingFromSeries(co2s, x, row);
      AggregateIsoSpec(totals, start, "sum", row.iso);
      AggregateIsoSpec(totals, selected, "sum", row.iso);
      AggregateIsoSpec(gdpTotal, start, "sum", row.iso);
      AggregateIsoSpec(gdpTotal, selected, "sum", row.iso);
    }
  }

  /** Every ISO present in the four snapshots with nonzero baselines and
      both changes within the bounds has a row. */
  lemma DecouplingDeltaComplete(totals: seq<Obs>, gdpTotal: seq<Obs>, regions: map<string, string>,
                                selected: int, start: int)
    requires start < selected
    ensures forall iso :: DecouplingQualifies(iso, totals, gdpTotal, selected, start) ==>
      ListsDecoupling(DecouplingDelta(totals, gdpTotal, regions, selected, start).value, iso)
  {
    var co2s := AggregateIso(totals, start, "sum");
    var x := DecouplingInputs(AggregateIso(totals, selected, "sum"), AggregateIso(gdpTotal, start, "sum"),
                              AggregateIso(gdpTotal, selected, "sum"), totals, regions);
    forall iso | DecouplingQualifies(iso, totals, gdpTotal, selected, start)
      ensures ListsDecoupling(FilterMap(co2s, DecouplingFn(x)), iso)
    {
      AggregateIsoSpec(totals, start, "sum", iso);
      AggregateIsoSpec(totals, selected, "sum", iso);
      AggregateIsoSpec(gdpTotal, start, "sum", iso);
      AggregateIsoSpec(gdpTotal, selected, "sum", iso);
      DecouplingInSeries(co2s, x, iso);
    }
  }

  lemma DecouplingFromSeries(co2s: seq<(Key, real)>, x: DecouplingInputs, row: DecouplingRow)
    requires UniqueKeys(co2s)
    requires row in FilterMap(co2s, DecouplingFn(x))
    ensures Lookup(co2s, [Name(row.iso)]) == Some(row.co2Start)
    ensures Lookup(x.co2End, [Name(row.iso)]) == Some(row.co2End)
    ensures Lookup(x.gdpStart, [Name(row.iso)]) == Some(row.gdpStart)
    ensures Lookup(x.gdpEnd, [Name(row.iso)]) == Some(row.gdpEnd)
    ensures row.co2Start != 0.0 && row.gdpStart != 0.0
    ensures row.dCo2 == PercentChange(row.co2Start, row.co2End)
    ensures row.dGdp == PercentChange(row.gdpStart, row.gdpEnd)
    ensures InGrowthBounds(row.dCo2) && InGrowthBounds(row.dGdp)
    ensures row.country == CountryOfIso(x.source, row.iso) && row.region == RegionOf(x.regions, row.iso)
  {
    var r := FilterMap(co2s, DecouplingFn(x));
    var k :| 0 <= k < |r| && r[k] == row;
    var i :| 0 <= i < |co2s| && DecouplingFn(x)(co2s[i]) == Some(r[k]);
    DecouplingOfSome(co2s[i], x, row);
    LookupUnique(co2s, i);
  }

  lemma DecouplingInSeries(co2s: seq<(Key, real)>, x: DecouplingInputs, iso: string)
    requires var cs := Lookup(co2s, [Name(iso)]);
      var ce := Lookup(x.co2End, [Name(iso)]);
      var gs := Lookup(x.gdpStart, [Name(iso)]);
      var ge := Lookup(x.gdpEnd, [Name(iso)]);
      && cs.Some? && ce.Some? && gs.Some? && ge.Some?
      && cs.value != 0.0 && gs.value != 0.0
      && InGrowthBounds(PercentChange(cs.value, ce.value))
      && InGrowthBounds(PercentChange(gs.value, ge.value))
    ensures ListsDecoupling(FilterMap(co2s, DecouplingFn(x)), iso)
  {
    var i :| 0 <= i < |co2s| && co2s[i] == ([Name(iso)], Lookup(co2s, [Name(iso)]).value);
    assert DecouplingFn(x)(co2s[i]).Some?;
    assert DecouplingFn(x)(co2s[i]).value in FilterMap(co2s, DecouplingFn(x));
  }

  lemma DecouplingOfSome(g: (Key, real), x: DecouplingInputs, row: DecouplingRow)
    requires DecouplingOf(g, x) == Some(row)
    ensures g.0 == [Name(row.iso)] && g.1 == row.co2Start
    ensures Lookup(x.co2End, [Name(row.iso)]) == Some(row.co2End)
    ensures Lookup(x.gdpStart, [Name(row.iso)]) == Some(row.gdpStart)
    ensures Lookup(x.gdpEnd, [Name(row.iso)]) == Some(row.gdpEnd)
    ensures row.co2Start != 0.0 && row.gdpStart != 0.0
    ensures row.dCo2 == PercentChange(row.co2Start, row.co2End)
    ensures row.dGdp == PercentChange(row.gdpStart, row.gdpEnd)
    ensures InGrowthBounds(row.dCo2) && InGrowthBounds(row.dGdp)
    ensures row.country == CountryOfIso(x.source, row.iso) && row.region == RegionOf(x.regions, row.iso)
  {
    assert g.0 == [g.0[0]];
  }

  // ---------------------------------------------------------------------------
  // tab3_get_life_progress_delta
  // ---------------------------------------------------------------------------

  datatype LifeDeltaRow = LifeDeltaRow(
    iso: string, lifeStart: real, lifeEnd: real, co2Start: real, co2End: real,
    dLife: real, dCo2: real, country: string, region: string, score: real)

  datatype LifeDeltaInputs = LifeDeltaInputs(
    lifeEnd: seq<(Key, real)>, co2Start: seq<(Key, real)>, co2End: seq<(Key, real)>,
    source: seq<Obs>, regions: map<string, string>)

  /** `Sustainability_Score = dLife - dCO2 / 10`. */
  function SustainabilityScore(dLife: real, dCo2: real): real
  {
    dLife - dCo2 / 10.0
  }

  /** The row of one ISO of the life start series. */
  function LifeDeltaOf(g: (Key, real), x: LifeDeltaInputs): Option<LifeDeltaRow>
  {
    var k := g.0;
    var le := Lookup(x.lifeEnd, k);
    var cs := Lookup(x.co2Start, k);
    var ce := Lookup(x.co2End, k);
    if IsoKey(k) && le.Some? && cs.Some? && ce.Some? && cs.value != 0.0 then
      var dLife := le.value - g.1;
      var dCo2 := PercentChange(cs.value, ce.value);
      if InLifeBounds(dLife) && InGrowthBounds(dCo2) then
        var iso := k[0].text;
        Some(LifeDeltaRow(iso, g.1, le.value, cs.value, ce.value, dLife, dCo2,
                          CountryOfIso(x.source, iso), RegionOf(x.regions, iso),
                          SustainabilityScore(dLife, dCo2)))
      else None
    else None
  }

  function LifeDeltaFn(x: LifeDeltaInputs): ((Key, real)) -> Option<LifeDeltaRow>
  {
    (g: (Key, real)) => LifeDeltaOf(g, x)
  }

  /** `tab3_get_life_progress_delta(selected, start)`: nothing when the
      selected year does not come after the start year; otherwise one row
      per ISO present in the four snapshots (life expectancy averaged, CO2
      per capita summed, at both years) with a nonzero CO2 baseline, a life
      change within (-20, 40) and a CO2 change within (-80, 400). */
  function LifeProgressDelta(life: seq<Obs>, capita: seq<Obs>, regions: map<string, string>,
                             selected: int, start: int): (r: Option<seq<LifeDeltaRow>>)
    ensures r.None? <==> selected <= start
  {
    if selected <= start then None
    else
      var ls := AggregateIso(life, start, "mean");
      var x := LifeDeltaInputs(AggregateIso(life, selected, "mean"), AggregateIso(capita, start, "sum"),
                               AggregateIso(capita, selected, "sum"), capita, regions);
      Some(FilterMap(ls, LifeDeltaFn(x)))
  }

  predicate LifeDeltaSound(row: LifeDeltaRow, life: seq<Obs>, capita: seq<Obs>,
                           regions: map<string, string>, selected: int, start: int)
  {
    && Snapshot(life, start, "mean", row.iso) == Some(row.lifeStart)
    && Snapshot(life, selected, "mean", row.iso) == Some(row.lifeEnd)
    && Snapshot(capita, start, "sum", row.iso) == Some(row.co2Start)
    && Snapshot(capita, selected, "sum", row.iso) == Some(row.co2End)
    && row.co2Start != 0.0
    && row.dLife == row.lifeEnd - row.lifeStart
    && row.dCo2 == PercentChange(row.co2Start, row.co2End)
    && InLifeBounds(row.dLife) && InGrowthBounds(row.dCo2)
    && row.score == SustainabilityScore(row.dLife, row.dCo2)
    && row.country == CountryOfIso(capita, row.iso)
    && row.region == RegionOf(regions, row.iso)
  }

  predicate LifeDeltaQualifies(iso: string, life: seq<Obs>, capita: seq<Obs>, selected: int, start: int)
  {
    var ls := Snapshot(life, start, "mean", iso);
    var le := Snapshot(life, selected, "mean", iso);
    var cs := Snapshot(capita, start, "sum", iso);
    var ce := Snapshot(capita, selected, "sum", iso);
    && ls.Some? && le.Some? && cs.Some? && ce.Some?
    && cs.value != 0.0
    && InLifeBounds(le.value - ls.value)
    && InGrowthBounds(PercentChange(cs.value, ce.value))
  }

  ghost predicate ListsLifeDelta(rows: seq<LifeDeltaRow>, iso: string)
  {
    exists row :: row in rows && row.iso == iso
  }

  /** Every row of the life progress table carries the snapshots of its
      ISO, a nonzero CO2 baseline, both changes within their bounds, the
      sustainability score, its Country and its region. */
  lemma LifeProgressDeltaSound(life: seq<Obs>, capita: seq<Obs>, regions: map<string, string>,
                               selected: int, start: int)
    requires start < selected
    ensures forall row :: row in LifeProgressDelta(life, capita, regions, selected, start).value ==>
      LifeDeltaSound(row, life, capita, regions, selected, start)
  {
    var ls := AggregateIso(life, start, "mean");
    var x := LifeDeltaInputs(AggregateIso(life, selected, "mean"), AggregateIso(capita, start, "sum"),
                             AggregateIso(capita, selected, "sum"), capita, regions);
    forall row | row in FilterMap(ls, LifeDeltaFn(x))
      ensures LifeDeltaSound(row, life, capita, regions, selected, start)
    {
      LifeDeltaFromSeries(ls, x, row);
      AggregateIsoSpec(life, start, "mean", row.iso);
      AggregateIsoSpec(life, selected, "mean", row.iso);
      AggregateIsoSpec(capita, start, "sum", row.iso);
      AggregateIsoSpec(capita, selected, "sum", row.iso);
    }
  }

  /** Every ISO present in the four snapshots with a nonzero CO2 baseline and
      both changes within their bounds has a row. */
  lemma LifeProgressDeltaComplete(life: seq<Obs>, capita: seq<Obs>, regions: map<string, string>,
                                  selected: int, start: int)
    requires start < selected
    ensures forall iso :: LifeDeltaQualifies(iso, life, capita, selected, start) ==>
      ListsLifeDelta(LifeProgressDelta(life, capita, regions, selected, start).value, iso)
  {
    var ls := AggregateIso(life, start, "mean");
    var x := LifeDeltaInputs(AggregateIso(life, selected, "mean"), AggregateIso(capita, start, "sum"),
                             AggregateIso(capita, selected, "sum"), capita, regions);
    forall iso | LifeDeltaQualifies(iso, life, capita, selected, start)
      ensures ListsLifeDelta(FilterMap(ls, LifeDeltaFn(x)), iso)
    {
      AggregateIsoSpec(life, start, "mean", iso);
      AggregateIsoSpec(life, selected, "mean", iso);
      AggregateIsoSpec(capita, start, "sum", iso);
      AggregateIsoSpec(capita, selected, "sum", iso);
      LifeDeltaInSeries(ls, x, iso);
    }
  }

  lemma LifeDeltaFromSeries(ls: seq<(Key, real)>, x: LifeDeltaInputs, row: LifeDeltaRow)
    requires UniqueKeys(ls)
    requires row in FilterMap(ls, LifeDeltaFn(x))
    ensures Lookup(ls, [Name(row.iso)]) == Some(row.lifeStart)
    ensures Lookup(x.lifeEnd, [Name(row.iso)]) == Some(row.lifeEnd)
    ensures Lookup(x.co2Start, [Name(row.iso)]) == Some(row.co2Start)
    ensures Lookup(x.co2End, [Name(row.iso)]) == Some(row.co2End)
    ensures row.co2Start != 0.0
    ensures row.dLife == row.lifeEnd - row.lifeStart
    ensures row.dCo2 == PercentChange(row.co2Start, row.co2End)
    ensures InLifeBounds(row.dLife) && InGrowthBounds(row.dCo2)
    ensures row.score == SustainabilityScore(row.dLife, row.dCo2)
    ensures row.country == CountryOfIso(x.source, row.iso) && row.region == RegionOf(x.regions, row.iso)
  {
    var r := FilterMap(ls, LifeDeltaFn(x));
    var k :| 0 <= k < |r| && r[k] == row;
    var i :| 0 <= i < |ls| && LifeDeltaFn(x)(ls[i]) == Some(r[k]);
    LifeDeltaOfSome(ls[i], x, row);
    LookupUnique(ls, i);
  }

  lemma LifeDeltaOfSome(g: (Key, real), x: LifeDeltaInputs, row: LifeDeltaRow)
    requires LifeDeltaOf(g, x) == Some(row)
    ensures g.0 == [Name(row.iso)] && g.1 == row.lifeStart
    ensures Lookup(x.lifeEnd, [Name(row.iso)]) == Some(row.lifeEnd)
    ensures Lookup(x.co2Start, [Name(row.iso)]) == Some(row.co2Start)
    ensures Lookup(x.co2End, [Name(row.iso)]) == Some(row.co2End)
    ensures row.co2Start != 0.0
    ensures row.dLife == row.lifeEnd - row.lifeStart
    ensures row.dCo2 == PercentChange(row.co2Start, row.co2End)
    ensures InLifeBounds(row.dLife) && InGrowthBounds(row.dCo2)
    ensures row.score == SustainabilityScore(row.dLife, row.dCo2)
    ensures row.country == CountryOfIso(x.source, row.iso) && row.region == RegionOf(x.regions, row.iso)
  {
    assert g.0 == [g.0[0]];
  }

  lemma LifeDeltaInSeries(ls: seq<(Key, real)>, x: LifeDeltaInputs, iso: string)
    requires var l0 := Lookup(ls, [Name(iso)]);
      var l1 := Lookup(x.lifeEnd, [Name(iso)]);
      var cs := Lookup(x.co2Start, [Name(iso)]);
      var ce := Lookup(x.co2End, [Name(iso)]);
      && l0.Some? && l1.Some? && cs.Some? && ce.Some?
      && cs.value != 0.0
      && InLifeBounds(l1.value - l0.value)
      && InGrowthBounds(PercentChange(cs.value, ce.value))
    ensures ListsLifeDelta(FilterMap(ls, LifeDeltaFn(x)), iso)
  {
    var i :| 0 <= i < |ls| && ls[i] == ([Name(iso)], Lookup(ls, [Name(iso)]).value);
    assert LifeDeltaFn(x)(ls[i]).Some?;
    assert LifeDeltaFn(x)(ls[i]).value in FilterMap(ls, LifeDeltaFn(x));
  }
}
