// The correlation tab's decision rules: the correlation labels, the modal
// and the analysis panel with its baseline guard and its rankings, and the
// bubble click.

module Tab3 {
  import opened Common
  import opened Tables
  import opened Sorting
  import opened Clicks
  import opened Tab3Data

  // ---------------------------------------------------------------------------
  // Correlation labels
  // ---------------------------------------------------------------------------

  /** The text shown under the GDP bubble chart. */
  datatype GdpLink = StrongLink | ModerateLink | WeakLink | Decoupled

  /** How strong a label is, weakest first. */
  function GdpLinkRank(l: GdpLink): nat
  {
    match l
    case Decoupled => 0
    case WeakLink => 1
    case ModerateLink => 2
    case StrongLink => 3
  }

  /** The label of a log-log correlation `corr`: above 0.7 strong, above 0.4
      moderate, above 0 weak, otherwise decoupled or inverse. */
  function GdpLinkLabel(corr: real): (r: GdpLink)
    ensures r == StrongLink <==> corr > 0.7
    ensures r == ModerateLink <==> 0.4 < corr <= 0.7
    ensures r == WeakLink <==> 0.0 < corr <= 0.4
    ensures r == Decoupled <==> corr <= 0.0
  {
    if corr > 0.7 then StrongLink
    else if corr > 0.4 then ModerateLink
    else if corr > 0.0 then WeakLink
    else Decoupled
  }

  /** A larger correlation never gets a weaker label. */
  lemma GdpLinkMonotone(a: real, b: real)
    requires a <= b
    ensures GdpLinkRank(GdpLinkLabel(a)) <= GdpLinkRank(GdpLinkLabel(b))
  {
  }

  function GdpLinkText(l: GdpLink): string
  {
    match l
    case StrongLink => "Strong positive link: Richer = Dirtier"
    case ModerateLink => "Moderate link"
    case WeakLink => "Weak link"
    case Decoupled => "Decoupled or Inverse relationship!"
  }

  /** The text shown under the life expectancy bubble chart. */
  datatype LifeLink = PositiveLink | WeakPositiveLink | NoClearLink | NegativeLink

  function LifeLinkRank(l: LifeLink): nat
  {
    match l
    case NegativeLink => 0
    case NoClearLink => 1
    case WeakPositiveLink => 2
    case PositiveLink => 3
  }

  /** Above 0.5 positive, above 0.2 weak positive, above -0.2 no clear
      relationship, otherwise negative. */
  function LifeLinkLabel(corr: real): (r: LifeLink)
    ensures r == PositiveLink <==> corr > 0.5
    ensures r == WeakPositiveLink <==> 0.2 < corr <= 0.5
    ensures r == NoClearLink <==> -0.2 < corr <= 0.2
    ensures r == NegativeLink <==> corr <= -0.2
  {
    if corr > 0.5 then PositiveLink
    else if corr > 0.2 then WeakPositiveLink
    else if corr > -0.2 then NoClearLink
    else NegativeLink
  }

  lemma LifeLinkMonotone(a: real, b: real)
    requires a <= b
    ensures LifeLinkRank(LifeLinkLabel(a)) <= LifeLinkRank(LifeLinkLabel(b))
  {
  }

  function LifeLinkText(l: LifeLink): string
  {
    match l
    case PositiveLink => "Positive correlation: Higher CO2 → Longer life"
    case WeakPositiveLink => "Weak positive link"
    case NoClearLink => "No clear relationship"
    case NegativeLink => "Negative correlation detected"
  }

  // ---------------------------------------------------------------------------
  // Decoupling rankings
  // ---------------------------------------------------------------------------

  /** `Decoupling_Score = dGDP - dCO2 / 2`. */
  function DecouplingScore(row: DecouplingRow): real
  {
    row.dGdp - row.dCo2 / 2.0
  }

  /** The score rewards GDP growth and penalises CO2 growth. */
  lemma DecouplingScoreMonotone(a: DecouplingRow, b: DecouplingRow)
    requires a.dGdp <= b.dGdp && b.dCo2 <= a.dCo2
    ensures DecouplingScore(a) <= DecouplingScore(b)
  {
  }

  function ByDCo2(row: DecouplingRow): real
  {
    row.dCo2
  }

  /** Absolute decoupling: GDP up, CO2 down. */
  predicate GreenGrowth(row: DecouplingRow)
  {
    row.dGdp > 0.0 && row.dCo2 < 0.0
  }

  /** Coupled growth: GDP up, CO2 up. */
  predicate DirtyGrowth(row: DecouplingRow)
  {
    row.dGdp > 0.0 && row.dCo2 > 0.0
  }

  /** The rows a ranking draws from: the zone when it is not empty, else
      every row. */
  function Pool(rows: seq<DecouplingRow>, zone: DecouplingRow -> bool): (r: seq<DecouplingRow>)
    ensures forall row :: row in r ==> row in rows
    ensures (exists row :: row in rows && zone(row)) ==>
      forall row :: row in rows ==> (row in r <==> zone(row))
    ensures (forall row :: row in rows ==> !zone(row)) ==> r == rows
  {
    var z := Filter(rows, zone);
    if z == [] then
      assert forall row :: row in rows ==> !zone(row);
      rows
    else
      assert z[0] in z;
      z
  }

  /** The green-growth cards: at most five rows, best decoupling score
      first, from the green zone if any row is in it, else from all rows. */
  function GreenRanking(rows: seq<DecouplingRow>): (r: seq<DecouplingRow>)
    ensures |r| == Min(5, |Pool(rows, GreenGrowth)|)
    ensures multiset(r) <= multiset(Pool(rows, GreenGrowth))
    ensures forall i, j :: 0 <= i < j < |r| ==> DecouplingScore(r[i]) >= DecouplingScore(r[j])
    ensures forall x, i :: x in Pool(rows, GreenGrowth) && x !in r && 0 <= i < |r| ==>
      DecouplingScore(x) <= DecouplingScore(r[i])
  {
    Largest(Pool(rows, GreenGrowth), 5, DecouplingScore)
  }

  /** The dirty-growth cards: at most five rows, largest CO2 growth first,
      from the coupled-growth zone if any row is in it, else from all rows. */
  function DirtyRanking(rows: seq<DecouplingRow>): (r: seq<DecouplingRow>)
    ensures |r| == Min(5, |Pool(rows, DirtyGrowth)|)
    ensures multiset(r) <= multiset(Pool(rows, DirtyGrowth))
    ensures forall i, j :: 0 <= i < j < |r| ==> ByDCo2(r[i]) >= ByDCo2(r[j])
    ensures forall x, i :: x in Pool(rows, DirtyGrowth) && x !in r && 0 <= i < |r| ==>
      ByDCo2(x) <= ByDCo2(r[i])
  {
    Largest(Pool(rows, DirtyGrowth), 5, ByDCo2)
  }

  /** When some row is in the green zone, every green card is in it, and
      its score is positive. */
  lemma GreenRankingInZone(rows: seq<DecouplingRow>)
    requires exists row :: row in rows && GreenGrowth(row)
    ensures forall row :: row in GreenRanking(rows) ==> GreenGrowth(row) && DecouplingScore(row) > 0.0
  {
    var r := GreenRanking(rows);
    forall row | row in r
      ensures GreenGrowth(row) && DecouplingScore(row) > 0.0
    {
      assert row in multiset(Pool(rows, GreenGrowth));
    }
  }

  /** When some row is in the coupled-growth zone, every dirty card is in
      it. */
  lemma DirtyRankingInZone(rows: seq<DecouplingRow>)
    requires exists row :: row in rows && DirtyGrowth(row)
    ensures forall row :: row in DirtyRanking(rows) ==> DirtyGrowth(row)
  {
    var r := DirtyRanking(rows);
    forall row | row in r
      ensures DirtyGrowth(row)
    {
      assert row in multiset(Pool(rows, DirtyGrowth));
    }
  }

  // ---------------------------------------------------------------------------
  // Life progress rankings
  // ---------------------------------------------------------------------------

  function ByScore(row: LifeDeltaRow): real
  {
    row.score
  }

  /** The five most sustainable countries, best score first. */
  function MostSustainable(rows: seq<LifeDeltaRow>): (r: seq<LifeDeltaRow>)
    ensures |r| == Min(5, |rows|)
    ensures multiset(r) <= multiset(rows)
    ensures forall i, j :: 0 <= i < j < |r| ==> ByScore(r[i]) >= ByScore(r[j])
    ensures forall x, i :: x in rows && x !in r && 0 <= i < |r| ==> ByScore(x) <= ByScore(r[i])
  {
    Largest(rows, 5, ByScore)
  }

  /** The five least sustainable countries, worst score first. */
  function LeastSustainable(rows: seq<LifeDeltaRow>): (r: seq<LifeDeltaRow>)
    ensures |r| == Min(5, |rows|)
    ensures multiset(r) <= multiset(rows)
    ensures forall i, j :: 0 <= i < j < |r| ==> ByScore(r[i]) <= ByScore(r[j])
    ensures forall x, i :: x in rows && x !in r && 0 <= i < |r| ==> ByScore(r[i]) <= ByScore(x)
  {
    Smallest(rows, 5, ByScore)
  }

  /** With five countries or fewer both lists show every country. */
  lemma FewCountriesBothLists(rows: seq<LifeDeltaRow>)
    requires |rows| <= 5
    ensures multiset(MostSustainable(rows)) == multiset(rows)
    ensures multiset(LeastSustainable(rows)) == multiset(rows)
  {
    SubMultisetSameSize(MostSustainable(rows), rows);
    SubMultisetSameSize(LeastSustainable(rows), rows);
  }

  lemma SubMultisetSameSize<T>(a: seq<T>, b: seq<T>)
    requires multiset(a) <= multiset(b) && |a| == |b|
    ensures multiset(a) == multiset(b)
  {
    var d := multiset(b) - multiset(a);
    assert multiset(b) == multiset(a) + d;
    assert |multiset(b)| == |multiset(a)| + |d|;
  }

  // ---------------------------------------------------------------------------
  // The analysis panel
  // ---------------------------------------------------------------------------

  /** The first year of both analyses. */
  const StartYear: int := 1970

  /** What the advanced analysis modal shows. */
  datatype Panel =
    | Closed
    | Baseline(year: int)
    | NoSharedData
    | DecouplingPanel(rows: seq<DecouplingRow>, green: seq<DecouplingRow>, dirty: seq<DecouplingRow>)
    | LifePanel(lifeRows: seq<LifeDeltaRow>, best: seq<LifeDeltaRow>, worst: seq<LifeDeltaRow>)

  /** The decoupling analysis of `selected`: the baseline placeholder up to
      the start year, "No shared data" for an empty table, else the table
      with its two rankings. */
  function DecouplingAnalysis(totals: seq<Obs>, gdpTotal: seq<Obs>, regions: map<string, string>, selected: int): (r: Panel)
    ensures selected <= StartYear <==> r == Baseline(StartYear)
    ensures r.DecouplingPanel? ==>
      && r.rows == DecouplingDelta(totals, gdpTotal, regions, selected, StartYear).value
      && r.rows != []
      && r.green == GreenRanking(r.rows) && r.dirty == DirtyRanking(r.rows)
    ensures r == Baseline(StartYear) || r.NoSharedData? || r.DecouplingPanel?
    ensures r.NoSharedData? <==> DecouplingDelta(totals, gdpTotal, regions, selected, StartYear) == Some([])
  {
    if selected <= StartYear then Baseline(StartYear)
    else
      var delta := DecouplingDelta(totals, gdpTotal, regions, selected, StartYear);
      if delta.value == [] then NoSharedData
      else DecouplingPanel(delta.value, GreenRanking(delta.value), DirtyRanking(delta.value))
  }

  /** The life progress analysis of `selected`, guarded the same way. */
  function LifeAnalysis(life: seq<Obs>, capita: seq<Obs>, regions: map<string, string>, selected: int): (r: Panel)
    ensures selected <= StartYear <==> r == Baseline(StartYear)
    ensures r.LifePanel? ==>
      && r.lifeRows == LifeProgressDelta(life, capita, regions, selected, StartYear).value
      && r.lifeRows != []
      && r.best == MostSustainable(r.lifeRows) && r.worst == LeastSustainable(r.lifeRows)
    ensures r == Baseline(StartYear) || r.NoSharedData? || r.LifePanel?
    ensures r.NoSharedData? <==> LifeProgressDelta(life, capita, regions, selected, StartYear) == Some([])
  {
    if selected <= StartYear then Baseline(StartYear)
    else
      var delta := LifeProgressDelta(life, capita, regions, selected, StartYear);
      if delta.value == [] then NoSharedData
      else LifePanel(delta.value, MostSustainable(delta.value), LeastSustainable(delta.value))
  }

  /** `update_advanced_analysis_chart`: nothing while the modal is closed or
      no year is selected; then the life analysis in the life view and the
      decoupling analysis otherwise. */
  function AdvancedAnalysis(isOpen: bool, selected: Option<int>, viewMode: string,
                            totals: seq<Obs>, capita: seq<Obs>, gdpTotal: seq<Obs>, life: seq<Obs>,
                            regions: map<string, string>): (r: Panel)
    ensures r.Closed? <==> !isOpen || selected.None?
    ensures isOpen && selected.Some? && viewMode == "life" ==>
      r == LifeAnalysis(life, capita, regions, selected.value)
    ensures isOpen && selected.Some? && viewMode != "life" ==>
      r == DecouplingAnalysis(totals, gdpTotal, regions, selected.value)
  {
    if !isOpen || selected.None? then Closed
    else if viewMode == "life" then LifeAnalysis(life, capita, regions, selected.value)
    else DecouplingAnalysis(totals, gdpTotal, regions, selected.value)
  }

  /** Up to the start year the panel shows the placeholder whatever the
      tables hold. */
  lemma BaselineIgnoresData(totals: seq<Obs>, capita: seq<Obs>, gdpTotal: seq<Obs>, life: seq<Obs>,
                            regions: map<string, string>, viewMode: string, year: int)
    requires year <= StartYear
    ensures AdvancedAnalysis(true, Some(year), viewMode, totals, capita, gdpTotal, life, regions) == Baseline(StartYear)
    ensures AdvancedAnalysis(true, Some(year), viewMode, [], [], [], [], map[]) == Baseline(StartYear)
  {
  }

  // ---------------------------------------------------------------------------
  // Bubble click
  // ---------------------------------------------------------------------------

  /** `update_corr_country_store`: the first clicked bubble's
      `customdata[0]`, or nothing when there is no click, no point, or the
      point carries no custom data. */
  function CorrCountryStore(click: Option<ClickData>): (r: Option<string>)
    ensures r.Some? <==>
      HasPoints(click) && FirstPoint(click).customdata.Some? && |FirstPoint(click).customdata.value| > 0
    ensures r.Some? ==> r.value == FirstPoint(click).customdata.value[0]
  {
    if HasPoints(click) then
      var p := FirstPoint(click);
      if p.customdata.Some? && |p.customdata.value| > 0 then Some(p.customdata.value[0]) else None
    else None
  }
}
