/** The shared year controls: the slider, its play button and the summary
    cards of the selected year. */
module Controls {
  import opened Common
  import opened Tables
  import opened Reconcile
  import opened Selection

  // ---------------------------------------------------------------------------
  // The slider
  // ---------------------------------------------------------------------------

  /** The slider's settings: its bounds, initial value and marked years. */
  datatype SliderConfig = SliderConfig(min: int, max: int, value: int, marks: seq<int>)

  /** `range(lo, hi, 10)`. */
  function DecadeMarks(lo: int, hi: int): (r: seq<int>)
    ensures forall i :: 0 <= i < |r| ==> r[i] == lo + 10 * i
    ensures forall i :: 0 <= i < |r| ==> lo <= r[i] < hi
    ensures lo < hi ==> lo + 10 * |r| >= hi
    ensures lo >= hi ==> r == []
    decreases hi - lo
  {
    if lo >= hi then []
    else
      var rest := DecadeMarks(lo + 10, hi);
      [lo] + rest
  }

  /** The slider of the layout: from the first to the last year of the CO2
      totals, starting at the last year, with a mark every ten years from
      the first. */
  function Slider(minYear: int, maxYear: int): (r: SliderConfig)
    ensures r.min == minYear && r.max == maxYear && r.value == maxYear
    ensures forall y :: y in r.marks <==> minYear <= y <= maxYear && (y - minYear) % 10 == 0
  {
    var marks := DecadeMarks(minYear, maxYear + 1);
    forall y | minYear <= y <= maxYear && (y - minYear) % 10 == 0
      ensures y in marks
    {
      var i := (y - minYear) / 10;
      assert marks[i] == y;
    }
    SliderConfig(minYear, maxYear, maxYear, marks)
  }

  /** `animate_slider`: the next year, wrapping from the last year back to
      the first. */
  function AnimateSlider(current: int, maxYear: int, minYear: int): (r: int)
    ensures minYear <= current <= maxYear ==> minYear <= r <= maxYear
    ensures current == maxYear ==> r == minYear
    ensures current < maxYear ==> r == current + 1
  {
    if current < maxYear then current + 1 else minYear
  }

  /** The slider after `n` ticks of the stepper. */
  function Ticks(current: int, maxYear: int, minYear: int, n: nat): int
    decreases n
  {
    if n == 0 then current else Ticks(AnimateSlider(current, maxYear, minYear), maxYear, minYear, n - 1)
  }

  lemma {:induction false} TicksForward(current: int, maxYear: int, minYear: int, n: nat)
    requires current + n <= maxYear
    ensures Ticks(current, maxYear, minYear, n) == current + n
    decreases n
  {
    if n > 0 {
      TicksForward(current + 1, maxYear, minYear, n - 1);
    }
  }

  lemma {:induction false} TicksCompose(current: int, maxYear: int, minYear: int, m: nat, n: nat)
    ensures Ticks(current, maxYear, minYear, m + n) == Ticks(Ticks(current, maxYear, minYear, m), maxYear, minYear, n)
    decreases m
  {
    if m > 0 {
      TicksCompose(AnimateSlider(current, maxYear, minYear), maxYear, minYear, m - 1, n);
    }
  }

  /** Playing the animation visits every year once and comes back to the
      year it started from after `max - min + 1` ticks. */
  lemma SliderCycle(current: int, maxYear: int, minYear: int)
    requires minYear <= current <= maxYear
    ensures Ticks(current, maxYear, minYear, maxYear - minYear + 1) == current
  {
    var up := maxYear - current;
    TicksForward(current, maxYear, minYear, up);
    TicksCompose(current, maxYear, minYear, up, 1);
    assert Ticks(maxYear, maxYear, minYear, 1) == Ticks(minYear, maxYear, minYear, 0);
    TicksCompose(current, maxYear, minYear, up + 1, current - minYear);
    TicksForward(minYear, maxYear, minYear, current - minYear);
  }

  // ---------------------------------------------------------------------------
  // Play / pause
  // ---------------------------------------------------------------------------

  const PlayLabel: string := "▶ Play"
  const PauseLabel: string := "⏸ Pause"

  /** The play button's initial click count. */
  const InitialClicks: int := 1

  /** `toggle_play`: an even click count stops the stepper and offers to
      play, an odd one runs it and offers to pause. */
  function TogglePlay(clicks: int, isDisabled: bool): (r: (bool, string))
    ensures r.0 <==> clicks % 2 == 0
    ensures r.1 == (if r.0 then PlayLabel else PauseLabel)
  {
    if clicks % 2 == 0 then (true, PlayLabel) else (false, PauseLabel)
  }

  /** Each click flips the stepper, whatever its state; the layout's initial
      click count starts it running. */
  lemma TogglePlayAlternates(clicks: int, isDisabled: bool, wasDisabled: bool)
    ensures TogglePlay(clicks + 1, isDisabled).0 == !TogglePlay(clicks, wasDisabled).0
    ensures TogglePlay(clicks + 2, isDisabled) == TogglePlay(clicks, wasDisabled)
    ensures TogglePlay(InitialClicks, isDisabled) == (false, PauseLabel)
  {
  }

  // ---------------------------------------------------------------------------
  // Summary cards
  // ---------------------------------------------------------------------------

  /** What `update_stats` shows: nothing, or the three cards. */
  datatype Stats = NoStats | Stats(global: real, topEmitter: string, average: real)

  ghost predicate TopCountry(rows: seq<Obs>, country: string)
  {
    exists k: nat :: FirstMax(rows, k) && rows[k].country == country
  }

  /** `update_stats(year)`: nothing for no year or a year without rows;
      otherwise the sum of the year's Values, the Country of its first
      largest Value and their mean. */
  function UpdateStats(totals: seq<Obs>, year: Option<int>): (r: Stats)
    ensures year.None? ==> r == NoStats
    ensures year.Some? ==> (r == NoStats <==> forall o :: o in totals ==> o.year != year.value)
    ensures r.Stats? ==>
      var rows := YearRows(totals, year.value);
      && |rows| > 0
      && r.global == Sum(ObsValues(rows))
      && r.average == r.global / (|rows| as real)
      && TopCountry(rows, r.topEmitter)
  {
    if year.None? then NoStats
    else
      var rows := YearRows(totals, year.value);
      assert rows != [] ==> rows[0] in rows;
      if rows == [] then NoStats
      else
        var values := ObsValues(rows);
        var k := ArgMax(values);
        assert FirstMax(rows, k) && rows[k].country == rows[k].country;
        Stats(Sum(values), rows[k].country, Mean(values))
  }

  /** The top emitter's Value is at least the average. */
  lemma StatsTopAboveAverage(totals: seq<Obs>, year: int)
    requires UpdateStats(totals, Some(year)).Stats?
    ensures var rows := YearRows(totals, year);
      UpdateStats(totals, Some(year)).average <= rows[ArgMax(ObsValues(rows))].value
  {
    var values := ObsValues(YearRows(totals, year));
    MeanAtMost(values, values[ArgMax(values)]);
  }

  lemma MeanAtMost(s: seq<real>, m: real)
    requires |s| > 0
    requires forall i :: 0 <= i < |s| ==> s[i] <= m
    ensures Mean(s) <= m
  {
    SumAtMostMax(s, m);
    QuotientAtMost(Sum(s), |s| as real, m);
  }

  lemma QuotientAtMost(a: real, n: real, m: real)
    requires n > 0.0 && a <= n * m
    ensures a / n <= m
  {
    var q := a / n;
    assert q * n == a;
    if q > m {
      assert q * n > m * n;
    }
  }

  lemma {:induction false} SumAtMostMax(s: seq<real>, m: real)
    requires forall i :: 0 <= i < |s| ==> s[i] <= m
    ensures Sum(s) <= (|s| as real) * m
  {
    if s != [] {
      SumAtMostMax(s[..|s| - 1], m);
    }
  }
}
