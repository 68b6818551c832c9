/** `load_life_expectancy`: the life-expectancy CSV, whose every data line is
    wrapped in quotes with the inner fields separated by `,""` and closed by
    `""`, is read line by line with a hand-written splitter, squared off to
    the header width, melted to one row per (Country, ISOcode, Year) and
    reconciled like the GDP table, duplicates averaged. */
module LifeExpectancy {
  import opened Common
  import opened Tables
  import opened Reconcile
  import opened Grouping

  // ---------------------------------------------------------------------------
  // The field splitter
  // ---------------------------------------------------------------------------

  /** The field separator `,""`. */
  const Sep: string := ",\"\""

  /** An escaped quote `""`, which the splitter drops. */
  const Quote2: string := "\"\""

  predicate StartsWithSep(s: string)
  {
    |s| >= 3 && s[0] == ',' && s[1] == '"' && s[2] == '"'
  }

  predicate StartsWithQuote2(s: string)
  {
    |s| >= 2 && s[0] == '"' && s[1] == '"'
  }

  /** The scan of the splitter over the rest `s` of the line, with `cur` the
      field read so far: the fields closed by a `,""` and the field still
      open at the end. */
  function Scan(s: string, cur: string): (string, seq<string>)
    decreases |s|
  {
    if s == [] then (cur, [])
    else if StartsWithSep(s) then
      var (last, closed) := Scan(s[3..], "");
      (last, [cur] + closed)
    else if StartsWithQuote2(s) then Scan(s[2..], cur)
    else Scan(s[1..], cur + [s[0]])
  }

  /** The fields of one unquoted line: the closed fields, then the open one
      when it is not empty. */
  function SplitFields(line: string): seq<string>
  {
    var (last, closed) := Scan(line, "");
    closed + (if last != "" then [last] else [])
  }

  /** The `while i < len(line)` splitter. */
  method SplitLine(line: string) returns (parts: seq<string>)
    ensures parts == SplitFields(line)
  {
    parts := [];
    var current := "";
    var i := 0;
    assert line[i..] == line && parts + Scan(line, current).1 == Scan(line, current).1;
    while i < |line|
      invariant 0 <= i <= |line|
      invariant Scan(line, "") == (Scan(line[i..], current).0, parts + Scan(line[i..], current).1)
      decreases |line| - i
    {
      var rest := line[i..];
      assert rest[0] == line[i];
      if i < |line| - 2 && line[i..i + 3] == Sep {
        assert line[i..i + 3][1] == line[i + 1] && line[i..i + 3][2] == line[i + 2];
        assert StartsWithSep(rest) && rest[3..] == line[i + 3..];
        assert Scan(rest, current) == (Scan(rest[3..], "").0, [current] + Scan(rest[3..], "").1);
        assert parts + ([current] + Scan(rest[3..], "").1) == (parts + [current]) + Scan(rest[3..], "").1;
        parts := parts + [current];
        current := "";
        i := i + 3;
      } else if i < |line| - 1 && line[i..i + 2] == Quote2 {
        assert line[i..i + 2][0] == line[i] && line[i..i + 2][1] == line[i + 1];
        assert !StartsWithSep(rest);
        assert StartsWithQuote2(rest) && rest[2..] == line[i + 2..];
        assert Scan(rest, current) == Scan(line[i + 2..], current);
        i := i + 2;
      } else {
        assert i + 3 <= |line| ==> line[i..i + 3] == rest[..3];
        assert i + 2 <= |line| ==> line[i..i + 2] == rest[..2];
        assert !StartsWithSep(rest) && !StartsWithQuote2(rest);
        assert rest[1..] == line[i + 1..];
        assert Scan(rest, current) == Scan(line[i + 1..], current + [line[i]]);
        current := current + [line[i]];
        i := i + 1;
      }
    }
    if current != "" {
      parts := parts + [current];
    }
  }

  // ---------------------------------------------------------------------------
  // The line format and its round trip
  // ---------------------------------------------------------------------------

  /** The fields after the first, each written `,""field""`. */
  function EncodeRest(fs: seq<string>): string
  {
    if fs == [] then "" else Sep + fs[0] + Quote2 + EncodeRest(fs[1..])
  }

  /** One line of the file with its outer quotes removed:
      `first,""second"",""third""...`. */
  function Encode(fs: seq<string>): string
    requires fs != []
  {
    fs[0] + EncodeRest(fs[1..])
  }

  /** A field the format can carry: not empty and free of quotes. */
  predicate PlainField(f: string)
  {
    f != "" && '"' !in f
  }

  /** Every field is plain, and no field after the first ends in a comma (its
      closing `""` would then read as a separator). */
  predicate Encodable(fs: seq<string>)
  {
    && fs != []
    && (forall i :: 0 <= i < |fs| ==> PlainField(fs[i]))
    && (forall i :: 1 <= i < |fs| ==> fs[i][|fs[i]| - 1] != ',')
  }

  /** Splitting an encoded line gives back its fields. */
  lemma SplitEncode(fs: seq<string>)
    requires Encodable(fs)
    ensures SplitFields(Encode(fs)) == fs
  {
    var rest := fs[1..];
    ScanPlain(fs[0], EncodeRest(rest), "");
    assert "" + fs[0] == fs[0];
    ScanRest(rest, fs[0]);
    if rest == [] {
      assert Scan(Encode(fs), "") == (fs[0], []);
    } else {
      assert fs == [fs[0]] + rest[..|rest| - 1] + [rest[|rest| - 1]];
    }
  }

  /** A quote-free stretch is copied into the open field. */
  lemma {:induction false} ScanPlain(f: string, t: string, cur: string)
    requires '"' !in f
    requires f != [] && f[|f| - 1] == ',' ==> !StartsWithQuote2(t)
    ensures Scan(f + t, cur) == Scan(t, cur + f)
  {
    if f == [] {
      assert f + t == t && cur + f == cur;
    } else {
      var s := f + t;
      assert s[0] == f[0] != '"';
      assert !StartsWithSep(s) by {
        if |f| >= 2 {
          assert s[1] == f[1];
        } else {
          assert s[1..] == t;
        }
      }
      assert s[1..] == f[1..] + t;
      ScanPlain(f[1..], t, cur + [f[0]]);
      assert cur + [f[0]] + f[1..] == cur + f;
    }
  }

  /** Scanning the encoded tail closes the open field and every tail field
      but the last, which stays open. */
  lemma {:induction false} ScanRest(gs: seq<string>, cur: string)
    requires forall i :: 0 <= i < |gs| ==> PlainField(gs[i]) && gs[i][|gs[i]| - 1] != ','
    ensures gs == [] ==> Scan(EncodeRest(gs), cur) == (cur, [])
    ensures gs != [] ==> Scan(EncodeRest(gs), cur) == (gs[|gs| - 1], [cur] + gs[..|gs| - 1])
  {
    if gs != [] {
      var g := gs[0];
      var tail := EncodeRest(gs[1..]);
      var s := EncodeRest(gs);
      assert s == Sep + (g + (Quote2 + tail));
      assert StartsWithSep(s) && s[3..] == g + (Quote2 + tail);
      ScanPlain(g, Quote2 + tail, "");
      assert "" + g == g;
      var q := Quote2 + tail;
      assert StartsWithQuote2(q) && !StartsWithSep(q) && q[2..] == tail;
      ScanRest(gs[1..], g);
      if |gs| > 1 {
        assert gs[1..][..|gs| - 2] == gs[1..|gs| - 1];
        assert [g] + gs[1..|gs| - 1] == gs[..|gs| - 1];
      }
    }
  }

  // ---------------------------------------------------------------------------
  // Reading the lines
  // ---------------------------------------------------------------------------

  /** `line[1:-1]` when the stripped line starts and ends with a quote
      (a lone `"` both starts and ends with one, and becomes empty). */
  function Unquote(line: string): (r: string)
    ensures |line| >= 2 && line[0] == '"' && line[|line| - 1] == '"' ==> r == line[1..|line| - 1]
    ensures line == "\"" ==> r == ""
    ensures !(|line| >= 1 && line[0] == '"' && line[|line| - 1] == '"') ==> r == line
  {
    if |line| >= 2 && line[0] == '"' && line[|line| - 1] == '"' then line[1..|line| - 1]
    else if line == "\"" then ""
    else line
  }

  /** A line wrapped in one pair of quotes is unwrapped to what was inside. */
  lemma UnquoteWrapped(s: string)
    ensures Unquote("\"" + s + "\"") == s
  {
    var w := "\"" + s + "\"";
    assert w[0] == '"' && w[|w| - 1] == '"' && w[1..|w| - 1] == s;
  }

  /** The part filter: not empty and not a `;;;;` filler. */
  predicate KeepPart(p: string)
  {
    p != "" && !IsPrefix(";;;;", p)
  }

  /** The fields one line contributes, when it contributes a row: a blank
      line gives nothing; otherwise the kept fields of the unquoted line,
      exactly when there are more than two of them. */
  function RowOfLine(line: string): (r: Option<seq<string>>)
    ensures r.Some? ==> |r.value| > 2 && forall j :: 0 <= j < |r.value| ==> KeepPart(r.value[j])
    ensures Strip(line) == "" ==> r.None?
    ensures Strip(line) != "" ==>
      var parts := Filter(SplitFields(Unquote(Strip(line))), KeepPart);
      (r.Some? <==> |parts| > 2) && (r.Some? ==> r.value == parts)
  {
    var stripped := Strip(line);
    if stripped == "" then None
    else
      var parts := Filter(SplitFields(Unquote(stripped)), KeepPart);
      if |parts| > 2 then Some(parts) else None
  }

  /** Some line of `lines` gives `row`. */
  ghost predicate RowFromLine(row: seq<string>, lines: seq<string>)
  {
    exists i :: 0 <= i < |lines| && RowOfLine(lines[i]) == Some(row)
  }

  /** The rows read from a run of lines, in order (`RowsOfSound`,
      `RowsOfComplete` and `RowsOfConcat` say which rows and in what order). */
  function RowsOf(lines: seq<string>): (rows: seq<seq<string>>)
    ensures |rows| <= |lines|
    ensures forall k :: 0 <= k < |rows| ==> |rows[k]| > 2
  {
    if lines == [] then []
    else
      var n := |lines| - 1;
      var row := RowOfLine(lines[n]);
      RowsOf(lines[..n]) + (if row.Some? then [row.value] else [])
  }

  /** Every row read comes from one of the lines. */
  lemma {:induction false} RowsOfSound(lines: seq<string>)
    ensures forall k :: 0 <= k < |RowsOf(lines)| ==> RowFromLine(RowsOf(lines)[k], lines)
  {
    if lines != [] {
      var n := |lines| - 1;
      var init := lines[..n];
      RowsOfSound(init);
      forall k | 0 <= k < |RowsOf(lines)|
        ensures RowFromLine(RowsOf(lines)[k], lines)
      {
        var row := RowsOf(lines)[k];
        if k < |RowsOf(init)| {
          assert row == RowsOf(init)[k];
          assert RowFromLine(row, init);
          var i :| 0 <= i < |init| && RowOfLine(init[i]) == Some(row);
          assert init[i] == lines[i];
        } else {
          assert RowOfLine(lines[n]) == Some(row);
        }
      }
    }
  }

  /** Every line that gives a row has that row among the rows read. */
  lemma {:induction false} RowsOfComplete(lines: seq<string>, i: int)
    requires 0 <= i < |lines| && RowOfLine(lines[i]).Some?
    ensures RowOfLine(lines[i]).value in RowsOf(lines)
  {
    var n := |lines| - 1;
    var init := lines[..n];
    if i == n {
      var row := RowOfLine(lines[n]);
      assert RowsOf(lines) == RowsOf(init) + [row.value];
    } else {
      assert init[i] == lines[i];
      RowsOfComplete(init, i);
      assert RowsOf(lines)[..|RowsOf(init)|] == RowsOf(init);
    }
  }

  /** Reading the rows keeps, line by line, the rows `RowOfLine` gives. */
  lemma {:induction false} RowsOfIsFilterMap(lines: seq<string>)
    ensures RowsOf(lines) == FilterMap(lines, RowOfLine)
  {
    if lines != [] {
      var n := |lines| - 1;
      RowsOfIsFilterMap(lines[..n]);
    }
  }

  /** Reading two runs of lines one after the other gives their rows one
      after the other. */
  lemma RowsOfConcat(a: seq<string>, b: seq<string>)
    ensures RowsOf(a + b) == RowsOf(a) + RowsOf(b)
  {
    RowsOfIsFilterMap(a);
    RowsOfIsFilterMap(b);
    RowsOfIsFilterMap(a + b);
    FilterMapConcat(a, b, RowOfLine);
  }

  /** One line gives its row, or nothing. */
  lemma RowsOfOne(line: string)
    ensures RowsOf([line]) == if RowOfLine(line).Some? then [RowOfLine(line).value] else []
  {
    assert [line][..0] == [];
  }

  /** The rows of the file: the first four lines are metadata. */
  function ParsedRows(lines: seq<string>): seq<seq<string>>
  {
    if |lines| <= 4 then [] else RowsOf(lines[4..])
  }

  /** The body of the reading loop for one line. */
  method ReadLine(raw: string) returns (row: Option<seq<string>>)
    ensures row == RowOfLine(raw)
  {
    var line := Strip(raw);
    if line == "" {
      return None;
    }
    line := Unquote(line);
    var parts := SplitLine(line);
    parts := Filter(parts, KeepPart);
    if |parts| > 2 {
      row := Some(parts);
    } else {
      row := None;
    }
  }

  /** The `for i, line in enumerate(f)` loop. */
  method ReadRows(lines: seq<string>) returns (rows: seq<seq<string>>)
    ensures rows == ParsedRows(lines)
  {
    rows := [];
    for i := 0 to |lines|
      invariant rows == (if i <= 4 then [] else RowsOf(lines[4..i]))
    {
      if i < 4 {
        continue;
      }
      var row := ReadLine(lines[i]);
      RowsOfNext(lines, i);
      if row.Some? {
        rows := rows + [row.value];
      }
    }
    assert |lines| > 4 ==> lines[4..|lines|] == lines[4..];
  }

  lemma RowsOfNext(lines: seq<string>, i: nat)
    requires 4 <= i < |lines|
    ensures RowsOf(lines[4..i + 1]) == RowsOf(if i == 4 then [] else lines[4..i]) +
      (if RowOfLine(lines[i]).Some? then [RowOfLine(lines[i]).value] else [])
  {
    var ls := lines[4..i + 1];
    assert ls[..|ls| - 1] == lines[4..i] && ls[|ls| - 1] == lines[i];
    assert i == 4 ==> lines[4..i] == [];
  }

  // ---------------------------------------------------------------------------
  // Squaring the rows off
  // ---------------------------------------------------------------------------

  /** A row cut or padded with "" to width `w`. */
  function Fit(row: seq<string>, w: nat): (r: seq<string>)
    ensures |r| == w
    ensures forall j :: 0 <= j < w && j < |row| ==> r[j] == row[j]
    ensures forall j :: |row| <= j < w ==> r[j] == ""
  {
    if |row| >= w then row[..w] else row + seq(w - |row|, _ => "")
  }

  /** The adjusting loop: `while len(row) < max_cols: row.append('')`, then
      `row[:] = row[:max_cols]`, on every data row in place. */
  method AdjustRows(a: array<seq<string>>, w: nat)
    modifies a
    ensures forall k :: 0 <= k < a.Length ==> a[k] == Fit(old(a[k]), w)
  {
    for k := 0 to a.Length
      invariant forall q :: 0 <= q < k ==> a[q] == Fit(old(a[q]), w)
      invariant forall q :: k <= q < a.Length ==> a[q] == old(a[q])
    {
      var row := a[k];
      while |row| < w
        invariant |a[k]| <= |row| <= w || row == a[k]
        invariant row[..|a[k]|] == a[k]
        invariant forall j :: |a[k]| <= j < |row| ==> row[j] == ""
        decreases w - |row|
      {
        row := row + [""];
      }
      if |row| > w {
        row := row[..w];
      }
      assert row == Fit(a[k], w);
      a[k] := row;
    }
  }

  // ---------------------------------------------------------------------------
  // The long table
  // ---------------------------------------------------------------------------

  /** Every data row fitted to the header width. */
  function FitAll(rows: seq<seq<string>>, w: nat): (r: seq<seq<string>>)
    ensures |r| == |rows|
    ensures forall k :: 0 <= k < |rows| ==> r[k] == Fit(rows[k], w)
  {
    seq(|rows|, k requires 0 <= k < |rows| => Fit(rows[k], w))
  }

  /** `rename(columns={cols[0]: 'Country', cols[1]: 'ISOcode'})`: every
      column carrying one of the two names is renamed, and the second entry
      of the dictionary wins when both names are equal. */
  function RenamedHeader(h: seq<string>): (r: seq<string>)
    requires |h| >= 2
    ensures |r| == |h|
    ensures r[1] == "ISOcode"
    ensures r[0] == "Country" <==> h[0] != h[1]
    ensures forall j :: 0 <= j < |h| && h[j] != h[0] && h[j] != h[1] ==> r[j] == h[j]
  {
    seq(|h|, j requires 0 <= j < |h| => if h[j] == h[1] then "ISOcode" else if h[j] == h[0] then "Country" else h[j])
  }

  /** A year column: four digits. */
  predicate FourDigits(c: string)
  {
    |c| == 4 && IsDigits(c)
  }

  /** `[col for col in df.columns if col.isdigit() and len(col) == 4]`, as
      positions. */
  function YearColumns(h: seq<string>): (r: seq<nat>)
    ensures forall k :: 0 <= k < |r| ==> r[k] < |h| && FourDigits(h[r[k]])
    ensures forall c :: 0 <= c < |h| && FourDigits(h[c]) ==> c in r
  {
    if h == [] then []
    else
      var n := |h| - 1;
      assert forall c :: 0 <= c < n ==> h[..n][c] == h[c];
      YearColumns(h[..n]) + (if FourDigits(h[n]) then [n] else [])
  }

  /** One cell of a year column as an observation: Country from the first
      column, ISOcode from the second with blanks stripped, the year from the
      column name, `None` for a value that is not numeric. */
  function LifeCell(rh: seq<string>): (seq<string>, nat) -> Option<Obs>
  {
    (row: seq<string>, c: nat) =>
      if c < |rh| && FourDigits(rh[c]) then
        match ParseDecimal(CellAt(row, c))
        case Some(v) => Some(Obs(CellAt(row, 0), Strip(CellAt(row, 1)), DigitsValue(rh[c]), v))
        case None => None
      else None
  }

  /** The melted observations before reconciliation, or `None` where the
      loader raises (fewer than two rows, no year column, or no column left
      named `Country` after the rename) and returns an empty table. */
  function LifeMelted(lines: seq<string>): Option<seq<Obs>>
  {
    LifeObs(ParsedRows(lines))
  }

  /** `LifeMelted` on the rows already read: the header row, then the data.
      The `Country` and `ISOcode` values are read from the first two
      columns; pandas selects them by name, which picks the same columns
      unless a later header repeats the first column's name. */
  function LifeObs(rows: seq<seq<string>>): Option<seq<Obs>>
  {
    if |rows| < 2 || |rows[0]| < 2 then None
    else
      var h := rows[0];
      var rh := RenamedHeader(h);
      var cols := YearColumns(rh);
      if cols == [] || rh[0] != "Country" then None
      else Some(Grid(FitAll(rows[1..], |h|), cols, LifeCell(rh)))
  }

  /** The table `load_life_expectancy` returns: the melted observations
      reconciled and averaged per (Country, ISOcode, Year); empty on failure. */
  function LifeTable(lines: seq<string>): seq<Obs>
  {
    match LifeMelted(lines)
    case None => []
    case Some(ms) => MeanByKey(ReconciledAll(ms))
  }

  /** `load_life_expectancy`. */
  method LoadLifeExpectancy(lines: seq<string>) returns (r: seq<Obs>)
    ensures r == LifeTable(lines)
  {
    var rows := ReadRows(lines);
    if |rows| < 2 {
      return [];
    }
    var header := rows[0];
    var a := new seq<string>[|rows| - 1](k requires 0 <= k < |rows| - 1 => rows[k + 1]);
    AdjustRows(a, |header|);
    var data := a[..];
    assert data == FitAll(rows[1..], |header|);
    var rh := RenamedHeader(header);
    var cols := YearColumns(rh);
    if cols == [] || rh[0] != "Country" {
      return [];
    }
    var obs := ReconcileRows(Grid(data, cols, LifeCell(rh)));
    r := MeanByKey(obs);
  }

  /** What the life-expectancy table holds: one row per key, each the mean of
      the reconciled observations sharing its key, with a four-digit year,
      and a row for every reconciled observation. */
  lemma LifeTableSpec(lines: seq<string>)
    requires LifeMelted(lines).Some?
    ensures var obs := ReconciledAll(LifeMelted(lines).value);
      var r := LifeTable(lines);
      && UniqueObs(r)
      && (forall i :: 0 <= i < |r| ==>
            && HasKey(Keyed(obs), ObsKey(r[i])) && CountWhere(Keyed(obs), ObsKey(r[i])) > 0
            && r[i].value == SumWhere(Keyed(obs), ObsKey(r[i])) / (CountWhere(Keyed(obs), ObsKey(r[i])) as real)
            && YearInRange(r[i]))
      && (forall o :: o in obs ==> HasKey(Keyed(r), ObsKey(o)))
  {
    var obs := ReconciledAll(LifeMelted(lines).value);
    assert LifeTable(lines) == MeanByKey(obs);
    LifeYears(ParsedRows(lines));
    MeanYears(obs);
  }

  /** A year of at most four digits. */
  predicate YearInRange(o: Obs)
  {
    0 <= o.year < 10000
  }

  /** Every melted year comes from a four-digit column. */
  lemma LifeYears(rows: seq<seq<string>>)
    requires LifeObs(rows).Some?
    ensures forall o :: o in ReconciledAll(LifeObs(rows).value) ==> YearInRange(o)
  {
    var rh := RenamedHeader(rows[0]);
    var data := FitAll(rows[1..], |rows[0]|);
    var ms := LifeObs(rows).value;
    LifeCellYears(rh);
    GridAll(data, YearColumns(rh), LifeCell(rh), YearInRange);
    assert forall k :: 0 <= k < |ms| ==> YearInRange(ms[k]);
  }

  lemma LifeCellYears(rh: seq<string>)
    ensures forall row, c :: LifeCell(rh)(row, c).Some? ==> YearInRange(LifeCell(rh)(row, c).value)
  {
    forall row: seq<string>, c: nat | LifeCell(rh)(row, c).Some?
      ensures YearInRange(LifeCell(rh)(row, c).value)
    {
      DigitsBound(rh[c]);
    }
  }

  /** Averaging keeps the years of its input. */
  lemma MeanYears(obs: seq<Obs>)
    requires forall o :: o in obs ==> YearInRange(o)
    ensures forall i :: 0 <= i < |MeanByKey(obs)| ==> YearInRange(MeanByKey(obs)[i])
  {
    var r := MeanByKey(obs);
    forall i | 0 <= i < |r|
      ensures YearInRange(r[i])
    {
      var j :| 0 <= j < |Keyed(obs)| && Keyed(obs)[j].0 == ObsKey(r[i]);
      ObsKeyInjective(obs[j], r[i]);
      assert obs[j] in obs;
    }
  }

  /** Every numeric cell of a four-digit column of a data row is observed. */
  lemma LifeComplete(rows: seq<seq<string>>, i: nat, c: nat)
    requires LifeObs(rows).Some?
    requires 1 <= i < |rows| && c < |rows[0]| && FourDigits(RenamedHeader(rows[0])[c])
    requires ParseDecimal(CellAt(rows[i], c)).Some?
    ensures var rh := RenamedHeader(rows[0]);
      Obs(CellAt(rows[i], 0), Strip(CellAt(rows[i], 1)), DigitsValue(rh[c]), ParseDecimal(CellAt(rows[i], c)).value)
        in LifeObs(rows).value
  {
    var h := rows[0];
    var rh := RenamedHeader(h);
    var data := FitAll(rows[1..], |h|);
    var cols := YearColumns(rh);
    assert data[i - 1] == Fit(rows[i], |h|);
    assert CellAt(data[i - 1], c) == CellAt(rows[i], c);
    assert CellAt(data[i - 1], 0) == CellAt(rows[i], 0);
    assert CellAt(data[i - 1], 1) == CellAt(rows[i], 1);
    assert c in cols;
    assert LifeCell(rh)(data[i - 1], c).Some?;
  }
}
