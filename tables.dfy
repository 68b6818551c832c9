/** Long-format tables: the observation record shared by the CO2, GDP and
    life-expectancy tables, row filters (`df[mask]`), inner joins
    (`pd.merge(..., how="inner")`), and the wide-to-long reshaping of a
    workbook sheet (`DataFrame.melt` followed by `pd.to_numeric(...,
    errors="coerce")` and `dropna`). */
module Tables {
  import opened Common

  /** One row of a long table: Country, ISOcode, Year and a numeric Value. */
  datatype Obs = Obs(country: string, iso: string, year: int, value: real)

  /** A worksheet as read from the workbook: its name, header cells and rows
      of cells, all as text. */
  datatype Sheet = Sheet(name: string, header: seq<string>, rows: seq<seq<string>>)

  /** One row of a melted table: the id cells, then Year and Value. */
  datatype Melted = Melted(ids: seq<string>, year: int, value: real)

  /** A melted table with its column names. */
  datatype LongTable = LongTable(columns: seq<string>, rows: seq<Melted>)

  // ---------------------------------------------------------------------------
  // Filters and joins
  // ---------------------------------------------------------------------------

  /** `df[mask]`: the rows satisfying `p`, in their original order. */
  function Filter<T>(s: seq<T>, p: T -> bool): (r: seq<T>)
    ensures |r| <= |s|
    ensures forall i :: 0 <= i < |r| ==> p(r[i])
    ensures forall i :: 0 <= i < |s| && p(s[i]) ==> s[i] in r
    ensures forall x :: x in r ==> x in s
  {
    if s == [] then []
    else Filter(s[..|s| - 1], p) + (if p(s[|s| - 1]) then [s[|s| - 1]] else [])
  }

  /** Filtering works piece by piece, so the rows kept stay in their
      original order. */
  lemma {:induction false} FilterConcat<T>(a: seq<T>, b: seq<T>, p: T -> bool)
    ensures Filter(a + b, p) == Filter(a, p) + Filter(b, p)
  {
    if b == [] {
      assert a + b == a;
    } else {
      var n := |b| - 1;
      var last := if p(b[n]) then [b[n]] else [];
      assert (a + b)[..|a + b| - 1] == a + b[..n] && (a + b)[|a + b| - 1] == b[n];
      FilterConcat(a, b[..n], p);
      calc {
        Filter(a + b, p);
        Filter(a + b[..n], p) + last;
        (Filter(a, p) + Filter(b[..n], p)) + last;
        Filter(a, p) + (Filter(b[..n], p) + last);
        Filter(a, p) + Filter(b, p);
      }
    }
  }

  /** Filtering never duplicates a row: the kept rows are a sub-multiset. */
  lemma {:induction false} FilterSubMultiset<T>(s: seq<T>, p: T -> bool)
    ensures multiset(Filter(s, p)) <= multiset(s)
  {
    if s != [] {
      var n := |s| - 1;
      var last := if p(s[n]) then [s[n]] else [];
      FilterSubMultiset(s[..n], p);
      assert s == s[..n] + [s[n]];
      assert Filter(s, p) == Filter(s[..n], p) + last;
      assert multiset(Filter(s, p)) == multiset(Filter(s[..n], p)) + multiset(last);
      assert multiset(s) == multiset(s[..n]) + multiset{s[n]};
    }
  }

  /** The rows of `b` that match `a`, each combined with `a`, in the order of `b`. */
  function JoinOne<A, B, C>(a: A, right: seq<B>, on: (A, B) -> bool, both: (A, B) -> C): (r: seq<C>)
    ensures |r| <= |right|
    ensures forall k :: 0 <= k < |r| ==>
      exists j :: 0 <= j < |right| && on(a, right[j]) && r[k] == both(a, right[j])
    ensures forall j :: 0 <= j < |right| && on(a, right[j]) ==> both(a, right[j]) in r
  {
    if right == [] then []
    else
      var pre := JoinOne(a, right[..|right| - 1], on, both);
      var b := right[|right| - 1];
      var r := pre + (if on(a, b) then [both(a, b)] else []);
      assert forall k :: 0 <= k < |pre| ==> r[k] == pre[k];
      r
  }

  // ---------------------------------------------------------------------------
  // Sheet lookup
  // ---------------------------------------------------------------------------

  /** The sheet-name test of `safe_load_and_melt`: `keyword.lower() in s.lower()`. */
  predicate SheetMatches(name: string, keyword: string)
  {
    IsInfix(Lower(keyword), Lower(name))
  }

  /** Index of the first sheet whose name matches, or |book| when none does
      (`next(..., None)`). */
  function FirstSheet(book: seq<Sheet>, keyword: string): (k: nat)
    ensures k <= |book|
    ensures k < |book| ==> SheetMatches(book[k].name, keyword)
    ensures forall i :: 0 <= i < k ==> !SheetMatches(book[i].name, keyword)
  {
    if book == [] then 0
    else if SheetMatches(book[0].name, keyword) then 0
    else 1 + FirstSheet(book[1..], keyword)
  }

  // ---------------------------------------------------------------------------
  // Melting
  // ---------------------------------------------------------------------------

  /** Position of the first header equal to `name`, or |header|. */
  function ColumnIndex(header: seq<string>, name: string): (j: nat)
    ensures j <= |header|
    ensures j < |header| ==> header[j] == name
    ensures forall i :: 0 <= i < j ==> header[i] != name
  {
    if header == [] then 0
    else if header[0] == name then 0
    else 1 + ColumnIndex(header[1..], name)
  }

  /** The positions of the `id_vars`; the first one missing from the header
      raises `KeyError`. */
  function IdColumns(header: seq<string>, idVars: seq<string>): (r: Result<seq<nat>>)
    ensures r.Ok? <==> forall v :: v in idVars ==> v in header
    ensures r.Ok? ==> |r.value| == |idVars|
    ensures r.Ok? ==> forall i :: 0 <= i < |idVars| ==> r.value[i] < |header| && header[r.value[i]] == idVars[i]
    ensures r.Err? ==> r.error.KeyError? && r.error.key in idVars && r.error.key !in header
  {
    if idVars == [] then Ok([])
    else
      var j := ColumnIndex(header, idVars[0]);
      assert forall v :: v in idVars ==> v == idVars[0] || v in idVars[1..];
      if j == |header| then
        assert idVars[0] in idVars && idVars[0] !in header;
        Err(KeyError(idVars[0]))
      else
        match IdColumns(header, idVars[1..])
        case Ok(rest) => Ok([j] + rest)
        case Err(e) => Err(e)
  }

  /** The columns that are not id columns, in header order (the implicit
      `value_vars` of `melt`). */
  function ValueColumns(n: nat, idIdx: seq<nat>): (r: seq<nat>)
    ensures forall i :: 0 <= i < |r| ==> r[i] < n && r[i] !in idIdx
    ensures forall j :: 0 <= j < n && j !in idIdx ==> j in r
    ensures forall i, k :: 0 <= i < k < |r| ==> r[i] < r[k]
  {
    if n == 0 then []
    else ValueColumns(n - 1, idIdx) + (if n - 1 in idIdx then [] else [n - 1])
  }

  /** The id cells of one row. */
  function Ids(row: seq<string>, idIdx: seq<nat>): (r: seq<string>)
    ensures |r| == |idIdx|
    ensures forall i :: 0 <= i < |idIdx| ==> r[i] == CellAt(row, idIdx[i])
  {
    seq(|idIdx|, i requires 0 <= i < |idIdx| => CellAt(row, idIdx[i]))
  }

  /** The melted row for one cell, or `None` when its header or its value is
      not numeric (the row `dropna` removes). */
  function MeltCell(row: seq<string>, idIdx: seq<nat>, header: seq<string>, j: nat): Option<Melted>
    requires j < |header|
  {
    match (YearOf(header[j]), ParseDecimal(CellAt(row, j)))
    case (Some(y), Some(v)) => Some(Melted(Ids(row, idIdx), y, v))
    case _ => None
  }

  /** The defined results of `f` over `s`, in order. */
  function FilterMap<T, U(==)>(s: seq<T>, f: T -> Option<U>): (r: seq<U>)
    ensures |r| <= |s|
    ensures forall k :: 0 <= k < |r| ==> exists i :: 0 <= i < |s| && f(s[i]) == Some(r[k])
    ensures forall i :: 0 <= i < |s| && f(s[i]).Some? ==> f(s[i]).value in r
  {
    if s == [] then []
    else
      var n := |s| - 1;
      var pre := FilterMap(s[..n], f);
      var r := pre + (if f(s[n]).Some? then [f(s[n]).value] else []);
      forall k | 0 <= k < |pre|
        ensures exists i :: 0 <= i < |s| && f(s[i]) == Some(r[k])
      {
        var i :| 0 <= i < n && f(s[..n][i]) == Some(pre[k]);
        assert s[..n][i] == s[i];
      }
      forall i | 0 <= i < |s| && f(s[i]).Some?
        ensures f(s[i]).value in r
      {
        if i < n {
          assert s[..n][i] == s[i];
        }
      }
      r
  }

  /** Mapping works piece by piece, so the results keep the input's order. */
  lemma {:induction false} FilterMapConcat<T, U>(a: seq<T>, b: seq<T>, f: T -> Option<U>)
    ensures FilterMap(a + b, f) == FilterMap(a, f) + FilterMap(b, f)
  {
    if b == [] {
      assert a + b == a;
    } else {
      var n := |b| - 1;
      var last := if f(b[n]).Some? then [f(b[n]).value] else [];
      assert (a + b)[..|a + b| - 1] == a + b[..n] && (a + b)[|a + b| - 1] == b[n];
      FilterMapConcat(a, b[..n], f);
      calc {
        FilterMap(a + b, f);
        FilterMap(a + b[..n], f) + last;
        (FilterMap(a, f) + FilterMap(b[..n], f)) + last;
        FilterMap(a, f) + (FilterMap(b[..n], f) + last);
        FilterMap(a, f) + FilterMap(b, f);
      }
    }
  }

  /** The concatenation of `g(c)` over `cols`, in order. */
  function ConcatMap<T, U>(cols: seq<T>, g: T -> seq<U>): (r: seq<U>)
    ensures forall k :: 0 <= k < |r| ==> exists c :: c in cols && r[k] in g(c)
    ensures forall c, x :: c in cols && x in g(c) ==> x in r
  {
    if cols == [] then []
    else
      var n := |cols| - 1;
      var pre := ConcatMap(cols[..n], g);
      var r := pre + g(cols[n]);
      forall k | 0 <= k < |r|
        ensures exists c :: c in cols && r[k] in g(c)
      {
        if k < |pre| {
          var c :| c in cols[..n] && pre[k] in g(c);
          assert c in cols;
        } else {
          assert r[k] == g(cols[n])[k - |pre|];
        }
      }
      forall c, x | c in cols && x in g(c)
        ensures x in r
      {
        if c != cols[n] {
          assert c in cols[..n];
        }
      }
      r
  }

  lemma {:induction false} ConcatMapSize<T, U>(cols: seq<T>, g: T -> seq<U>, b: nat)
    requires forall c :: c in cols ==> |g(c)| <= b
    ensures |ConcatMap(cols, g)| <= |cols| * b
  {
    if cols != [] {
      var n := |cols| - 1;
      assert forall c :: c in cols[..n] ==> c in cols;
      ConcatMapSize(cols[..n], g, b);
      assert |cols| * b == n * b + b;
    }
  }

  /** Column `c` of a grid, read as a function of the row. */
  function ColumnOf<T, U>(cell: (T, nat) -> Option<U>, c: nat): T -> Option<U>
  {
    row => cell(row, c)
  }

  /** The defined cells of column `c`, in row order. */
  function ColumnCells<T, U(==)>(rows: seq<T>, cell: (T, nat) -> Option<U>): nat -> seq<U>
  {
    (c: nat) => FilterMap(rows, ColumnOf(cell, c))
  }

  /** `x` is the defined value of some cell of the grid. */
  ghost predicate FromGrid<T, U>(x: U, rows: seq<T>, cols: seq<nat>, cell: (T, nat) -> Option<U>)
  {
    exists i, c :: 0 <= i < |rows| && c in cols && cell(rows[i], c) == Some(x)
  }

  /** The defined cells of a grid, column by column and, within a column,
      row by row. */
  function Grid<T, U(==)>(rows: seq<T>, cols: seq<nat>, cell: (T, nat) -> Option<U>): (r: seq<U>)
    ensures |r| <= |rows| * |cols|
    ensures forall k :: 0 <= k < |r| ==> FromGrid(r[k], rows, cols, cell)
    ensures forall i, c :: 0 <= i < |rows| && c in cols && cell(rows[i], c).Some? ==> cell(rows[i], c).value in r
  {
    GridSize(rows, cols, cell);
    GridSound(rows, cols, cell);
    GridComplete(rows, cols, cell);
    ConcatMap(cols, ColumnCells(rows, cell))
  }

  lemma GridSize<T, U>(rows: seq<T>, cols: seq<nat>, cell: (T, nat) -> Option<U>)
    ensures |ConcatMap(cols, ColumnCells(rows, cell))| <= |rows| * |cols|
  {
    ConcatMapSize(cols, ColumnCells(rows, cell), |rows|);
    assert |rows| * |cols| == |cols| * |rows|;
  }

  lemma GridSound<T, U>(rows: seq<T>, cols: seq<nat>, cell: (T, nat) -> Option<U>)
    ensures var r := ConcatMap(cols, ColumnCells(rows, cell));
      forall k :: 0 <= k < |r| ==> FromGrid(r[k], rows, cols, cell)
  {
    var r := ConcatMap(cols, ColumnCells(rows, cell));
    forall k | 0 <= k < |r|
      ensures FromGrid(r[k], rows, cols, cell)
    {
      var c :| c in cols && r[k] in ColumnCells(rows, cell)(c);
      var col := FilterMap(rows, ColumnOf(cell, c));
      var q :| 0 <= q < |col| && col[q] == r[k];
      var i :| 0 <= i < |rows| && ColumnOf(cell, c)(rows[i]) == Some(col[q]);
      assert cell(rows[i], c) == Some(r[k]);
    }
  }

  lemma GridComplete<T, U>(rows: seq<T>, cols: seq<nat>, cell: (T, nat) -> Option<U>)
    ensures var r := ConcatMap(cols, ColumnCells(rows, cell));
      forall i, c :: 0 <= i < |rows| && c in cols && cell(rows[i], c).Some? ==> cell(rows[i], c).value in r
  {
    forall i, c | 0 <= i < |rows| && c in cols && cell(rows[i], c).Some?
      ensures cell(rows[i], c).value in ConcatMap(cols, ColumnCells(rows, cell))
    {
      assert ColumnOf(cell, c)(rows[i]) == cell(rows[i], c);
      assert cell(rows[i], c).value in ColumnCells(rows, cell)(c);
    }
  }

  /** A property every defined cell has is had by every element of the grid. */
  lemma GridAll<T, U>(rows: seq<T>, cols: seq<nat>, cell: (T, nat) -> Option<U>, p: U -> bool)
    requires forall t, c :: cell(t, c).Some? ==> p(cell(t, c).value)
    ensures forall k :: 0 <= k < |Grid(rows, cols, cell)| ==> p(Grid(rows, cols, cell)[k])
  {
    var r := Grid(rows, cols, cell);
    forall k | 0 <= k < |r|
      ensures p(r[k])
    {
      assert FromGrid(r[k], rows, cols, cell);
      var i, c :| 0 <= i < |rows| && c in cols && cell(rows[i], c) == Some(r[k]);
    }
  }

  /** The matches of one left row, as a function of that row. */
  function JoinWith<A, B, C>(right: seq<B>, on: (A, B) -> bool, both: (A, B) -> C): A -> seq<C>
  {
    (a: A) => JoinOne(a, right, on, both)
  }

  /** `x` combines a matching pair of rows. */
  ghost predicate FromJoin<A, B, C>(x: C, left: seq<A>, right: seq<B>, on: (A, B) -> bool, both: (A, B) -> C)
  {
    exists a, b :: a in left && b in right && on(a, b) && x == both(a, b)
  }

  /** An inner join: every matching pair of rows, left rows in order and, for
      each, its matches in the order of the right table. */
  function Join<A, B, C>(left: seq<A>, right: seq<B>, on: (A, B) -> bool, both: (A, B) -> C): (r: seq<C>)
    ensures |r| <= |left| * |right|
    ensures forall k :: 0 <= k < |r| ==> FromJoin(r[k], left, right, on, both)
    ensures forall a, b :: a in left && b in right && on(a, b) ==> both(a, b) in r
  {
    JoinSize(left, right, on, both);
    JoinSound(left, right, on, both);
    JoinComplete(left, right, on, both);
    ConcatMap(left, JoinWith(right, on, both))
  }

  lemma JoinSize<A, B, C>(left: seq<A>, right: seq<B>, on: (A, B) -> bool, both: (A, B) -> C)
    ensures |ConcatMap(left, JoinWith(right, on, both))| <= |left| * |right|
  {
    ConcatMapSize(left, JoinWith(right, on, both), |right|);
  }

  lemma JoinSound<A, B, C>(left: seq<A>, right: seq<B>, on: (A, B) -> bool, both: (A, B) -> C)
    ensures var r := ConcatMap(left, JoinWith(right, on, both));
      forall k :: 0 <= k < |r| ==> FromJoin(r[k], left, right, on, both)
  {
    var r := ConcatMap(left, JoinWith(right, on, both));
    forall k | 0 <= k < |r|
      ensures FromJoin(r[k], left, right, on, both)
    {
      var a :| a in left && r[k] in JoinWith(right, on, both)(a);
      var one := JoinOne(a, right, on, both);
      var q :| 0 <= q < |one| && one[q] == r[k];
      var j :| 0 <= j < |right| && on(a, right[j]) && one[q] == both(a, right[j]);
      assert right[j] in right;
    }
  }

  lemma JoinComplete<A, B, C>(left: seq<A>, right: seq<B>, on: (A, B) -> bool, both: (A, B) -> C)
    ensures forall a, b :: a in left && b in right && on(a, b) ==>
      both(a, b) in ConcatMap(left, JoinWith(right, on, both))
  {
    forall a, b | a in left && b in right && on(a, b)
      ensures both(a, b) in ConcatMap(left, JoinWith(right, on, both))
    {
      var j :| 0 <= j < |right| && right[j] == b;
      assert both(a, b) in JoinWith(right, on, both)(a);
    }
  }

  /** The cell function of `melt`: a header outside the sheet reads as NaN. */
  function MeltAt(idIdx: seq<nat>, header: seq<string>): (seq<string>, nat) -> Option<Melted>
  {
    (row: seq<string>, c: nat) => if c < |header| then MeltCell(row, idIdx, header, c) else None
  }

  /** `melt` over the value columns `cols`, with the rows whose Year or Value
      is not numeric dropped. */
  function Melt(rows: seq<seq<string>>, idIdx: seq<nat>, header: seq<string>, cols: seq<nat>): seq<Melted>
  {
    Grid(rows, cols, MeltAt(idIdx, header))
  }

  /** Where a melted row comes from: a row and a value column whose cell
      melts to it. */
  lemma MeltOrigin(rows: seq<seq<string>>, idIdx: seq<nat>, header: seq<string>, cols: seq<nat>, k: nat)
    returns (i: nat, c: nat)
    requires k < |Melt(rows, idIdx, header, cols)|
    ensures i < |rows| && c in cols && c < |header|
    ensures MeltCell(rows[i], idIdx, header, c) == Some(Melt(rows, idIdx, header, cols)[k])
  {
    var ms := Melt(rows, idIdx, header, cols);
    assert FromGrid(ms[k], rows, cols, MeltAt(idIdx, header));
    i, c :| 0 <= i < |rows| && c in cols && MeltAt(idIdx, header)(rows[i], c) == Some(ms[k]);
  }

  /** Every cell of a value column that melts is in the melted table. */
  lemma MeltHas(rows: seq<seq<string>>, idIdx: seq<nat>, header: seq<string>, cols: seq<nat>, i: nat, c: nat)
    requires i < |rows| && c in cols && c < |header|
    requires MeltCell(rows[i], idIdx, header, c).Some?
    ensures MeltCell(rows[i], idIdx, header, c).value in Melt(rows, idIdx, header, cols)
  {
    assert MeltAt(idIdx, header)(rows[i], c) == MeltCell(rows[i], idIdx, header, c);
  }

  /** The id cells of a row, looked up by column name. */
  function IdCells(row: seq<string>, header: seq<string>, idVars: seq<string>): (r: seq<string>)
    ensures |r| == |idVars|
  {
    seq(|idVars|, t requires 0 <= t < |idVars| => CellAt(row, ColumnIndex(header, idVars[t])))
  }

  /** The positions of the id variables: the first column of each name. */
  function IdPositions(header: seq<string>, idVars: seq<string>): (r: seq<nat>)
    ensures |r| == |idVars|
  {
    seq(|idVars|, t requires 0 <= t < |idVars| => ColumnIndex(header, idVars[t]))
  }

  /** Cell `c` of row `i` of sheet `s` lies in a value column, has a numeric
      header and a numeric value. */
  ghost predicate NumericCell(s: Sheet, idVars: seq<string>, i: int, c: int)
  {
    && 0 <= i < |s.rows| && 0 <= c < |s.header| && c !in IdPositions(s.header, idVars)
    && YearOf(s.header[c]).Some? && ParseDecimal(CellAt(s.rows[i], c)).Some?
  }

  /** The melted row for such a cell: the row's id cells, the header's year
      and the cell's value. */
  function MeltedOf(s: Sheet, idVars: seq<string>, i: int, c: int): Melted
    requires 0 <= i < |s.rows| && 0 <= c < |s.header|
    requires YearOf(s.header[c]).Some? && ParseDecimal(CellAt(s.rows[i], c)).Some?
  {
    Melted(IdCells(s.rows[i], s.header, idVars), YearOf(s.header[c]).value, ParseDecimal(CellAt(s.rows[i], c)).value)
  }

  /** `m` is the melted row of some numeric cell of `s`. */
  ghost predicate MeltedFrom(m: Melted, s: Sheet, idVars: seq<string>)
  {
    exists i, c :: NumericCell(s, idVars, i, c) && m == MeltedOf(s, idVars, i, c)
  }

  /** `safe_load_and_melt(keyword, id_vars)` over a workbook: the first sheet
      whose name contains the keyword (ignoring case) is melted around the
      id columns, and its rows whose Year or Value is not numeric are
      dropped. A missing sheet, or a sheet whose name is empty (falsy), gives
      the empty table with columns `id_vars + ['Year', 'Value']`; an id
      column missing from the sheet raises `KeyError`. */
  function SafeLoadAndMelt(book: seq<Sheet>, keyword: string, idVars: seq<string>): (r: Result<LongTable>)
    ensures r.Ok? ==> r.value.columns == idVars + ["Year", "Value"]
    ensures FirstSheet(book, keyword) == |book| ==> r == Ok(LongTable(idVars + ["Year", "Value"], []))
    ensures FirstSheet(book, keyword) < |book| && book[FirstSheet(book, keyword)].name == "" ==>
      r == Ok(LongTable(idVars + ["Year", "Value"], []))
    ensures FirstSheet(book, keyword) < |book| && book[FirstSheet(book, keyword)].name != "" ==>
      var s := book[FirstSheet(book, keyword)];
      && (r.Ok? <==> forall v :: v in idVars ==> v in s.header)
      && (r.Err? ==> r.error.KeyError? && r.error.key in idVars && r.error.key !in s.header)
      && (r.Ok? && (forall a, b :: 0 <= a < b < |idVars| ==> idVars[a] != idVars[b]) ==>
            |r.value.rows| <= |s.rows| * (|s.header| - |idVars|))
      && (r.Ok? ==> forall k :: 0 <= k < |r.value.rows| ==> MeltedFrom(r.value.rows[k], s, idVars))
      && (r.Ok? ==> forall i, c :: NumericCell(s, idVars, i, c) ==> MeltedOf(s, idVars, i, c) in r.value.rows)
  {
    var k := FirstSheet(book, keyword);
    if k == |book| || book[k].name == "" then Ok(LongTable(idVars + ["Year", "Value"], []))
    else
      var s := book[k];
      match IdColumns(s.header, idVars)
      case Err(e) => Err(e)
      case Ok(idIdx) =>
        var rows := Melt(s.rows, idIdx, s.header, ValueColumns(|s.header|, idIdx));
        ValueColumnsCount(s.header, idVars, idIdx);
        MeltSound(s, idVars, idIdx);
        MeltComplete(s, idVars, idIdx);
        Ok(LongTable(idVars + ["Year", "Value"], rows))
  }

  /** The value columns are the positions that hold no id variable. */
  lemma ValueColumnNotId(header: seq<string>, idVars: seq<string>, idIdx: seq<nat>, c: nat)
    requires IdColumns(header, idVars) == Ok(idIdx)
    requires c < |header|
    ensures c in ValueColumns(|header|, idIdx) <==> c !in IdPositions(header, idVars)
  {
    IdColumnFirst(header, idVars, idIdx);
    assert idIdx == IdPositions(header, idVars);
  }

  lemma MeltCellOf(s: Sheet, idVars: seq<string>, idIdx: seq<nat>, i: nat, c: nat)
    requires IdColumns(s.header, idVars) == Ok(idIdx)
    requires i < |s.rows| && c < |s.header|
    ensures MeltCell(s.rows[i], idIdx, s.header, c).Some? <==>
      YearOf(s.header[c]).Some? && ParseDecimal(CellAt(s.rows[i], c)).Some?
    ensures MeltCell(s.rows[i], idIdx, s.header, c).Some? ==>
      MeltCell(s.rows[i], idIdx, s.header, c).value == MeltedOf(s, idVars, i, c)
  {
    IdColumnFirst(s.header, idVars, idIdx);
    assert Ids(s.rows[i], idIdx) == IdCells(s.rows[i], s.header, idVars);
  }

  lemma MeltSound(s: Sheet, idVars: seq<string>, idIdx: seq<nat>)
    requires IdColumns(s.header, idVars) == Ok(idIdx)
    ensures var rows := Melt(s.rows, idIdx, s.header, ValueColumns(|s.header|, idIdx));
      forall k :: 0 <= k < |rows| ==> MeltedFrom(rows[k], s, idVars)
  {
    var cols := ValueColumns(|s.header|, idIdx);
    var rows := Melt(s.rows, idIdx, s.header, cols);
    forall k | 0 <= k < |rows|
      ensures MeltedFrom(rows[k], s, idVars)
    {
      assert FromGrid(rows[k], s.rows, cols, MeltAt(idIdx, s.header));
      var i, c :| 0 <= i < |s.rows| && c in cols && MeltAt(idIdx, s.header)(s.rows[i], c) == Some(rows[k]);
      ValueColumnNotId(s.header, idVars, idIdx, c);
      MeltCellOf(s, idVars, idIdx, i, c);
      assert NumericCell(s, idVars, i, c);
    }
  }

  lemma MeltComplete(s: Sheet, idVars: seq<string>, idIdx: seq<nat>)
    requires IdColumns(s.header, idVars) == Ok(idIdx)
    ensures var rows := Melt(s.rows, idIdx, s.header, ValueColumns(|s.header|, idIdx));
      forall i, c :: NumericCell(s, idVars, i, c) ==> MeltedOf(s, idVars, i, c) in rows
  {
    var cols := ValueColumns(|s.header|, idIdx);
    forall i, c | NumericCell(s, idVars, i, c)
      ensures MeltedOf(s, idVars, i, c) in Melt(s.rows, idIdx, s.header, cols)
    {
      ValueColumnNotId(s.header, idVars, idIdx, c);
      MeltCellOf(s, idVars, idIdx, i, c);
      assert MeltAt(idIdx, s.header)(s.rows[i], c) == MeltCell(s.rows[i], idIdx, s.header, c);
    }
  }

  /** The id positions found by `IdColumns` are the first occurrences. */
  lemma {:induction false} IdColumnFirst(header: seq<string>, idVars: seq<string>, idIdx: seq<nat>)
    requires IdColumns(header, idVars) == Ok(idIdx)
    ensures forall t :: 0 <= t < |idVars| ==> idIdx[t] == ColumnIndex(header, idVars[t])
  {
    if idVars != [] {
      match IdColumns(header, idVars[1..])
      case Ok(rest) =>
        IdColumnFirst(header, idVars[1..], rest);
        assert idIdx == [ColumnIndex(header, idVars[0])] + rest;
      case Err(_) =>
    }
  }

  /** Number of positions below `n` that appear in `s`. */
  function CountIn(n: nat, s: seq<nat>): nat
  {
    if n == 0 then 0 else CountIn(n - 1, s) + (if n - 1 in s then 1 else 0)
  }

  lemma {:induction false} ValueColumnsSize(n: nat, s: seq<nat>)
    ensures |ValueColumns(n, s)| + CountIn(n, s) == n
  {
    if n > 0 {
      ValueColumnsSize(n - 1, s);
    }
  }

  lemma {:induction false} CountInSnoc(n: nat, s: seq<nat>, x: nat)
    requires x !in s
    ensures CountIn(n, s + [x]) == CountIn(n, s) + (if x < n then 1 else 0)
  {
    if n > 0 {
      CountInSnoc(n - 1, s, x);
      assert (n - 1 in s + [x]) <==> (n - 1 in s || n - 1 == x);
    }
  }

  lemma {:induction false} CountInDistinct(n: nat, s: seq<nat>)
    requires forall i :: 0 <= i < |s| ==> s[i] < n
    requires forall i, j :: 0 <= i < j < |s| ==> s[i] != s[j]
    ensures CountIn(n, s) == |s|
  {
    if s == [] {
      assert CountIn(n, s) == 0 by {
        CountInEmpty(n);
      }
    } else {
      var m := |s| - 1;
      CountInDistinct(n, s[..m]);
      assert s == s[..m] + [s[m]];
      CountInSnoc(n, s[..m], s[m]);
    }
  }

  lemma {:induction false} CountInEmpty(n: nat)
    ensures CountIn(n, []) == 0
  {
    if n > 0 {
      CountInEmpty(n - 1);
    }
  }

  /** With distinct `id_vars`, at most |header| - |id_vars| columns are melted. */
  lemma ValueColumnsCount(header: seq<string>, idVars: seq<string>, idIdx: seq<nat>)
    requires |idIdx| == |idVars|
    requires forall i :: 0 <= i < |idVars| ==> idIdx[i] < |header| && header[idIdx[i]] == idVars[i]
    ensures (forall a, b :: 0 <= a < b < |idVars| ==> idVars[a] != idVars[b]) ==>
      |ValueColumns(|header|, idIdx)| == |header| - |idVars|
  {
    if forall a, b :: 0 <= a < b < |idVars| ==> idVars[a] != idVars[b] {
      IdPositionsDistinct(header, idVars, idIdx);
      ValueColumnsSize(|header|, idIdx);
      CountInDistinct(|header|, idIdx);
    }
  }

  /** Distinct id names sit at distinct positions. */
  lemma IdPositionsDistinct(header: seq<string>, idVars: seq<string>, idIdx: seq<nat>)
    requires |idIdx| == |idVars|
    requires forall i :: 0 <= i < |idVars| ==> idIdx[i] < |header| && header[idIdx[i]] == idVars[i]
    requires forall a, b :: 0 <= a < b < |idVars| ==> idVars[a] != idVars[b]
    ensures forall i :: 0 <= i < |idIdx| ==> idIdx[i] < |header|
    ensures forall a, b :: 0 <= a < b < |idIdx| ==> idIdx[a] != idIdx[b]
  {
  }
}
