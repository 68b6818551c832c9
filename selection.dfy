/** Row selections and keyed group-bys over long tables, with reference
    definitions of what a group holds. */
module Selection {
  import opened Common
  import opened Tables
  import opened Grouping

  /** `df[df["Year"] == year]`. */
  function YearRows(t: seq<Obs>, year: int): (r: seq<Obs>)
    ensures forall o :: o in r <==> o in t && o.year == year
  {
    Filter(t, (o: Obs) => o.year == year)
  }

  /** `df[df["ISOcode"] == iso]`. */
  function IsoRows(t: seq<Obs>, iso: string): (r: seq<Obs>)
    ensures forall o :: o in r <==> o in t && o.iso == iso
  {
    Filter(t, (o: Obs) => o.iso == iso)
  }

  // ---------------------------------------------------------------------------
  // Keyed group-bys
  // ---------------------------------------------------------------------------

  /** The Value of every row `keep` selects, paired with its group-by key, in
      row order. */
  function KeyedRows(t: seq<Obs>, keep: Obs -> bool, key: Obs -> Key): seq<(Key, real)>
  {
    if t == [] then []
    else
      var o := t[|t| - 1];
      KeyedRows(t[..|t| - 1], keep, key) + (if keep(o) then [(key(o), o.value)] else [])
  }

  /** Sum of the Values of the selected rows whose key is `k`. */
  function GroupTotal(t: seq<Obs>, keep: Obs -> bool, key: Obs -> Key, k: Key): real
  {
    if t == [] then 0.0
    else
      var o := t[|t| - 1];
      GroupTotal(t[..|t| - 1], keep, key, k) + (if keep(o) && key(o) == k then o.value else 0.0)
  }

  /** Number of selected rows whose key is `k`. */
  function GroupCount(t: seq<Obs>, keep: Obs -> bool, key: Obs -> Key, k: Key): nat
  {
    if t == [] then 0
    else
      var o := t[|t| - 1];
      GroupCount(t[..|t| - 1], keep, key, k) + (if keep(o) && key(o) == k then 1 else 0)
  }

  /** A group has rows exactly when a selected row has its key. */
  lemma {:induction false} GroupCountPositive(t: seq<Obs>, keep: Obs -> bool, key: Obs -> Key, k: Key)
    ensures GroupCount(t, keep, key, k) > 0 <==> exists o :: o in t && keep(o) && key(o) == k
    decreases |t|
  {
    if t != [] {
      var n := |t| - 1;
      GroupCountPositive(t[..n], keep, key, k);
      assert t == t[..n] + [t[n]];
    }
  }

  lemma {:induction false} KeyedRowsTotals(t: seq<Obs>, keep: Obs -> bool, key: Obs -> Key, k: Key)
    ensures SumWhere(KeyedRows(t, keep, key), k) == GroupTotal(t, keep, key, k)
    ensures CountWhere(KeyedRows(t, keep, key), k) == GroupCount(t, keep, key, k)
    decreases |t|
  {
    if t != [] {
      var n := |t| - 1;
      var o := t[n];
      var pre := KeyedRows(t[..n], keep, key);
      KeyedRowsTotals(t[..n], keep, key, k);
      if keep(o) {
        if key(o) == k {
          SnocSame(pre, k, o.value);
        } else {
          SnocOther(pre, key(o), o.value, k);
        }
      } else {
        assert KeyedRows(t, keep, key) == pre;
      }
    }
  }

  /** `groupby(key)[value].sum()` looked up at `k`: the total of the group,
      or nothing when no selected row has key `k`. */
  lemma GroupSumLookup(t: seq<Obs>, keep: Obs -> bool, key: Obs -> Key, k: Key)
    ensures Lookup(GroupSum(KeyedRows(t, keep, key)), k)
      == if GroupCount(t, keep, key, k) == 0 then None else Some(GroupTotal(t, keep, key, k))
  {
    var rows := KeyedRows(t, keep, key);
    var r := GroupSum(rows);
    KeyedRowsTotals(t, keep, key, k);
    CountWhereHasKey(rows, k);
    if HasKey(rows, k) {
      var j :| 0 <= j < |r| && r[j].0 == k;
      LookupUnique(r, j);
    }
  }

  /** `groupby(key)[value].mean()` looked up at `k`: the group's total over
      its row count, or nothing when no selected row has key `k`. */
  lemma GroupMeanLookup(t: seq<Obs>, keep: Obs -> bool, key: Obs -> Key, k: Key)
    ensures Lookup(GroupMean(KeyedRows(t, keep, key)), k)
      == if GroupCount(t, keep, key, k) == 0 then None
         else Some(GroupTotal(t, keep, key, k) / (GroupCount(t, keep, key, k) as real))
  {
    var rows := KeyedRows(t, keep, key);
    var r := GroupMean(rows);
    KeyedRowsTotals(t, keep, key, k);
    CountWhereHasKey(rows, k);
    if HasKey(rows, k) {
      var j :| 0 <= j < |r| && r[j].0 == k;
      LookupUnique(r, j);
    }
  }

  /** Row `k` holds the first largest Value of `rows` (`idxmax`). */
  predicate FirstMax(rows: seq<Obs>, k: nat)
  {
    && k < |rows|
    && (forall j :: 0 <= j < |rows| ==> rows[j].value <= rows[k].value)
    && (forall j :: 0 <= j < k ==> rows[j].value < rows[k].value)
  }

  // ---------------------------------------------------------------------------
  // First row of a group
  // ---------------------------------------------------------------------------

  /** Row `k` is the first row of `t` with ISOcode `iso`. */
  predicate FirstWithIso(t: seq<Obs>, iso: string, k: nat)
  {
    k < |t| && t[k].iso == iso && forall j :: 0 <= j < k ==> t[j].iso != iso
  }

  /** `name` is the Country of the first row of `t` with ISOcode `iso`. */
  ghost predicate NamedFrom(t: seq<Obs>, iso: string, name: string)
  {
    exists k: nat :: FirstWithIso(t, iso, k) && name == t[k].country
  }

  /** `iloc[0]` of the rows with ISOcode `iso`: the Country of the first such
      row, or nothing when there is none. */
  function FirstCountry(t: seq<Obs>, iso: string): (r: Option<string>)
    ensures r.None? <==> forall j :: 0 <= j < |t| ==> t[j].iso != iso
    ensures r.Some? ==> NamedFrom(t, iso, r.value)
  {
    if t == [] then None
    else if t[0].iso == iso then
      assert FirstWithIso(t, iso, 0) && t[0].country == t[0].country;
      Some(t[0].country)
    else
      var r := FirstCountry(t[1..], iso);
      if r.Some? then
        var k: nat :| FirstWithIso(t[1..], iso, k) && r.value == t[1..][k].country;
        assert FirstWithIso(t, iso, k + 1) && r.value == t[k + 1].country;
        r
      else
        assert forall j :: 0 < j < |t| ==> t[j] == t[1..][j - 1];
        r
  }

  /** `source.groupby("ISOcode")["Country"].first()` read with
      `.get(iso, iso)`: the Country of the first row with that ISOcode, and
      the code itself when no row has it. */
  function CountryOfIso(t: seq<Obs>, iso: string): (r: string)
    ensures (forall j :: 0 <= j < |t| ==> t[j].iso != iso) ==> r == iso
    ensures (exists j :: 0 <= j < |t| && t[j].iso == iso) ==> NamedFrom(t, iso, r)
  {
    match FirstCountry(t, iso)
    case Some(name) => name
    case None => iso
  }
}
