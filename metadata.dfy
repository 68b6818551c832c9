/** `load_metadata_and_regions`: the country metadata table gives the set of
    ISO codes treated as real countries and the ISO-to-region map used to
    colour charts. */
module Metadata {
  import opened Common
  import opened Tables
  import opened Reconcile

  /** `VALID_REGIONS`: the World Bank regions that mark a real country. */
  const ValidRegions: set<string> := {
    "East Asia & Pacific",
    "Europe & Central Asia",
    "Latin America & Caribbean",
    "Middle East & North Africa",
    "North America",
    "South Asia",
    "Sub-Saharan Africa"
  }

  /** Region given to an `ISO_MAP` code the metadata does not list. */
  const DefaultRegion: string := "Europe & Central Asia"

  /** The codes of the composite entities, the values of `ISO_MAP`. */
  function IsoCodes(): set<string>
  {
    set e | e in IsoMapEntries :: e.1
  }

  /** Positions of the "Country Code" and "Region" columns. */
  datatype MetaColumns = MetaColumns(code: nat, region: nat)

  function StripAll(header: seq<string>): (r: seq<string>)
    ensures |r| == |header|
    ensures forall i :: 0 <= i < |header| ==> r[i] == Strip(header[i])
  {
    seq(|header|, i requires 0 <= i < |header| => Strip(header[i]))
  }

  /** The two columns, looked up after stripping the header names; a missing
      one raises `KeyError`, which the loader catches. */
  function MetaColumnsOf(header: seq<string>): (r: Option<MetaColumns>)
    ensures r.Some? <==> "Country Code" in StripAll(header) && "Region" in StripAll(header)
    ensures r.Some? ==> r.value.code < |header| && Strip(header[r.value.code]) == "Country Code"
    ensures r.Some? ==> r.value.region < |header| && Strip(header[r.value.region]) == "Region"
  {
    var h := StripAll(header);
    var c := ColumnIndex(h, "Country Code");
    var g := ColumnIndex(h, "Region");
    if c == |h| || g == |h| then None else Some(MetaColumns(c, g))
  }

  /** Country Code of a row: `fillna("").str.strip()`. */
  function RowCode(row: seq<string>, cols: MetaColumns): string
  {
    Strip(CellAt(row, cols.code))
  }

  /** Region of a row: `fillna("").str.strip()`. */
  function RowRegion(row: seq<string>, cols: MetaColumns): string
  {
    Strip(CellAt(row, cols.region))
  }

  /** (code, region) of every row, in row order. */
  function Pairs(rows: seq<seq<string>>, cols: MetaColumns): (r: seq<(string, string)>)
    ensures |r| == |rows|
    ensures forall i :: 0 <= i < |rows| ==> r[i] == (RowCode(rows[i], cols), RowRegion(rows[i], cols))
  {
    seq(|rows|, i requires 0 <= i < |rows| => (RowCode(rows[i], cols), RowRegion(rows[i], cols)))
  }

  /** `meta[meta["Region"].isin(VALID_REGIONS)]`, as (code, region) pairs. */
  function RealPairs(rows: seq<seq<string>>, cols: MetaColumns): seq<(string, string)>
  {
    Filter(Pairs(rows, cols), (p: (string, string)) => p.1 in ValidRegions)
  }

  /** Some row lists `c` with a valid region. */
  ghost predicate RealCode(rows: seq<seq<string>>, cols: MetaColumns, c: string)
  {
    exists i :: 0 <= i < |rows| && RowCode(rows[i], cols) == c && RowRegion(rows[i], cols) in ValidRegions
  }

  function Codes(ps: seq<(string, string)>): set<string>
  {
    set p | p in ps :: p.0
  }

  /** `dict(zip(codes, regions))`: a later row overrides an earlier one. */
  function RegionMap(ps: seq<(string, string)>): (m: map<string, string>)
    ensures m.Keys == Codes(ps)
    ensures forall c :: c in m ==> (c, m[c]) in ps
    ensures forall c :: c in m ==> LastFor(ps, c) == m[c]
  {
    if ps == [] then map[]
    else
      var n := |ps| - 1;
      assert forall p :: p in ps <==> p in ps[..n] || p == ps[n];
      RegionMap(ps[..n])[ps[n].0 := ps[n].1]
  }

  /** The region of the last pair listing `c`, the one `dict(zip(...))` keeps. */
  function LastFor(ps: seq<(string, string)>, c: string): string
  {
    if ps == [] then ""
    else if ps[|ps| - 1].0 == c then ps[|ps| - 1].1
    else LastFor(ps[..|ps| - 1], c)
  }

  /** The valid codes and the region map read from the metadata table
      (`header` and `rows` are the CSV as text). The loop over `ISO_MAP` adds
      every composite code and gives it the default region unless the table
      already gave it one. A missing column gives an empty set and an empty
      map, as the `except` branch does. */
  method LoadMetadataAndRegions(header: seq<string>, rows: seq<seq<string>>)
    returns (valid: set<string>, regions: map<string, string>)
    ensures MetaColumnsOf(header).None? ==> valid == {} && regions == map[]
    ensures MetaColumnsOf(header).Some? ==>
      var cols := MetaColumnsOf(header).value;
      && (forall c :: c in valid <==> c in IsoCodes() || RealCode(rows, cols, c))
      && regions.Keys == valid
      && (forall c :: c in regions ==> regions[c] in ValidRegions)
      && (forall c :: c in Codes(RealPairs(rows, cols)) ==> regions[c] == LastFor(RealPairs(rows, cols), c))
      && (forall c :: c in IsoCodes() && c !in Codes(RealPairs(rows, cols)) ==> regions[c] == DefaultRegion)
  {
    var found := MetaColumnsOf(header);
    if found.None? {
      return {}, map[];
    }
    var cols := found.value;
    var pairs := RealPairs(rows, cols);
    var base := RegionMap(pairs);
    valid, regions := AddComposites(base);
    RealCodes(rows, cols);
    RegionsValid(pairs, base, regions);
  }

  /** The loop over `ISO_MAP`: every composite code becomes valid, and one
      the table gave no region gets the default region. */
  method AddComposites(base: map<string, string>) returns (valid: set<string>, regions: map<string, string>)
    ensures valid == base.Keys + IsoCodes()
    ensures regions.Keys == valid
    ensures forall c :: c in base ==> regions[c] == base[c]
    ensures forall c :: c in regions && c !in base ==> regions[c] == DefaultRegion
  {
    valid := base.Keys;
    regions := base;
    var e := 0;
    while e < |IsoMapEntries|
      invariant 0 <= e <= |IsoMapEntries|
      invariant valid == base.Keys + set k | k in IsoMapEntries[..e] :: k.1
      invariant regions.Keys == valid
      invariant forall c :: c in base ==> regions[c] == base[c]
      invariant forall c :: c in regions && c !in base ==> regions[c] == DefaultRegion
    {
      var iso := IsoMapEntries[e].1;
      assert forall k :: k in IsoMapEntries[..e + 1] <==> k in IsoMapEntries[..e] || k == IsoMapEntries[e];
      valid := valid + {iso};
      if iso !in regions {
        regions := regions[iso := DefaultRegion];
      }
      e := e + 1;
    }
    assert IsoMapEntries[..e] == IsoMapEntries;
  }

  lemma RegionsValid(pairs: seq<(string, string)>, base: map<string, string>, regions: map<string, string>)
    requires forall p :: p in pairs ==> p.1 in ValidRegions
    requires base == RegionMap(pairs)
    requires forall c :: c in base ==> c in regions && regions[c] == base[c]
    requires forall c :: c in regions && c !in base ==> regions[c] == DefaultRegion
    ensures forall c :: c in regions ==> regions[c] in ValidRegions
  {
    forall c | c in regions
      ensures regions[c] in ValidRegions
    {
      if c in base {
        assert (c, base[c]) in pairs;
      }
    }
  }

  /** The codes kept by the region filter are those of rows with a valid
      region. */
  lemma RealCodes(rows: seq<seq<string>>, cols: MetaColumns)
    ensures forall c :: c in Codes(RealPairs(rows, cols)) <==> RealCode(rows, cols, c)
  {
    RealCodesComplete(rows, cols);
    RealCodesSound(rows, cols);
  }

  lemma RealCodesComplete(rows: seq<seq<string>>, cols: MetaColumns)
    ensures forall c :: RealCode(rows, cols, c) ==> c in Codes(RealPairs(rows, cols))
  {
    var ps := Pairs(rows, cols);
    forall c | RealCode(rows, cols, c)
      ensures c in Codes(RealPairs(rows, cols))
    {
      var i :| 0 <= i < |rows| && RowCode(rows[i], cols) == c && RowRegion(rows[i], cols) in ValidRegions;
      assert ps[i].1 in ValidRegions;
      assert ps[i] in RealPairs(rows, cols);
    }
  }

  lemma RealCodesSound(rows: seq<seq<string>>, cols: MetaColumns)
    ensures forall c :: c in Codes(RealPairs(rows, cols)) ==> RealCode(rows, cols, c)
  {
    var ps := Pairs(rows, cols);
    forall c | c in Codes(RealPairs(rows, cols))
      ensures RealCode(rows, cols, c)
    {
      var p :| p in RealPairs(rows, cols) && p.0 == c;
      assert p.1 in ValidRegions;
      var i :| 0 <= i < |ps| && ps[i] == p;
    }
  }
}
