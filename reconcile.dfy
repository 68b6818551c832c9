/** Country identity reconciliation, shared by the GDP and life-expectancy
    loaders: member countries are renamed to the composite entity of
    `COUNTRY_MERGE_MAP`, composite entities get their `ISO_MAP` code, and
    duplicate (Country, ISOcode, Year) rows are collapsed, by sum or by mean.
    The CO2 tables do not go through this step. */
module Reconcile {
  import opened Common
  import opened Tables
  import opened Grouping

  /** `COUNTRY_MERGE_MAP`: member country to composite entity. */
  const CountryMergeMap: map<string, string> := map[
    "Liechtenstein" := "Switzerland and Liechtenstein",
    "Switzerland" := "Switzerland and Liechtenstein",
    "Andorra" := "Spain and Andorra",
    "Spain" := "Spain and Andorra",
    "San Marino" := "Italy, San Marino and the Holy See",
    "Italy" := "Italy, San Marino and the Holy See",
    "Holy See" := "Italy, San Marino and the Holy See",
    "Monaco" := "France and Monaco",
    "France" := "France and Monaco",
    "Montenegro" := "Serbia and Montenegro",
    "Serbia" := "Serbia and Montenegro",
    "West Bank and Gaza" := "Israel and Palestine, State of",
    "Israel" := "Israel and Palestine, State of",
    "South Sudan" := "Sudan and South Sudan",
    "Sudan" := "Sudan and South Sudan"
  ]

  /** `ISO_MAP.items()`, in the order of the dict literal. */
  const IsoMapEntries: seq<(string, string)> := [
    ("Switzerland and Liechtenstein", "CHE"),
    ("Spain and Andorra", "ESP"),
    ("Italy, San Marino and the Holy See", "ITA"),
    ("France and Monaco", "FRA"),
    ("Serbia and Montenegro", "SCG"),
    ("Israel and Palestine, State of", "ISR"),
    ("Sudan and South Sudan", "SDN")
  ]

  /** The code the entries give to `name`; a later entry overrides an
      earlier one, as repeated assignments would. */
  function IsoLookup(es: seq<(string, string)>, name: string): (r: Option<string>)
    ensures r.None? <==> forall e :: e in es ==> e.0 != name
    ensures r.Some? ==> (name, r.value) in es
  {
    if es == [] then None
    else if es[|es| - 1].0 == name then Some(es[|es| - 1].1)
    else
      assert forall e :: e in es ==> e in es[..|es| - 1] || e == es[|es| - 1];
      IsoLookup(es[..|es| - 1], name)
  }

  /** `ISO_MAP.get(name)`. */
  function IsoOf(name: string): Option<string>
  {
    IsoLookup(IsoMapEntries, name)
  }

  /** `Series.replace(COUNTRY_MERGE_MAP)` on one name. */
  function Rename(name: string): string
  {
    if name in CountryMergeMap then CountryMergeMap[name] else name
  }

  /** The composite entities, the values of `COUNTRY_MERGE_MAP`. */
  const Composites: set<string> := {
    "Switzerland and Liechtenstein", "Spain and Andorra", "Italy, San Marino and the Holy See",
    "France and Monaco", "Serbia and Montenegro", "Israel and Palestine, State of",
    "Sudan and South Sudan"}

  lemma MergeValues()
    ensures forall n :: n in CountryMergeMap ==> CountryMergeMap[n] in Composites
  {
  }

  lemma MemberLengths()
    ensures forall n :: n in CountryMergeMap ==> |n| <= 18 && |n| != 17
  {
  }

  lemma CompositeLengths()
    ensures forall c :: c in Composites ==> |c| == 17 || |c| >= 21
  {
  }

  lemma CompositeCodes()
    ensures forall c :: c in Composites ==> IsoOf(c).Some?
  {
  }

  /** No composite name is itself renamed, and every composite name has an
      ISO code. */
  lemma CompositeNames()
    ensures forall n :: n in CountryMergeMap ==> CountryMergeMap[n] !in CountryMergeMap
    ensures forall n :: n in CountryMergeMap ==> IsoOf(CountryMergeMap[n]).Some?
  {
    MergeValues();
    MemberLengths();
    CompositeLengths();
    CompositeCodes();
  }

  /** Renaming twice is renaming once. */
  lemma RenameIdempotent(name: string)
    ensures Rename(Rename(name)) == Rename(name)
  {
    CompositeNames();
  }

  /** One iteration of the `ISO_MAP` loop on one row: rows of that group get
      its code. */
  function SetIso(o: Obs, e: (string, string)): Obs
  {
    if o.country == e.0 then o.(iso := e.1) else o
  }

  /** A row after the loop has gone through the entries `es`. */
  function ApplyEntries(o: Obs, es: seq<(string, string)>): Obs
  {
    if es == [] then o else SetIso(ApplyEntries(o, es[..|es| - 1]), es[|es| - 1])
  }

  /** A row with a composite name gets that name's code; any other row is
      unchanged. */
  function ForceIso(o: Obs): (r: Obs)
    ensures r.country == o.country && r.year == o.year && r.value == o.value
    ensures IsoOf(o.country).None? ==> r == o
  {
    match IsoOf(o.country)
    case Some(iso) => o.(iso := iso)
    case None => o
  }

  /** Running the loop over all entries leaves each row with the code of its
      own group, whatever order the groups are visited in. */
  lemma {:induction false} ApplyEntriesLookup(o: Obs, es: seq<(string, string)>)
    ensures ApplyEntries(o, es) ==
      match IsoLookup(es, o.country)
      case Some(iso) => o.(iso := iso)
      case None => o
  {
    if es != [] {
      ApplyEntriesLookup(o, es[..|es| - 1]);
    }
  }

  /** The loop at `for group_name, iso in ISO_MAP.items(): df.loc[df["Country"]
      == group_name, "ISOcode"] = iso`, run over an array of rows. */
  method ForceIsoCodes(a: array<Obs>)
    modifies a
    ensures forall i :: 0 <= i < a.Length ==> a[i] == ForceIso(old(a[i]))
  {
    var e := 0;
    while e < |IsoMapEntries|
      invariant 0 <= e <= |IsoMapEntries|
      invariant forall i :: 0 <= i < a.Length ==> a[i] == ApplyEntries(old(a[i]), IsoMapEntries[..e])
    {
      var (group, iso) := IsoMapEntries[e];
      assert IsoMapEntries[..e + 1][..e] == IsoMapEntries[..e];
      var i := 0;
      while i < a.Length
        invariant 0 <= i <= a.Length
        invariant forall j :: 0 <= j < i ==> a[j] == ApplyEntries(old(a[j]), IsoMapEntries[..e + 1])
        invariant forall j :: i <= j < a.Length ==> a[j] == ApplyEntries(old(a[j]), IsoMapEntries[..e])
      {
        if a[i].country == group {
          a[i] := a[i].(iso := iso);
        }
        i := i + 1;
      }
      e := e + 1;
    }
    assert IsoMapEntries[..e] == IsoMapEntries;
    forall i | 0 <= i < a.Length
      ensures a[i] == ForceIso(old(a[i]))
    {
      ApplyEntriesLookup(old(a[i]), IsoMapEntries);
    }
  }

  /** Both reconciliation steps applied to one row. */
  function Reconciled(o: Obs): Obs
  {
    ForceIso(o.(country := Rename(o.country)))
  }

  /** A member country is reported under its composite name and the
      composite's ISO code; the year and value are untouched. */
  lemma ReconciledMember(o: Obs)
    requires o.country in CountryMergeMap
    ensures Reconciled(o).country == CountryMergeMap[o.country]
    ensures IsoOf(Reconciled(o).country).Some? && Reconciled(o).iso == IsoOf(Reconciled(o).country).value
    ensures Reconciled(o).year == o.year && Reconciled(o).value == o.value
  {
    CompositeNames();
  }

  /** A row whose name is neither a member nor a composite passes unchanged. */
  lemma ReconciledOther(o: Obs)
    requires o.country !in CountryMergeMap && IsoOf(o.country).None?
    ensures Reconciled(o) == o
  {
  }

  /** Reconciling an already reconciled row changes nothing. */
  lemma ReconcileIdempotent(o: Obs)
    ensures Reconciled(Reconciled(o)) == Reconciled(o)
  {
    RenameIdempotent(o.country);
  }

  /** Reconciliation of a whole column. */
  function ReconciledAll(s: seq<Obs>): (r: seq<Obs>)
    ensures |r| == |s|
    ensures forall i :: 0 <= i < |s| ==> r[i] == Reconciled(s[i])
  {
    seq(|s|, i requires 0 <= i < |s| => Reconciled(s[i]))
  }

  /** Both steps on a table held in an array: `replace(COUNTRY_MERGE_MAP)`
      on the Country column, then the in-place ISO loop. */
  method ReconcileRows(s: seq<Obs>) returns (r: seq<Obs>)
    ensures r == ReconciledAll(s)
  {
    var a := new Obs[|s|](i requires 0 <= i < |s| => s[i].(country := Rename(s[i].country)));
    ForceIsoCodes(a);
    forall i | 0 <= i < a.Length
      ensures a[i] == Reconciled(s[i])
    {
    }
    r := a[..];
  }

  // ---------------------------------------------------------------------------
  // Collapsing duplicate (Country, ISOcode, Year) rows
  // ---------------------------------------------------------------------------

  /** The grouping key `["Country", "ISOcode", "Year"]`. */
  function ObsKey(o: Obs): Key
  {
    [Name(o.country), Name(o.iso), Num(o.year)]
  }

  predicate IsObsKey(k: Key)
  {
    |k| == 3 && k[0].Name? && k[1].Name? && k[2].Num?
  }

  function FromKey(k: Key, v: real): (o: Obs)
    requires IsObsKey(k)
    ensures ObsKey(o) == k && o.value == v
  {
    Obs(k[0].text, k[1].text, k[2].n, v)
  }

  /** Two rows share a key exactly when they share Country, ISOcode and Year. */
  lemma ObsKeyInjective(a: Obs, b: Obs)
    ensures ObsKey(a) == ObsKey(b) <==> (a.country == b.country && a.iso == b.iso && a.year == b.year)
  {
    if ObsKey(a) == ObsKey(b) {
      assert ObsKey(a)[0] == ObsKey(b)[0] && ObsKey(a)[1] == ObsKey(b)[1] && ObsKey(a)[2] == ObsKey(b)[2];
    }
  }

  function Keyed(s: seq<Obs>): (r: seq<(Key, real)>)
    ensures |r| == |s|
    ensures forall i :: 0 <= i < |s| ==> r[i] == (ObsKey(s[i]), s[i].value)
  {
    seq(|s|, i requires 0 <= i < |s| => (ObsKey(s[i]), s[i].value))
  }

  /** The Value column of a long table. */
  function ObsValues(s: seq<Obs>): (r: seq<real>)
    ensures |r| == |s|
    ensures forall i :: 0 <= i < |s| ==> r[i] == s[i].value
  {
    seq(|s|, i requires 0 <= i < |s| => s[i].value)
  }

  /** No two rows share Country, ISOcode and Year. */
  predicate UniqueObs(r: seq<Obs>)
  {
    forall i, j :: 0 <= i < j < |r| ==> ObsKey(r[i]) != ObsKey(r[j])
  }

  lemma KeysOfKeyed(s: seq<Obs>, k: Key)
    requires HasKey(Keyed(s), k)
    ensures IsObsKey(k)
  {
  }

  /** A grouped series read back as rows. */
  function Unkeyed(g: seq<(Key, real)>, s: seq<Obs>): (r: seq<Obs>)
    requires forall i :: 0 <= i < |g| ==> HasKey(Keyed(s), g[i].0)
    ensures |r| == |g|
    ensures forall i :: 0 <= i < |g| ==> ObsKey(r[i]) == g[i].0 && r[i].value == g[i].1
  {
    seq(|g|, i requires 0 <= i < |g| => KeysOfKeyed(s, g[i].0); FromKey(g[i].0, g[i].1))
  }

  /** `groupby(["Country", "ISOcode", "Year"], as_index=False)["Value"].sum()`. */
  function SumByKey(s: seq<Obs>): (r: seq<Obs>)
    ensures |r| <= |s|
    ensures UniqueObs(r)
    ensures forall i :: 0 <= i < |r| ==>
      HasKey(Keyed(s), ObsKey(r[i])) && r[i].value == SumWhere(Keyed(s), ObsKey(r[i]))
    ensures forall o :: o in s ==> HasKey(Keyed(r), ObsKey(o))
  {
    var g := GroupSum(Keyed(s));
    var r := Unkeyed(g, s);
    CoverKeys(s, g, r);
    r
  }

  /** `groupby(["Country", "ISOcode", "Year"], as_index=False)[...].mean()`. */
  function MeanByKey(s: seq<Obs>): (r: seq<Obs>)
    ensures |r| <= |s|
    ensures UniqueObs(r)
    ensures forall i :: 0 <= i < |r| ==>
      HasKey(Keyed(s), ObsKey(r[i])) && CountWhere(Keyed(s), ObsKey(r[i])) > 0 &&
      r[i].value == SumWhere(Keyed(s), ObsKey(r[i])) / (CountWhere(Keyed(s), ObsKey(r[i])) as real)
    ensures forall o :: o in s ==> HasKey(Keyed(r), ObsKey(o))
  {
    var g := GroupMean(Keyed(s));
    var r := Unkeyed(g, s);
    CoverKeys(s, g, r);
    r
  }

  lemma CoverKeys(s: seq<Obs>, g: seq<(Key, real)>, r: seq<Obs>)
    requires forall k :: HasKey(Keyed(s), k) ==> HasKey(g, k)
    requires |r| == |g| && forall i :: 0 <= i < |g| ==> ObsKey(r[i]) == g[i].0
    ensures forall o :: o in s ==> HasKey(Keyed(r), ObsKey(o))
  {
    forall o | o in s
      ensures HasKey(Keyed(r), ObsKey(o))
    {
      var j :| 0 <= j < |s| && s[j] == o;
      assert Keyed(s)[j].0 == ObsKey(o);
      assert HasKey(Keyed(s), ObsKey(o));
      var i :| 0 <= i < |g| && g[i].0 == ObsKey(o);
      assert Keyed(r)[i].0 == ObsKey(o);
    }
  }

  /** Summing duplicates preserves the column total. */
  lemma SumByKeyConserves(s: seq<Obs>)
    ensures Sum(ObsValues(SumByKey(s))) == Sum(ObsValues(s))
  {
    var g := GroupSum(Keyed(s));
    GroupSumConserves(Keyed(s));
    assert Values(Keyed(s)) == ObsValues(s);
    assert Values(g) == ObsValues(SumByKey(s));
  }
}
