# SpeSheet in Dafny

SpeSheet is a Dash dashboard about CO2 emissions, GDP and life expectancy.
It has four tabs:

- a world overview with a detail modal and a benchmarking radar;
- an economy tab with GDP and life-expectancy maps, summary cards, per-country lines and a risk/return analysis;
- a correlation tab with bubble charts, trajectories and decoupling / health-progress rankings;
- a profiles tab with a growth table and a spider chart of the top five emitters.

All of them draw on the tables that `prepare_data.py` builds at start-up from an Excel workbook of CO2 sheets, a World Bank GDP CSV, a life-expectancy CSV written in an unusual quoting style, and a country metadata CSV.

This project models that data pipeline and the decision rules inside the callbacks, and proves what they promise. Tables are sequences of records (`Obs`, `CorrRow`, `LifeRow`, `DecouplingRow`, `LifeDeltaRow`, …). Numbers are exact `real`s. A missing value (pandas NaN) is an `Option`. An uncaught Python exception is the `Err` case of a `Result`. Each module follows one part of the program:

- `Common`, `Sorting`, `Tables`, `Grouping`: string helpers, and the pandas operations used as building blocks. These are `str.strip`, numeric coercion, `sort_values`, `nlargest` / `nsmallest`, boolean filters, `melt`, inner `merge`, `groupby().sum()` / `.mean()` and `idxmax` / `idxmin`.
- `Reconcile`: country identity. It covers `COUNTRY_MERGE_MAP`, `ISO_MAP`, the in-place ISO overwrite loop (an array method), and collapsing duplicate (Country, ISOcode, Year) rows by sum or by mean.
- `Metadata`: `load_metadata_and_regions`, with the loop that adds the composite codes.
- `Gdp`: `load_gdp`.
- `LifeExpectancy`: `load_life_expectancy`. Its character-by-character splitter, its line loop and its in-place row padding are methods with loop invariants, proved against functional specifications.
- `Aggregates`: the CO2 tables, the cumulative sum, the sector summary and the two merged tables of the correlation tab.
- `Selection`, `Tab2Data`, `Tab3Data`: the per-year and per-ISO lookups, the precomputed averages, the per-ISO aggregation and the two delta tables.
- `Controls`: the year slider, its animation, the play/pause button and the statistics cards.
- `Clicks`: click payloads, modal toggles and view switches shared by the tabs.
- `Tab1`, `Tab2`, `Tab3`, `Tab4`, `Radar`: the callbacks. `Radar` holds the growth multiplier, the historical debt and the 0–1 normalisation loop (an array method) that the overview and profiles tabs share.

## Model

| member | source | states |
|---|---|---|
| Common.ArgMax | prepare_data.py:460 | `idxmax`: the index holds a largest value, and every earlier index holds a strictly smaller one (the first maximum) |
| Common.ArgMin | tabs/tab2.py:298 | `idxmin`: the index holds a smallest value, and every earlier index holds a strictly larger one (the first minimum) |
| Common.Strip | prepare_data.py:60-63 | `str.strip()`: the result is a slice of the input with only whitespace cut off on either side, has no leading or trailing whitespace, and is the input unchanged when the input holds no whitespace |
| Common.RemoveChar | prepare_data.py:338 | `str.replace(c, '')`: `c` no longer occurs, every other character keeps its count, and a string without `c` is unchanged |
| Common.RemoveCharConcat | prepare_data.py:338 | removal works piece by piece, so the remaining characters keep their order |
| Common.CleanIso | prepare_data.py:471 | the ISO cleaning `str(iso).strip().replace('"', '')` leaves no double quote and keeps every other character of the stripped text with its count |
| Common.Lower | prepare_data.py:83 | `str.lower()` on ASCII: keeps the length, lowers each ASCII capital, keeps every other character, and leaves no ASCII capital |
| Common.ParseDecimal | prepare_data.py:88-89 | `pd.to_numeric(errors='coerce')`: the empty cell is missing and a string of digits reads as its decimal value |
| Common.YearOf | prepare_data.py:88 | a header of digits is the year it spells, and any year read back parses to the same number |
| Sorting.Sort | prepare_data.py:109 | `sort_values` keeps the length and the multiset of rows |
| Sorting.SortSorted | prepare_data.py:109 | for a total preorder the sorted rows are in order |
| Sorting.Largest | tabs/tab1.py:249 | `nlargest(n)`: min(n, size) rows taken from the input, in descending key order, none of the rows left out having a larger key than a chosen one |
| Sorting.Smallest | tabs/tab3.py:747 | `nsmallest(n)`: min(n, size) rows taken from the input, in ascending key order, none of the rows left out having a smaller key than a chosen one |
| Tables.Filter | prepare_data.py:176-178 | a boolean row filter keeps only rows that pass, and keeps every row that passes |
| Tables.FilterConcat | prepare_data.py:176-178 | filtering works piece by piece, so the kept rows stay in their original order |
| Tables.FilterSubMultiset | prepare_data.py:176-178 | filtering never duplicates a row: the kept rows are a sub-multiset of the input |
| Tables.FirstSheet | prepare_data.py:83 | the first sheet whose lower-cased name contains the lower-cased keyword, or none; no earlier sheet matches |
| Tables.IdColumns | prepare_data.py:87 | the `id_vars` positions exist exactly when every id variable is a header; otherwise a `KeyError` names a missing one |
| Tables.ValueColumns | prepare_data.py:87 | the melted columns are exactly the non-id columns, in header order |
| Tables.ValueColumnsCount | prepare_data.py:87 | with distinct id variables, the number of melted columns is the header width minus the number of id variables |
| Tables.Join | prepare_data.py:94-99 | an inner merge: every output row comes from a matching left/right pair, and every matching pair is in the output |
| Tables.SafeLoadAndMelt | prepare_data.py:82-91 | no matching sheet gives the empty table with columns `id_vars + [Year, Value]`; otherwise a missing id variable is a `KeyError`, and the rows are exactly the melted cells whose header is a year and whose value is numeric, at most rows × value columns of them |
| Tables.MeltSound | prepare_data.py:87-90 | every melted row comes from a cell of a value column with a numeric year header and a numeric value |
| Tables.MeltComplete | prepare_data.py:87-90 | every cell with a numeric year header and a numeric value gives a melted row |
| Grouping.AccumulateGrouped | prepare_data.py:150 | the running groups hold one group per distinct key, with that key's sum and positive count |
| Grouping.GroupSum | prepare_data.py:115 | `groupby(key).sum()`: unique keys, each valued at the sum of its rows, and every key of the input present |
| Grouping.GroupMean | prepare_data.py:291 | `groupby(key).mean()`: unique keys, each valued at the mean of its rows, and every key of the input present |
| Grouping.GroupSumConserves | prepare_data.py:115 | grouping by sum keeps the grand total |
| Grouping.Lookup | prepare_data.py:555 | a lookup finds a value exactly when the key is present, and the value found is that key's |
| Grouping.LookupUnique | prepare_data.py:555 | with unique keys, the lookup of a row's key returns that row's value |
| Reconcile.IsoLookup | prepare_data.py:30-38 | the code `ISO_MAP` gives a name: missing exactly when no entry names it, and taken from an entry otherwise |
| Reconcile.MergeValues | prepare_data.py:12-28 | every renamed country maps to one of the composite names |
| Reconcile.CompositeCodes | prepare_data.py:30-38 | every composite name has a code in `ISO_MAP` |
| Reconcile.CompositeNames | prepare_data.py:12-38 | no composite name is itself renamed, so renaming is idempotent, and every rename target has a code |
| Reconcile.RenameIdempotent | prepare_data.py:143 | `replace(COUNTRY_MERGE_MAP)` applied twice is applied once |
| Reconcile.ForceIso | prepare_data.py:146-147 | the loop's effect on one row: only the ISO code may change, and rows of non-composite countries are untouched |
| Reconcile.ApplyEntriesLookup | prepare_data.py:146-147 | running the loop over all `ISO_MAP` entries gives each row the code its name looks up, or leaves it |
| Reconcile.ForceIsoCodes | prepare_data.py:146-147 | the in-place loop over the table sets every row to its forced-ISO form |
| Reconcile.ReconciledMember | prepare_data.py:143-147 | a member country is reported under its composite name with the composite's code; year and value are kept |
| Reconcile.ReconciledOther | prepare_data.py:143-147 | a country outside the merge map and without a code is left untouched |
| Reconcile.ReconcileIdempotent | prepare_data.py:143-147 | the rename and the ISO overwrite together are idempotent |
| Reconcile.ReconcileRows | prepare_data.py:143-147 | the two steps on the whole table give each row its reconciled form |
| Reconcile.ObsKeyInjective | prepare_data.py:150 | two rows share the group key exactly when they share Country, ISOcode and Year |
| Reconcile.SumByKey | prepare_data.py:150 | `groupby(["Country","ISOcode","Year"]).sum()`: no two rows share the key, each row holds the sum of its key's values, and every input key is present |
| Reconcile.MeanByKey | prepare_data.py:291 | the same grouping with `mean()`: each row holds the mean of its key's values |
| Reconcile.SumByKeyConserves | prepare_data.py:150 | summing by key keeps the table's total (Spain and Andorra add up) |
| Metadata.StripAll | prepare_data.py:60 | every header is stripped, position by position |
| Metadata.MetaColumnsOf | prepare_data.py:62-63 | the Country Code and Region columns are found exactly when both stripped headers exist |
| Metadata.Pairs | prepare_data.py:62-69 | each row gives its stripped code and region, with a missing cell read as empty |
| Metadata.RegionMap | prepare_data.py:69 | `dict(zip(...))`: the keys are the codes, each mapped to the region of the last row with that code |
| Metadata.LoadMetadataAndRegions | prepare_data.py:52-80 | missing columns give the empty set and map; otherwise the valid codes are the `ISO_MAP` codes plus the codes of rows in an official region, the region map covers exactly them, every region is official, and a composite code without a row gets "Europe & Central Asia" |
| Metadata.AddComposites | prepare_data.py:72-75 | the loop adds every `ISO_MAP` code to the valid set and gives a code without a region the default one, keeping existing regions |
| Metadata.RegionsValid | prepare_data.py:66-75 | every region of the map is one of the official regions |
| Metadata.RealCodes | prepare_data.py:66-68 | the codes kept are exactly those of rows whose stripped region is official |
| Gdp.DigitColumns | prepare_data.py:126 | the year columns are exactly the headers made only of digits |
| Gdp.GdpMelted | prepare_data.py:128-140 | the melt fails with a `KeyError` exactly when "Country Name" or "Country Code" is not a header |
| Gdp.GdpYears | prepare_data.py:126-140 | every melted year is the value of a digit-only header |
| Gdp.GdpComplete | prepare_data.py:128-140 | every numeric cell under a digit-only header gives a row with its country, code, year and value |
| Gdp.GdpTableSpec | prepare_data.py:142-157 | after the rename, the ISO overwrite and the sum: no two rows share (Country, ISOcode, Year), each row holds the sum of its key's values, lies in [min_year, max_year] with a valid ISO code and a header year, and every kept input key is present |
| Gdp.SummedKept | prepare_data.py:150-157 | summing by key then filtering on year range and ISO code keeps unique keys, sums, and every kept key |
| Gdp.KeptByKey | prepare_data.py:153-157 | the year and ISO filter reads only key columns, so it agrees on rows with the same key |
| Gdp.LoadGdp | prepare_data.py:117-159 | the method returns the GDP table of the stripped header, as `GdpTable` defines it |
| LifeExpectancy.SplitLine | prepare_data.py:209-227 | the character loop returns exactly the fields of the splitter's specification |
| LifeExpectancy.SplitEncode | prepare_data.py:207-227 | splitting a line written as fields separated by `,""` gives those fields back (round trip) |
| LifeExpectancy.Unquote | prepare_data.py:204-205 | a line that starts and ends with a quote loses its first and last character (a lone quote becomes empty); any other line is unchanged |
| LifeExpectancy.UnquoteWrapped | prepare_data.py:204-205 | a text wrapped in one pair of quotes is unwrapped to exactly that text |
| LifeExpectancy.RowOfLine | prepare_data.py:199-233 | a blank line gives no row; otherwise the line gives a row exactly when more than two fields of its stripped, unquoted text are neither empty nor start with `;;;;`, and the row is those fields in order |
| LifeExpectancy.RowsOf | prepare_data.py:230-233 | no more rows than lines, and every row read has more than two fields |
| LifeExpectancy.RowsOfSound | prepare_data.py:230-233 | every row read is the row of one of the lines |
| LifeExpectancy.RowsOfComplete | prepare_data.py:230-233 | every line that gives a row has its row among the rows read |
| LifeExpectancy.RowsOfIsFilterMap | prepare_data.py:196-233 | the rows read are, in line order, the rows the lines give |
| LifeExpectancy.RowsOfConcat | prepare_data.py:196-233 | two runs of lines read one after the other give their rows one after the other |
| LifeExpectancy.RowsOfOne | prepare_data.py:230-233 | one line gives its own row or nothing |
| LifeExpectancy.RowsOfNext | prepare_data.py:195-197 | after the four skipped lines, each further line adds its row when it has one |
| LifeExpectancy.ReadLine | prepare_data.py:199-233 | the per-line method returns the row its specification gives |
| LifeExpectancy.ReadRows | prepare_data.py:193-233 | the loop over the lines returns the rows of every line after the fourth |
| LifeExpectancy.Fit | prepare_data.py:245-248 | a row becomes exactly the header width: its first cells kept, padded with `''` |
| LifeExpectancy.AdjustRows | prepare_data.py:243-248 | the in-place loop pads or truncates every data row to the header width |
| LifeExpectancy.FitAll | prepare_data.py:243-248 | every row, position by position, is fitted to the width |
| LifeExpectancy.RenamedHeader | prepare_data.py:254-255 | the rename makes column 1 "ISOcode", column 0 "Country" unless both had the same name, and leaves other headers alone |
| LifeExpectancy.YearColumns | prepare_data.py:258 | the year columns are exactly the four-digit headers |
| LifeExpectancy.LoadLifeExpectancy | prepare_data.py:186-297 | the method returns the table `LifeTable` defines, empty on every failure path |
| LifeExpectancy.LifeTableSpec | prepare_data.py:274-291 | no two rows share (Country, ISOcode, Year), each holds the mean of its key's reconciled values with a four-digit year, and every reconciled key is present |
| LifeExpectancy.LifeYears | prepare_data.py:258-279 | every year comes from a four-digit header |
| LifeExpectancy.LifeComplete | prepare_data.py:264-279 | every numeric cell under a four-digit header gives a row with its Country, stripped ISO code, year and value |
| Aggregates.Co2Table | prepare_data.py:162-178 | the emissions table keeps exactly the melted rows whose ISO code is a valid one |
| Aggregates.RegionOf | prepare_data.py:318 | `map(ISO_TO_REGION).fillna("Other")`: the mapped region, or "Other" for an unmapped code |
| Aggregates.CountryYearTotal | prepare_data.py:109 | the (Country, Year) order of `sort_values` is a total preorder |
| Aggregates.SortedContiguous | prepare_data.py:109 | once sorted by (Country, Year), the rows of each country are adjacent |
| Aggregates.RunningTotals | prepare_data.py:110 | `groupby('Country').cumsum()` on adjacent rows: each row gets the sum of its country's values up to and including itself |
| Aggregates.CumulativeData | prepare_data.py:108-111 | the rows are a sorted permutation of the totals and each cumulative value is the running sum of its country |
| Aggregates.CumulativeMonotone | prepare_data.py:108-111 | with non-negative emissions, a country's cumulative value never decreases along the table |
| Aggregates.CumulativeLast | prepare_data.py:108-111 | a country's last cumulative value is its total over the whole table |
| Aggregates.CountryTotalPerm | prepare_data.py:109 | a country's total does not depend on the row order |
| Aggregates.SectorSummarySpec | prepare_data.py:113-115 | one row per sector present in the year, holding that sector's sum for the year; every sector of the year is present and the rows add up to the year's total |
| Aggregates.CorrelationData | prepare_data.py:93-106 | the inner merge on (Country, ISOcode, Year): every output row comes from a matching pair, and every matching pair is present |
| Aggregates.Join3 | prepare_data.py:313-314 | the two inner merges on (ISOcode, Year) give exactly the matching triples |
| Aggregates.MergedForCorrelationRows | prepare_data.py:317-321 | every row has positive CO2 and GDP per capita, population = total / per capita, and its region or "Other" |
| Aggregates.MergedForCorrelationSound | prepare_data.py:309-321 | every row comes from matching CO2-per-capita, GDP-per-capita and CO2-total rows |
| Aggregates.MergedForCorrelationComplete | prepare_data.py:309-321 | every matching triple with positive per-capita values gives a row |
| Aggregates.CleanIsos | prepare_data.py:337-338 | every row keeps its fields with its ISO code cleaned |
| Aggregates.MergedLifeProgressRows | prepare_data.py:349-379 | every row has positive per-capita CO2 and life expectancy, proxy = total / per capita, and its region or "Other" |
| Aggregates.MergedLifeProgressSound | prepare_data.py:341-379 | every row comes from matching per-capita, total and life rows with cleaned codes |
| Aggregates.MergedLifeProgressComplete | prepare_data.py:341-379 | every matching triple with positive per-capita CO2 and life expectancy gives a row |
| Selection.YearRows | prepare_data.py:438 | the rows of one year, exactly |
| Selection.IsoRows | prepare_data.py:472 | the rows of one ISO code, exactly |
| Selection.GroupCountPositive | prepare_data.py:548 | a group has rows exactly when some kept row carries its key |
| Selection.GroupSumLookup | prepare_data.py:546-549 | looking up a key of the grouped sum gives that key's total, or nothing when no row has it |
| Selection.GroupMeanLookup | prepare_data.py:546-549 | looking up a key of the grouped mean gives that key's mean, or nothing when no row has it |
| Selection.FirstCountry | prepare_data.py:476 | `Country.iloc[0]` of an ISO code's rows: nothing exactly when no row has the code, otherwise the Country of its first row |
| Selection.CountryOfIso | prepare_data.py:554-555 | `iso_to_country.get(x, x)`: the Country of the code's first row, or the code itself when no row has it |
| Tab3Data.GdpBubbleYear | prepare_data.py:507-510 | the merged GDP/CO2 rows of one year, exactly |
| Tab3Data.LifeBubbleYear | prepare_data.py:513-516 | the merged life/CO2 rows of one year, exactly |
| Tab3Data.GdpTrajectory | prepare_data.py:519-525 | the merged rows of the cleaned ISO code with positive GDP and CO2 per capita, all of them, sorted by year |
| Tab3Data.LifeTrajectory | prepare_data.py:528-534 | the merged rows of the cleaned ISO code with positive CO2 per capita and life expectancy, all of them, sorted by year |
| Tab3Data.AggregateIso | prepare_data.py:537-549 | one value per cleaned ISO code of the year |
| Tab3Data.AggregateIsoSpec | prepare_data.py:537-549 | the value of a code is its sum (or mean) over the year's rows, and it exists exactly when some row of the year has that cleaned code |
| Tab3Data.PercentChangeInverse | prepare_data.py:583-584 | `(e/s − 1)·100` compounds the start back to the end |
| Tab3Data.PercentChangeSign | prepare_data.py:583-584 | from a positive start, the change is negative exactly when the value fell and positive exactly when it rose |
| Tab3Data.DecouplingDelta | prepare_data.py:560-566 | no table (`None`) exactly when the selected year is not after the start year |
| Tab3Data.DecouplingDeltaSound | prepare_data.py:568-592 | every row has all four snapshots of its code, non-zero starts, dCO2 and dGDP as percent changes inside (−80, 400), and its Country and region |
| Tab3Data.DecouplingDeltaComplete | prepare_data.py:568-592 | every code with all four snapshots, non-zero starts and both changes inside (−80, 400) has a row |
| Tab3Data.LifeProgressDelta | prepare_data.py:595-601 | no table (`None`) exactly when the selected year is not after the start year |
| Tab3Data.LifeProgressDeltaSound | prepare_data.py:603-630 | every row has all four snapshots, a non-zero CO2 start, dLife = end − start inside (−20, 40), dCO2 inside (−80, 400), score = dLife − dCO2/10, and its Country and region |
| Tab3Data.LifeProgressDeltaComplete | prepare_data.py:603-630 | every code with all four snapshots, a non-zero CO2 start and both changes inside their bounds has a row |
| Tab2Data.GdpYearRows | prepare_data.py:430-438 | the rows of the year from the total table when the view is "total", from the per-capita table otherwise |
| Tab2Data.GdpMapRows | prepare_data.py:440-446 | the year's rows with a positive value |
| Tab2Data.LifeYearRows | prepare_data.py:448-453 | the year's life rows, without the small countries when asked |
| Tab2Data.DefaultIso | prepare_data.py:458-460 | no code exactly for no rows; otherwise the code of the first largest value |
| Tab2Data.DefaultIsoGdp | prepare_data.py:455-460 | no code exactly when the year has no total-GDP row; otherwise the code of its first largest value |
| Tab2Data.DefaultIsoLife | prepare_data.py:462-467 | no code exactly when the year has no life row (small countries included); otherwise the code of its first longest life expectancy |
| Tab2Data.GdpCountrySeries | prepare_data.py:469-479 | both series hold exactly the rows of the cleaned code; the name is missing exactly when both are empty, and otherwise comes from the first total row, else the first per-capita row |
| Tab2Data.LifeCountrySeries | prepare_data.py:481-484 | exactly the life rows of the cleaned code |
| Tab2Data.AverageByYearSpec | prepare_data.py:392-408 | the average of a year is the mean of its rows, present exactly when the year has rows |
| Tab2Data.ContinentAverageSpec | prepare_data.py:411-417 | the average of (year, continent) is the mean of its rows, never for "Other", and present exactly when some row of the year maps to that continent |
| Controls.DecadeMarks | components/controls.py:15-16 | the slider marks are every tenth year from the first year, all below the end bound and none missing |
| Controls.Slider | components/controls.py:10-18 | the slider spans the first to the last year, starts on the last year, and is marked exactly at the years a multiple of ten after the first |
| Controls.AnimateSlider | components/controls.py:41-42 | a tick advances the year by one, wraps from the last year back to the first, and keeps the year inside the slider's range |
| Controls.TicksForward | components/controls.py:41-42 | n ticks that stay below the last year advance the year by exactly n |
| Controls.TicksCompose | components/controls.py:41-42 | m ticks followed by n ticks are the same as m + n ticks |
| Controls.SliderCycle | components/controls.py:41-42 | from any year in range, one tick per year of the range brings the slider back to the same year |
| Controls.TogglePlay | components/controls.py:51-54 | the stepper is disabled exactly when the click count is even, and the button reads Play when disabled and Pause otherwise |
| Controls.TogglePlayAlternates | components/controls.py:51-54 | each click flips the stepper, two clicks restore it, and the initial count of one starts the animation playing |
| Controls.UpdateStats | components/controls.py:61-68 | no cards without a year or without rows for it; otherwise the global sum, the mean of the year's rows and a country holding the year's largest value |
| Controls.StatsTopAboveAverage | components/controls.py:67-83 | the average card never exceeds the top emitter's value |
| Clicks.ToggleModal | tabs/tab3.py:570-573 | a click on either button flips the modal; no click keeps it |
| Clicks.ToggleModalTwice | tabs/tab2.py:564-568 | two rounds of clicks bring the modal back to its state |
| Clicks.ToggleView | tabs/tab3.py:219-226 | the view is "life" exactly when the life button triggered, else "gdp"; the active button is solid and the other outlined |
| Tab3.GdpLinkLabel | tabs/tab3.py:303-306 | each GDP link text holds exactly on its correlation band (above 0.7, 0.4 to 0.7, 0 to 0.4, at most 0) |
| Tab3.GdpLinkMonotone | tabs/tab3.py:303-306 | a larger correlation never gets a weaker GDP link text |
| Tab3.LifeLinkLabel | tabs/tab3.py:429-436 | each life link text holds exactly on its correlation band (above 0.5, 0.2 to 0.5, -0.2 to 0.2, at most -0.2) |
| Tab3.LifeLinkMonotone | tabs/tab3.py:429-436 | a larger correlation never gets a weaker life link text |
| Tab3.DecouplingScoreMonotone | tabs/tab3.py:649 | more GDP growth and less CO2 growth never lower the decoupling score |
| Tab3.Pool | tabs/tab3.py:652-659 | the ranking pool is drawn from the rows; it is the zone's rows when the zone is not empty and all rows otherwise |
| Tab3.GreenRanking | tabs/tab3.py:652-655 | at most five rows of the pool, by decreasing score, none left out that scores above a kept one |
| Tab3.DirtyRanking | tabs/tab3.py:658-661 | at most five rows of the pool, by decreasing CO2 growth, none left out that grew more than a kept one |
| Tab3.GreenRankingInZone | tabs/tab3.py:652-655 | with a green-growth row present, every ranked row is green growth and scores above zero |
| Tab3.DirtyRankingInZone | tabs/tab3.py:658-661 | with a dirty-growth row present, every ranked row is dirty growth |
| Tab3.MostSustainable | tabs/tab3.py:746 | at most five rows, by decreasing sustainability score, none left out that scores above a kept one |
| Tab3.LeastSustainable | tabs/tab3.py:747 | at most five rows, by increasing sustainability score, none left out that scores below a kept one |
| Tab3.FewCountriesBothLists | tabs/tab3.py:746-747 | with five rows or fewer, both lists hold every row |
| Tab3.DecouplingAnalysis | tabs/tab3.py:601-661 | the baseline exactly up to 1970, "no shared data" exactly when the delta is empty, else the delta's rows with the green and dirty rankings |
| Tab3.LifeAnalysis | tabs/tab3.py:701-747 | the baseline exactly up to 1970, "no shared data" exactly when the delta is empty, else the delta's rows with the most and least sustainable lists |
| Tab3.AdvancedAnalysis | tabs/tab3.py:589-598 | closed without an open modal or a year; the life view gets the progress analysis and any other view the decoupling analysis |
| Tab3.BaselineIgnoresData | tabs/tab3.py:607-610 | up to 1970 the analysis is the baseline whatever the data |
| Tab3.CorrCountryStore | tabs/tab3.py:774-785 | the stored ISO code is the first point's first custom datum, and nothing exactly when that datum is missing |
| Radar.HistoricalDebtSpec | tabs/tab4.py:38-39 | a country has a cumulative-debt row exactly when it has a row up to the year, and that row is the sum of its values up to the year |
| Radar.DebtMonotone | tabs/tab1.py:202-203 | with non-negative emissions, a country's historical debt never shrinks as the year moves forward |
| Radar.DebtNonNegative | tabs/tab1.py:202-203 | with non-negative emissions, historical debt is never negative |
| Radar.TopEmitters | tabs/tab4.py:42 | the n largest rows of the year (fewer when the year has fewer), all rows of that year, by decreasing value, none left out that is larger than a kept one |
| Radar.GrowthSpeed | tabs/tab1.py:257-259 | the growth speed times a positive 1970 value gives back the current value; without a positive 1970 value it is 1 |
| Radar.GrowthSpeedCompare | tabs/tab1.py:257-259 | against a positive baseline, the speed is above 1 exactly when emissions grew and exactly 1 when they stayed equal |
| Radar.NormalisedRange | tabs/tab1.py:270-273 | every normalised value of a non-negative column lies in [0, 1] |
| Radar.NormalisedMaxIsOne | tabs/tab1.py:270-273 | a column with a positive maximum normalises its largest entry to 1 |
| Radar.NormalisedInverse | tabs/tab1.py:270-273 | multiplying a normalised value by the column maximum gives back the original value |
| Radar.NormalisedOrder | tabs/tab1.py:270-273 | normalisation keeps the order of any two entries |
| Radar.NormalisedIdempotent | tabs/tab1.py:270-273 | normalising a column twice is the same as normalising it once |
| Radar.NormaliseColumn | tabs/tab4.py:47-49 | the column is normalised in place: the array afterwards is the normalised old contents |
| Radar.NormaliseRadar | tabs/tab1.py:269-273 | the three metric columns of the radar table are normalised, each by its own maximum |
| Radar.NormalisedRowsRange | tabs/tab1.py:269-273 | with non-negative metrics, every normalised radar row keeps its country and has all three scores in [0, 1] |
| Tab1.CountryStore | tabs/tab1.py:115-121 | reset clears the selection; no payload or no points key keeps it empty; a first point with a hover text selects exactly that hover text; an empty point list or a missing hover text is an error |
| Tab1.ToggleAdvancedModal | tabs/tab1.py:138-154 | reset opens the modal, the close button closes it, a selected country opens it, anything else keeps it |
| Tab1.ToggleAdvancedModalCauses | tabs/tab1.py:138-154 | only the close button closes an open modal, and only a reset or a selection opens a closed one |
| Tab1.RadarTarget | tabs/tab1.py:220-236 | the selected country, else a country holding the year's largest value, and an error exactly when the year has no rows |
| Tab1.CompareList | tabs/tab1.py:249-250 | the compared countries are exactly those of the year's five largest rows plus the stripped target when it is not empty |
| Tab1.BaseRowsOf | tabs/tab1.py:199 | exactly the 1970 rows of the country |
| Tab1.MetricRowsOf | tabs/tab1.py:253-259 | each radar row keeps the current row's country and value, its historical debt, and a growth speed against a 1970 row of the country or 1 without one; one row per 1970 row of the country, or a single row without one (the left merge) |
| Tab1.MetricsSound | tabs/tab1.py:253-259 | every radar row comes from a compared country's row of the year |
| Tab1.MetricsComplete | tabs/tab1.py:253 | every compared country with a row in the year has a radar row |
| Tab1.AdvancedRadar | tabs/tab1.py:236-273 | an error exactly when there is no target; otherwise the normalised metrics of the compared countries |
| Tab4.GrowthTableSound | tabs/tab4.py:27-34 | every growth row joins a row of the year with a positive 1970 row of the same country, and its multiplier is their ratio |
| Tab4.GrowthTableComplete | tabs/tab4.py:27-34 | every row of the year with a positive 1970 row of the same country has its growth row |
| Tab4.Top5 | tabs/tab4.py:42 | the top-five list holds exactly the countries of the year's five largest rows |
| Tab4.SpiderOf | tabs/tab4.py:43-44 | the spider rows are exactly the growth rows of the listed countries with their historical debt |
| Tab4.SpiderRowsSpec | tabs/tab4.py:42-44 | every spider row is a top-five country, and every growth row of a top-five country is there |
| Tab4.SpiderScoresInUnit | tabs/tab4.py:46-49 | with non-negative emissions, every normalised spider score lies in [0, 1] |
| Tab4.SpiderNonNegative | tabs/tab4.py:43-44 | with non-negative emissions, all three spider metrics are non-negative |
| Tab4.UpdateTab4 | tabs/tab4.py:21-49 | a prompt exactly without a year; otherwise the year's rows, the growth table and the normalised spider rows |
| Tab2.ClickedIso | tabs/tab2.py:55-59 | an ISO code only from a payload with points, and then the first point's location; a present location is always returned |
| Tab2.GdpControlsHidden | tabs/tab2.py:210-212 | the GDP controls are hidden exactly in the life view |
| Tab2.LayoutHidden | tabs/tab2.py:220-222 | exactly one of the two layouts is hidden, the GDP one exactly in the life view |
| Tab2.ControlsFollowLayout | tabs/tab2.py:210-222 | the GDP controls are hidden together with the GDP layout and shown with it |
| Tab2.LinesIso | tabs/tab2.py:415-420 | the country is the clicked ISO code of the active view's map, else the view's default country of the year |
| Tab2.CountryLines | tabs/tab2.py:410-467 | no figure exactly off the tab or without a year; the click prompt exactly when no country is found; otherwise the chosen country's non-empty life series with its first name, its GDP series with a name, or "no data" when that series is missing |
| Tab2.CountryLinesFallback | tabs/tab2.py:419-423 | without a click, the prompt appears exactly when the view's data has no row in the year, and the GDP view falls back to a country with the year's largest GDP |
| Tab2.MedianBounds | tabs/tab2.py:332 | the median card lies between the smallest and the largest value |
| Tab2.UpdateGdpCards | tabs/tab2.py:286-349 | no cards exactly off the tab or without a year; the warning exactly when the view's rows of the year are empty; life cards hold the mean with the highest and lowest country; GDP cards hold the largest country, sum and mean for totals, mean and median per capita |
| Tab2.LifeCardsOrdered | tabs/tab2.py:297-299 | the average life expectancy lies between the lowest and the highest country's value |
| Tab2.IsoYearTotal | tabs/tab2.py:637 | ordering by ISO code then year is a total preorder, so the sort is well defined |
| Tab2.History | tabs/tab2.py:636-637 | the history is a reordering of the GDP rows up to the year with a positive value, holds exactly those rows, and is sorted by ISO code then year |
| Tab2.HistoryPositive | tabs/tab2.py:637 | every history value is positive, so each percent change is defined |
| Tab2.PctYoy | tabs/tab2.py:638 | one entry per history row, defined exactly when the previous row has the same ISO code |
| Tab2.PctYoyInverse | tabs/tab2.py:638 | compounding the previous value by the percent change gives the current value, and the change is positive or negative exactly when the value rose or fell |
| Tab2.PctYoyPrevious | tabs/tab2.py:637-638 | a defined change compares a row with the same country's row just before it in time, no row of that country lying between |
| Tab2.PctYoyFirst | tabs/tab2.py:637-638 | an undefined change belongs to the country's earliest year |
| Tab2.PctYoyUndefinedOnFirst | tabs/tab2.py:637-638 | the change is undefined exactly on each country's first row of the sorted history |
| Tab2.YoyRows | tabs/tab2.py:638-642 | the growth rows are exactly the (ISO code, change) pairs of the rows whose change is defined |
| Tab2.GrowthValuesSpec | tabs/tab2.py:642 | a country's growth values are exactly its defined year-over-year changes |
| Tab2.RiskReturnSound | tabs/tab2.py:640-645 | every risk/return point has at least two growth values (so a volatility), an average growth that is their mean and below 50, and the first name of its ISO code |
| Tab2.RiskReturnComplete | tabs/tab2.py:642-645 | every country with at least two growth values averaging below 50 has a risk/return point |
| Tab2.AdvancedModalGdp | tabs/tab2.py:577-585 | nothing exactly off the tab or without a year; the life analysis of the selected year exactly in the life view; otherwise the GDP analysis of the year with its risk/return points |

## Left out

- File and workbook I/O (`pd.ExcelFile`, `read_csv`, `open`) is not modelled. Each loader takes what it would have read: sheet names with their header and cell rows, the GDP CSV's header and rows, the lines of the life-expectancy file, and the metadata header and rows.
- Module-level state built at import time is passed as parameters. This covers `df_totals`, `df_capita`, `df_gdp_total`, `min_year`, `max_year`, `REAL_COUNTRY_ISO3`, `ISO_TO_REGION` and the precomputed averages.
- The `'min_year' in globals()` guard of `load_gdp` is not modelled. The year and ISO filters always run, as they do once the module has loaded.
- Floating point is not modelled. Values are exact reals, so rounding, overflow and `inf` do not arise.
- Not modelled: `np.log10` colour values, `np.corrcoef`, `np.polyfit`, `np.linspace` and the `std` volatility of the risk/return view. The correlation labels take the correlation as an input. The risk/return points keep the condition that makes the volatility defined: at least two growth values.
- Common.ParseDecimal: reads an optional sign, digits and an optional fraction. It does not read exponents, `inf`/`nan` spellings or surrounding blanks, which `pd.to_numeric` accepts. Its contract pins down only the empty cell and plain digit strings.
- Common.YearOf: a header with a non-zero fraction (`"1990.5"`) or an exponent (`"1e3"`) is dropped, where pandas keeps it as a float year; `"1990.0"` reads as 1990.
- Groupings return their groups in first-appearance order; pandas sorts the group keys. Every grouping contract is about membership and values, not order.
- The compare list of the radar is a `set`, so its order (which follows Python's set iteration) is not modelled.
- Sorting.Sort: a stable insertion sort. When rows tie on the sort key, pandas' `sort_values` may order them differently. Every contract holds for any order of equal keys.
- Sorting.Largest, Sorting.Smallest, Tab1.RadarTarget: `nlargest` / `nsmallest` keep the first of tied rows (`keep='first'`), and the radar takes the first of them. The contracts say only that the rows taken have the extreme keys and that no better row is left out; which of several tied rows is taken is not stated.
- Not modelled: Plotly figures, Dash layouts, HTML cards, number formatting, colour maps and `dash.callback_context`. Where a callback reads `ctx.triggered_id`, the model takes the triggering id as a parameter. Each callback's result is a datatype carrying the data its figures or cards would show.
- Not modelled, because they only build figures: the choropleth maps (`update_map`, `update_gdp_map`), the treemap callback, the chart headers, the bubble and trajectory figures, the continental progress chart of `tabs/tab2.py`, and the quadrant shading.
- In the GDP advanced analysis, the treemap, lollipop and dumbbell charts are not modelled. The risk/return points are modelled.
- The life-expectancy advanced analysis of the economy tab is not modelled. The model records only that the life view selects it.
- In the overview's detail modal, the per-capita line, the sector pie and the sector area chart are not modelled. The radar is modelled.
- Tab3.DecouplingAnalysis and Tab3.LifeAnalysis: the defensive branch for a missing delta table cannot be reached after the baseline guard. The model proves this: the result is the baseline exactly up to 1970. It does not keep the dead branch.
- `charts.py`, `example.py` and `main.py` are not part of this model. They hold a duplicate statistics callback, an older loader prototype, figure rendering and layout.
- Common.Strip, Common.Lower, Common.IsDigits: ASCII only. Python's `str.strip()` also removes other Unicode whitespace (such as `\xa0`), `str.lower()` also lowers non-ASCII capitals (such as `É`), and `str.isdigit()` also accepts other digit characters (such as `²`); the model treats all of these as ordinary characters, so `Gdp.DigitColumns` and `LifeExpectancy.YearColumns` take only ASCII digit headers as years.
- LifeExpectancy.LifeObs: the `Country` and `ISOcode` values are read from the first two columns. pandas selects them by name after the rename, which picks different columns only when a later header repeats the name of the first or second column.
- Pandas NaN propagation and index alignment are replaced by `Option` values and explicit filters; `dropna` is a filter.
