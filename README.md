# Electricity impact fusion engine — a Dafny model of `index.ts`

`index.ts` is a batch script. It reads two CSV feeds of electricity
generation data: a yearly feed and a monthly feed, one row per (area,
period, category, variable). It builds an in-memory store with one
*Aggregate* per (region, period). An Aggregate holds:

- a global impact vector with 9 categories;
- a green-only impact vector;
- the green share of the mix (`greenRatio`);
- the generated and imported energy.

The script then runs these stages over the store:

1. **Gap filling.** Six ordered passes (yearly/monthly × world/continent/country)
   give every region an entry for every year from MIN_YEAR (2021) to the current
   year and every month of those years. A missing entry is a copy of the
   region's previous period, else of the parent region's entry for the same
   period. A World region without a first entry aborts the run.
2. **Green-ratio correction.** The green vector of an entry is divided by its
   positive green ratio.
3. **Import blending.** Every country entry that imports energy is replaced by
   the consumption-weighted mean of itself and its continent's entry.
4. **Export.** For every month up to `lastAvailableMonth` of the current year,
   the global and green vectors of every country are summed into per-year world
   totals, with counters of the additions.

The project models every one of these steps, together with:

- the per-line CSV typing;
- the impact-vector arithmetic (`combineImpacts`, `cloneAggregate`);
- the region classification.

Each module has a pure specification. The script's mutable top-level state
becomes the class `Engine.Engine`. Its methods update that state in place with
loops, and each method is proved equal to the specification of its stage.

| file | module | what it holds |
|---|---|---|
| `wrappers.dfy` | `Wrappers` | `Option`, `Result` |
| `region.dfy` | `Region` | World / continent / country filters, the pass scopes, `Filter` |
| `impact.dfy` | `Impact` | `Impacts`, `EMPTY_IMPACTS`, `combineImpacts`, `Aggregate` |
| `numerals.dfy`, `calendar.dfy`, `periods.dfy` | `Numerals`, `Calendar`, `Periods` | decimal text, `Date` parsing and UTC fields, period keys |
| `csv.dfy` | `Csv` | line splitting, header normalisation, field typing |
| `ingestion.dfy` | `Ingestion` | the destructuring of a typed record into a `Row`, and the ingestion callback as a state transition |
| `gapfilling.dfy` | `GapFilling` | the `fill` closure, the region and period loops, the six passes |
| `adjustments.dfy` | `Adjustments` | the green-ratio correction and the import blend |
| `export.dfy` | `Export` | the export loops and their totals |
| `pipeline.dfy` | `Pipeline` | the whole run as one function, and end-to-end properties |
| `engine.dfy` | `Engine` | the class with the script's state and one method per loop |

Behaviour of `index.ts` worth noting, which the model keeps:

- Fields keep their surrounding double quotes: the split does not strip them.
- `COUNTRY_EMBER_REGIONS[region]` is overwritten by every row of that country,
  not only the first one.
- The monthly passes never fall back to the yearly entry of the same year.
- The carried `last` entry runs across year boundaries of a pass.
- A filled entry is an exact copy: there is no near-zero placeholder.
- There are no subdivisions, and the export is an unweighted sum.

## Model

| member | source | states |
|---|---|---|
| Region.ScopeOf | index.ts:27-34 | exactly one of the three region filters accepts any string |
| Region.WorldIsNotAContinent | index.ts:13-22 | "World" is not in EMBER_REGIONS |
| Region.Filter | index.ts:212 | keeps exactly the regions the scope's filter accepts, and no more than there were |
| Region.FilterInOrder | index.ts:212 | the kept regions are a subsequence of the keys: their order is the keys' order |
| Region.FilterDistinct | index.ts:212 | filtering distinct keys gives distinct keys |
| Impact.Extensionality | index.ts:73-83 | two impact vectors agreeing on all 9 keys are equal |
| Impact.CombineGet | index.ts:89-105 | under every key, combineImpacts yields target·targetCoeff + source·sourceCoeff |
| Impact.Add | index.ts:89-105 | combineImpacts with both coefficients defaulted is the key-wise sum |
| Impact.Scale | index.ts:89-105 | combineImpacts with the source defaulted scales every key by targetCoeff |
| Impact.EmptyIsZero | index.ts:87 | EMPTY_IMPACTS is zero under every key |
| Impact.CombineDefaults | index.ts:89-105 | with defaults only, combineImpacts copies its target, or its lone source |
| Impact.ScaleInverse | index.ts:240-244 | scaling by 1/c and then by c gives the vector back |
| Impact.ScaleByInverse | index.ts:240-244 | scaling by inv and then by c, with inv·c = 1, gives the vector back |
| Impact.ConvexOfEqual | index.ts:89-105 | a combination whose coefficients sum to 1 leaves a vector combined with itself unchanged |
| Impact.AddAssociative | index.ts:291-299 | the export's one-at-a-time summation is associative |
| Impact.AddEmpty | index.ts:87-105 | EMPTY_IMPACTS is the unit of the sum (an undefined total starts at zero) |
| Numerals.Pad | index.ts:150 | zero-padded fixed-width decimal text, digits only, of the requested width |
| Numerals.ValueOfPad | index.ts:150 | padding a number that fits its width loses nothing |
| Numerals.PadOfValue | index.ts:150 | a digit string padded back to its own width is unchanged |
| Numerals.Decimal | index.ts:150 | the shortest decimal text of a natural number is a non-empty digit string |
| Numerals.ValueOfDecimal | index.ts:150 | decimal text reads back as its number |
| Numerals.DecimalInjective | index.ts:150 | distinct numbers have distinct decimal texts |
| Numerals.IntText | index.ts:150 | the template text of a non-negative integer is its decimal text |
| Calendar.DaysInMonth | index.ts:61 | the month length used by `new Date(...)` lies in 28..31 |
| Calendar.UtcMonth | index.ts:159-160 | getUTCMonth is the 0-based month, rolled over when the day passes the month's end |
| Periods.MonthKey | index.ts:230 | the monthly key of a 4-digit year is 7 characters with '-' at index 4 |
| Periods.MonthKeyParts | index.ts:230 | a monthly key gives back its year and its 1-based month |
| Periods.MonthKeyInjective | index.ts:229-230 | distinct (year, month) pairs have distinct monthly keys |
| Periods.YearKeyIsNotMonthKey | index.ts:150 | a yearly key never equals a monthly key |
| Periods.YearPeriods | index.ts:225-227 | the yearly periods are MIN_YEAR..currentYear in order |
| Periods.MonthPeriods | index.ts:225-231 | the monthly periods are the 12 months of each of those years in order |
| Periods.PassPeriodsDistinct | index.ts:225-233 | no pass visits a period twice |
| Periods.YearPeriodsDistinct | index.ts:225-227 | the yearly periods are distinct |
| Periods.MonthPeriodsDistinct | index.ts:225-231 | the monthly periods are distinct |
| Csv.NextSeparator | index.ts:54 | finds the first comma followed by an even number of quotes, and none before it |
| Csv.SplitLine | index.ts:54 | the split yields at least one field |
| Csv.SplitLineCharacterised | index.ts:54 | joining the fields with commas gives the line, and the cut commas are exactly those followed by an even number of quotes |
| Csv.SplitLineJoin | index.ts:54 | joining the fields with commas gives the line back |
| Csv.SplitLineSeparators | index.ts:54 | the commas between fields are exactly the separators of the line |
| Csv.LowerChar | index.ts:55 | lower-casing leaves no upper-case letter and keeps whitespace as whitespace |
| Csv.Lower | index.ts:55 | lower-casing is character by character and keeps the length |
| Csv.SkipSpaces | index.ts:55 | dropping a leading whitespace run shortens a line that starts with whitespace |
| Csv.CollapseFacts | index.ts:55 | the whitespace collapse leaves no whitespace and brings in no upper case |
| Csv.NormalizeHeader | index.ts:55 | a header key is lower case with no whitespace |
| Csv.CollapseNoSpace | index.ts:55 | text without whitespace is left alone by the collapse |
| Csv.NormalizeWithoutSpaces | index.ts:55 | a header without whitespace is only lower-cased |
| Csv.NormalizeIdempotent | index.ts:55 | normalising a normalised header changes nothing |
| Csv.CollapseRun | index.ts:55 | each whitespace run between other text becomes exactly one underscore |
| Csv.DateTextOfParse | index.ts:61 | a `YYYY-MM-DD` text read as a date and written back is unchanged |
| Csv.ParseOfDateText | index.ts:61 | a date written as text and read back is unchanged |
| Csv.NumberOfIntText | index.ts:62 | the text of an integer is a number text and reads back as that integer |
| Csv.DateTextIsNotNumberText | index.ts:61-62 | no text is both a date and a number, so the test order is immaterial |
| Csv.TypeField | index.ts:59-63 | a value is undefined, null, a date, a number or raw text, each exactly when its textual condition holds; raw text is kept as is |
| Csv.ParseHeaders | index.ts:55 | there is one header key per field of the first line |
| Csv.RecordPrefixKeys | index.ts:58-65 | the record has exactly one entry per header |
| Csv.RecordPrefixEntries | index.ts:58-65 | a header's entry is the typing of the value at its last occurrence |
| Csv.TypeRecordEntries | index.ts:57-65 | the record's keys are the headers, each mapped to its value's typing |
| Ingestion.RowOfRecordOf | index.ts:135-148 | every `Row` is what the destructuring gives for some typed record |
| Ingestion.RowOfLine | index.ts:54-148 | on a parsed data line, the `value`, `date`, `area` and `area_type` fields are the number, date or text the line holds in that column; an empty `value` is 0 and a missing `area` is "" |
| Ingestion.PeriodOf | index.ts:149-150 | a yearly row's period is `${year}`; a dated row's is the 7-character `YYYY-MM` whose digits read back as the date's UTC year and 1-based UTC month; a row with neither year nor date, or with an invalid date, fails |
| Ingestion.RegionOf | index.ts:151-152 | a resolved region is never empty; a country's is the alpha-2 code listed for its alpha-3 code, and resolves whenever that code is listed with a non-empty alpha-2; an area's is the area name, and resolves whenever the name is non-empty |
| Ingestion.StepValid | index.ts:134-198 | one callback keeps the key order distinct and equal to the store's regions, gives every country a continent, and keeps lastAvailableMonth in 0..11 |
| Ingestion.StepAllValid | index.ts:134-198 | a whole feed keeps that invariant |
| Ingestion.StepFails | index.ts:151-154 | a row aborts exactly when its period or region cannot be resolved, before any year test; an unresolved region gives "Unknown area" |
| Ingestion.EarlyRowDropped | index.ts:155-157 | a resolvable row before MIN_YEAR changes nothing |
| Ingestion.UnlistedAreaDropped | index.ts:161-162 | an area row that is neither World nor a continent creates nothing; only lastAvailableMonth may move |
| Ingestion.RowUpserted | index.ts:163-197 | any other row applies its fields to the existing or zeroed entry at (region, period), records the country's continent, and leaves every other entry unchanged |
| Ingestion.LastMonthMonotone | index.ts:158-160 | lastAvailableMonth only grows, and only to the UTC month of a row dated in the current year |
| Ingestion.FuelShareUpdate | index.ts:176-190 | a fuel share adds impacts·value/100 to global; a green fuel also adds it to green and adds value/100 to greenRatio |
| Ingestion.AddScaled | index.ts:177-181 | combineImpacts with target coefficient 1 adds the scaled source |
| Ingestion.GeneratedTotalUpdate | index.ts:191-193 | a generation-total row overwrites generatedKWh only |
| Ingestion.ImportedTotalUpdate | index.ts:194-196 | an imports row overwrites importedKWh only |
| Ingestion.OtherRowIgnored | index.ts:175-196 | any other category, subcategory or unit changes no field |
| GapFilling.FillEntry | index.ts:214-224 | a period keeps its own entry, else copies `last`, else copies the parent's entry for that period, else fails |
| GapFilling.FillSeriesFailure | index.ts:214-233 | filling a region fails exactly when the first period has no entry, no `last` and no parent entry, and the error names that period |
| GapFilling.FillSeriesKeeps | index.ts:214-233 | a filled region holds every period of the pass and keeps every entry it had |
| GapFilling.MissingCount | index.ts:221 | the count of missing periods is zero exactly when none is missing |
| GapFilling.FillSeriesMisses | index.ts:210-233 | the miss counter grows by exactly the number of entries created |
| GapFilling.FillSeriesCopies | index.ts:213-233 | every created entry copies the previous period's entry; only the first copies `last` or the parent |
| GapFilling.FillRegions | index.ts:212-234 | a pass keeps the store's set of regions |
| GapFilling.FillRegionsShape | index.ts:212-234 | a pass keeps every entry, gives each region of its scope every period, and leaves other regions alone |
| GapFilling.FillRegionsMisses | index.ts:210-235 | a pass counts exactly the entries it creates |
| GapFilling.FillPass | index.ts:209-236 | one pass keeps the store's set of regions |
| GapFilling.FillPasses | index.ts:201-236 | the passes keep the regions and report one miss count per pass |
| GapFilling.FillPassesShape | index.ts:201-236 | after the passes, each region of each pass's scope has that pass's periods, and old entries stand |
| GapFilling.FillGapsComplete | index.ts:201-236 | after the six passes every region has every yearly and monthly period, and old entries are unchanged |
| GapFilling.WorldWithoutFirstPeriodFails | index.ts:217-220 | a World region lacking the first period of a pass aborts it |
| Adjustments.CorrectGreen | index.ts:240-247 | a positive ratio divides green by it (green·ratio gives back the old green); otherwise the entry is unchanged; other fields never change |
| Adjustments.GreenStep | index.ts:182-189 | one row extends green and greenRatio by its own share-weighted term |
| Adjustments.GreenAccumulates | index.ts:182-189 | over any rows, green is the share-weighted sum of green fuel impacts and greenRatio the sum of their shares |
| Adjustments.CorrectSeries | index.ts:239-248 | a region keeps its periods; each green vector times its positive ratio gives back the old one; entries without a positive ratio and all other fields are unchanged |
| Adjustments.CorrectStore | index.ts:237-249 | the store keeps its regions and periods; each entry is its own green-ratio correction, so only green vectors change |
| Adjustments.CorrectedGreenIsMean | index.ts:237-249 | the corrected green vector is the share-weighted mean of the green fuels' impacts |
| Adjustments.BlendEntry | index.ts:254-271 | with a non-zero total, global and green become the blend of own and continent vectors with coefficients generated/total and imported/total; nothing else changes |
| Adjustments.BlendIsWeightedMean | index.ts:255-270 | blended · (generated + imported) = own · generated + continent · imported, under every key |
| Adjustments.BlendCoefficients | index.ts:256-257 | the country and continent coefficients sum to 1 |
| Adjustments.BlendWithEqual | index.ts:259-270 | blending with an equal vector changes nothing |
| Adjustments.BlendMidpoint | index.ts:256-264 | equal generation and imports give the midpoint |
| Adjustments.BlendWithoutGeneration | index.ts:256-264 | a country generating nothing takes its continent's vector |
| Adjustments.BlendSeries | index.ts:253-273 | a country keeps its periods; non-importing entries are unchanged, and an importing entry with a continent entry becomes BlendEntry of itself and that entry |
| Adjustments.BlendRegions | index.ts:252-274 | the blend keeps the store's set of regions |
| Adjustments.BlendImports | index.ts:250-275 | the blend keeps the store's set of regions, and a failure names a country of the store |
| Adjustments.BlendRegionsImporting | index.ts:252-274 | after the country loop, an importing entry of a visited country is BlendEntry of itself and its continent's entry as it stood before the loop |
| Adjustments.BlendImportsImporting | index.ts:250-275 | after a successful blend, every importing entry of every country of the store is BlendEntry of its own and its continent's entry for that period |
| Adjustments.BlendSeriesWithoutImports | index.ts:255 | a series with no importing entry is unchanged |
| Adjustments.BlendStepOutline | index.ts:253-273 | blending one country keeps every region, period, ratio and energy figure |
| Adjustments.BlendRegionsOutline | index.ts:252-274 | the whole blend keeps every region, period, ratio and energy figure |
| Adjustments.BlendRegionsUnvisited | index.ts:252 | World and the continents come out of the blend unchanged |
| Adjustments.BlendRegionsNonImporting | index.ts:255 | a non-importing entry comes out of the blend unchanged |
| Adjustments.BlendSucceeds | index.ts:258 | the blend succeeds exactly when each country has a continent entry for each importing period; otherwise the error names such a country |
| Adjustments.ImportCountZero | index.ts:271 | a country adds nothing to `updates` exactly when none of its entries imports |
| Adjustments.UpdatesZero | index.ts:250-274 | `updates` stays 0 exactly when no visited entry imports |
| Adjustments.BlendWithoutImports | index.ts:255 | with no importing entry the blend returns the store unchanged |
| Export.ExportPeriods | index.ts:285-288 | the export visits month i at (MIN_YEAR + i/12, i%12), 12 per year and lastMonth+1 in the current year |
| Export.ExportPeriodsCover | index.ts:285-287 | a month is visited exactly when it is in a past year or at most lastAvailableMonth |
| Export.ExportRegionsSucceeds | index.ts:289-296 | the region loop succeeds exactly when every country is listed and has the entry, else the error explains why |
| Export.ExportSucceeds | index.ts:285-305 | the export succeeds exactly when every visited (month, country) entry is readable, else the error names an unlisted country or a missing entry |
| Export.ExportRegionsErrorVisited | index.ts:289-296 | a region-loop error names one of its countries and its period |
| Export.ExportErrorVisited | index.ts:285-305 | an export error names a visited country and a visited month |
| Export.ExportRegionsCounts | index.ts:291-301 | one period adds one to `globals` per country, and one to `greens` per country whose entry has a non-zero green ratio |
| Export.ExportCounts | index.ts:283-305 | `globals` grows by months × countries; `greens` by the number of visited cells with a non-zero green ratio, so at most as much |
| Export.TotalKeyInjective | index.ts:291-299 | the `${year}` and `${year}-green` keys of different years or parts never collide |
| Export.ExportCellSum | index.ts:290-301 | one cell adds its contribution to its year's totals only |
| Export.ExportRegionsSum | index.ts:289-303 | the region loop adds the period's sum to its year's totals |
| Export.ExportRegionsOtherYear | index.ts:289-303 | the region loop leaves other years' totals alone |
| Export.ExportYearSums | index.ts:285-305 | each year's world totals are the sums of the global (green) vectors over its visited months and countries |
| Pipeline.IngestFeedsValid | index.ts:130-200 | both feeds keep the ingestion invariant |
| Pipeline.ExportedEntriesPresent | index.ts:285-296 | over a store with every monthly period, every entry the export reads exists |
| Pipeline.ExportOverPresentEntries | index.ts:287-296 | when every entry exists, the export fails exactly on an unlisted country, and its error names one |
| Pipeline.ExportOverFilledStore | index.ts:283-305 | the same for the whole export over a store with every monthly period |
| Pipeline.AdjustedMonthsFilled | index.ts:201-275 | after the passes, the correction and the blend, every country has every monthly period, and there are six miss counts |
| Pipeline.AdjustedStore | index.ts:201-275 | the store a successful run leaves has the ingested regions, and every country in it has every monthly period |
| Pipeline.ExportFailsOnlyOnUnlistedCountry | index.ts:201-307 | once fill and blend succeed, the run fails exactly when a country of the store is not in countries.json, never on a missing entry |
| Engine.Engine.constructor | index.ts:121-129 | the run starts with an empty store, no continents and lastAvailableMonth 0 |
| Engine.Engine.Ingest | index.ts:134-198 | one callback in place equals the ingestion step; an error changes nothing; the invariant holds |
| Engine.Engine.Record | index.ts:162-197 | the writes of a row that passed the filters equal the specified upsert |
| Engine.Engine.ApplyFields | index.ts:175-196 | the field updates equal the specified row application |
| Engine.Engine.IngestPage | index.ts:130-200 | one feed, with `lines` reset, equals the fold of the callback over its rows |
| Engine.Engine.Run | index.ts:121-307 | the whole run on a fresh state equals the pure `Pipeline.Run`, and on success the class holds the report's final store |
| Engine.Engine.Adjust | index.ts:201-307 | the stages after ingestion equal `Pipeline.Adjust`, and on success the class holds the filled, corrected and blended store of the report |
| Engine.Engine.BlendAndExport | index.ts:250-307 | the blend and the export equal `Pipeline.BlendAndExport`, and on success the class holds the blended store of the report |
| Engine.Engine.FillGaps | index.ts:201-236 | the six passes in place equal `GapFilling.FillGaps` and keep the regions |
| Engine.Engine.FillPasses | index.ts:209-236 | the pass loop equals `GapFilling.FillPasses` |
| Engine.Engine.FillPass | index.ts:209-236 | one pass equals `GapFilling.FillPass` |
| Engine.Engine.FillScope | index.ts:212-234 | the region loop equals `GapFilling.FillRegions` |
| Engine.Engine.FillRegion | index.ts:213-233 | the year loop of one region equals `GapFilling.FillSeries` |
| Engine.Engine.FillYear | index.ts:225-233 | one year step advances the series fill by one year's periods |
| Engine.Engine.FillMonths | index.ts:229-231 | the month loop advances it by twelve periods |
| Engine.Engine.FillStep | index.ts:227-230 | one `last = fill(period)` advances it by one period |
| Engine.Engine.Fill | index.ts:214-224 | the `fill` closure writes `GapFilling.FillEntry` and counts a miss only for a new entry |
| Engine.Engine.CorrectGreenRatios | index.ts:237-249 | the correction in place equals `Adjustments.CorrectStore` |
| Engine.Engine.CorrectRegion | index.ts:239-248 | one region's period loop equals `Adjustments.CorrectSeries` |
| Engine.Engine.BlendImports | index.ts:250-275 | the blend in place equals `Adjustments.BlendImports` and keeps the regions |
| Engine.Engine.BlendCountries | index.ts:252-274 | the country loop equals `Adjustments.BlendRegions`, with `updates` summed |
| Engine.Engine.BlendRegion | index.ts:253-273 | one country's loop blends exactly its importing entries, or fails when a continent entry is missing |
| Engine.Engine.BlendPeriod | index.ts:254-272 | one period is left alone, blended, or fails, exactly as the source's condition says |
| Engine.Engine.ExportTotals | index.ts:283-305 | the export loops equal `Export.ExportTotals` |
| Engine.Engine.ExportYear | index.ts:285-304 | one year's month loop advances the export by its months |
| Engine.Engine.ExportPeriod | index.ts:287-303 | the region loop equals `Export.ExportRegions` |
| Engine.CorrectDone | index.ts:238-249 | with every region visited, the store is the corrected store |
| Engine.SameContinentEntry | index.ts:258 | blending a country's own periods does not change the continent entry read for a later period |
| Engine.BlendStep | index.ts:253-272 | visiting one period blends it if it imports and keeps it otherwise |
| Engine.BlendDone | index.ts:253-273 | with every period visited, the series is the blended series and the blend could not fail |
| Engine.ExportYearMonths | index.ts:285-288 | a year's visited months sit at 12·(year − MIN_YEAR) onwards |
| Engine.PassYear | index.ts:225-232 | a year's periods sit at their position in the pass's period list |

## Left out

- Network access (`fetchAndScrap`, `fetchAndProcess`'s HTTP and line reading) is not modelled. Each feed is given as its sequence of typed rows; the page-URL scraping is not modelled.
- The destructuring of a typed record into a `Row` (`Ingestion.RowOf`) covers the shapes the Ember feeds have. These shapes are outside the model (`RowOf` gives None):
  - a text column that types as a number or a date;
  - a `year` that is not a whole number, or is text or a date (its period would be, say, `2021.5`);
  - a `date` that types as text or a number, where `toISOString` would throw a TypeError;
  - a `value` that is text, a date or missing, where the arithmetic would give NaN.
- `Pipeline.Run` takes the rows of each feed, not its lines: the model does not compose the line parsing with `RowOf`.
- Adjustments.BlendRegionsImporting: stated for a country whose continent is not one of the visited regions. A visited continent could already have been blended when the country reads it.
- Adjustments.BlendImportsImporting: stated for a country whose recorded `ember_region` is not itself a country of the store, as in the Ember feeds, where it is a continent. Otherwise that region may already have been blended when it is read.
- Adjustments.BlendRegions: its own contract states only the key set. The blended values are stated by `Adjustments.BlendRegionsImporting`, `BlendRegionsNonImporting` and `BlendRegionsUnvisited`.
- The clock (`new Date().getUTCFullYear()`) becomes the parameter `currentYear`, required to be at most 9999 so every period key has a 4-digit year.
- `countries.json` and `energy-impacts.json` become the maps of `Ingestion.Reference`.
- Floating point is modelled by exact `real` arithmetic: no rounding, no NaN, no infinities.
- Csv.LowerChar: only ASCII letters are lower-cased. `toLowerCase` covers all of Unicode.
- The JavaScript key order of `aggregates` is the explicit insertion-order `order` sequence. Integer-like period keys are not ordered: the correction and blend loops are proved for periods taken in any order.
- Adjustments.BlendEntry: an importing entry whose generated + imported total is 0 keeps its vectors. In JavaScript that total gives non-finite coefficients, which the real-number model cannot express.
- The progress messages, the `${lines} lines processed` line and the final `console.log` are not modelled. `lines`, `misses` and `updates` are computed and returned.
- The commented-out continent totals and the unused `yearlyContinent`, `yearlyCountry`, `monthly*` objects are not modelled.
- Engine.Engine.ExportTotals: the country list is computed once rather than once per month. The store does not change during the export, so each month sees the same list.
- Engine.Engine.ExportTotals: the `countries.find(...)` at index.ts:290 is modelled only as the check that the country code is listed. Its `continent` is never used, and an unlisted code throws, which is the model's `UnknownCountry` error.
- The store after an aborted run is not specified. A stage that fails returns its error; the state it leaves is not part of the contract.
- Engine.Engine.Run: the class state after a thrown error is not stated, only the returned error. After a successful run it states the store (`aggregates`), not the ingested `order`, `countryRegions` and `lastAvailableMonth`.
- Adjustments.CorrectedGreenIsMean: the mean is stated as "scaled by the total share it gives back the weighted sum", not as a quotient. This is the same statement for a positive ratio.
- Adjustments.BlendIsWeightedMean: the blend is stated key by key, multiplied by the total, not as a quotient.
