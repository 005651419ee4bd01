/**
 * The whole batch run of index.ts:121-307 as one value: the yearly feed
 * and then the monthly feed through the ingestion callback, the six
 * gap-filling passes, the green-ratio correction, the import blend and
 * the export accumulation, the first error of any stage ending the run.
 */
module Pipeline {
  import opened Wrappers
  import opened Impact
  import opened Region
  import opened Periods
  import opened Ingestion
  import GapFilling
  import Adjustments
  import Export

  /** The stage whose error ended the run. */
  datatype RunError =
    | IngestFailed(ingest: IngestError)
    | FillFailed(fill: GapFilling.FillError)
    | BlendFailed(blend: Adjustments.BlendError)
    | ExportFailed(exportError: Export.ExportError)

  /** What a complete run produces: the misses of each pass, the blend's `updates`, the export totals and the final store. */
  datatype Report = Report(misses: seq<nat>, updates: nat, totals: Export.Totals, store: Store)

  /** The pages loop of index.ts:130-200: each feed restarts `lines` at 0 and goes through the callback row by row. */
  function IngestFeeds(s: State, feeds: seq<seq<Row>>, ref: Reference): Result<State, IngestError>
    decreases |feeds|
  {
    if feeds == [] then Success(s)
    else match StepAll(s.(lines := 0), feeds[0], ref)
      case Failure(e) => Failure(e)
      case Success(s1) => IngestFeeds(s1, feeds[1..], ref)
  }

  /** Every feed keeps the state valid. */
  lemma {:induction false} IngestFeedsValid(s: State, feeds: seq<seq<Row>>, ref: Reference)
    requires Valid(s)
    ensures IngestFeeds(s, feeds, ref).Success? ==> Valid(IngestFeeds(s, feeds, ref).value)
    decreases |feeds|
  {
    if feeds != [] {
      StepAllValid(s.(lines := 0), feeds[0], ref);
      var page := StepAll(s.(lines := 0), feeds[0], ref);
      if page.Success? {
        IngestFeedsValid(page.value, feeds[1..], ref);
      }
    }
  }

  /** The stages after ingestion (index.ts:201-307), from the ingested state. */
  function Adjust(s: State, ref: Reference): Result<Report, RunError>
    requires Valid(s) && ref.currentYear <= 9999
  {
    match GapFilling.FillGaps(s.aggregates, s.order, s.countryRegions, ref.currentYear)
    case Failure(e) => Failure(FillFailed(e))
    case Success(filled) =>
      BlendAndExport(Adjustments.CorrectStore(filled.0), s.order, s.countryRegions, ref, s.lastAvailableMonth, filled.1)
  }

  /** The blend (index.ts:250-275) and the export (index.ts:276-307) of the corrected store. */
  function BlendAndExport(corrected: Store, order: seq<string>, countryRegions: map<string, string>, ref: Reference,
                          lastMonth: int, misses: seq<nat>): Result<Report, RunError>
    requires (forall r :: r in order ==> r in corrected) && ref.currentYear <= 9999 && 0 <= lastMonth <= 11
  {
    match Adjustments.BlendImports(corrected, order, countryRegions)
    case Failure(e) => Failure(BlendFailed(e))
    case Success(blended) =>
      match Export.ExportTotals(blended.0, order, ref.countries, ref.currentYear, lastMonth)
      case Failure(e) => Failure(ExportFailed(e))
      case Success(totals) => Success(Report(misses, blended.1, totals, blended.0))
  }

  /** The whole run, from the empty store, over the yearly and then the monthly feed. */
  function Run(yearly: seq<Row>, monthly: seq<Row>, ref: Reference): Result<Report, RunError>
    requires ref.currentYear <= 9999
  {
    match IngestFeeds(Initial, [yearly, monthly], ref)
    case Failure(e) => Failure(IngestFailed(e))
    case Success(s) =>
      IngestFeedsValid(Initial, [yearly, monthly], ref);
      Adjust(s, ref)
  }

  /** The i-th exported month is the i-th monthly period of the passes. */
  lemma ExportedMonthFilled(currentYear: int, lastMonth: int, i: int)
    requires MinYear <= currentYear <= 9999 && 0 <= lastMonth <= 11
    requires 0 <= i < |Export.ExportPeriods(currentYear, lastMonth)|
    ensures var m := Export.ExportPeriods(currentYear, lastMonth)[i];
            i < |MonthPeriods(currentYear)| && MonthKey(m.0, m.1) == MonthPeriods(currentYear)[i]
  {
  }

  /**
   * Keys of a store survive the green correction and the blend: a region
   * that has a period after the six passes still has it when the export reads it.
   */
  lemma EntrySurvives(filled: Store, blended: Store, region: string, period: string)
    requires Adjustments.Outline(blended) == Adjustments.Outline(Adjustments.CorrectStore(filled))
    requires region in filled && period in filled[region]
    ensures region in blended && period in blended[region]
  {
    var corrected := Adjustments.CorrectStore(filled);
    assert period in corrected[region];
    assert period in Adjustments.Outline(corrected)[region];
    assert period in Adjustments.Outline(blended)[region];
  }

  /** Every region of `regions` has an entry for every monthly period MIN_YEAR..currentYear. */
  ghost predicate MonthsFilled(aggs: Store, regions: seq<string>, currentYear: int)
    requires currentYear <= 9999
  {
    forall r, p :: r in regions && p in MonthPeriods(currentYear) ==> r in aggs && p in aggs[r]
  }

  /** Every region of `regions` has an entry for every month of `months`. */
  ghost predicate EntriesPresent(aggs: Store, regions: seq<string>, months: seq<(int, int)>) {
    forall r, i :: r in regions && 0 <= i < |months| && Export.ValidMonth(months[i]) ==>
      r in aggs && MonthKey(months[i].0, months[i].1) in aggs[r]
  }

  /** Over a store filled by the passes, every entry the export loop reads is there. */
  lemma ExportedEntriesPresent(aggs: Store, regions: seq<string>, currentYear: int, lastMonth: int)
    requires MinYear <= currentYear <= 9999 && 0 <= lastMonth <= 11
    requires MonthsFilled(aggs, regions, currentYear)
    ensures EntriesPresent(aggs, regions, Export.ExportPeriods(currentYear, lastMonth))
  {
    var months := Export.ExportPeriods(currentYear, lastMonth);
    forall r, i | r in regions && 0 <= i < |months|
      ensures r in aggs && MonthKey(months[i].0, months[i].1) in aggs[r]
    {
      ExportedMonthFilled(currentYear, lastMonth, i);
      var p := MonthPeriods(currentYear)[i];
      assert p in MonthPeriods(currentYear);
      assert p in aggs[r];
    }
  }

  /**
   * When every entry is there, the export loop over at least one month
   * fails exactly when one of the regions is not listed, and its error
   * then names such a region.
   */
  lemma ExportOverPresentEntries(aggs: Store, countries: map<string, string>, regions: seq<string>, months: seq<(int, int)>)
    requires forall i :: 0 <= i < |months| ==> Export.ValidMonth(months[i])
    requires |months| > 0 && EntriesPresent(aggs, regions, months)
    ensures var res := Export.ExportMonths(Export.NoTotals, aggs, countries, regions, months);
            && (res.Success? <==> forall r :: r in regions ==> Export.Known(countries, r))
            && (res.Failure? ==> res.error.UnknownCountry? && res.error.region in regions && !Export.Known(countries, res.error.region))
  {
    Export.ExportSucceeds(Export.NoTotals, aggs, countries, regions, months);
    Export.ExportErrorVisited(Export.NoTotals, aggs, countries, regions, months);
    var res := Export.ExportMonths(Export.NoTotals, aggs, countries, regions, months);
    if res.Success? {
      assert Export.PeriodReadable(aggs, countries, regions, MonthKey(months[0].0, months[0].1));
    }
  }

  /**
   * Over a store whose countries have every monthly entry, the export
   * fails exactly when one of those countries is not listed, and its error
   * then names such a country.
   */
  lemma ExportOverFilledStore(aggs: Store, order: seq<string>, countries: map<string, string>, currentYear: int, lastMonth: int)
    requires MinYear <= currentYear <= 9999 && 0 <= lastMonth <= 11
    requires MonthsFilled(aggs, Filter(order, CountryScope), currentYear)
    ensures var res := Export.ExportTotals(aggs, order, countries, currentYear, lastMonth);
            && (res.Success? <==> forall r :: r in order && IsCountry(r) ==> Export.Known(countries, r))
            && (res.Failure? ==>
                  && res.error.UnknownCountry?
                  && res.error.region in order && IsCountry(res.error.region)
                  && !Export.Known(countries, res.error.region))
  {
    var regions := Filter(order, CountryScope);
    ExportedEntriesPresent(aggs, regions, currentYear, lastMonth);
    ExportOverPresentEntries(aggs, countries, regions, Export.ExportPeriods(currentYear, lastMonth));
  }

  /** After the six passes, the correction and the blend, every country has every monthly entry. */
  lemma AdjustedMonthsFilled(s: State, ref: Reference)
    requires Valid(s) && ref.currentYear <= 9999
    ensures var fill := GapFilling.FillGaps(s.aggregates, s.order, s.countryRegions, ref.currentYear);
            fill.Success? ==>
              && |fill.value.1| == 6
              && var blend := Adjustments.BlendImports(Adjustments.CorrectStore(fill.value.0), s.order, s.countryRegions);
                 blend.Success? ==> MonthsFilled(blend.value.0, Filter(s.order, CountryScope), ref.currentYear)
  {
    var cy := ref.currentYear;
    var fill := GapFilling.FillGaps(s.aggregates, s.order, s.countryRegions, cy);
    GapFilling.FillGapsComplete(s.aggregates, s.order, s.countryRegions, cy);
    if fill.Success? {
      var filled := fill.value.0;
      var corrected := Adjustments.CorrectStore(filled);
      var countries := Filter(s.order, CountryScope);
      var blend := Adjustments.BlendImports(corrected, s.order, s.countryRegions);
      Adjustments.BlendRegionsOutline(corrected, s.countryRegions, countries);
      if blend.Success? {
        forall r, p | r in countries && p in MonthPeriods(cy)
          ensures r in blend.value.0 && p in blend.value.0[r]
        {
          EntrySurvives(filled, blend.value.0, r, p);
        }
      }
    }
  }

  /**
   * The store a successful run leaves behind has the ingested regions, and
   * every country in it has an entry for every monthly period.
   */
  lemma AdjustedStore(s: State, ref: Reference)
    requires Valid(s) && ref.currentYear <= 9999
    ensures var res := Adjust(s, ref);
            res.Success? ==>
              && res.value.store.Keys == s.aggregates.Keys
              && MonthsFilled(res.value.store, Filter(s.order, CountryScope), ref.currentYear)
  {
    AdjustedMonthsFilled(s, ref);
    GapFilling.FillGapsComplete(s.aggregates, s.order, s.countryRegions, ref.currentYear);
  }

  /**
   * Once the six passes and the blend have gone through, the export fails
   * exactly when some country of the store is missing from countries.json,
   * and its error then names such a country (never a missing entry).
   */
  lemma ExportFailsOnlyOnUnlistedCountry(s: State, ref: Reference)
    requires Valid(s) && MinYear <= ref.currentYear <= 9999
    ensures var res := Adjust(s, ref);
            (res.Success? || res.error.ExportFailed?) ==>
              && (res.Success? <==> forall r :: r in s.aggregates && IsCountry(r) ==> Export.Known(ref.countries, r))
              && (res.Success? ==> |res.value.misses| == 6)
              && (res.Failure? ==>
                    && res.error.exportError.UnknownCountry?
                    && res.error.exportError.region in s.aggregates
                    && IsCountry(res.error.exportError.region)
                    && !Export.Known(ref.countries, res.error.exportError.region))
  {
    var fill := GapFilling.FillGaps(s.aggregates, s.order, s.countryRegions, ref.currentYear);
    AdjustedMonthsFilled(s, ref);
    if fill.Success? {
      var blend := Adjustments.BlendImports(Adjustments.CorrectStore(fill.value.0), s.order, s.countryRegions);
      if blend.Success? {
        ExportOverFilledStore(blend.value.0, s.order, ref.countries, ref.currentYear, s.lastAvailableMonth);
      }
    }
  }
}
