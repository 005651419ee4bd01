/**
 * The batch run of index.ts:121-307 as an object: the mutable state the
 * script keeps at top level (`aggregates` with its key order,
 * COUNTRY_EMBER_REGIONS, `lastAvailableMonth`, the page's `lines`) and
 * one method per stage, each updating that state in place with loops and
 * proved equal to the stage's specification function.
 */
module Engine {
  import opened Wrappers
  import opened Impact
  import opened Region
  import opened Calendar
  import opened Periods
  import opened Ingestion
  import GapFilling
  import Adjustments
  import Export
  import Pipeline

  class Engine {
    var aggregates: Store
    var order: seq<string>                  // the key order of `aggregates` (insertion order)
    var countryRegions: map<string, string> // COUNTRY_EMBER_REGIONS
    var lastAvailableMonth: int
    var lines: nat
    const ref: Reference

    /** The state as the ingestion specification sees it. */
    function Snapshot(): State
      reads this
    {
      State(aggregates, order, countryRegions, lastAvailableMonth, lines)
    }

    ghost predicate Valid()
      reads this
    {
      Ingestion.Valid(Snapshot()) && ref.currentYear <= 9999
    }

    /** The state before the first page: an empty store, lastAvailableMonth 0. */
    constructor(ref: Reference)
      requires ref.currentYear <= 9999
      ensures Snapshot() == Initial && this.ref == ref
      ensures Valid()
    {
      aggregates := map[];
      order := [];
      countryRegions := map[];
      lastAvailableMonth := 0;
      lines := 0;
      this.ref := ref;
    }

    /**
     * The ingestion callback for one row (index.ts:134-198).  An error
     * leaves the state as it was: every throw comes before the first write.
     */
    method Ingest(row: Row) returns (err: Option<IngestError>)
      requires Valid()
      modifies this
      ensures Valid()
      ensures err.None? ==> Step(old(Snapshot()), row, ref) == Success(Snapshot())
      ensures err.Some? ==> Step(old(Snapshot()), row, ref) == Failure(err.value) && Snapshot() == old(Snapshot())
    {
      ghost var s := Snapshot();
      StepValid(s, row, ref);
      var period := PeriodOf(row);
      if period.Failure? {
        return Some(period.error);
      }
      var region := RegionOf(row, ref.countries);
      if region.None? {
        return Some(UnknownArea(UnknownName(row)));
      }
      var yearly := IsYearly(row);
      var country := row.areaType == "Country";
      // Dropping early years
      if yearly && row.year.value < MinYear {
        return None;
      }
      if row.date.Some? && Parses(row.date.value) && UtcYear(row.date.value) < MinYear {
        return None;
      }
      // Setting last month
      if row.date.Some? && Parses(row.date.value) && UtcYear(row.date.value) == ref.currentYear {
        if UtcMonth(row.date.value) > lastAvailableMonth {
          lastAvailableMonth := UtcMonth(row.date.value);
        }
      }
      // Dropping unknown regions
      if !country && IsCountry(region.value) {
        return None;
      }
      Record(row, region.value, period.value);
      err := None;
    }

    /**
     * The writes of index.ts:162-197 for a row that passed the filters:
     * the continent of a country, the region's and the period's default
     * entries, the field updates, and `lines++`.
     */
    method Record(row: Row, region: string, period: string)
      modifies this
      ensures Snapshot() == Upsert(old(Snapshot()), row, region, period, ref.impacts)
    {
      if row.areaType == "Country" {
        countryRegions := countryRegions[region := row.emberRegion];
      }
      var series: Series;
      if region in aggregates {
        series := aggregates[region];
      } else {
        series := map[];
        order := order + [region];
      }
      var entry := if period in series then series[period] else ZeroAggregate;
      entry := ApplyFields(entry, row);
      aggregates := aggregates[region := series[period := entry]];
      lines := lines + 1;
    }

    /** The category branches of index.ts:175-196, one field assignment at a time. */
    method ApplyFields(a: Aggregate, row: Row) returns (entry: Aggregate)
      ensures entry == ApplyRow(a, row, ref.impacts)
    {
      entry := a;
      if row.category == "Electricity generation" {
        if row.subcategory == "Fuel" && row.unit == "%" {
          var share := row.value / 100.0;
          var source := FuelImpacts(ref.impacts, row.variable);
          entry := entry.(global := Combine(entry.global, source, 1.0, share));
          if row.variable in GreenEnergies {
            entry := entry.(green := Combine(entry.green, source, 1.0, share));
            entry := entry.(greenRatio := entry.greenRatio + share);
          }
        }
        if row.subcategory == "Total" && row.unit == "TWh" {
          entry := entry.(generatedKWh := row.value);
        }
      } else if row.category == "Electricity imports" && row.unit == "TWh" {
        entry := entry.(importedKWh := row.value);
      }
    }


    /**
     * One feed: `lines` restarts at 0 and every row goes through the
     * callback in order; the first error ends the run.
     */
    method IngestPage(rows: seq<Row>) returns (err: Option<IngestError>)
      requires Valid()
      modifies this
      ensures Valid()
      ensures var start := old(Snapshot()).(lines := 0);
              StepAll(start, rows, ref) == if err.None? then Success(Snapshot()) else Failure(err.value)
    {
      lines := 0;
      ghost var start := Snapshot();
      var i := 0;
      while i < |rows|
        invariant 0 <= i <= |rows|
        invariant Valid()
        invariant StepAll(start, rows, ref) == StepAll(Snapshot(), rows[i..], ref)
      {
        assert rows[i..][1..] == rows[i + 1..];
        err := Ingest(rows[i]);
        if err.Some? {
          return;
        }
        i := i + 1;
      }
      err := None;
    }

    /**
     * The whole run of index.ts:121-307 on a fresh state: the yearly feed,
     * then the monthly feed, then the stages after ingestion; the first
     * error ends the run.
     */
    method Run(yearly: seq<Row>, monthly: seq<Row>) returns (res: Result<Pipeline.Report, Pipeline.RunError>)
      requires Valid() && Snapshot() == Initial
      modifies this
      ensures res == Pipeline.Run(yearly, monthly, ref)
      ensures res.Success? ==> aggregates == res.value.store
    {
      ghost var feeds := [yearly, monthly];
      assert feeds[1..] == [monthly];
      var err := IngestPage(yearly);
      if err.Some? {
        assert Pipeline.IngestFeeds(Initial, feeds, ref) == Failure(err.value);
        return Failure(Pipeline.IngestFailed(err.value));
      }
      ghost var first := Snapshot();
      assert Pipeline.IngestFeeds(Initial, feeds, ref) == Pipeline.IngestFeeds(first, [monthly], ref);
      assert [monthly][1..] == [];
      err := IngestPage(monthly);
      if err.Some? {
        assert Pipeline.IngestFeeds(first, [monthly], ref) == Failure(err.value);
        return Failure(Pipeline.IngestFailed(err.value));
      }
      assert Pipeline.IngestFeeds(first, [monthly], ref) == Success(Snapshot());
      res := Adjust();
    }

    /** The stages after ingestion (index.ts:201-307): the six passes, the correction, the blend, the export. */
    method Adjust() returns (res: Result<Pipeline.Report, Pipeline.RunError>)
      requires Valid()
      modifies this`aggregates
      ensures res == Pipeline.Adjust(old(Snapshot()), ref)
      ensures res.Success? ==> aggregates == res.value.store
    {
      ghost var s := Snapshot();
      ghost var spec := GapFilling.FillGaps(s.aggregates, s.order, s.countryRegions, ref.currentYear);
      var misses := FillGaps();
      if misses.Failure? {
        assert spec.Failure?;
        return Failure(Pipeline.FillFailed(misses.error));
      }
      assert spec.Success? && aggregates == spec.value.0;
      assert Pipeline.Adjust(s, ref) ==
             Pipeline.BlendAndExport(Adjustments.CorrectStore(aggregates), order, countryRegions, ref, lastAvailableMonth, misses.value);
      assert forall r :: r in aggregates <==> r in order;
      CorrectGreenRatios();
      assert forall r :: r in order ==> r in aggregates;
      res := BlendAndExport(misses.value);
    }

    /** The blend and the export of the corrected store, with the passes' misses carried into the report. */
    method BlendAndExport(misses: seq<nat>) returns (res: Result<Pipeline.Report, Pipeline.RunError>)
      requires (forall r :: r in order ==> r in aggregates) && ref.currentYear <= 9999 && 0 <= lastAvailableMonth <= 11
      modifies this`aggregates
      ensures res == Pipeline.BlendAndExport(old(aggregates), order, countryRegions, ref, lastAvailableMonth, misses)
      ensures res.Success? ==> aggregates == res.value.store
    {
      var updates := BlendImports();
      if updates.Failure? {
        return Failure(Pipeline.BlendFailed(updates.error));
      }
      var totals := ExportTotals();
      if totals.Failure? {
        return Failure(Pipeline.ExportFailed(totals.error));
      }
      res := Success(Pipeline.Report(misses, updates.value, totals.value, aggregates));
    }

    // -------------------------------------------------------------------
    // Gap filling (index.ts:201-236)
    // -------------------------------------------------------------------

    /**
     * The six passes of index.ts:209-236, in order, each with its own miss
     * counter; the first error aborts the run.  Only `aggregates` changes,
     * and its regions stay the same.
     */
    method FillGaps() returns (res: Result<seq<nat>, GapFilling.FillError>)
      requires (forall r :: r in order ==> r in aggregates) && ref.currentYear <= 9999
      modifies this`aggregates
      ensures aggregates.Keys == old(aggregates).Keys
      ensures var spec := GapFilling.FillGaps(old(aggregates), order, countryRegions, ref.currentYear);
              && (spec.Success? ==> res == Success(spec.value.1) && aggregates == spec.value.0)
              && (spec.Failure? ==> res == Failure(spec.error))
    {
      res := FillPasses(GapFilling.Passes);
    }

    /** The passes of `passes`, in order, each with its own miss counter. */
    method FillPasses(passes: seq<(bool, Scope)>) returns (res: Result<seq<nat>, GapFilling.FillError>)
      requires (forall r :: r in order ==> r in aggregates) && ref.currentYear <= 9999
      modifies this`aggregates
      ensures aggregates.Keys == old(aggregates).Keys
      ensures var spec := GapFilling.FillPasses(old(aggregates), order, countryRegions, ref.currentYear, passes, []);
              && (spec.Success? ==> res == Success(spec.value.1) && aggregates == spec.value.0)
              && (spec.Failure? ==> res == Failure(spec.error))
    {
      ghost var start := aggregates;
      ghost var spec := GapFilling.FillPasses(start, order, countryRegions, ref.currentYear, passes, []);
      var misses: seq<nat> := [];
      var i := 0;
      while i < |passes|
        invariant 0 <= i <= |passes| && |misses| == i
        invariant aggregates.Keys == start.Keys && forall r :: r in order ==> r in aggregates
        invariant spec == GapFilling.FillPasses(aggregates, order, countryRegions, ref.currentYear, passes[i..], misses)
      {
        assert passes[i..][1..] == passes[i + 1..];
        var (yearly, scope) := passes[i];
        var r := FillPass(yearly, scope);
        if r.Failure? {
          assert spec == Failure(r.error);
          return Failure(r.error);
        }
        misses := misses + [r.value];
        i := i + 1;
      }
      assert passes[i..] == [];
      assert spec == Success((aggregates, misses));
      return Success(misses);
    }

    /**
     * One pass (index.ts:210-235): the regions of the scope in key order,
     * each filled over the pass's periods, sharing one miss counter.
     */
    method FillPass(yearly: bool, scope: Scope) returns (res: Result<nat, GapFilling.FillError>)
      requires (forall r :: r in order ==> r in aggregates) && ref.currentYear <= 9999
      modifies this`aggregates
      ensures aggregates.Keys == old(aggregates).Keys
      ensures var spec := GapFilling.FillPass(old(aggregates), order, countryRegions, yearly, scope, ref.currentYear);
              && (spec.Success? ==> res == Success(spec.value.1) && aggregates == spec.value.0)
              && (spec.Failure? ==> res == Failure(spec.error))
    {
      var regions := Filter(order, scope);
      res := FillScope(yearly, scope, regions);
    }

    /** The region loop of one pass over `regions`, sharing one miss counter. */
    method FillScope(yearly: bool, scope: Scope, regions: seq<string>) returns (res: Result<nat, GapFilling.FillError>)
      requires (forall r :: r in regions ==> r in aggregates) && ref.currentYear <= 9999
      modifies this`aggregates
      ensures aggregates.Keys == old(aggregates).Keys
      ensures var spec := GapFilling.FillRegions(old(aggregates), countryRegions, scope, regions, PassPeriods(yearly, ref.currentYear), 0);
              && (spec.Success? ==> res == Success(spec.value.1) && aggregates == spec.value.0)
              && (spec.Failure? ==> res == Failure(spec.error))
    {
      ghost var ps := PassPeriods(yearly, ref.currentYear);
      ghost var spec := GapFilling.FillRegions(aggregates, countryRegions, scope, regions, ps, 0);
      var misses := 0;
      var j := 0;
      while j < |regions|
        invariant 0 <= j <= |regions|
        invariant forall r :: r in regions ==> r in aggregates
        invariant spec == GapFilling.FillRegions(aggregates, countryRegions, scope, regions[j..], ps, misses)
        invariant aggregates.Keys == old(aggregates).Keys
      {
        assert regions[j..][1..] == regions[j + 1..];
        var r := FillRegion(yearly, scope, regions[j], misses);
        if r.Failure? {
          assert spec == Failure(r.error);
          return Failure(r.error);
        }
        misses := r.value;
        j := j + 1;
      }
      assert regions[j..] == [];
      assert spec == Success((aggregates, misses));
      return Success(misses);
    }

    // -------------------------------------------------------------------
    // Green-ratio correction (index.ts:237-249)
    // -------------------------------------------------------------------

    /** Every entry of every region, in key order, gets its green vector divided by a positive green ratio. */
    method CorrectGreenRatios()
      requires Distinct(order) && forall r :: r in aggregates <==> r in order
      modifies this`aggregates
      ensures aggregates == Adjustments.CorrectStore(old(aggregates))
    {
      ghost var start := aggregates;
      var i := 0;
      while i < |order|
        invariant 0 <= i <= |order|
        invariant CorrectProgress(aggregates, start, order[..i])
      {
        assert order[i] !in order[..i];
        ghost var before := aggregates;
        CorrectRegion(order[i]);
        CorrectStep(before, start, order[..i], order[i]);
        assert order[..i + 1] == order[..i] + [order[i]];
        i := i + 1;
      }
      assert order[..i] == order;
      CorrectDone(aggregates, start, order);
    }

    /** The period loop of index.ts:239-247 for one region, over its periods in any order. */
    method CorrectRegion(region: string)
      requires region in aggregates
      modifies this`aggregates
      ensures aggregates == old(aggregates)[region := Adjustments.CorrectSeries(old(aggregates)[region])]
    {
      ghost var start := aggregates;
      ghost var series := aggregates[region];
      var todo := aggregates[region].Keys;
      while todo != {}
        invariant region in aggregates && aggregates == start[region := aggregates[region]]
        invariant CorrectPeriodsProgress(aggregates[region], series, todo)
        decreases todo
      {
        var period :| period in todo;
        ghost var now := aggregates[region];
        var a := aggregates[region][period];
        if a.greenRatio > 0.0 {
          aggregates := aggregates[region := aggregates[region][period := a.(green := Scale(a.green, 1.0 / a.greenRatio))]];
        }
        CorrectPeriodStep(now, series, todo, period);
        todo := todo - {period};
      }
      CorrectPeriodsDone(aggregates[region], series);
    }

    // -------------------------------------------------------------------
    // Import blending (index.ts:250-275)
    // -------------------------------------------------------------------

    /**
     * Every country region, in key order, blended with its continent; the
     * result counts the importing entries (`updates`).
     */
    method BlendImports() returns (res: Result<nat, Adjustments.BlendError>)
      requires forall r :: r in order ==> r in aggregates
      modifies this`aggregates
      ensures aggregates.Keys == old(aggregates).Keys
      ensures var spec := Adjustments.BlendImports(old(aggregates), order, countryRegions);
              && (spec.Success? ==> res == Success(spec.value.1) && aggregates == spec.value.0)
              && (spec.Failure? ==> res == Failure(spec.error))
    {
      var regions := Filter(order, CountryScope);
      res := BlendCountries(regions);
    }

    /** The country loop of the blend over `regions`, summing the per-country `updates`. */
    method BlendCountries(regions: seq<string>) returns (res: Result<nat, Adjustments.BlendError>)
      requires forall r :: r in regions ==> r in aggregates
      modifies this`aggregates
      ensures aggregates.Keys == old(aggregates).Keys
      ensures var spec := Adjustments.BlendRegions(old(aggregates), countryRegions, regions);
              && (spec.Success? ==> res == Success(Adjustments.Updates(old(aggregates), regions)) && aggregates == spec.value)
              && (spec.Failure? ==> res == Failure(spec.error))
    {
      ghost var start := aggregates;
      ghost var spec := Adjustments.BlendRegions(start, countryRegions, regions);
      ghost var total := Adjustments.Updates(start, regions);
      var updates := 0;
      var j := 0;
      while j < |regions|
        invariant 0 <= j <= |regions|
        invariant aggregates.Keys == start.Keys && Adjustments.Outline(aggregates) == Adjustments.Outline(start)
        invariant spec == Adjustments.BlendRegions(aggregates, countryRegions, regions[j..])
        invariant updates + Adjustments.Updates(aggregates, regions[j..]) == total
      {
        assert regions[j..][1..] == regions[j + 1..];
        ghost var before := aggregates;
        var r := BlendRegion(regions[j]);
        if r.Failure? {
          assert spec == Failure(r.error);
          return Failure(r.error);
        }
        Adjustments.BlendStepOutline(before, countryRegions, regions[j]);
        Adjustments.UpdatesOutline(before, aggregates, regions[j + 1..]);
        updates := updates + r.value;
        j := j + 1;
      }
      assert regions[j..] == [];
      assert spec == Success(aggregates) && updates == total;
      return Success(updates);
    }

    /**
     * The period loop of index.ts:252-273 for one country: each importing
     * entry is blended with the continent's entry for the same period,
     * read as it stands; a missing continent entry aborts the run.
     */
    method BlendRegion(region: string) returns (res: Result<nat, Adjustments.BlendError>)
      requires region in aggregates
      modifies this`aggregates
      ensures aggregates.Keys == old(aggregates).Keys
      ensures var series := old(aggregates)[region];
              var parent := Adjustments.ContinentSeries(old(aggregates), countryRegions, region);
              && (Adjustments.CanBlend(series, parent) ==>
                    && res == Success(Adjustments.ImportCount(series))
                    && aggregates == old(aggregates)[region := if parent.Some? then Adjustments.BlendSeries(series, parent.value) else series])
              && (!Adjustments.CanBlend(series, parent) ==> res == Failure(Adjustments.MissingContinentEntry(region)))
    {
      ghost var start := aggregates;
      ghost var series := aggregates[region];
      ghost var parent := Adjustments.ContinentSeries(start, countryRegions, region);
      var todo := aggregates[region].Keys;
      var updates := 0;
      BlendStart(series, parent);
      while todo != {}
        invariant region in aggregates && aggregates == start[region := aggregates[region]]
        invariant BlendProgress(aggregates[region], series, parent, todo)
        invariant updates + |ImportingIn(series, todo)| == Adjustments.ImportCount(series)
        decreases todo
      {
        var period :| period in todo;
        BlendUnvisited(aggregates[region], series, parent, todo, period);
        SameContinentEntry(start, aggregates, countryRegions, region, period);
        ghost var cur := aggregates[region];
        var r := BlendPeriod(region, period);
        if r.Failure? {
          return Failure(r.error);
        }
        if r.value {
          updates := updates + 1;
        }
        BlendStep(cur, series, parent, todo, period);
        ImportingLeft(todo, series, period);
        todo := todo - {period};
      }
      BlendDone(aggregates[region], series, parent);
      return Success(updates);
    }

    /**
     * The body of the period loop of index.ts:253-272: an importing entry
     * is blended with the continent's entry for its period, and reports
     * that it counted as an update.
     */
    method BlendPeriod(region: string, period: string) returns (res: Result<bool, Adjustments.BlendError>)
      requires region in aggregates && period in aggregates[region]
      modifies this`aggregates
      ensures var a := old(aggregates)[region][period];
              var parent := Adjustments.ContinentSeries(old(aggregates), countryRegions, region);
              && (!Adjustments.Imports(a) ==> res == Success(false) && aggregates == old(aggregates))
              && (Adjustments.Imports(a) && !(parent.Some? && period in parent.value) ==>
                    res == Failure(Adjustments.MissingContinentEntry(region)) && aggregates == old(aggregates))
              && (Adjustments.Imports(a) && parent.Some? && period in parent.value ==>
                    && res == Success(true)
                    && aggregates == old(aggregates)[region := old(aggregates)[region][period := Adjustments.BlendEntry(a, parent.value[period])]])
    {
      var data := aggregates[region][period];
      if data.importedKWh > 0.0 {
        if !(region in countryRegions && countryRegions[region] in aggregates && period in aggregates[countryRegions[region]]) {
          return Failure(Adjustments.MissingContinentEntry(region));
        }
        var continent := aggregates[countryRegions[region]][period];
        var total := data.generatedKWh + data.importedKWh;
        if total != 0.0 {
          var countryContribution := data.generatedKWh / total;
          var continentContribution := data.importedKWh / total;
          data := data.(global := Combine(data.global, continent.global, countryContribution, continentContribution));
          data := data.(green := Combine(data.green, continent.green, countryContribution, continentContribution));
        }
        aggregates := aggregates[region := aggregates[region][period := data]];
        return Success(true);
      }
      return Success(false);
    }

    // -------------------------------------------------------------------
    // Export (index.ts:276-307)
    // -------------------------------------------------------------------

    /**
     * The export loops: every month from January of MIN_YEAR to
     * lastAvailableMonth of the current year, every country region of the
     * store; `yearlyWorld`, `globals` and `greens` are locals of the loop.
     */
    method ExportTotals() returns (res: Result<Export.Totals, Export.ExportError>)
      requires ref.currentYear <= 9999 && 0 <= lastAvailableMonth <= 11
      ensures res == Export.ExportTotals(aggregates, order, ref.countries, ref.currentYear, lastAvailableMonth)
    {
      ghost var months := Export.ExportPeriods(ref.currentYear, lastAvailableMonth);
      var regions := Filter(order, CountryScope);
      var totals := Export.NoTotals;
      ghost var spec := Export.ExportMonths(totals, aggregates, ref.countries, regions, months);
      assert spec == Export.ExportTotals(aggregates, order, ref.countries, ref.currentYear, lastAvailableMonth);
      ghost var k := 0;
      var year := MinYear;
      while year <= ref.currentYear
        invariant MinYear <= year && k <= |months|
        invariant year <= ref.currentYear ==> k == 12 * (year - MinYear)
        invariant year > ref.currentYear ==> k == |months|
        invariant spec == Export.ExportMonths(totals, aggregates, ref.countries, regions, months[k..])
      {
        var lastMonth := if year == ref.currentYear then lastAvailableMonth else 11;
        ExportYearMonths(ref.currentYear, lastAvailableMonth, year);
        var r := ExportYear(totals, year, lastMonth, regions, months, k);
        if r.Failure? {
          return r;
        }
        totals := r.value;
        k := k + lastMonth + 1;
        year := year + 1;
      }
      assert months[k..] == [];
      return Success(totals);
    }

    /** The month loop of index.ts:285-304 for one year, months 0..lastMonth, which sit at `k` onwards. */
    method ExportYear(t: Export.Totals, year: int, lastMonth: int, regions: seq<string>,
                      ghost months: seq<(int, int)>, ghost k: nat)
      returns (res: Result<Export.Totals, Export.ExportError>)
      requires 0 <= year <= 9999 && 0 <= lastMonth <= 11
      requires AllValid(months) && YearAt(months, year, lastMonth, k)
      ensures ValidSuffix(months, k) && ValidSuffix(months, k + lastMonth + 1)
      ensures var rest := Export.ExportMonths(t, aggregates, ref.countries, regions, months[k..]);
              && (res.Failure? ==> rest == res)
              && (res.Success? ==> rest == Export.ExportMonths(res.value, aggregates, ref.countries, regions, months[k + lastMonth + 1..]))
    {
      SuffixValid(months, k);
      SuffixValid(months, k + lastMonth + 1);
      ghost var spec := Export.ExportMonths(t, aggregates, ref.countries, regions, months[k..]);
      var totals := t;
      var month := 0;
      while month <= lastMonth
        invariant 0 <= month <= lastMonth + 1
        invariant ValidSuffix(months, k + month)
        invariant spec == Export.ExportMonths(totals, aggregates, ref.countries, regions, months[k + month..])
      {
        assert months[k + month] == (year, month);
        assert months[k + month..][0] == (year, month) && months[k + month..][1..] == months[k + month + 1..];
        SuffixValid(months, k + month + 1);
        var period := MonthKey(year, month);
        var r := ExportPeriod(totals, year, period, regions);
        if r.Failure? {
          assert spec == r;
          return r;
        }
        totals := r.value;
        month := month + 1;
      }
      return Success(totals);
    }

    /** The region loop of index.ts:287-303 for one period. */
    method ExportPeriod(t: Export.Totals, year: int, period: string, regions: seq<string>)
      returns (res: Result<Export.Totals, Export.ExportError>)
      ensures res == Export.ExportRegions(t, aggregates, ref.countries, year, period, regions)
    {
      var totals := t;
      ghost var spec := Export.ExportRegions(t, aggregates, ref.countries, year, period, regions);
      var i := 0;
      while i < |regions|
        invariant 0 <= i <= |regions|
        invariant spec == Export.ExportRegions(totals, aggregates, ref.countries, year, period, regions[i..])
      {
        assert regions[i..][1..] == regions[i + 1..];
        var region := regions[i];
        if region !in ref.countries.Values {
          assert spec == Failure(Export.UnknownCountry(region));
          return Failure(Export.UnknownCountry(region));
        }
        if !(region in aggregates && period in aggregates[region]) {
          assert spec == Failure(Export.MissingEntry(region, period));
          return Failure(Export.MissingEntry(region, period));
        }
        var a := aggregates[region][period];
        var yk := Export.TotalKey(year, Export.GlobalPart);
        totals := totals.(world := totals.world[yk := Add(Export.WorldAt(totals.world, yk), a.global)], globals := totals.globals + 1);
        if a.greenRatio != 0.0 {
          var gk := Export.TotalKey(year, Export.GreenPart);
          totals := totals.(world := totals.world[gk := Add(Export.WorldAt(totals.world, gk), a.green)], greens := totals.greens + 1);
        }
        i := i + 1;
      }
      return Success(totals);
    }

    /**
     * The closure `fill` of index.ts:213-223 for one period of `region`: an
     * existing entry is returned as it is; a missing one becomes a copy of
     * `last`, or, with no `last`, of the parent region's entry for that
     * period, and counts as a miss.
     */
    method Fill(scope: Scope, region: string, period: string, last: Option<Aggregate>, misses: nat)
      returns (res: Result<(Aggregate, nat), GapFilling.FillError>)
      requires region in aggregates
      modifies this`aggregates
      ensures var series := old(aggregates)[region];
              match GapFilling.FillEntry(series, GapFilling.ParentSeries(old(aggregates), countryRegions, scope, region), period, last)
              case None =>
                res == Failure(GapFilling.FillFailure(scope, region, period)) && aggregates == old(aggregates)
              case Some(v) =>
                && res == Success((v, misses + if period in series then 0 else 1))
                && aggregates == old(aggregates)[region := series[period := v]]
    {
      var series := aggregates[region];
      var count := misses;
      if period !in series {
        if last.Some? {
          aggregates := aggregates[region := series[period := last.value]];
        } else if scope == ContinentScope {
          if World in aggregates && period in aggregates[World] {
            aggregates := aggregates[region := series[period := aggregates[World][period]]];
          } else {
            return Failure(GapFilling.MissingParent(region, period));
          }
        } else if scope == CountryScope {
          if region in countryRegions && countryRegions[region] in aggregates && period in aggregates[countryRegions[region]] {
            aggregates := aggregates[region := series[period := aggregates[countryRegions[region]][period]]];
          } else {
            return Failure(GapFilling.MissingParent(region, period));
          }
        } else {
          return Failure(GapFilling.CannotFill(region, period));
        }
        count := count + 1;
      } else {
        assert series[period := series[period]] == series;
      }
      return Success((aggregates[region][period], count));
    }

    /**
     * The year loop of index.ts:224-233 for one region: `last = fill(period)`
     * for each year, or each month of each year, from MIN_YEAR to the
     * current year, with `last` starting empty.
     */
    method FillRegion(yearly: bool, scope: Scope, region: string, misses: nat) returns (res: Result<nat, GapFilling.FillError>)
      requires region in aggregates && ref.currentYear <= 9999
      modifies this`aggregates
      ensures aggregates.Keys == old(aggregates).Keys
      ensures var spec := GapFilling.FillSeries(old(aggregates)[region], GapFilling.ParentSeries(old(aggregates), countryRegions, scope, region),
                                                scope, region, PassPeriods(yearly, ref.currentYear), None, misses);
              && (spec.Success? ==> res == Success(spec.value.1) && aggregates == old(aggregates)[region := spec.value.0])
              && (spec.Failure? ==> res == Failure(spec.error))
    {
      ghost var start := aggregates;
      ghost var parent := GapFilling.ParentSeries(start, countryRegions, scope, region);
      ghost var ps := PassPeriods(yearly, ref.currentYear);
      ghost var spec := GapFilling.FillSeries(start[region], parent, scope, region, ps, None, misses);
      ghost var k := 0;
      var last: Option<Aggregate> := None;
      var count := misses;
      var year := MinYear;
      while year <= ref.currentYear
        invariant MinYear <= year && (year == MinYear || year <= ref.currentYear + 1)
        invariant region in aggregates && aggregates == start[region := aggregates[region]]
        invariant last.None? ==> aggregates == start
        invariant k == if yearly then year - MinYear else 12 * (year - MinYear)
        invariant k <= |ps| && spec == GapFilling.FillSeries(aggregates[region], parent, scope, region, ps[k..], last, count)
      {
        var r := FillYear(yearly, scope, region, year, last, count, start, k);
        if r.Failure? {
          assert spec == Failure(r.error);
          return Failure(r.error);
        }
        last := Some(r.value.0);
        count := r.value.1;
        k := if yearly then k + 1 else k + 12;
        year := year + 1;
      }
      assert ps[k..] == [];
      assert spec == Success((aggregates[region], count));
      return Success(count);
    }

    /**
     * The body of the year loop (index.ts:226-232): one yearly period, or
     * the twelve months of `year`, which sit at position `k` onwards in the
     * pass's periods.
     */
    method FillYear(yearly: bool, scope: Scope, region: string, year: int, last: Option<Aggregate>, misses: nat,
                    ghost start: Store, ghost k: nat)
      returns (res: Result<(Aggregate, nat), GapFilling.FillError>)
      requires MinYear <= year <= ref.currentYear <= 9999
      requires k == if yearly then year - MinYear else 12 * (year - MinYear)
      requires region in aggregates && aggregates == start[region := aggregates[region]]
      requires last.None? ==> aggregates == start
      modifies this`aggregates
      ensures region in aggregates && aggregates == start[region := aggregates[region]]
      ensures var parent := GapFilling.ParentSeries(start, countryRegions, scope, region);
              var ps := PassPeriods(yearly, ref.currentYear);
              var next := if yearly then k + 1 else k + 12;
              var rest := GapFilling.FillSeries(old(aggregates)[region], parent, scope, region, ps[k..], last, misses);
              && (res.Failure? ==> rest == Failure(res.error))
              && (res.Success? ==> rest == GapFilling.FillSeries(aggregates[region], parent, scope, region, ps[next..], Some(res.value.0), res.value.1))
    {
      ghost var ps := PassPeriods(yearly, ref.currentYear);
      PassYear(yearly, ref.currentYear, year);
      if yearly {
        res := FillStep(scope, region, YearKey(year), last, misses, start, ps, k);
      } else {
        res := FillMonths(scope, region, year, last, misses, start, ps, k);
      }
    }

    /**
     * The month loop of index.ts:229-231: `last = fill(period)` for the
     * twelve months of `year`, which sit at 12 * (year - MIN_YEAR) onwards
     * in the pass's periods.
     */
    method FillMonths(scope: Scope, region: string, year: int, last: Option<Aggregate>, misses: nat,
                      ghost start: Store, ghost ps: seq<string>, ghost base: nat)
      returns (res: Result<(Aggregate, nat), GapFilling.FillError>)
      requires 0 <= year <= 9999 && base + 12 <= |ps|
      requires forall m :: 0 <= m < 12 ==> ps[base + m] == MonthKey(year, m)
      requires region in aggregates && aggregates == start[region := aggregates[region]]
      requires last.None? ==> aggregates == start
      modifies this`aggregates
      ensures region in aggregates && aggregates == start[region := aggregates[region]]
      ensures var parent := GapFilling.ParentSeries(start, countryRegions, scope, region);
              var rest := GapFilling.FillSeries(old(aggregates)[region], parent, scope, region, ps[base..], last, misses);
              && (res.Failure? ==> rest == Failure(res.error))
              && (res.Success? ==> rest == GapFilling.FillSeries(aggregates[region], parent, scope, region, ps[base + 12..], Some(res.value.0), res.value.1))
    {
      ghost var parent := GapFilling.ParentSeries(start, countryRegions, scope, region);
      ghost var rest := GapFilling.FillSeries(aggregates[region], parent, scope, region, ps[base..], last, misses);
      var current := last;
      var count := misses;
      var month := 0;
      while month <= 11
        invariant 0 <= month <= 12
        invariant region in aggregates && aggregates == start[region := aggregates[region]]
        invariant current.None? ==> aggregates == start
        invariant month > 0 ==> current.Some?
        invariant rest == GapFilling.FillSeries(aggregates[region], parent, scope, region, ps[base + month..], current, count)
      {
        assert ps[base + month] == MonthKey(year, month);
        var r := FillStep(scope, region, MonthKey(year, month), current, count, start, ps, base + month);
        if r.Failure? {
          assert rest == Failure(r.error);
          return Failure(r.error);
        }
        current := Some(r.value.0);
        count := r.value.1;
        month := month + 1;
      }
      return Success((current.value, count));
    }

    /**
     * One `last = fill(period)` of the year loop, with period the k-th of
     * the pass: the remaining work of the series moves on by one period.
     */
    method FillStep(scope: Scope, region: string, period: string, last: Option<Aggregate>, misses: nat,
                    ghost start: Store, ghost ps: seq<string>, ghost k: nat)
      returns (res: Result<(Aggregate, nat), GapFilling.FillError>)
      requires region in aggregates && aggregates == start[region := aggregates[region]]
      requires k < |ps| && ps[k] == period
      requires last.None? ==> aggregates == start
      modifies this`aggregates
      ensures region in aggregates && aggregates == start[region := aggregates[region]]
      ensures var parent := GapFilling.ParentSeries(start, countryRegions, scope, region);
              var rest := GapFilling.FillSeries(old(aggregates)[region], parent, scope, region, ps[k..], last, misses);
              && (res.Failure? ==> rest == Failure(res.error))
              && (res.Success? ==> rest == GapFilling.FillSeries(aggregates[region], parent, scope, region, ps[k + 1..], Some(res.value.0), res.value.1))
    {
      ghost var parent := GapFilling.ParentSeries(start, countryRegions, scope, region);
      ghost var series := aggregates[region];
      assert ps[k..][0] == period && ps[k..][1..] == ps[k + 1..];
      assert last.Some? ==> GapFilling.FillEntry(series, parent, period, last) ==
                            GapFilling.FillEntry(series, GapFilling.ParentSeries(aggregates, countryRegions, scope, region), period, last);
      res := Fill(scope, region, period, last, misses);
    }
  }

  /** The periods of `todo` still hold their entry of `series`, the others their corrected entry. */
  ghost predicate CorrectPeriodsProgress(now: Series, series: Series, todo: set<string>) {
    now.Keys == series.Keys && todo <= series.Keys &&
    forall p :: p in series ==> now[p] == if p in todo then series[p] else Adjustments.CorrectGreen(series[p])
  }

  /** Correcting one entry of `todo` in place: the green vector divided by a positive green ratio. */
  lemma CorrectPeriodStep(now: Series, series: Series, todo: set<string>, p: string)
    requires CorrectPeriodsProgress(now, series, todo) && p in todo
    ensures var a := now[p];
            var next := if a.greenRatio > 0.0 then now[p := a.(green := Scale(a.green, 1.0 / a.greenRatio))] else now;
            CorrectPeriodsProgress(next, series, todo - {p})
  {
  }

  lemma CorrectPeriodsDone(now: Series, series: Series)
    requires CorrectPeriodsProgress(now, series, {})
    ensures now == Adjustments.CorrectSeries(series)
  {
  }

  /** The regions of `done` hold their corrected series, the others their series at `start`. */
  ghost predicate CorrectProgress(now: Store, start: Store, done: seq<string>) {
    now.Keys == start.Keys &&
    forall r :: r in start ==> now[r] == if r in done then Adjustments.CorrectSeries(start[r]) else start[r]
  }

  lemma CorrectStep(now: Store, start: Store, done: seq<string>, region: string)
    requires CorrectProgress(now, start, done) && region in start && region !in done
    ensures CorrectProgress(now[region := Adjustments.CorrectSeries(now[region])], start, done + [region])
  {
  }

  lemma CorrectDone(now: Store, start: Store, done: seq<string>)
    requires CorrectProgress(now, start, done) && forall r :: r in start ==> r in done
    ensures now == Adjustments.CorrectStore(start)
  {
  }

  /**
   * While a country's periods are blended one at a time, the continent
   * entry of a period not yet visited reads the same as before the first:
   * only the country's own entries change, and only visited ones.
   */
  lemma SameContinentEntry(start: Store, now: Store, countryRegions: map<string, string>, region: string, period: string)
    requires region in start && region in now && now == start[region := now[region]]
    requires period in start[region] && period in now[region] && now[region][period] == start[region][period]
    ensures var before := Adjustments.ContinentSeries(start, countryRegions, region);
            var after := Adjustments.ContinentSeries(now, countryRegions, region);
            && (before.Some? && period in before.value <==> after.Some? && period in after.value)
            && (before.Some? && period in before.value ==> after.Some? && period in after.value && after.value[period] == before.value[period])
  {
  }

  /** The periods of `todo` whose entry in `series` imports. */
  ghost function ImportingIn(series: Series, todo: set<string>): set<string> {
    set p | p in todo && p in series && Adjustments.Imports(series[p])
  }

  /** Taking period `p` out of the periods left removes it from the importing ones left, if it imports. */
  lemma ImportingLeft(todo: set<string>, series: Series, p: string)
    requires p in todo
    ensures |ImportingIn(series, todo)| == |ImportingIn(series, todo - {p})| + (if p in series && Adjustments.Imports(series[p]) then 1 else 0)
  {
    if p in series && Adjustments.Imports(series[p]) {
      assert ImportingIn(series, todo) == ImportingIn(series, todo - {p}) + {p};
    } else {
      assert ImportingIn(series, todo) == ImportingIn(series, todo - {p});
    }
  }

  /**
   * Blending a country's series, with the periods of `todo` still to
   * visit: `cur` holds the original entry for those and for every
   * non-importing period, and the blended entry for the importing periods
   * visited, all of which had a continent entry.
   */
  ghost predicate BlendProgress(cur: Series, series: Series, parent: Option<Series>, todo: set<string>) {
    && cur.Keys == series.Keys && todo <= series.Keys
    && (forall p :: p in series && p !in todo && Adjustments.Imports(series[p]) ==> parent.Some? && p in parent.value)
    && (forall p :: p in series ==>
          cur[p] == if p in todo || !Adjustments.Imports(series[p]) then series[p]
                    else Adjustments.BlendEntry(series[p], parent.value[p]))
  }

  lemma BlendStart(series: Series, parent: Option<Series>)
    ensures BlendProgress(series, series, parent, series.Keys)
    ensures |ImportingIn(series, series.Keys)| == Adjustments.ImportCount(series)
  {
    assert ImportingIn(series, series.Keys) == set p | p in series && Adjustments.Imports(series[p]);
  }

  lemma BlendUnvisited(cur: Series, series: Series, parent: Option<Series>, todo: set<string>, period: string)
    requires BlendProgress(cur, series, parent, todo) && period in todo
    ensures period in series && period in cur && cur[period] == series[period]
  {
  }

  /** Visiting one more period: it is blended if it imports, and kept otherwise. */
  lemma BlendStep(cur: Series, series: Series, parent: Option<Series>, todo: set<string>, period: string)
    requires BlendProgress(cur, series, parent, todo) && period in todo
    requires Adjustments.Imports(series[period]) ==> parent.Some? && period in parent.value
    ensures var v := if Adjustments.Imports(series[period]) then Adjustments.BlendEntry(series[period], parent.value[period]) else series[period];
            && BlendProgress(cur[period := v], series, parent, todo - {period})
            && (!Adjustments.Imports(series[period]) ==> cur[period := v] == cur)
  {
  }

  /** With every period visited, the series is the blended one and the blend could not fail. */
  lemma BlendDone(cur: Series, series: Series, parent: Option<Series>)
    requires BlendProgress(cur, series, parent, {})
    ensures Adjustments.CanBlend(series, parent)
    ensures cur == if parent.Some? then Adjustments.BlendSeries(series, parent.value) else series
  {
  }

  /** Every month from position k on is a valid (year, month) pair. */
  ghost predicate ValidSuffix(months: seq<(int, int)>, k: nat) {
    k <= |months| && forall i :: 0 <= i < |months[k..]| ==> Export.ValidMonth(months[k..][i])
  }

  /** Every month of the sequence is a valid (year, month) pair. */
  ghost predicate AllValid(months: seq<(int, int)>) {
    forall i :: 0 <= i < |months| ==> Export.ValidMonth(months[i])
  }

  /** Months 0..lastMonth of `year` sit at position k onwards. */
  ghost predicate YearAt(months: seq<(int, int)>, year: int, lastMonth: int, k: nat) {
    k + lastMonth + 1 <= |months| && forall m :: 0 <= m <= lastMonth ==> months[k + m] == (year, m)
  }

  lemma SuffixValid(months: seq<(int, int)>, k: nat)
    requires AllValid(months) && k <= |months|
    ensures ValidSuffix(months, k)
  {
  }

  /** The months the export visits in `year`: 0..11, or 0..lastMonth in the current year, from 12 * (year - MIN_YEAR) on. */
  lemma ExportYearMonths(currentYear: int, lastMonth: int, year: int)
    requires MinYear <= year <= currentYear <= 9999 && 0 <= lastMonth <= 11
    ensures var ms := Export.ExportPeriods(currentYear, lastMonth);
            AllValid(ms) && YearAt(ms, year, if year == currentYear then lastMonth else 11, 12 * (year - MinYear))
  {
    var ms := Export.ExportPeriods(currentYear, lastMonth);
    var last := if year == currentYear then lastMonth else 11;
    forall m | 0 <= m <= last ensures ms[12 * (year - MinYear) + m] == (year, m) {
      FlatIndex(year - MinYear, m);
    }
  }

  /** The periods of `year` in a pass: its yearly key, or its twelve monthly keys from 12 * (year - MIN_YEAR) on. */
  lemma PassYear(yearly: bool, currentYear: int, year: int)
    requires MinYear <= year <= currentYear <= 9999
    ensures var ps := PassPeriods(yearly, currentYear);
            && (yearly ==> year - MinYear < |ps| && ps[year - MinYear] == YearKey(year))
            && (!yearly ==>
                  && 12 * (year - MinYear) + 12 <= |ps|
                  && forall m :: 0 <= m < 12 ==> ps[12 * (year - MinYear) + m] == MonthKey(year, m))
  {
    if !yearly {
      forall m | 0 <= m < 12 ensures MonthPeriods(currentYear)[12 * (year - MinYear) + m] == MonthKey(year, m) {
        MonthAt(currentYear, year - MinYear, m);
      }
    }
  }

  lemma MonthAt(currentYear: int, a: nat, m: int)
    requires MinYear + a <= currentYear <= 9999 && 0 <= m < 12
    ensures 12 * a + m < |MonthPeriods(currentYear)| && MonthPeriods(currentYear)[12 * a + m] == MonthKey(MinYear + a, m)
  {
    FlatIndex(a, m);
  }

  /** Year a, month b of the pass sits at index 12 * a + b. */
  lemma FlatIndex(a: int, b: int)
    requires 0 <= a && 0 <= b < 12
    ensures (12 * a + b) / 12 == a && (12 * a + b) % 12 == b
  {
  }
}
