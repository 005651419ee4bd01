/**
 * The export accumulation (index.ts:276-307): for every month from
 * January of MIN_YEAR to lastAvailableMonth of the current year, and for
 * every country region of the store, the entry's `global` vector is added
 * into `yearlyWorld[year]` and, when its green ratio is non-zero, its
 * `green` vector into `yearlyWorld[year-green]`; `globals` and `greens`
 * count the additions.  The totals are never written anywhere.
 */
module Export {
  import opened Wrappers
  import opened Impact
  import opened Region
  import opened Numerals
  import opened Periods

  /** `yearlyWorld` and the two counters. */
  datatype Totals = Totals(world: map<string, Impacts>, globals: nat, greens: nat)

  const NoTotals: Totals := Totals(map[], 0, 0)

  datatype ExportError =
    | UnknownCountry(region: string)                 // `countries.find(...)` is undefined: destructuring it throws
    | MissingEntry(region: string, period: string)   // `aggregates[region][period]` is undefined

  /** The two sums the loop keeps per year. */
  datatype Part = GlobalPart | GreenPart

  /** `${year}` for the global sum, `${year}-green` for the green one. */
  function TotalKey(year: int, part: Part): string {
    match part
    case GlobalPart => YearKey(year)
    case GreenPart => YearKey(year) + "-green"
  }

  /** `yearlyWorld[key]`, with an absent key read as combineImpacts' default target. */
  function WorldAt(world: map<string, Impacts>, key: string): Impacts {
    if key in world then world[key] else Empty
  }

  /** A country code listed as some country's alpha-2 code. */
  predicate Known(countries: map<string, string>, region: string) {
    region in countries.Values
  }

  /** What one (region, period) entry adds to a sum: its global vector, its green vector if the ratio is non-zero. */
  function Contribution(aggs: Store, region: string, period: string, part: Part): Impacts {
    if region in aggs && period in aggs[region] then
      var a := aggs[region][period];
      match part
      case GlobalPart => a.global
      case GreenPart => if a.greenRatio != 0.0 then a.green else Empty
    else Empty
  }

  /** The body of the region loop for one (year, period, region). */
  function ExportCell(t: Totals, aggs: Store, countries: map<string, string>, year: int, period: string, region: string): Result<Totals, ExportError> {
    if !Known(countries, region) then Failure(UnknownCountry(region))
    else if !(region in aggs && period in aggs[region]) then Failure(MissingEntry(region, period))
    else
      var a := aggs[region][period];
      var yk := TotalKey(year, GlobalPart);
      var gk := TotalKey(year, GreenPart);
      var t1 := t.(world := t.world[yk := Add(WorldAt(t.world, yk), a.global)], globals := t.globals + 1);
      if a.greenRatio != 0.0 then
        Success(t1.(world := t1.world[gk := Add(WorldAt(t1.world, gk), a.green)], greens := t1.greens + 1))
      else Success(t1)
  }

  /** The region loop for one period, in store key order. */
  function ExportRegions(t: Totals, aggs: Store, countries: map<string, string>, year: int, period: string, regions: seq<string>): Result<Totals, ExportError>
    decreases |regions|
  {
    if regions == [] then Success(t)
    else
      match ExportCell(t, aggs, countries, year, period, regions[0])
      case Failure(e) => Failure(e)
      case Success(t1) => ExportRegions(t1, aggs, countries, year, period, regions[1..])
  }

  /** A (year, month) pair with a 4-digit year and a 0-based month. */
  predicate ValidMonth(m: (int, int)) {
    0 <= m.0 <= 9999 && 0 <= m.1 <= 11
  }

  /** The period loop, one (year, month) after the other. */
  function ExportMonths(t: Totals, aggs: Store, countries: map<string, string>, regions: seq<string>, months: seq<(int, int)>): Result<Totals, ExportError>
    requires forall i :: 0 <= i < |months| ==> ValidMonth(months[i])
    decreases |months|
  {
    if months == [] then Success(t)
    else
      assert ValidMonth(months[0]);
      match ExportRegions(t, aggs, countries, months[0].0, MonthKey(months[0].0, months[0].1), regions)
      case Failure(e) => Failure(e)
      case Success(t1) => ExportMonths(t1, aggs, countries, regions, months[1..])
  }

  /** The number of months visited: 12 per year before the current one, lastMonth + 1 in it. */
  function ExportMonthCount(currentYear: int, lastMonth: int): nat
    requires 0 <= lastMonth <= 11
  {
    if currentYear >= MinYear then 12 * (currentYear - MinYear) + lastMonth + 1 else 0
  }

  /** The (year, month) pairs of the two outer loops, in order. */
  function ExportPeriods(currentYear: int, lastMonth: int): (ms: seq<(int, int)>)
    requires currentYear <= 9999 && 0 <= lastMonth <= 11
    ensures |ms| == ExportMonthCount(currentYear, lastMonth)
    ensures forall i :: 0 <= i < |ms| ==> ms[i] == (MinYear + i / 12, i % 12) && ValidMonth(ms[i])
  {
    seq(ExportMonthCount(currentYear, lastMonth), i => (MinYear + i / 12, i % 12))
  }

  /** Every month of the years before the current one, and months 0..lastMonth of the current year. */
  lemma ExportPeriodsCover(currentYear: int, lastMonth: int, year: int, month: int)
    requires currentYear <= 9999 && 0 <= lastMonth <= 11
    requires MinYear <= year <= currentYear && 0 <= month <= 11
    ensures (year, month) in ExportPeriods(currentYear, lastMonth) <==> year < currentYear || month <= lastMonth
  {
    var ms := ExportPeriods(currentYear, lastMonth);
    var i := 12 * (year - MinYear) + month;
    assert i / 12 == year - MinYear && i % 12 == month;
    if year < currentYear || month <= lastMonth {
      assert ms[i] == (year, month);
    } else {
      forall j | 0 <= j < |ms| ensures ms[j] != (year, month) {
        assert j < i;
      }
    }
  }

  /** index.ts:283-305: the whole export, over the country regions of the store in key order. */
  function ExportTotals(aggs: Store, order: seq<string>, countries: map<string, string>, currentYear: int, lastMonth: int): Result<Totals, ExportError>
    requires currentYear <= 9999 && 0 <= lastMonth <= 11
  {
    ExportMonths(NoTotals, aggs, countries, Filter(order, CountryScope), ExportPeriods(currentYear, lastMonth))
  }

  // ---------------------------------------------------------------------
  // When the export succeeds
  // ---------------------------------------------------------------------

  /** An entry the loop can read: the country is listed and has an entry for the period. */
  predicate Readable(aggs: Store, countries: map<string, string>, region: string, period: string) {
    Known(countries, region) && region in aggs && period in aggs[region]
  }

  /** The error names a country that is not listed, or a missing entry of a listed country. */
  predicate Explains(aggs: Store, countries: map<string, string>, e: ExportError) {
    match e
    case UnknownCountry(r) => !Known(countries, r)
    case MissingEntry(r, p) => Known(countries, r) && !(r in aggs && p in aggs[r])
  }

  /** Every region of `regions` has a readable entry for `period`. */
  predicate PeriodReadable(aggs: Store, countries: map<string, string>, regions: seq<string>, period: string) {
    forall r :: r in regions ==> Readable(aggs, countries, r, period)
  }

  lemma {:induction false} ExportRegionsSucceeds(t: Totals, aggs: Store, countries: map<string, string>, year: int, period: string, regions: seq<string>)
    ensures var res := ExportRegions(t, aggs, countries, year, period, regions);
            && (res.Success? <==> PeriodReadable(aggs, countries, regions, period))
            && (res.Failure? ==> Explains(aggs, countries, res.error))
    decreases |regions|
  {
    if regions != [] {
      var cell := ExportCell(t, aggs, countries, year, period, regions[0]);
      if cell.Success? {
        ExportRegionsSucceeds(cell.value, aggs, countries, year, period, regions[1..]);
        assert forall r :: r in regions <==> r == regions[0] || r in regions[1..];
      } else {
        assert regions[0] in regions;
      }
    }
  }

  /**
   * The export succeeds exactly when every visited country is listed and
   * has an entry for every visited month; otherwise its error names a
   * country that is not listed or an entry that is missing.
   */
  lemma {:induction false} ExportSucceeds(t: Totals, aggs: Store, countries: map<string, string>, regions: seq<string>, months: seq<(int, int)>)
    requires forall i :: 0 <= i < |months| ==> ValidMonth(months[i])
    ensures var res := ExportMonths(t, aggs, countries, regions, months);
            && (res.Success? <==> forall i :: 0 <= i < |months| ==>
                                     PeriodReadable(aggs, countries, regions, MonthKey(months[i].0, months[i].1)))
            && (res.Failure? ==> Explains(aggs, countries, res.error))
    decreases |months|
  {
    if months != [] {
      var period := MonthKey(months[0].0, months[0].1);
      ExportRegionsSucceeds(t, aggs, countries, months[0].0, period, regions);
      var step := ExportRegions(t, aggs, countries, months[0].0, period, regions);
      if step.Success? {
        ExportSucceeds(step.value, aggs, countries, regions, months[1..]);
        forall i | 0 < i < |months|
          ensures months[i] == months[1..][i - 1]
        {
        }
      }
    }
  }

  /** An error of the region loop names one of its regions and, for a missing entry, its period. */
  lemma {:induction false} ExportRegionsErrorVisited(t: Totals, aggs: Store, countries: map<string, string>, year: int, period: string, regions: seq<string>)
    ensures var res := ExportRegions(t, aggs, countries, year, period, regions);
            res.Failure? ==> res.error.region in regions && (res.error.MissingEntry? ==> res.error.period == period)
    decreases |regions|
  {
    if regions != [] {
      var cell := ExportCell(t, aggs, countries, year, period, regions[0]);
      if cell.Success? {
        ExportRegionsErrorVisited(cell.value, aggs, countries, year, period, regions[1..]);
        var res := ExportRegions(cell.value, aggs, countries, year, period, regions[1..]);
        if res.Failure? {
          assert res.error.region in regions[1..];
        }
      }
    }
  }

  /** An error of the export names a visited country and, for a missing entry, a visited month. */
  lemma {:induction false} ExportErrorVisited(t: Totals, aggs: Store, countries: map<string, string>, regions: seq<string>, months: seq<(int, int)>)
    requires forall i :: 0 <= i < |months| ==> ValidMonth(months[i])
    ensures var res := ExportMonths(t, aggs, countries, regions, months);
            res.Failure? ==>
              && res.error.region in regions
              && (res.error.MissingEntry? ==>
                    exists i :: 0 <= i < |months| && res.error.period == MonthKey(months[i].0, months[i].1))
    decreases |months|
  {
    if months != [] {
      var period := MonthKey(months[0].0, months[0].1);
      ExportRegionsErrorVisited(t, aggs, countries, months[0].0, period, regions);
      var step := ExportRegions(t, aggs, countries, months[0].0, period, regions);
      if step.Success? {
        ExportErrorVisited(step.value, aggs, countries, regions, months[1..]);
        var res := ExportMonths(step.value, aggs, countries, regions, months[1..]);
        if res.Failure? && res.error.MissingEntry? {
          var i :| 0 <= i < |months[1..]| && res.error.period == MonthKey(months[1..][i].0, months[1..][i].1);
          assert months[1..][i] == months[i + 1];
        }
      } else if step.error.MissingEntry? {
        assert step.error.period == MonthKey(months[0].0, months[0].1);
      }
    }
  }

  // ---------------------------------------------------------------------
  // The counters
  // ---------------------------------------------------------------------

  /** The countries of `regions` whose entry for `period` has a non-zero green ratio: the cells that add to `greens`. */
  function GreenCells(aggs: Store, period: string, regions: seq<string>): (n: nat)
    ensures n <= |regions|
    decreases |regions|
  {
    if regions == [] then 0
    else
      var r := regions[0];
      (if r in aggs && period in aggs[r] && aggs[r][period].greenRatio != 0.0 then 1 else 0)
        + GreenCells(aggs, period, regions[1..])
  }

  /** The green cells of every month of `months`. */
  function GreenCellsOver(aggs: Store, regions: seq<string>, months: seq<(int, int)>): nat
    requires forall i :: 0 <= i < |months| ==> ValidMonth(months[i])
    decreases |months|
  {
    if months == [] then 0
    else
      assert ValidMonth(months[0]);
      GreenCells(aggs, MonthKey(months[0].0, months[0].1), regions) + GreenCellsOver(aggs, regions, months[1..])
  }

  /** The region loop adds one to `globals` per country, and one to `greens` per green cell. */
  lemma {:induction false} ExportRegionsCounts(t: Totals, aggs: Store, countries: map<string, string>, year: int, period: string, regions: seq<string>)
    ensures var res := ExportRegions(t, aggs, countries, year, period, regions);
            res.Success? ==>
              && res.value.globals == t.globals + |regions|
              && res.value.greens == t.greens + GreenCells(aggs, period, regions)
              && t.greens <= res.value.greens <= t.greens + |regions|
    decreases |regions|
  {
    if regions != [] {
      var cell := ExportCell(t, aggs, countries, year, period, regions[0]);
      if cell.Success? {
        ExportRegionsCounts(cell.value, aggs, countries, year, period, regions[1..]);
      }
    }
  }

  /** `globals` counts one addition per (month, country); `greens` one per green cell, so at most as many. */
  lemma {:induction false} ExportCounts(t: Totals, aggs: Store, countries: map<string, string>, regions: seq<string>, months: seq<(int, int)>)
    requires forall i :: 0 <= i < |months| ==> ValidMonth(months[i])
    ensures var res := ExportMonths(t, aggs, countries, regions, months);
            res.Success? ==>
              && res.value.globals == t.globals + |months| * |regions|
              && res.value.greens == t.greens + GreenCellsOver(aggs, regions, months)
              && t.greens <= res.value.greens <= t.greens + |months| * |regions|
    decreases |months|
  {
    if months != [] {
      var period := MonthKey(months[0].0, months[0].1);
      var step := ExportRegions(t, aggs, countries, months[0].0, period, regions);
      ExportRegionsCounts(t, aggs, countries, months[0].0, period, regions);
      if step.Success? {
        ExportCounts(step.value, aggs, countries, regions, months[1..]);
        assert |months| * |regions| == |regions| + (|months| - 1) * |regions|;
      }
    }
  }

  // ---------------------------------------------------------------------
  // The yearly sums
  // ---------------------------------------------------------------------

  /** The sum, over `regions`, of what their entries for `period` contribute. */
  function PeriodSum(aggs: Store, period: string, regions: seq<string>, part: Part): Impacts
    decreases |regions|
  {
    if regions == [] then Empty
    else Add(Contribution(aggs, regions[0], period, part), PeriodSum(aggs, period, regions[1..], part))
  }

  /** The sum, over the months of `year` in `months`, of the period sums. */
  function YearSum(aggs: Store, year: int, months: seq<(int, int)>, regions: seq<string>, part: Part): Impacts
    requires forall i :: 0 <= i < |months| ==> ValidMonth(months[i])
    decreases |months|
  {
    if months == [] then Empty
    else
      assert ValidMonth(months[0]);
      var first := if months[0].0 == year then PeriodSum(aggs, MonthKey(months[0].0, months[0].1), regions, part) else Empty;
      Add(first, YearSum(aggs, year, months[1..], regions, part))
  }

  /** Year and green keys of non-negative years never collide. */
  lemma TotalKeyInjective(y1: int, p1: Part, y2: int, p2: Part)
    requires y1 >= 0 && y2 >= 0 && (y1, p1) != (y2, p2)
    ensures TotalKey(y1, p1) != TotalKey(y2, p2)
  {
    var k1 := YearKey(y1);
    var k2 := YearKey(y2);
    if p1 == p2 {
      DecimalInjective(y1, y2);
    } else if p1 == GreenPart {
      if |TotalKey(y1, p1)| == |k2| {
        assert TotalKey(y1, p1)[|k1|] == '-' && IsDigit(k2[|k1|]);
      }
    } else {
      if |TotalKey(y2, p2)| == |k1| {
        assert TotalKey(y2, p2)[|k2|] == '-' && IsDigit(k1[|k2|]);
      }
    }
  }

  /** One cell adds its contribution to the sums of its own year and leaves every other sum alone. */
  lemma ExportCellSum(t: Totals, aggs: Store, countries: map<string, string>, year: int, period: string, region: string, y: int, part: Part)
    requires year >= 0 && y >= 0
    ensures var res := ExportCell(t, aggs, countries, year, period, region);
            res.Success? ==>
              WorldAt(res.value.world, TotalKey(y, part)) ==
                if y == year then Add(WorldAt(t.world, TotalKey(y, part)), Contribution(aggs, region, period, part))
                else WorldAt(t.world, TotalKey(y, part))
  {
    var res := ExportCell(t, aggs, countries, year, period, region);
    if res.Success? {
      if (y, part) != (year, GlobalPart) {
        TotalKeyInjective(y, part, year, GlobalPart);
      }
      if (y, part) != (year, GreenPart) {
        TotalKeyInjective(y, part, year, GreenPart);
      }
      if y == year && part == GreenPart && aggs[region][period].greenRatio == 0.0 {
        AddEmpty(WorldAt(t.world, TotalKey(y, part)));
      }
    }
  }

  /** The region loop adds the period sum to its own year's sums. */
  lemma {:induction false} ExportRegionsSum(t: Totals, aggs: Store, countries: map<string, string>, year: int, period: string, regions: seq<string>, part: Part)
    requires year >= 0
    ensures var res := ExportRegions(t, aggs, countries, year, period, regions);
            res.Success? ==>
              WorldAt(res.value.world, TotalKey(year, part)) == Add(WorldAt(t.world, TotalKey(year, part)), PeriodSum(aggs, period, regions, part))
    decreases |regions|
  {
    var before := WorldAt(t.world, TotalKey(year, part));
    if regions == [] {
      AddEmpty(before);
    } else {
      var cell := ExportCell(t, aggs, countries, year, period, regions[0]);
      if cell.Success? {
        ExportCellSum(t, aggs, countries, year, period, regions[0], year, part);
        ExportRegionsSum(cell.value, aggs, countries, year, period, regions[1..], part);
        AddAssociative(before, Contribution(aggs, regions[0], period, part), PeriodSum(aggs, period, regions[1..], part));
      }
    }
  }

  /** The region loop leaves the sums of every other year alone. */
  lemma {:induction false} ExportRegionsOtherYear(t: Totals, aggs: Store, countries: map<string, string>, year: int, period: string, regions: seq<string>, y: int, part: Part)
    requires year >= 0 && y >= 0 && y != year
    ensures var res := ExportRegions(t, aggs, countries, year, period, regions);
            res.Success? ==> WorldAt(res.value.world, TotalKey(y, part)) == WorldAt(t.world, TotalKey(y, part))
    decreases |regions|
  {
    if regions != [] {
      var cell := ExportCell(t, aggs, countries, year, period, regions[0]);
      if cell.Success? {
        ExportCellSum(t, aggs, countries, year, period, regions[0], y, part);
        ExportRegionsOtherYear(cell.value, aggs, countries, year, period, regions[1..], y, part);
      }
    }
  }

  /**
   * On success, `yearlyWorld[year]` holds the sum of the global vectors of
   * every visited (month of that year, country) entry, and
   * `yearlyWorld[year-green]` the sum of the green vectors of those with a
   * non-zero green ratio, each added to what the key held before.
   */
  lemma {:induction false} ExportYearSums(t: Totals, aggs: Store, countries: map<string, string>, regions: seq<string>, months: seq<(int, int)>, y: int, part: Part)
    requires forall i :: 0 <= i < |months| ==> ValidMonth(months[i])
    requires y >= 0
    ensures var res := ExportMonths(t, aggs, countries, regions, months);
            res.Success? ==>
              WorldAt(res.value.world, TotalKey(y, part)) == Add(WorldAt(t.world, TotalKey(y, part)), YearSum(aggs, y, months, regions, part))
    decreases |months|
  {
    var before := WorldAt(t.world, TotalKey(y, part));
    if months == [] {
      AddEmpty(before);
    } else {
      var year := months[0].0;
      var period := MonthKey(year, months[0].1);
      var step := ExportRegions(t, aggs, countries, year, period, regions);
      if step.Success? {
        ExportYearSums(step.value, aggs, countries, regions, months[1..], y, part);
        var rest := YearSum(aggs, y, months[1..], regions, part);
        if year == y {
          ExportRegionsSum(t, aggs, countries, year, period, regions, part);
          AddAssociative(before, PeriodSum(aggs, period, regions, part), rest);
        } else {
          ExportRegionsOtherYear(t, aggs, countries, year, period, regions, y, part);
          AddEmpty(rest);
        }
      }
    }
  }
}
