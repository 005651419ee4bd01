/**
 * Record ingestion (the callback of index.ts:134-198): one typed feed row
 * resolves its period and region, passes or fails the filters, records
 * the country's continent, moves `lastAvailableMonth`, and creates or
 * updates the aggregate at (region, period).
 */
module Ingestion {
  import opened Wrappers
  import opened Impact
  import opened Region
  import opened Calendar
  import opened Periods
  import opened Numerals
  import Csv

  /**
   * The fields the callback destructures (index.ts:135-148).  A null or
   * absent text column is "", an absent year or date is None, and a null
   * value is 0 (JS reads null as 0 in every arithmetic use below).
   */
  datatype Row = Row(
    countryCode: string,
    emberRegion: string,
    area: string,
    areaType: string,
    year: Option<int>,
    date: Option<CsvDate>,
    category: string,
    subcategory: string,
    variable: string,
    unit: string,
    value: real)

  // ---------------------------------------------------------------------
  // The typed record of one data line, destructured (index.ts:135-148)
  // ---------------------------------------------------------------------

  /** `data[header]`: undefined for a header the feed does not have. */
  function Column(record: map<string, Csv.Field>, header: string): Csv.Field {
    if header in record then record[header] else Csv.Undefined
  }

  /** A text column: its text, with null and undefined read as "".  None for a number or a date. */
  function TextOf(f: Csv.Field): Option<string> {
    match f
    case Text(t) => Some(t)
    case Null => Some("")
    case Undefined => Some("")
    case _ => None
  }

  /** The `year` column: a whole number, or absent.  None for any other shape. */
  function YearOf(f: Csv.Field): Option<Option<int>> {
    match f
    case Number(x) => if x.Floor as real == x then Some(Some(x.Floor)) else None
    case Null => Some(None)
    case Undefined => Some(None)
    case _ => None
  }

  /** The `date` column: a date, or absent.  None for any other shape. */
  function DateOf(f: Csv.Field): Option<Option<CsvDate>> {
    match f
    case DateValue(d) => Some(Some(d))
    case Null => Some(None)
    case Undefined => Some(None)
    case _ => None
  }

  /** The `value` column: a number, null being 0.  None for any other shape. */
  function ValueOf(f: Csv.Field): Option<real> {
    match f
    case Number(x) => Some(x)
    case Null => Some(0.0)
    case _ => None
  }

  /**
   * The fields the callback destructures from one record, or None when a
   * column has a shape `Row` does not hold (see README).
   */
  function RowOf(record: map<string, Csv.Field>): Option<Row> {
    var countryCode := TextOf(Column(record, "country_code"));
    var emberRegion := TextOf(Column(record, "ember_region"));
    var area := TextOf(Column(record, "area"));
    var areaType := TextOf(Column(record, "area_type"));
    var year := YearOf(Column(record, "year"));
    var date := DateOf(Column(record, "date"));
    var category := TextOf(Column(record, "category"));
    var subcategory := TextOf(Column(record, "subcategory"));
    var variable := TextOf(Column(record, "variable"));
    var unit := TextOf(Column(record, "unit"));
    var value := ValueOf(Column(record, "value"));
    if && countryCode.Some? && emberRegion.Some? && area.Some? && areaType.Some? && year.Some? && date.Some?
       && category.Some? && subcategory.Some? && variable.Some? && unit.Some? && value.Some?
    then Some(Row(countryCode.value, emberRegion.value, area.value, areaType.value, year.value, date.value,
                  category.value, subcategory.value, variable.value, unit.value, value.value))
    else None
  }

  /** A text as a record entry: "" is null. */
  function TextField(t: string): Csv.Field {
    if t == "" then Csv.Null else Csv.Text(t)
  }

  /** A record that destructures into `row`. */
  function RecordOf(row: Row): map<string, Csv.Field> {
    map[
      "country_code" := TextField(row.countryCode),
      "ember_region" := TextField(row.emberRegion),
      "area" := TextField(row.area),
      "area_type" := TextField(row.areaType),
      "year" := (if row.year.Some? then Csv.Number(row.year.value as real) else Csv.Null),
      "date" := (if row.date.Some? then Csv.DateValue(row.date.value) else Csv.Null),
      "category" := TextField(row.category),
      "subcategory" := TextField(row.subcategory),
      "variable" := TextField(row.variable),
      "unit" := TextField(row.unit),
      "value" := Csv.Number(row.value)]
  }

  /** Every row is the destructuring of a record: the model's rows are exactly what the callback can receive. */
  lemma RowOfRecordOf(row: Row)
    ensures RowOf(RecordOf(row)) == Some(row)
  {
    var record := RecordOf(row);
    assert TextOf(Column(record, "country_code")) == Some(row.countryCode);
    assert TextOf(Column(record, "ember_region")) == Some(row.emberRegion);
    assert TextOf(Column(record, "area")) == Some(row.area);
    assert TextOf(Column(record, "area_type")) == Some(row.areaType);
    if row.year.Some? {
      assert (row.year.value as real).Floor == row.year.value;
    }
    assert YearOf(Column(record, "year")) == Some(row.year);
    assert DateOf(Column(record, "date")) == Some(row.date);
    assert TextOf(Column(record, "category")) == Some(row.category);
    assert TextOf(Column(record, "subcategory")) == Some(row.subcategory);
    assert TextOf(Column(record, "variable")) == Some(row.variable);
    assert TextOf(Column(record, "unit")) == Some(row.unit);
    assert ValueOf(Column(record, "value")) == Some(row.value);
  }

  /**
   * The row read off one data line: a column whose text on the line is a
   * number, a date or other non-empty text gives that number, date or
   * text, and an empty or missing text column gives "".
   */
  lemma RowOfLine(headers: seq<string>, line: string, i: nat)
    requires i < |headers| && forall j :: i < j < |headers| ==> headers[j] != headers[i]
    ensures var row := RowOf(Csv.ParseLine(headers, line));
            var v := Csv.ValueAt(Csv.SplitLine(line), i);
            row.Some? ==>
              && (headers[i] == "value" && v.Some? && v.value != "" && Csv.IsNumberText(v.value) ==>
                    !Csv.IsDateText(v.value) && row.value.value == Csv.NumberValue(v.value))
              && (headers[i] == "value" && v == Some("") ==> row.value.value == 0.0)
              && (headers[i] == "date" && v.Some? && Csv.IsDateText(v.value) ==> row.value.date == Some(Csv.ParseDate(v.value)))
              && (headers[i] == "area" && v.Some? ==> row.value.area == v.value)
              && (headers[i] == "area" && v.None? ==> row.value.area == "")
              && (headers[i] == "area_type" && v.Some? ==> row.value.areaType == v.value)
  {
    Csv.TypeRecordEntries(headers, Csv.SplitLine(line));
    assert Column(Csv.ParseLine(headers, line), headers[i]) == Csv.TypeField(Csv.ValueAt(Csv.SplitLine(line), i));
  }

  /** Read-only reference data: countries.json, energy-impacts.json and the clock's year. */
  datatype Reference = Reference(
    countries: map<string, string>,   // alpha-3 -> alpha-2
    impacts: map<string, Impacts>,    // fuel variable -> impact vector
    currentYear: int)                 // CURRENT_YEAR

  /** The ways a row aborts the run. */
  datatype IngestError =
    | UnknownArea(name: string)  // `throw new Error("Unknown area: ...")`
    | MissingDate                // `date.toISOString()` on a row with neither year nor date
    | InvalidDate                // `toISOString()` of an Invalid Date

  /** The state the callback writes: the store, its key order, COUNTRY_EMBER_REGIONS, lastAvailableMonth, lines. */
  datatype State = State(
    aggregates: Store,
    order: seq<string>,
    countryRegions: map<string, string>,
    lastAvailableMonth: int,
    lines: nat)

  /** The store's regions are listed once each in insertion order; every country has a recorded continent. */
  predicate Valid(s: State) {
    && Distinct(s.order)
    && (forall r :: r in s.order ==> r in s.aggregates)
    && (forall r :: r in s.aggregates ==> r in s.order)
    && (forall r :: r in s.aggregates && IsCountry(r) ==> r in s.countryRegions)
    && 0 <= s.lastAvailableMonth <= 11
  }

  /** The state before the first row. */
  const Initial: State := State(map[], [], map[], 0, 0)

  /** `!!year` */
  predicate IsYearly(row: Row) {
    row.year.Some? && row.year.value != 0
  }

  /** `yearly ? `${year}` : date.toISOString().substring(0, 7)` */
  function PeriodOf(row: Row): (r: Result<string, IngestError>)
    ensures IsYearly(row) ==> r == Success(YearKey(row.year.value))
    ensures !IsYearly(row) && row.date.Some? && Parses(row.date.value) ==>
      && r.Success? && |r.value| == 7 && r.value[4] == '-'
      && AllDigits(r.value[..4]) && Value(r.value[..4]) == UtcYear(row.date.value)
      && AllDigits(r.value[5..7]) && Value(r.value[5..7]) == UtcMonth(row.date.value) + 1
    ensures !IsYearly(row) && row.date.None? ==> r == Failure(MissingDate)
    ensures !IsYearly(row) && row.date.Some? && !Parses(row.date.value) ==> r == Failure(InvalidDate)
  {
    if IsYearly(row) then Success(YearKey(row.year.value))
    else if row.date.None? then Failure(MissingDate)
    else if !Parses(row.date.value) then Failure(InvalidDate)
    else
      MonthKeyParts(row.date.value.year, UtcMonth(row.date.value));
      Success(MonthKey(row.date.value.year, UtcMonth(row.date.value)))
  }

  /** The region key: a country's alpha-2 code (`countries.find`), or the area name as it stands. */
  function RegionOf(row: Row, countries: map<string, string>): (r: Option<string>)
    ensures r.Some? ==> r.value != ""
    ensures row.areaType == "Country" && r.Some? ==> row.countryCode in countries && r.value == countries[row.countryCode]
    ensures row.areaType == "Country" && row.countryCode in countries && countries[row.countryCode] != "" ==> r.Some?
    ensures row.areaType != "Country" && r.Some? ==> r.value == row.area
    ensures row.areaType != "Country" && row.area != "" ==> r.Some?
  {
    if row.areaType == "Country" then
      if row.countryCode in countries && countries[row.countryCode] != "" then Some(countries[row.countryCode]) else None
    else if row.area != "" then Some(row.area) else None
  }

  /** `country_code ?? area` in the error message. */
  function UnknownName(row: Row): string {
    if row.countryCode != "" then row.countryCode else row.area
  }

  /** The two early-year filters (index.ts:156-157); an Invalid Date's year is NaN and passes. */
  predicate BeforeMinYear(row: Row) {
    || (IsYearly(row) && row.year.value < MinYear)
    || (row.date.Some? && Parses(row.date.value) && UtcYear(row.date.value) < MinYear)
  }

  /** index.ts:159-160 */
  function NextLastMonth(lastMonth: int, row: Row, currentYear: int): int {
    if row.date.Some? && Parses(row.date.value) && UtcYear(row.date.value) == currentYear then
      if UtcMonth(row.date.value) > lastMonth then UtcMonth(row.date.value) else lastMonth
    else lastMonth
  }

  /** `impacts[variable]`, or EMPTY_IMPACTS (combineImpacts' default) for a variable the table lacks. */
  function FuelImpacts(impacts: map<string, Impacts>, variable: string): Impacts {
    if variable in impacts then impacts[variable] else Empty
  }

  predicate IsFuelShare(row: Row) {
    row.category == "Electricity generation" && row.subcategory == "Fuel" && row.unit == "%"
  }

  predicate IsGeneratedTotal(row: Row) {
    row.category == "Electricity generation" && row.subcategory == "Total" && row.unit == "TWh"
  }

  predicate IsImportedTotal(row: Row) {
    row.category == "Electricity imports" && row.unit == "TWh"
  }

  /** The field updates of index.ts:175-196 applied to one aggregate. */
  function ApplyRow(a: Aggregate, row: Row, impacts: map<string, Impacts>): Aggregate {
    if row.category == "Electricity generation" then
      var a1 :=
        if row.subcategory == "Fuel" && row.unit == "%" then
          var share := row.value / 100.0;
          var source := FuelImpacts(impacts, row.variable);
          var withGlobal := a.(global := Combine(a.global, source, 1.0, share));
          if row.variable in GreenEnergies then
            withGlobal.(green := Combine(withGlobal.green, source, 1.0, share),
                        greenRatio := withGlobal.greenRatio + share)
          else withGlobal
        else a;
      if row.subcategory == "Total" && row.unit == "TWh" then a1.(generatedKWh := row.value) else a1
    else if row.category == "Electricity imports" && row.unit == "TWh" then a.(importedKWh := row.value)
    else a
  }

  /** Creates the aggregate at (region, period) if absent and applies the row to it (index.ts:164-197). */
  function Upsert(s: State, row: Row, region: string, period: string, impacts: map<string, Impacts>): State {
    var series := if region in s.aggregates then s.aggregates[region] else map[];
    var entry := if period in series then series[period] else ZeroAggregate;
    s.(aggregates := s.aggregates[region := series[period := ApplyRow(entry, row, impacts)]],
       order := if region in s.aggregates then s.order else s.order + [region],
       countryRegions := if row.areaType == "Country" then s.countryRegions[region := row.emberRegion] else s.countryRegions,
       lines := s.lines + 1)
  }

  /** One call of the callback: the new state, or the error that aborts the run. */
  function Step(s: State, row: Row, ref: Reference): Result<State, IngestError> {
    match PeriodOf(row)
    case Failure(e) => Failure(e)
    case Success(period) =>
      match RegionOf(row, ref.countries)
      case None => Failure(UnknownArea(UnknownName(row)))
      case Some(region) =>
        if BeforeMinYear(row) then Success(s)
        else
          var s1 := s.(lastAvailableMonth := NextLastMonth(s.lastAvailableMonth, row, ref.currentYear));
          if row.areaType != "Country" && IsCountry(region) then Success(s1)
          else Success(Upsert(s1, row, region, period, ref.impacts))
  }

  /** The rows of one feed, one after the other, stopping at the first error. */
  function StepAll(s: State, rows: seq<Row>, ref: Reference): Result<State, IngestError>
    decreases |rows|
  {
    if rows == [] then Success(s)
    else match Step(s, rows[0], ref)
      case Failure(e) => Failure(e)
      case Success(s1) => StepAll(s1, rows[1..], ref)
  }

  // ---------------------------------------------------------------------
  // Properties of one step
  // ---------------------------------------------------------------------

  /** A step keeps the state valid. */
  lemma StepValid(s: State, row: Row, ref: Reference)
    requires Valid(s)
    ensures Step(s, row, ref).Success? ==> Valid(Step(s, row, ref).value)
  {
    if Step(s, row, ref).Success? && PeriodOf(row).Success? && RegionOf(row, ref.countries).Some? {
      var region := RegionOf(row, ref.countries).value;
      var s1 := s.(lastAvailableMonth := NextLastMonth(s.lastAvailableMonth, row, ref.currentYear));
      if !BeforeMinYear(row) && !(row.areaType != "Country" && IsCountry(region)) {
        var s2 := Upsert(s1, row, region, PeriodOf(row).value, ref.impacts);
        if region !in s.aggregates {
          assert forall i :: 0 <= i < |s.order| ==> s.order[i] in s.aggregates;
        }
        assert forall r :: r in s2.order <==> r in s2.aggregates;
      }
    }
  }

  /** A whole feed keeps the state valid. */
  lemma {:induction false} StepAllValid(s: State, rows: seq<Row>, ref: Reference)
    requires Valid(s)
    ensures StepAll(s, rows, ref).Success? ==> Valid(StepAll(s, rows, ref).value)
    decreases |rows|
  {
    if rows != [] {
      StepValid(s, rows[0], ref);
      var step := Step(s, rows[0], ref);
      if step.Success? {
        StepAllValid(step.value, rows[1..], ref);
      }
    }
  }

  /** The run aborts exactly when the period or the region cannot be resolved, whatever the year. */
  lemma StepFails(s: State, row: Row, ref: Reference)
    ensures Step(s, row, ref).Failure? <==> PeriodOf(row).Failure? || RegionOf(row, ref.countries).None?
    ensures PeriodOf(row).Success? && RegionOf(row, ref.countries).None? ==>
      Step(s, row, ref) == Failure(UnknownArea(UnknownName(row)))
  {
  }

  /** A resolvable row before MIN_YEAR changes nothing at all. */
  lemma EarlyRowDropped(s: State, row: Row, ref: Reference)
    requires PeriodOf(row).Success? && RegionOf(row, ref.countries).Some?
    requires BeforeMinYear(row)
    ensures Step(s, row, ref) == Success(s)
  {
  }

  /**
   * An area row (not "Country") whose area is neither World nor a continent
   * creates no aggregate: only `lastAvailableMonth` may move.
   */
  lemma UnlistedAreaDropped(s: State, row: Row, ref: Reference)
    requires PeriodOf(row).Success? && RegionOf(row, ref.countries).Some?
    requires !BeforeMinYear(row) && row.areaType != "Country" && IsCountry(row.area)
    ensures Step(s, row, ref).Success?
    ensures Step(s, row, ref).value == s.(lastAvailableMonth := Step(s, row, ref).value.lastAvailableMonth)
  {
  }

  /**
   * Every other resolvable row, whatever its category, leaves an aggregate
   * at (region, period) that is the row applied to the previous entry, or
   * to a zeroed one; all other entries are unchanged.
   */
  lemma RowUpserted(s: State, row: Row, ref: Reference)
    requires PeriodOf(row).Success? && RegionOf(row, ref.countries).Some?
    requires !BeforeMinYear(row)
    requires !(row.areaType != "Country" && IsCountry(RegionOf(row, ref.countries).value))
    ensures var region := RegionOf(row, ref.countries).value;
            var period := PeriodOf(row).value;
            var before := if region in s.aggregates && period in s.aggregates[region] then s.aggregates[region][period] else ZeroAggregate;
            && Step(s, row, ref).Success?
            && var after := Step(s, row, ref).value.aggregates;
            && region in after && period in after[region]
            && after[region][period] == ApplyRow(before, row, ref.impacts)
            && after.Keys == s.aggregates.Keys + {region}
            && (forall r, p :: r in s.aggregates && p in s.aggregates[r] && (r, p) != (region, period) ==>
                  r in after && p in after[r] && after[r][p] == s.aggregates[r][p])
            && (row.areaType == "Country" ==> Step(s, row, ref).value.countryRegions[region] == row.emberRegion)
  {
  }

  /** lastAvailableMonth only grows, and only for a row dated in the current year. */
  lemma LastMonthMonotone(s: State, row: Row, ref: Reference)
    requires Valid(s)
    ensures Step(s, row, ref).Success? ==> Step(s, row, ref).value.lastAvailableMonth >= s.lastAvailableMonth
    ensures Step(s, row, ref).Success? && Step(s, row, ref).value.lastAvailableMonth != s.lastAvailableMonth ==>
      && row.date.Some? && Parses(row.date.value) && UtcYear(row.date.value) == ref.currentYear
      && Step(s, row, ref).value.lastAvailableMonth == UtcMonth(row.date.value)
  {
  }

  // ---------------------------------------------------------------------
  // Properties of the field updates
  // ---------------------------------------------------------------------

  /**
   * A fuel-share row adds impacts[variable] * value / 100 to `global`; a
   * green fuel also adds it to `green` and adds value / 100 to `greenRatio`.
   */
  lemma FuelShareUpdate(a: Aggregate, row: Row, impacts: map<string, Impacts>)
    requires IsFuelShare(row)
    ensures var r := ApplyRow(a, row, impacts);
            var added := Scale(FuelImpacts(impacts, row.variable), row.value / 100.0);
            && r.global == Add(a.global, added)
            && (row.variable in GreenEnergies ==>
                  r.green == Add(a.green, added) && r.greenRatio == a.greenRatio + row.value / 100.0)
            && (row.variable !in GreenEnergies ==> r.green == a.green && r.greenRatio == a.greenRatio)
            && r.generatedKWh == a.generatedKWh && r.importedKWh == a.importedKWh
  {
    var share := row.value / 100.0;
    var source := FuelImpacts(impacts, row.variable);
    AddScaled(a.global, source, share);
    AddScaled(a.green, source, share);
  }

  /** Combining with target coefficient 1 adds the scaled source. */
  lemma AddScaled(target: Impacts, source: Impacts, c: real)
    ensures Combine(target, source, 1.0, c) == Add(target, Scale(source, c))
  {
    var x := Combine(target, source, 1.0, c);
    var y := Add(target, Scale(source, c));
    forall k: Key ensures x.Get(k) == y.Get(k) {
      assert target.Get(k) * 1.0 == target.Get(k);
      assert Scale(source, c).Get(k) == source.Get(k) * c;
    }
    Extensionality(x, y);
  }

  /** A generation-total row overwrites `generatedKWh` and nothing else. */
  lemma GeneratedTotalUpdate(a: Aggregate, row: Row, impacts: map<string, Impacts>)
    requires IsGeneratedTotal(row)
    ensures ApplyRow(a, row, impacts) == a.(generatedKWh := row.value)
  {
  }

  /** An imports row overwrites `importedKWh` and nothing else. */
  lemma ImportedTotalUpdate(a: Aggregate, row: Row, impacts: map<string, Impacts>)
    requires IsImportedTotal(row)
    ensures ApplyRow(a, row, impacts) == a.(importedKWh := row.value)
  {
  }

  /** Any other category, subcategory and unit changes no field. */
  lemma OtherRowIgnored(a: Aggregate, row: Row, impacts: map<string, Impacts>)
    requires !IsFuelShare(row) && !IsGeneratedTotal(row) && !IsImportedTotal(row)
    ensures ApplyRow(a, row, impacts) == a
  {
  }
}
