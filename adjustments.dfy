/**
 * The two whole-store corrections that follow gap filling: the green ratio
 * correction (index.ts:237-249) and the blending of a country's impacts
 * with its continent's in proportion to imported energy (index.ts:250-275).
 */
module Adjustments {
  import opened Wrappers
  import opened Impact
  import opened Region
  import opened Ingestion

  // ---------------------------------------------------------------------
  // Green ratio correction
  // ---------------------------------------------------------------------

  /**
   * A positive green ratio divides the green vector by it: the green
   * vector, summed over green fuels weighted by their shares, becomes a
   * mean over the green part of the mix.  Other entries are left as they are.
   */
  function CorrectGreen(a: Aggregate): (r: Aggregate)
    ensures a.greenRatio > 0.0 ==> Scale(r.green, a.greenRatio) == a.green
    ensures a.greenRatio <= 0.0 ==> r == a
    ensures r.(green := a.green) == a
  {
    if a.greenRatio > 0.0 then
      ScaleInverse(a.green, a.greenRatio);
      a.(green := Scale(a.green, 1.0 / a.greenRatio))
    else a
  }

  /**
   * The correction applied to every entry of one region: the same periods,
   * each green vector divided by its positive ratio, every other field kept.
   */
  function CorrectSeries(series: Series): (r: Series)
    ensures r.Keys == series.Keys
    ensures forall p :: p in series ==> r[p].(green := series[p].green) == series[p]
    ensures forall p :: p in series && series[p].greenRatio > 0.0 ==> Scale(r[p].green, series[p].greenRatio) == series[p].green
    ensures forall p :: p in series && series[p].greenRatio <= 0.0 ==> r[p] == series[p]
  {
    map p | p in series :: CorrectGreen(series[p])
  }

  /** The correction applied to every entry of every region: the same regions and periods, only green vectors change. */
  function CorrectStore(aggs: Store): (r: Store)
    ensures r.Keys == aggs.Keys
    ensures forall x :: x in aggs ==> r[x].Keys == aggs[x].Keys
    ensures forall x, p :: x in aggs && p in aggs[x] ==> r[x][p].(green := aggs[x][p].green) == aggs[x][p]
    ensures forall x, p :: x in aggs && p in aggs[x] ==> r[x][p] == CorrectGreen(aggs[x][p])
  {
    map r | r in aggs :: CorrectSeries(aggs[r])
  }

  /** Weighted terms (share, impacts), in the order the rows added them: the sum of impacts * share. */
  function WeightedSum(terms: seq<(real, Impacts)>): Impacts {
    if terms == [] then Empty
    else Add(WeightedSum(terms[..|terms| - 1]), Scale(terms[|terms| - 1].1, terms[|terms| - 1].0))
  }

  /** The sum of the shares. */
  function TotalWeight(terms: seq<(real, Impacts)>): real {
    if terms == [] then 0.0 else TotalWeight(terms[..|terms| - 1]) + terms[|terms| - 1].0
  }

  /** The rows of one (region, period) applied in order to an aggregate. */
  function ApplyRows(a: Aggregate, rows: seq<Row>, impacts: map<string, Impacts>): Aggregate {
    if rows == [] then a else ApplyRow(ApplyRows(a, rows[..|rows| - 1], impacts), rows[|rows| - 1], impacts)
  }

  /** The (share, impacts) term a row adds to the green vector: one for a green fuel share, none otherwise. */
  function RowTerms(row: Row, impacts: map<string, Impacts>): seq<(real, Impacts)> {
    if IsFuelShare(row) && row.variable in GreenEnergies then [(row.value / 100.0, FuelImpacts(impacts, row.variable))] else []
  }

  /** The terms of all rows, in order. */
  function GreenTerms(rows: seq<Row>, impacts: map<string, Impacts>): seq<(real, Impacts)> {
    if rows == [] then [] else GreenTerms(rows[..|rows| - 1], impacts) + RowTerms(rows[|rows| - 1], impacts)
  }

  lemma WeightedSumAppend(terms: seq<(real, Impacts)>, t: (real, Impacts))
    ensures WeightedSum(terms + [t]) == Add(WeightedSum(terms), Scale(t.1, t.0))
    ensures TotalWeight(terms + [t]) == TotalWeight(terms) + t.0
  {
    assert (terms + [t])[..|terms|] == terms;
  }

  /** One row extends the green vector and ratio by its own term. */
  lemma GreenStep(a: Aggregate, row: Row, impacts: map<string, Impacts>, prior: seq<(real, Impacts)>)
    requires a.green == WeightedSum(prior) && a.greenRatio == TotalWeight(prior)
    ensures ApplyRow(a, row, impacts).green == WeightedSum(prior + RowTerms(row, impacts))
    ensures ApplyRow(a, row, impacts).greenRatio == TotalWeight(prior + RowTerms(row, impacts))
  {
    if IsFuelShare(row) {
      FuelShareUpdate(a, row, impacts);
      if row.variable in GreenEnergies {
        WeightedSumAppend(prior, RowTerms(row, impacts)[0]);
      } else {
        assert prior + RowTerms(row, impacts) == prior;
      }
    } else {
      assert prior + RowTerms(row, impacts) == prior;
      if IsGeneratedTotal(row) {
        GeneratedTotalUpdate(a, row, impacts);
      } else if IsImportedTotal(row) {
        ImportedTotalUpdate(a, row, impacts);
      } else {
        OtherRowIgnored(a, row, impacts);
      }
    }
  }

  /**
   * Whatever rows reach one aggregate, its green vector grows by the green
   * fuels' impacts weighted by their shares, and its green ratio by the
   * shares.
   */
  lemma {:induction false} GreenAccumulates(a: Aggregate, rows: seq<Row>, impacts: map<string, Impacts>, prior: seq<(real, Impacts)>)
    requires a.green == WeightedSum(prior) && a.greenRatio == TotalWeight(prior)
    ensures ApplyRows(a, rows, impacts).green == WeightedSum(prior + GreenTerms(rows, impacts))
    ensures ApplyRows(a, rows, impacts).greenRatio == TotalWeight(prior + GreenTerms(rows, impacts))
  {
    if rows == [] {
      assert prior + GreenTerms(rows, impacts) == prior;
    } else {
      var init := rows[..|rows| - 1];
      var last := rows[|rows| - 1];
      GreenAccumulates(a, init, impacts, prior);
      GreenStep(ApplyRows(a, init, impacts), last, impacts, prior + GreenTerms(init, impacts));
      assert prior + GreenTerms(init, impacts) + RowTerms(last, impacts) == prior + GreenTerms(rows, impacts);
    }
  }

  /**
   * The meaning of the correction: for the rows of one (region, period)
   * with a positive green ratio, the green ratio is the total share of the
   * green fuels and the corrected green vector is their share-weighted
   * mean, that is, scaled by the total share it gives back the
   * share-weighted sum of their impacts.
   */
  lemma CorrectedGreenIsMean(rows: seq<Row>, impacts: map<string, Impacts>)
    requires ApplyRows(ZeroAggregate, rows, impacts).greenRatio > 0.0
    ensures var a := ApplyRows(ZeroAggregate, rows, impacts);
            var terms := GreenTerms(rows, impacts);
            && a.greenRatio == TotalWeight(terms)
            && Scale(CorrectGreen(a).green, TotalWeight(terms)) == WeightedSum(terms)
  {
    GreenAccumulates(ZeroAggregate, rows, impacts, []);
    assert [] + GreenTerms(rows, impacts) == GreenTerms(rows, impacts);
  }

  // ---------------------------------------------------------------------
  // Import blending
  // ---------------------------------------------------------------------

  datatype BlendError =
    | MissingContinentEntry(region: string)  // `aggregates[COUNTRY_EMBER_REGIONS[region]][period]` undefined for an importing period

  /** `importedKWh > 0` */
  predicate Imports(a: Aggregate) {
    a.importedKWh > 0.0
  }

  /**
   * One vector of a country blended with its continent's: combineImpacts
   * with coefficients generated / total and imported / total, where total
   * is the consumption generated + imported.
   */
  function BlendVector(own: Impacts, continent: Impacts, generated: real, imported: real): Impacts
    requires generated + imported != 0.0
  {
    Combine(own, continent, generated / (generated + imported), imported / (generated + imported))
  }

  /**
   * A country entry blended with its continent's entry for the same period:
   * `global` and `green` are blended, every other field is kept.  A zero
   * total keeps the entry (see README).
   */
  function BlendEntry(a: Aggregate, c: Aggregate): (r: Aggregate)
    ensures r.(global := a.global, green := a.green) == a
    ensures a.generatedKWh + a.importedKWh != 0.0 ==>
      && r.global == BlendVector(a.global, c.global, a.generatedKWh, a.importedKWh)
      && r.green == BlendVector(a.green, c.green, a.generatedKWh, a.importedKWh)
    ensures a.generatedKWh + a.importedKWh == 0.0 ==> r == a
  {
    var total := a.generatedKWh + a.importedKWh;
    if total == 0.0 then a
    else
      a.(global := BlendVector(a.global, c.global, a.generatedKWh, a.importedKWh),
         green := BlendVector(a.green, c.green, a.generatedKWh, a.importedKWh))
  }

  lemma CombineAt(t: Impacts, s: Impacts, a: real, b: real, k: Key)
    ensures Combine(t, s, a, b).Get(k) == t.Get(k) * a + s.Get(k) * b
  {
    CombineGet(t, s, a, b);
  }

  lemma Distribute(x: real, y: real, a: real, b: real, w: real)
    ensures (x * a + y * b) * w == x * (a * w) + y * (b * w)
  {
  }

  /** Coefficients that are shares of w give a combination which, times w, is the weighted sum. */
  lemma CombineTimesTotal(t: Impacts, s: Impacts, a: real, b: real, w: real, g: real, i: real, k: Key)
    requires a * w == g && b * w == i
    ensures Combine(t, s, a, b).Get(k) * w == t.Get(k) * g + s.Get(k) * i
  {
    CombineAt(t, s, a, b, k);
    Distribute(t.Get(k), s.Get(k), a, b, w);
  }

  lemma QuotientTimes(x: real, w: real)
    requires w != 0.0
    ensures (x / w) * w == x
  {
  }

  /**
   * The blended vector is the consumption-weighted mean of the country's
   * and the continent's: under every key,
   * blended * (generated + imported) == own * generated + continent * imported.
   */
  lemma BlendIsWeightedMean(own: Impacts, continent: Impacts, generated: real, imported: real, k: Key)
    requires generated + imported != 0.0
    ensures BlendVector(own, continent, generated, imported).Get(k) * (generated + imported)
            == own.Get(k) * generated + continent.Get(k) * imported
  {
    var total := generated + imported;
    var blended := BlendVector(own, continent, generated, imported);
    assert blended == Combine(own, continent, generated / total, imported / total);
    QuotientTimes(generated, total);
    QuotientTimes(imported, total);
    CombineTimesTotal(own, continent, generated / total, imported / total, total, generated, imported, k);
  }

  /** The country and continent coefficients sum to 1. */
  lemma BlendCoefficients(generated: real, imported: real)
    requires generated + imported != 0.0
    ensures generated / (generated + imported) + imported / (generated + imported) == 1.0
  {
  }

  /** Blending a vector with an equal one changes nothing. */
  lemma BlendWithEqual(own: Impacts, generated: real, imported: real)
    requires generated + imported != 0.0
    ensures BlendVector(own, own, generated, imported) == own
  {
    BlendCoefficients(generated, imported);
    ConvexOfEqual(own, generated / (generated + imported), imported / (generated + imported));
  }

  /** When imports equal generation, the blend is the midpoint of the two vectors. */
  lemma BlendMidpoint(own: Impacts, continent: Impacts, kwh: real)
    requires kwh != 0.0
    ensures BlendVector(own, continent, kwh, kwh) == Combine(own, continent, 0.5, 0.5)
  {
    assert kwh / (kwh + kwh) == 0.5;
  }

  /** A country that generates nothing and imports takes its continent's vector. */
  lemma BlendWithoutGeneration(own: Impacts, continent: Impacts, imported: real)
    requires imported != 0.0
    ensures BlendVector(own, continent, 0.0, imported) == continent
  {
    assert 0.0 / (0.0 + imported) == 0.0 && imported / (0.0 + imported) == 1.0;
    CombineGet(own, continent, 0.0, 1.0);
    Extensionality(Combine(own, continent, 0.0, 1.0), continent);
  }

  /** Every importing entry of the series has a continent entry for its period. */
  predicate CanBlend(series: Series, parent: Option<Series>) {
    forall p :: p in series && Imports(series[p]) ==> parent.Some? && p in parent.value
  }

  /** The entries of one country, blended where they import (the period loop of index.ts:254-273). */
  function BlendSeries(series: Series, parent: Series): (r: Series)
    ensures r.Keys == series.Keys
    ensures forall p :: p in series ==> r[p].(global := series[p].global, green := series[p].green) == series[p]
    ensures forall p :: p in series && !Imports(series[p]) ==> r[p] == series[p]
    ensures forall p :: p in series && p in parent && Imports(series[p]) ==> r[p] == BlendEntry(series[p], parent[p])
  {
    map p | p in series :: if Imports(series[p]) && p in parent then BlendEntry(series[p], parent[p]) else series[p]
  }

  /** The number of entries of a series that import: the `updates` the loop counts. */
  function ImportCount(series: Series): nat {
    |set p | p in series && Imports(series[p])|
  }

  /** The continent series of a country, if COUNTRY_EMBER_REGIONS names a region of the store. */
  function ContinentSeries(aggs: Store, countryRegions: map<string, string>, region: string): Option<Series> {
    if region in countryRegions && countryRegions[region] in aggs then Some(aggs[countryRegions[region]]) else None
  }

  /** Region `r` can be blended in store `aggs`. */
  predicate Blendable(aggs: Store, countryRegions: map<string, string>, r: string) {
    r in aggs && CanBlend(aggs[r], ContinentSeries(aggs, countryRegions, r))
  }

  /**
   * The countries of `regions`, one after the other, each reading its
   * continent's series as it stands at that moment.
   */
  function BlendRegions(aggs: Store, countryRegions: map<string, string>, regions: seq<string>): (res: Result<Store, BlendError>)
    requires forall r :: r in regions ==> r in aggs
    ensures res.Success? ==> res.value.Keys == aggs.Keys
    decreases |regions|
  {
    if regions == [] then Success(aggs)
    else
      var region := regions[0];
      var series := aggs[region];
      var parent := ContinentSeries(aggs, countryRegions, region);
      if !CanBlend(series, parent) then Failure(MissingContinentEntry(region))
      else
        var blended := if parent.Some? then BlendSeries(series, parent.value) else series;
        BlendRegions(aggs[region := blended], countryRegions, regions[1..])
  }

  /** The `updates` counter: the importing entries of the visited regions. */
  function Updates(aggs: Store, regions: seq<string>): nat
    requires forall r :: r in regions ==> r in aggs
  {
    if regions == [] then 0 else ImportCount(aggs[regions[0]]) + Updates(aggs, regions[1..])
  }

  /**
   * index.ts:250-275: every country region of the store, in key order, and
   * the number of blended entries.  A failure names a country of the store.
   */
  function BlendImports(aggs: Store, order: seq<string>, countryRegions: map<string, string>): (res: Result<(Store, nat), BlendError>)
    requires forall r :: r in order ==> r in aggs
    ensures res.Success? ==> res.value.0.Keys == aggs.Keys
    ensures res.Failure? ==> res.error.region in order && IsCountry(res.error.region)
  {
    var countries := Filter(order, CountryScope);
    BlendSucceeds(aggs, countryRegions, countries);
    match BlendRegions(aggs, countryRegions, countries)
    case Failure(e) => Failure(e)
    case Success(blended) => Success((blended, Updates(aggs, countries)))
  }

  /** Without an importing entry, a series is left as it is. */
  lemma BlendSeriesWithoutImports(series: Series, parent: Series)
    requires forall p :: p in series ==> !Imports(series[p])
    ensures BlendSeries(series, parent) == series
  {
  }

  /** An entry with its vectors blanked: what blending cannot change. */
  function Strip(a: Aggregate): Aggregate {
    a.(global := Empty, green := Empty)
  }

  /** The store with every vector blanked: its regions, periods, ratios and energy figures. */
  function Outline(aggs: Store): map<string, Series> {
    map r | r in aggs :: map p | p in aggs[r] :: Strip(aggs[r][p])
  }

  /** Replacing one region's series by one with the same periods and stripped entries keeps the outline. */
  lemma OutlineUpdate(aggs: Store, region: string, series: Series)
    requires region in aggs && series.Keys == aggs[region].Keys
    requires forall p :: p in series ==> Strip(series[p]) == Strip(aggs[region][p])
    ensures Outline(aggs[region := series]) == Outline(aggs)
  {
    var a := Outline(aggs[region := series]);
    var b := Outline(aggs);
    assert a[region] == b[region];
    assert forall r :: r in aggs ==> a[r] == b[r];
  }

  /** Two stores with the same outline have the same periods and the same imports under a region. */
  lemma OutlineAt(a: Store, b: Store, r: string)
    requires Outline(a) == Outline(b) && r in a
    ensures r in b && a[r].Keys == b[r].Keys
    ensures forall p :: p in a[r] ==> (Imports(a[r][p]) <==> Imports(b[r][p]))
  {
    assert r in Outline(a);
    var oa := Outline(a)[r];
    var ob := Outline(b)[r];
    assert oa.Keys == a[r].Keys && ob.Keys == b[r].Keys;
    forall p | p in a[r] ensures Imports(a[r][p]) <==> Imports(b[r][p]) {
      assert oa[p] == ob[p];
    }
  }

  /** Two stores with the same outline can be blended in the same places. */
  lemma BlendableOutline(a: Store, b: Store, countryRegions: map<string, string>, r: string)
    requires Outline(a) == Outline(b)
    ensures Blendable(a, countryRegions, r) <==> Blendable(b, countryRegions, r)
  {
    assert a.Keys == Outline(a).Keys == Outline(b).Keys == b.Keys;
    if r in a {
      OutlineAt(a, b, r);
      if r in countryRegions && countryRegions[r] in a {
        OutlineAt(a, b, countryRegions[r]);
      }
    }
  }

  /** The blend step on one region keeps the outline of the store. */
  lemma BlendStepOutline(aggs: Store, countryRegions: map<string, string>, region: string)
    requires region in aggs
    ensures var parent := ContinentSeries(aggs, countryRegions, region);
            var blended := if parent.Some? then BlendSeries(aggs[region], parent.value) else aggs[region];
            Outline(aggs[region := blended]) == Outline(aggs)
  {
    var parent := ContinentSeries(aggs, countryRegions, region);
    if parent.Some? {
      var blended := BlendSeries(aggs[region], parent.value);
      forall p | p in blended ensures Strip(blended[p]) == Strip(aggs[region][p]) {
        assert blended[p].(global := aggs[region][p].global, green := aggs[region][p].green) == aggs[region][p];
      }
      OutlineUpdate(aggs, region, blended);
    } else {
      assert aggs[region := aggs[region]] == aggs;
    }
  }

  /** Two stores with the same outline count the same importing entries under a region. */
  lemma ImportCountOutline(a: Store, b: Store, r: string)
    requires Outline(a) == Outline(b) && r in a
    ensures r in b && ImportCount(a[r]) == ImportCount(b[r])
  {
    OutlineAt(a, b, r);
    assert (set p | p in a[r] && Imports(a[r][p])) == (set p | p in b[r] && Imports(b[r][p]));
  }

  /** Two stores with the same outline have the same `updates` over any regions. */
  lemma {:induction false} UpdatesOutline(a: Store, b: Store, regions: seq<string>)
    requires Outline(a) == Outline(b) && forall r :: r in regions ==> r in a
    ensures (forall r :: r in regions ==> r in b) && Updates(a, regions) == Updates(b, regions)
  {
    assert a.Keys == Outline(a).Keys == Outline(b).Keys == b.Keys;
    if regions != [] {
      ImportCountOutline(a, b, regions[0]);
      UpdatesOutline(a, b, regions[1..]);
    }
  }

  /**
   * Blending changes only vectors: every region, period, ratio and energy
   * figure stays.
   */
  lemma {:induction false} BlendRegionsOutline(aggs: Store, countryRegions: map<string, string>, regions: seq<string>)
    requires forall r :: r in regions ==> r in aggs
    ensures var res := BlendRegions(aggs, countryRegions, regions);
            res.Success? ==> Outline(res.value) == Outline(aggs)
    decreases |regions|
  {
    var res := BlendRegions(aggs, countryRegions, regions);
    if regions != [] && res.Success? {
      var region := regions[0];
      var series := aggs[region];
      var parent := ContinentSeries(aggs, countryRegions, region);
      var blended := if parent.Some? then BlendSeries(series, parent.value) else series;
      BlendStepOutline(aggs, countryRegions, region);
      BlendRegionsOutline(aggs[region := blended], countryRegions, regions[1..]);
    }
  }

  /** Regions the blend does not visit (World, the continents) stay exactly as they were. */
  lemma {:induction false} BlendRegionsUnvisited(aggs: Store, countryRegions: map<string, string>, regions: seq<string>, r: string)
    requires forall r :: r in regions ==> r in aggs
    requires r in aggs && r !in regions
    ensures var res := BlendRegions(aggs, countryRegions, regions);
            res.Success? ==> res.value[r] == aggs[r]
    decreases |regions|
  {
    var res := BlendRegions(aggs, countryRegions, regions);
    if regions != [] && res.Success? {
      var region := regions[0];
      var series := aggs[region];
      var parent := ContinentSeries(aggs, countryRegions, region);
      var blended := if parent.Some? then BlendSeries(series, parent.value) else series;
      BlendRegionsUnvisited(aggs[region := blended], countryRegions, regions[1..], r);
    }
  }

  /** An entry that does not import stays exactly as it was. */
  lemma {:induction false} BlendRegionsNonImporting(aggs: Store, countryRegions: map<string, string>, regions: seq<string>, r: string, p: string)
    requires forall r :: r in regions ==> r in aggs
    requires r in aggs && p in aggs[r] && !Imports(aggs[r][p])
    ensures var res := BlendRegions(aggs, countryRegions, regions);
            res.Success? ==> r in res.value && p in res.value[r] && res.value[r][p] == aggs[r][p]
    decreases |regions|
  {
    var res := BlendRegions(aggs, countryRegions, regions);
    if regions != [] && res.Success? {
      var region := regions[0];
      var series := aggs[region];
      var parent := ContinentSeries(aggs, countryRegions, region);
      var blended := if parent.Some? then BlendSeries(series, parent.value) else series;
      var aggs' := aggs[region := blended];
      assert aggs'[r][p] == aggs[r][p];
      BlendRegionsNonImporting(aggs', countryRegions, regions[1..], r, p);
    }
  }

  /**
   * An importing entry of a visited country ends up blended with its
   * continent's entry for the same period, the continent's series being
   * the one the store held before the blend (it is not itself visited).
   */
  lemma {:induction false} BlendRegionsImporting(aggs: Store, countryRegions: map<string, string>, regions: seq<string>,
                                                 r: string, p: string)
    requires forall x :: x in regions ==> x in aggs
    requires Distinct(regions)
    requires r in regions && p in aggs[r] && Imports(aggs[r][p])
    requires r in countryRegions ==> countryRegions[r] !in regions
    ensures var res := BlendRegions(aggs, countryRegions, regions);
            res.Success? ==>
              && r in countryRegions && countryRegions[r] in aggs && p in aggs[countryRegions[r]]
              && r in res.value && p in res.value[r]
              && res.value[r][p] == BlendEntry(aggs[r][p], aggs[countryRegions[r]][p])
    decreases |regions|
  {
    var res := BlendRegions(aggs, countryRegions, regions);
    if res.Success? {
      var region := regions[0];
      var series := aggs[region];
      var parent := ContinentSeries(aggs, countryRegions, region);
      assert CanBlend(series, parent);
      var blended := if parent.Some? then BlendSeries(series, parent.value) else series;
      var aggs' := aggs[region := blended];
      assert res == BlendRegions(aggs', countryRegions, regions[1..]);
      if region == r {
        assert r !in regions[1..];
        BlendRegionsUnvisited(aggs', countryRegions, regions[1..], r);
      } else {
        assert r in regions[1..] && Distinct(regions[1..]);
        assert aggs'[r] == aggs[r];
        BlendRegionsImporting(aggs', countryRegions, regions[1..], r, p);
        assert countryRegions[r] != region;
      }
    }
  }

  /**
   * After a successful blend, an importing entry of a country of the store
   * is BlendEntry of itself and its continent's entry for that period, as
   * both stood before the blend.
   */
  lemma BlendImportsImporting(aggs: Store, order: seq<string>, countryRegions: map<string, string>, r: string, p: string)
    requires forall x :: x in order ==> x in aggs
    requires Distinct(order)
    requires r in order && IsCountry(r) && p in aggs[r] && Imports(aggs[r][p])
    requires r in countryRegions ==> !IsCountry(countryRegions[r])
    ensures var res := BlendImports(aggs, order, countryRegions);
            res.Success? ==>
              && r in countryRegions && countryRegions[r] in aggs && p in aggs[countryRegions[r]]
              && r in res.value.0 && p in res.value.0[r]
              && res.value.0[r][p] == BlendEntry(aggs[r][p], aggs[countryRegions[r]][p])
  {
    var countries := Filter(order, CountryScope);
    FilterDistinct(order, CountryScope);
    BlendRegionsImporting(aggs, countryRegions, countries, r, p);
  }

  /**
   * The blend succeeds exactly when every visited country has a continent
   * entry for each period in which it imports; otherwise it fails at a
   * country that lacks one.
   */
  lemma {:induction false} BlendSucceeds(aggs: Store, countryRegions: map<string, string>, regions: seq<string>)
    requires forall r :: r in regions ==> r in aggs
    ensures var res := BlendRegions(aggs, countryRegions, regions);
            && (res.Success? <==> forall r :: r in regions ==> Blendable(aggs, countryRegions, r))
            && (res.Failure? ==> res.error.region in regions && !Blendable(aggs, countryRegions, res.error.region))
    decreases |regions|
  {
    if regions != [] {
      var region := regions[0];
      var series := aggs[region];
      var parent := ContinentSeries(aggs, countryRegions, region);
      if CanBlend(series, parent) {
        var blended := if parent.Some? then BlendSeries(series, parent.value) else series;
        var aggs' := aggs[region := blended];
        BlendStepOutline(aggs, countryRegions, region);
        BlendSucceeds(aggs', countryRegions, regions[1..]);
        forall r | r in regions[1..] ensures Blendable(aggs', countryRegions, r) <==> Blendable(aggs, countryRegions, r) {
          BlendableOutline(aggs, aggs', countryRegions, r);
        }
      }
    }
  }

  /** The counter is zero exactly when no entry of a series imports. */
  lemma ImportCountZero(series: Series)
    ensures ImportCount(series) == 0 <==> forall p :: p in series ==> !Imports(series[p])
  {
    var importing := set p | p in series && Imports(series[p]);
    if p :| p in series && Imports(series[p]) {
      assert p in importing;
    } else {
      assert importing == {};
    }
  }

  /** `updates` stays zero exactly when no entry of a visited region imports. */
  lemma {:induction false} UpdatesZero(aggs: Store, regions: seq<string>)
    requires forall r :: r in regions ==> r in aggs
    ensures Updates(aggs, regions) == 0 <==> forall r, p :: r in regions && p in aggs[r] ==> !Imports(aggs[r][p])
    decreases |regions|
  {
    if regions != [] {
      ImportCountZero(aggs[regions[0]]);
      UpdatesZero(aggs, regions[1..]);
      assert forall r :: r in regions <==> r == regions[0] || r in regions[1..];
    }
  }

  /** Without an importing entry in the visited regions, blending leaves the store as it is. */
  lemma {:induction false} BlendWithoutImports(aggs: Store, countryRegions: map<string, string>, regions: seq<string>)
    requires forall r :: r in regions ==> r in aggs
    requires forall r, p :: r in regions && p in aggs[r] ==> !Imports(aggs[r][p])
    ensures BlendRegions(aggs, countryRegions, regions) == Success(aggs)
    decreases |regions|
  {
    if regions != [] {
      var region := regions[0];
      var parent := ContinentSeries(aggs, countryRegions, region);
      if parent.Some? {
        BlendSeriesWithoutImports(aggs[region], parent.value);
      }
      assert aggs[region := aggs[region]] == aggs;
      BlendWithoutImports(aggs, countryRegions, regions[1..]);
    }
  }
}
