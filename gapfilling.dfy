/**
 * Gap filling (index.ts:201-236): six ordered passes, yearly then
 * monthly, each over the World, continent and country regions.  For each
 * region the pass walks its periods in order; a missing entry becomes a
 * copy of the previous period's entry, or, for the first period only, of
 * the parent region's entry for the same period.
 */
module GapFilling {
  import opened Wrappers
  import opened Impact
  import opened Region
  import opened Periods

  datatype FillError =
    | CannotFill(region: string, period: string)     // the explicit throw for a World region (index.ts:220)
    | MissingParent(region: string, period: string)  // cloning a parent entry that does not exist (index.ts:217-219)

  /** The error for a first period that has neither an entry nor a parent entry. */
  function FillFailure(scope: Scope, region: string, period: string): FillError {
    if scope == WorldScope then CannotFill(region, period) else MissingParent(region, period)
  }

  /**
   * The series a region falls back to for its first period: World's for a
   * continent, the recorded continent's for a country, none for World.
   */
  function ParentSeries(aggs: Store, countryRegions: map<string, string>, scope: Scope, region: string): Option<Series> {
    match scope
    case WorldScope => None
    case ContinentScope => if World in aggs then Some(aggs[World]) else None
    case CountryScope =>
      if region in countryRegions && countryRegions[region] in aggs then Some(aggs[countryRegions[region]]) else None
  }

  /**
   * The entry period `p` ends up with: its own, else a copy of the previous
   * period's entry `last`, else a copy of the parent's entry for `p`.
   */
  function FillEntry(series: Series, parent: Option<Series>, p: string, last: Option<Aggregate>): (v: Option<Aggregate>)
    ensures p in series ==> v == Some(series[p])
    ensures p !in series && last.Some? ==> v == last
    ensures p !in series && last.None? ==>
              (v.Some? <==> parent.Some? && p in parent.value) && (v.Some? ==> v.value == parent.value[p])
  {
    if p in series then Some(series[p])
    else if last.Some? then last
    else if parent.Some? && p in parent.value then Some(parent.value[p])
    else None
  }

  /**
   * `last = fill(period)` over the remaining periods `ps` of one region;
   * `last` is the entry of the previous period, `misses` the additions so far.
   */
  function FillSeries(series: Series, parent: Option<Series>, scope: Scope, region: string,
                      ps: seq<string>, last: Option<Aggregate>, misses: nat): Result<(Series, nat), FillError>
    decreases |ps|
  {
    if ps == [] then Success((series, misses))
    else
      match FillEntry(series, parent, ps[0], last)
      case None => Failure(FillFailure(scope, region, ps[0]))
      case Some(v) =>
        FillSeries(series[ps[0] := v], parent, scope, region, ps[1..], Some(v), misses + if ps[0] in series then 0 else 1)
  }

  /** The periods of `ps`, as a set. */
  function PeriodSet(ps: seq<string>): (r: set<string>)
    ensures forall p :: p in r <==> p in ps
  {
    if ps == [] then {} else {ps[0]} + PeriodSet(ps[1..])
  }

  /**
   * Filling a series fails exactly when there is no previous entry and the
   * first period has neither an entry nor a parent entry, and then it names
   * that first period.
   */
  lemma {:induction false} FillSeriesFailure(series: Series, parent: Option<Series>, scope: Scope, region: string,
                                             ps: seq<string>, last: Option<Aggregate>, misses: nat)
    ensures var res := FillSeries(series, parent, scope, region, ps, last, misses);
            && (res.Failure? <==> last.None? && |ps| > 0 && ps[0] !in series && !(parent.Some? && ps[0] in parent.value))
            && (res.Failure? ==> res.error == FillFailure(scope, region, ps[0]))
    decreases |ps|
  {
    if ps != [] {
      var v := FillEntry(series, parent, ps[0], last);
      if v.Some? {
        var m := misses + if ps[0] in series then 0 else 1;
        FillSeriesFailure(series[ps[0] := v.value], parent, scope, region, ps[1..], v, m);
      }
    }
  }

  /** A filled series holds every period and keeps every entry it had. */
  lemma {:induction false} FillSeriesKeeps(series: Series, parent: Option<Series>, scope: Scope, region: string,
                                           ps: seq<string>, last: Option<Aggregate>, misses: nat)
    ensures var res := FillSeries(series, parent, scope, region, ps, last, misses);
            res.Success? ==>
              && res.value.0.Keys == series.Keys + PeriodSet(ps)
              && (forall p :: p in series ==> res.value.0[p] == series[p])
    decreases |ps|
  {
    if ps != [] {
      var v := FillEntry(series, parent, ps[0], last);
      if v.Some? {
        var m := misses + if ps[0] in series then 0 else 1;
        FillSeriesKeeps(series[ps[0] := v.value], parent, scope, region, ps[1..], v, m);
      }
    }
  }

  /** The number of periods of `ps` that have no entry in `series`. */
  function MissingCount(series: Series, ps: seq<string>): (n: nat)
    ensures n <= |ps|
    ensures n == 0 <==> forall p :: p in ps ==> p in series
  {
    if ps == [] then 0 else (if ps[0] in series then 0 else 1) + MissingCount(series, ps[1..])
  }

  /** An entry for a period outside `ps` does not change what `ps` is missing. */
  lemma {:induction false} MissingCountFrame(series: Series, ps: seq<string>, p: string, v: Aggregate)
    requires p !in ps
    ensures MissingCount(series[p := v], ps) == MissingCount(series, ps)
  {
    if ps != [] {
      MissingCountFrame(series, ps[1..], p, v);
    }
  }

  /** The miss counter grows by exactly the number of entries created. */
  lemma {:induction false} FillSeriesMisses(series: Series, parent: Option<Series>, scope: Scope, region: string,
                                            ps: seq<string>, last: Option<Aggregate>, misses: nat)
    requires Distinct(ps)
    ensures var res := FillSeries(series, parent, scope, region, ps, last, misses);
            res.Success? ==> res.value.1 == misses + MissingCount(series, ps)
    decreases |ps|
  {
    if ps != [] {
      var v := FillEntry(series, parent, ps[0], last);
      if v.Some? {
        var m := misses + if ps[0] in series then 0 else 1;
        DistinctTail(ps);
        FillSeriesMisses(series[ps[0] := v.value], parent, scope, region, ps[1..], v, m);
        MissingCountFrame(series, ps[1..], ps[0], v.value);
      }
    }
  }

  lemma DistinctTail(ps: seq<string>)
    requires |ps| > 0 && Distinct(ps)
    ensures Distinct(ps[1..]) && ps[0] !in ps[1..]
  {
    var rest := ps[1..];
    forall i, j | 0 <= i < j < |rest| ensures rest[i] != rest[j] {
      assert rest[i] == ps[i + 1] && rest[j] == ps[j + 1];
    }
    forall i | 0 <= i < |rest| ensures rest[i] != ps[0] {
      assert rest[i] == ps[i + 1];
    }
  }

  /**
   * Every entry a pass creates is a copy of the previous period's entry of
   * the same region; only the first period copies `last` or, with no
   * `last`, the parent's entry for that same period.
   */
  lemma {:induction false} FillSeriesCopies(series: Series, parent: Option<Series>, scope: Scope, region: string,
                                            ps: seq<string>, last: Option<Aggregate>, misses: nat)
    requires Distinct(ps)
    requires FillSeries(series, parent, scope, region, ps, last, misses).Success?
    ensures var out := FillSeries(series, parent, scope, region, ps, last, misses).value.0;
            && (forall k :: 1 <= k < |ps| && ps[k] !in series ==>
                  ps[k] in out && ps[k - 1] in out && out[ps[k]] == out[ps[k - 1]])
            && (|ps| > 0 && ps[0] !in series && last.Some? ==> ps[0] in out && out[ps[0]] == last.value)
            && (|ps| > 0 && ps[0] !in series && last.None? ==>
                  parent.Some? && ps[0] in parent.value && ps[0] in out && out[ps[0]] == parent.value[ps[0]])
    decreases |ps|
  {
    FillSeriesFailure(series, parent, scope, region, ps, last, misses);
    if ps != [] {
      var p := ps[0];
      var rest := ps[1..];
      var v := FillEntry(series, parent, p, last);
      var series' := series[p := v.value];
      var m := misses + if p in series then 0 else 1;
      DistinctTail(ps);
      FillSeriesCopies(series', parent, scope, region, rest, v, m);
      FillSeriesKeeps(series', parent, scope, region, rest, v, m);
      var out := FillSeries(series', parent, scope, region, rest, v, m).value.0;
      assert out[p] == v.value;
      forall k | 1 <= k < |ps| && ps[k] !in series
        ensures ps[k] in out && ps[k - 1] in out && out[ps[k]] == out[ps[k - 1]]
      {
        assert ps[k] == rest[k - 1];
        assert ps[k] != p;
      }
    }
  }

  /** One region after another, threading the shared miss counter (the region loop of index.ts:212). */
  function FillRegions(aggs: Store, countryRegions: map<string, string>, scope: Scope,
                       regions: seq<string>, ps: seq<string>, misses: nat): (res: Result<(Store, nat), FillError>)
    requires forall r :: r in regions ==> r in aggs
    ensures res.Success? ==> res.value.0.Keys == aggs.Keys
    decreases |regions|
  {
    if regions == [] then Success((aggs, misses))
    else
      var region := regions[0];
      match FillSeries(aggs[region], ParentSeries(aggs, countryRegions, scope, region), scope, region, ps, None, misses)
      case Failure(e) => Failure(e)
      case Success((series, m)) => FillRegions(aggs[region := series], countryRegions, scope, regions[1..], ps, m)
  }

  /** `b` keeps every entry of `a`, and may hold more. */
  ghost predicate Extends(a: Store, b: Store) {
    forall r :: r in a ==> r in b && (forall p :: p in a[r] ==> p in b[r] && b[r][p] == a[r][p])
  }

  lemma ExtendsTransitive(a: Store, b: Store, c: Store)
    requires Extends(a, b) && Extends(b, c)
    ensures Extends(a, c)
  {
  }

  /** The entries a pass over `regions` must create. */
  function Created(aggs: Store, regions: seq<string>, ps: seq<string>): nat
    requires forall r :: r in regions ==> r in aggs
  {
    if regions == [] then 0
    else MissingCount(aggs[regions[0]], ps) + Created(aggs, regions[1..], ps)
  }

  lemma {:induction false} CreatedFrame(a: Store, b: Store, regions: seq<string>, ps: seq<string>)
    requires forall r :: r in regions ==> r in a && r in b && a[r] == b[r]
    ensures Created(a, regions, ps) == Created(b, regions, ps)
  {
    if regions != [] {
      CreatedFrame(a, b, regions[1..], ps);
    }
  }

  /**
   * A pass that succeeds keeps every existing entry, gives each region of
   * the pass every period, and leaves the other regions alone.
   */
  lemma {:induction false} FillRegionsShape(aggs: Store, countryRegions: map<string, string>, scope: Scope,
                                            regions: seq<string>, ps: seq<string>, misses: nat)
    requires forall r :: r in regions ==> r in aggs
    ensures var res := FillRegions(aggs, countryRegions, scope, regions, ps, misses);
            res.Success? ==>
              && Extends(aggs, res.value.0)
              && (forall r, p :: r in regions && p in ps ==> p in res.value.0[r])
              && (forall r :: r in aggs && r !in regions ==> res.value.0[r] == aggs[r])
    decreases |regions|
  {
    var res := FillRegions(aggs, countryRegions, scope, regions, ps, misses);
    if regions != [] && res.Success? {
      var region := regions[0];
      var parent := ParentSeries(aggs, countryRegions, scope, region);
      FillSeriesKeeps(aggs[region], parent, scope, region, ps, None, misses);
      var (series, m) := FillSeries(aggs[region], parent, scope, region, ps, None, misses).value;
      var aggs' := aggs[region := series];
      FillRegionsShape(aggs', countryRegions, scope, regions[1..], ps, m);
      assert Extends(aggs, aggs');
      ExtendsTransitive(aggs, aggs', res.value.0);
      forall r, p | r in regions && p in ps ensures p in res.value.0[r] {
        if r == region {
          assert p in aggs'[region];
        }
      }
    }
  }

  /** A pass over distinct regions counts exactly the entries it creates. */
  lemma {:induction false} FillRegionsMisses(aggs: Store, countryRegions: map<string, string>, scope: Scope,
                                             regions: seq<string>, ps: seq<string>, misses: nat)
    requires forall r :: r in regions ==> r in aggs
    requires Distinct(ps) && Distinct(regions)
    ensures var res := FillRegions(aggs, countryRegions, scope, regions, ps, misses);
            res.Success? ==> res.value.1 == misses + Created(aggs, regions, ps)
    decreases |regions|
  {
    var res := FillRegions(aggs, countryRegions, scope, regions, ps, misses);
    if regions != [] && res.Success? {
      var region := regions[0];
      var parent := ParentSeries(aggs, countryRegions, scope, region);
      FillSeriesMisses(aggs[region], parent, scope, region, ps, None, misses);
      var (series, m) := FillSeries(aggs[region], parent, scope, region, ps, None, misses).value;
      var aggs' := aggs[region := series];
      DistinctTail(regions);
      FillRegionsMisses(aggs', countryRegions, scope, regions[1..], ps, m);
      CreatedFrame(aggs, aggs', regions[1..], ps);
    }
  }

  /** The fixed order of the passes (index.ts:201-208): yearly before monthly; World, continents, countries. */
  const Passes: seq<(bool, Scope)> := [
    (true, WorldScope), (true, ContinentScope), (true, CountryScope),
    (false, WorldScope), (false, ContinentScope), (false, CountryScope)
  ]

  /** One pass: its regions in key order, its periods in chronological order, misses from 0. */
  function FillPass(aggs: Store, order: seq<string>, countryRegions: map<string, string>,
                    yearly: bool, scope: Scope, currentYear: int): (res: Result<(Store, nat), FillError>)
    requires currentYear <= 9999
    requires forall r :: r in order ==> r in aggs
    ensures res.Success? ==> res.value.0.Keys == aggs.Keys
  {
    FillRegions(aggs, countryRegions, scope, Filter(order, scope), PassPeriods(yearly, currentYear), 0)
  }

  /** The passes of `passes`, in order, collecting each pass's miss count. */
  function FillPasses(aggs: Store, order: seq<string>, countryRegions: map<string, string>, currentYear: int,
                      passes: seq<(bool, Scope)>, misses: seq<nat>): (res: Result<(Store, seq<nat>), FillError>)
    requires currentYear <= 9999
    requires forall r :: r in order ==> r in aggs
    ensures res.Success? ==> res.value.0.Keys == aggs.Keys && |res.value.1| == |misses| + |passes|
    decreases |passes|
  {
    if passes == [] then Success((aggs, misses))
    else
      match FillPass(aggs, order, countryRegions, passes[0].0, passes[0].1, currentYear)
      case Failure(e) => Failure(e)
      case Success((a, m)) => FillPasses(a, order, countryRegions, currentYear, passes[1..], misses + [m])
  }

  /** The six passes of index.ts:209-236. */
  function FillGaps(aggs: Store, order: seq<string>, countryRegions: map<string, string>, currentYear: int): Result<(Store, seq<nat>), FillError>
    requires currentYear <= 9999
    requires forall r :: r in order ==> r in aggs
  {
    FillPasses(aggs, order, countryRegions, currentYear, Passes, [])
  }

  lemma {:induction false} FillPassesShape(aggs: Store, order: seq<string>, countryRegions: map<string, string>, currentYear: int,
                                           passes: seq<(bool, Scope)>, misses: seq<nat>)
    requires currentYear <= 9999
    requires forall r :: r in order ==> r in aggs
    requires Distinct(order)
    ensures var res := FillPasses(aggs, order, countryRegions, currentYear, passes, misses);
            res.Success? ==>
              && Extends(aggs, res.value.0)
              && forall i, r, p :: 0 <= i < |passes| && r in order && InScope(passes[i].1, r) && p in PassPeriods(passes[i].0, currentYear) ==>
                   p in res.value.0[r]
    decreases |passes|
  {
    var res := FillPasses(aggs, order, countryRegions, currentYear, passes, misses);
    if passes != [] && res.Success? {
      var (yearly, scope) := passes[0];
      var ps := PassPeriods(yearly, currentYear);
      var regions := Filter(order, scope);
      PassPeriodsDistinct(yearly, currentYear);
      FilterDistinct(order, scope);
      FillRegionsShape(aggs, countryRegions, scope, regions, ps, 0);
      var (a, m) := FillPass(aggs, order, countryRegions, yearly, scope, currentYear).value;
      FillPassesShape(a, order, countryRegions, currentYear, passes[1..], misses + [m]);
      var out := res.value.0;
      ExtendsTransitive(aggs, a, out);
      forall i, r, p | 0 <= i < |passes| && r in order && InScope(passes[i].1, r) && p in PassPeriods(passes[i].0, currentYear)
        ensures p in out[r]
      {
        if i > 0 {
          assert passes[1..][i - 1] == passes[i];
        } else {
          assert r in regions;
          assert p in a[r];
        }
      }
    }
  }

  /**
   * After the six passes every region of the store has every yearly key
   * MIN_YEAR..currentYear and every monthly key of those years, and every
   * entry that existed before is unchanged.
   */
  lemma FillGapsComplete(aggs: Store, order: seq<string>, countryRegions: map<string, string>, currentYear: int)
    requires currentYear <= 9999
    requires Distinct(order) && (forall r :: r in order <==> r in aggs)
    ensures var res := FillGaps(aggs, order, countryRegions, currentYear);
            res.Success? ==>
              && res.value.0.Keys == aggs.Keys
              && Extends(aggs, res.value.0)
              && |res.value.1| == 6
              && forall r :: r in aggs ==>
                   && (forall p :: p in YearPeriods(currentYear) ==> p in res.value.0[r])
                   && (forall p :: p in MonthPeriods(currentYear) ==> p in res.value.0[r])
  {
    var res := FillGaps(aggs, order, countryRegions, currentYear);
    FillPassesShape(aggs, order, countryRegions, currentYear, Passes, []);
    if res.Success? {
      var out := res.value.0;
      forall r | r in aggs
        ensures forall p :: p in YearPeriods(currentYear) ==> p in out[r]
        ensures forall p :: p in MonthPeriods(currentYear) ==> p in out[r]
      {
        RegionCovered(out, order, currentYear, r);
      }
    }
  }

  /** A region reached by the six passes has its yearly periods (one pass) and its monthly periods (another). */
  lemma RegionCovered(out: Store, order: seq<string>, currentYear: int, r: string)
    requires currentYear <= 9999 && forall r :: r in order ==> r in out
    requires forall i, r, p :: 0 <= i < |Passes| && r in order && InScope(Passes[i].1, r) && p in PassPeriods(Passes[i].0, currentYear) ==>
               p in out[r]
    requires r in order
    ensures forall p :: p in YearPeriods(currentYear) ==> p in out[r]
    ensures forall p :: p in MonthPeriods(currentYear) ==> p in out[r]
  {
    match ScopeOf(r)
    case WorldScope =>
      PassCovers(out, order, currentYear, Passes, 0, r);
      PassCovers(out, order, currentYear, Passes, 3, r);
    case ContinentScope =>
      PassCovers(out, order, currentYear, Passes, 1, r);
      PassCovers(out, order, currentYear, Passes, 4, r);
    case CountryScope =>
      PassCovers(out, order, currentYear, Passes, 2, r);
      PassCovers(out, order, currentYear, Passes, 5, r);
  }

  /** One pass's share of the coverage FillPassesShape states: the region `r` has every period of pass `i`. */
  lemma PassCovers(out: Store, order: seq<string>, currentYear: int, passes: seq<(bool, Scope)>, i: int, r: string)
    requires currentYear <= 9999 && forall r :: r in order ==> r in out
    requires forall i, r, p :: 0 <= i < |passes| && r in order && InScope(passes[i].1, r) && p in PassPeriods(passes[i].0, currentYear) ==>
               p in out[r]
    requires 0 <= i < |passes| && r in order && InScope(passes[i].1, r)
    ensures forall p :: p in PassPeriods(passes[i].0, currentYear) ==> p in out[r]
  {
  }

  /** A World region that lacks the first period of a pass aborts it. */
  lemma {:induction false} WorldWithoutFirstPeriodFails(aggs: Store, countryRegions: map<string, string>,
                                                        regions: seq<string>, ps: seq<string>, misses: nat)
    requires forall r :: r in regions ==> r in aggs
    requires |ps| > 0 && World in regions && ps[0] !in aggs[World]
    ensures FillRegions(aggs, countryRegions, WorldScope, regions, ps, misses).Failure?
    decreases |regions|
  {
    var region := regions[0];
    var first := FillSeries(aggs[region], None, WorldScope, region, ps, None, misses);
    FillSeriesFailure(aggs[region], None, WorldScope, region, ps, None, misses);
    if region != World && first.Success? {
      var series := first.value.0;
      assert aggs[region := series][World] == aggs[World];
      WorldWithoutFirstPeriodFails(aggs[region := series], countryRegions, regions[1..], ps, first.value.1);
    }
  }
}
