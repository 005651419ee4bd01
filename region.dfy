/**
 * Region classification (index.ts:13-34).  A region key is the string
 * "World", one of the 7 Ember continent names, or anything else, which
 * is taken to be a country (an ISO alpha-2 code).
 */
module Region {

  /** EMBER_WORLD */
  const World: string := "World"

  /** EMBER_REGIONS: the 7 continent names of the Ember feeds. */
  const Continents: seq<string> := [
    "Africa",
    "Asia",
    "Europe",
    "Latin America and Caribbean",
    "Middle East",
    "North America",
    "Oceania"
  ]

  /** GREEN_ENERGIES: the fuels counted as green. */
  const GreenEnergies: seq<string> := ["Bioenergy", "Hydro", "Solar", "Wind"]

  predicate IsWorld(region: string) {
    region == World
  }

  predicate IsContinent(region: string) {
    region in Continents
  }

  predicate IsCountry(region: string) {
    !IsWorld(region) && !IsContinent(region)
  }

  /** The keys of REGION_FILTERS: the scope of one gap-filling pass. */
  datatype Scope = WorldScope | ContinentScope | CountryScope

  /** REGION_FILTERS[scope](region) */
  predicate InScope(scope: Scope, region: string) {
    match scope
    case WorldScope => IsWorld(region)
    case ContinentScope => IsContinent(region)
    case CountryScope => IsCountry(region)
  }

  /** The one scope whose filter accepts `region`: the three filters partition all strings. */
  function ScopeOf(region: string): (s: Scope)
    ensures InScope(s, region)
    ensures forall t: Scope :: InScope(t, region) ==> t == s
  {
    if IsWorld(region) then
      assert !IsContinent(region) by { WorldIsNotAContinent(); }
      WorldScope
    else if IsContinent(region) then ContinentScope
    else CountryScope
  }

  /** "World" is not one of the continent names. */
  lemma WorldIsNotAContinent()
    ensures World !in Continents
  {
    forall i | 0 <= i < |Continents| ensures Continents[i] != World {
      assert Continents[i][0] != World[0] || Continents[i][1] != World[1] || |Continents[i]| != |World|;
    }
  }

  /** `a` is `b` with some of its entries dropped: what is kept stays in its order. */
  predicate IsSubsequence<T(==)>(a: seq<T>, b: seq<T>)
    decreases |b|
  {
    if a == [] then true
    else if b == [] then false
    else (a[0] == b[0] && IsSubsequence(a[1..], b[1..])) || IsSubsequence(a, b[1..])
  }

  /** Selects, in order, the regions of `regions` that lie in `scope` (`Object.keys(...).filter(...)`). */
  function Filter(regions: seq<string>, scope: Scope): (r: seq<string>)
    ensures forall x :: x in r <==> x in regions && InScope(scope, x)
    ensures |r| <= |regions|
  {
    if regions == [] then []
    else if InScope(scope, regions[0]) then [regions[0]] + Filter(regions[1..], scope)
    else Filter(regions[1..], scope)
  }

  /** Filtering keeps the order of the regions it selects. */
  lemma {:induction false} FilterInOrder(regions: seq<string>, scope: Scope)
    ensures IsSubsequence(Filter(regions, scope), regions)
    decreases |regions|
  {
    if regions != [] {
      var rest := Filter(regions[1..], scope);
      FilterInOrder(regions[1..], scope);
      if InScope(scope, regions[0]) {
        assert ([regions[0]] + rest)[1..] == rest;
      }
    }
  }

  /** Distinct entries. */
  predicate Distinct<T(==)>(s: seq<T>) {
    forall i, j :: 0 <= i < j < |s| ==> s[i] != s[j]
  }

  /** Filtering keeps the entries distinct. */
  lemma {:induction false} FilterDistinct(regions: seq<string>, scope: Scope)
    requires Distinct(regions)
    ensures Distinct(Filter(regions, scope))
  {
    if regions != [] {
      assert Distinct(regions[1..]);
      FilterDistinct(regions[1..], scope);
    }
  }
}
