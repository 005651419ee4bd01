/**
 * Impact vectors (index.ts:73-105) and the per-(region, period) Aggregate
 * (index.ts:107-113).  A JS object with 9 numeric keys becomes a 9-field
 * datatype over `real`; an Aggregate object becomes a datatype value.
 */
module Impact {

  /** The 9 impact categories, in the order of the `Impacts` type. */
  datatype Key = Adpe | Ap | Ctue | CtuhC | Gwp | Ir | CtuhNc | Pm | Wu

  datatype Impacts = Impacts(
    adpe: real,   // abiotic depletion potential
    ap: real,     // acidification power
    ctue: real,   // ecotoxicity, freshwater
    ctuhC: real,  // human toxicity, cancer
    gwp: real,    // global warming potential
    ir: real,     // ionising radiation
    ctuhNc: real, // human toxicity, non-cancer
    pm: real,     // particulate matter
    wu: real)     // water use
  {
    /** The value stored under key `k` (the source's `impacts[k]`). */
    function Get(k: Key): real {
      match k
      case Adpe => adpe
      case Ap => ap
      case Ctue => ctue
      case CtuhC => ctuhC
      case Gwp => gwp
      case Ir => ir
      case CtuhNc => ctuhNc
      case Pm => pm
      case Wu => wu
    }
  }

  /** EMPTY_IMPACTS: every category zero. */
  const Empty: Impacts := Impacts(0.0, 0.0, 0.0, 0.0, 0.0, 0.0, 0.0, 0.0, 0.0)

  /** Two vectors that agree on every key are equal. */
  lemma Extensionality(a: Impacts, b: Impacts)
    requires forall k: Key :: a.Get(k) == b.Get(k)
    ensures a == b
  {
    assert a.Get(Adpe) == b.Get(Adpe) && a.Get(Ap) == b.Get(Ap) && a.Get(Ctue) == b.Get(Ctue);
    assert a.Get(CtuhC) == b.Get(CtuhC) && a.Get(Gwp) == b.Get(Gwp) && a.Get(Ir) == b.Get(Ir);
    assert a.Get(CtuhNc) == b.Get(CtuhNc) && a.Get(Pm) == b.Get(Pm) && a.Get(Wu) == b.Get(Wu);
  }

  /**
   * combineImpacts: a fresh vector holding, under every key,
   * target[k] * targetCoeff + source[k] * sourceCoeff.  The source's
   * optional arguments are explicit here: omitted vectors are Empty and
   * omitted coefficients are 1.
   */
  function Combine(target: Impacts, source: Impacts, targetCoeff: real, sourceCoeff: real): Impacts {
    Impacts(
      target.adpe * targetCoeff + source.adpe * sourceCoeff,
      target.ap * targetCoeff + source.ap * sourceCoeff,
      target.ctue * targetCoeff + source.ctue * sourceCoeff,
      target.ctuhC * targetCoeff + source.ctuhC * sourceCoeff,
      target.gwp * targetCoeff + source.gwp * sourceCoeff,
      target.ir * targetCoeff + source.ir * sourceCoeff,
      target.ctuhNc * targetCoeff + source.ctuhNc * sourceCoeff,
      target.pm * targetCoeff + source.pm * sourceCoeff,
      target.wu * targetCoeff + source.wu * sourceCoeff)
  }

  /** Under every key, the combination holds target[k] * targetCoeff + source[k] * sourceCoeff. */
  lemma CombineGet(target: Impacts, source: Impacts, targetCoeff: real, sourceCoeff: real)
    ensures forall k: Key :: Combine(target, source, targetCoeff, sourceCoeff).Get(k) == target.Get(k) * targetCoeff + source.Get(k) * sourceCoeff
  {
    var r := Combine(target, source, targetCoeff, sourceCoeff);
    forall k: Key ensures r.Get(k) == target.Get(k) * targetCoeff + source.Get(k) * sourceCoeff {
      match k
      case Adpe => case Ap => case Ctue => case CtuhC => case Gwp =>
      case Ir => case CtuhNc => case Pm => case Wu =>
    }
  }

  /** Key-wise sum: `combineImpacts({target, source})` with both coefficients defaulted to 1. */
  function Add(a: Impacts, b: Impacts): (r: Impacts)
    ensures forall k: Key :: r.Get(k) == a.Get(k) + b.Get(k)
  {
    CombineGet(a, b, 1.0, 1.0);
    Combine(a, b, 1.0, 1.0)
  }

  /** Key-wise scaling: `combineImpacts({target, targetCoeff})` with the source defaulted to EMPTY_IMPACTS. */
  function Scale(a: Impacts, c: real): (r: Impacts)
    ensures forall k: Key :: r.Get(k) == a.Get(k) * c
  {
    EmptyIsZero();
    CombineGet(a, Empty, c, 1.0);
    Combine(a, Empty, c, 1.0)
  }

  lemma EmptyIsZero()
    ensures forall k: Key :: Empty.Get(k) == 0.0
  {
  }

  /**
   * With every optional argument defaulted, combineImpacts returns a copy
   * of its target; with only a source given it returns a copy of the source.
   */
  lemma CombineDefaults(t: Impacts)
    ensures Combine(t, Empty, 1.0, 1.0) == t
    ensures Combine(Empty, t, 1.0, 1.0) == t
  {
    Extensionality(Combine(t, Empty, 1.0, 1.0), t);
    Extensionality(Combine(Empty, t, 1.0, 1.0), t);
  }

  /** Scaling by 1/c is undone by scaling by c (c non-zero). */
  lemma ScaleInverse(t: Impacts, c: real)
    requires c != 0.0
    ensures Scale(Scale(t, 1.0 / c), c) == t
  {
    ReciprocalProduct(c);
    ScaleByInverse(t, 1.0 / c, c);
  }

  lemma ReciprocalProduct(c: real)
    requires c != 0.0
    ensures (1.0 / c) * c == 1.0
  {
  }

  lemma ScaleByInverse(t: Impacts, inv: real, c: real)
    requires inv * c == 1.0
    ensures Scale(Scale(t, inv), c) == t
  {
    forall k: Key ensures Scale(Scale(t, inv), c).Get(k) == t.Get(k) {
      ScaleTwiceGet(t, inv, c, k);
      ProductInverse(t.Get(k), inv, c);
    }
    Extensionality(Scale(Scale(t, inv), c), t);
  }

  lemma ScaleTwiceGet(t: Impacts, inv: real, c: real, k: Key)
    ensures Scale(Scale(t, inv), c).Get(k) == (t.Get(k) * inv) * c
  {
    var once := Scale(t, inv);
    assert once.Get(k) == t.Get(k) * inv;
    assert Scale(once, c).Get(k) == once.Get(k) * c;
  }

  lemma ProductInverse(x: real, inv: real, c: real)
    requires inv * c == 1.0
    ensures (x * inv) * c == x
  {
    assert (x * inv) * c == x * (inv * c);
  }

  /** A combination whose coefficients sum to 1 leaves a vector combined with itself unchanged. */
  lemma ConvexOfEqual(t: Impacts, a: real, b: real)
    requires a + b == 1.0
    ensures Combine(t, t, a, b) == t
  {
    forall k: Key ensures Combine(t, t, a, b).Get(k) == t.Get(k) {
      calc {
        Combine(t, t, a, b).Get(k);
        t.Get(k) * a + t.Get(k) * b;
        t.Get(k) * (a + b);
      }
    }
    Extensionality(Combine(t, t, a, b), t);
  }

  /** Summation of vectors is associative (the export loop adds one term at a time). */
  lemma AddAssociative(a: Impacts, b: Impacts, c: Impacts)
    ensures Add(Add(a, b), c) == Add(a, Add(b, c))
  {
    Extensionality(Add(Add(a, b), c), Add(a, Add(b, c)));
  }

  /** Empty is the unit of Add. */
  lemma AddEmpty(a: Impacts)
    ensures Add(Empty, a) == a && Add(a, Empty) == a
  {
    CombineDefaults(a);
  }

  /**
   * The per-(region, period) record of index.ts:107-113.  Being a value,
   * a copy (cloneAggregate, index.ts:115-119) never aliases its source.
   */
  datatype Aggregate = Aggregate(
    global: Impacts,
    green: Impacts,
    greenRatio: real,
    importedKWh: real,
    generatedKWh: real)

  /** The zeroed aggregate created on the first row of a (region, period) (index.ts:168-174). */
  const ZeroAggregate: Aggregate := Aggregate(Empty, Empty, 0.0, 0.0, 0.0)

  /** One region's entries: period key -> Aggregate. */
  type Series = map<string, Aggregate>

  /** The `aggregates` store: region -> period -> Aggregate. */
  type Store = map<string, Series>
}
