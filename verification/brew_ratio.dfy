/**
 * Reconciling the user's water, coffee and ratio arguments into one
 * (water, coffee) pair: `validate`, `fix_ratio` and `normalize` of
 * pourover.py. An argument counts as supplied the way Python's truth
 * test sees it: present and non-zero.
 */
module BrewRatio {
  import opened Wrappers
  import opened Rounding

  /** Grams of water used when no usable pair of arguments is given. */
  const DefaultWater: int := 210

  /** Grams of coffee used when no usable pair of arguments is given. */
  const DefaultCoffee: int := 15

  /** The message `validate` returns when all three quantities are given. */
  const AmbiguousMessage: string :=
    "Must specify only water+coffee, water+ratio, coffee+ratio - can't specify all three"

  /** The three optional quantities of the command line. */
  datatype Inputs = Inputs(water: Option<int>, coffee: Option<int>, ratio: Option<real>)

  /** The resolved amounts, in grams. */
  datatype Plan = Plan(water: int, coffee: int)

  /** Python truthiness of an optional integer argument. */
  predicate Supplied(o: Option<int>) {
    o.Some? && o.value != 0
  }

  /** Python truthiness of an optional float argument. */
  predicate SuppliedRatio(o: Option<real>) {
    o.Some? && o.value != 0.0
  }

  /** Rejects the arguments when water, coffee and ratio are all supplied. */
  function Validate(p: Inputs): (r: Option<string>)
    ensures r.Some? <==> Supplied(p.water) && Supplied(p.coffee) && SuppliedRatio(p.ratio)
    ensures r.Some? ==> r.value == AmbiguousMessage
  {
    if Supplied(p.water) && Supplied(p.coffee) && SuppliedRatio(p.ratio) then Some(AmbiguousMessage)
    else None
  }

  /**
   * Reads a ratio given either way round as coffee per water: a value
   * above 1 is taken as water per coffee and inverted.
   */
  function FixRatio(r: real): (f: real)
    ensures r > 1.0 ==> f * r == 1.0
    ensures r <= 1.0 ==> f == r
    ensures r > 0.0 ==> 0.0 < f <= 1.0
    ensures r != 0.0 ==> f != 0.0
  {
    if r > 1.0 then 1.0 / r else r
  }

  function Min(a: real, b: real): real {
    if a <= b then a else b
  }

  /** For a positive ratio the canonical form is the smaller of it and its reciprocal. */
  lemma FixRatioIsMin(r: real)
    requires r > 0.0
    ensures FixRatio(r) == Min(r, 1.0 / r)
  {
    if r > 1.0 {
      assert 1.0 / r < 1.0;
    } else {
      assert 1.0 / r >= 1.0;
    }
  }

  /** Canonicalising twice is canonicalising once. */
  lemma FixRatioIdempotent(r: real)
    ensures FixRatio(FixRatio(r)) == FixRatio(r)
  {
    if r > 1.0 {
      assert FixRatio(r) < 1.0;
    }
  }

  /** A positive ratio and its reciprocal describe the same brew. */
  lemma FixRatioOrientation(r: real)
    requires r > 0.0
    ensures FixRatio(r) == FixRatio(1.0 / r)
  {
    FixRatioIsMin(r);
    FixRatioIsMin(1.0 / r);
    assert 1.0 / (1.0 / r) == r;
  }

  /** The branch of `normalize` that both water and coffee select. */
  predicate UsesWaterAndCoffee(p: Inputs) {
    Supplied(p.water) && Supplied(p.coffee)
  }

  predicate UsesWaterAndRatio(p: Inputs) {
    !UsesWaterAndCoffee(p) && Supplied(p.water) && SuppliedRatio(p.ratio)
  }

  predicate UsesCoffeeAndRatio(p: Inputs) {
    !UsesWaterAndCoffee(p) && !UsesWaterAndRatio(p) && Supplied(p.coffee) && SuppliedRatio(p.ratio)
  }

  /** The grams of coffee that `water` grams call for at brew ratio `f`, before rounding. */
  function Scale(water: int, f: real): real {
    water as real * f
  }

  /** The grams of water that `coffee` grams call for at brew ratio `f`, before rounding. */
  function Divide(coffee: int, f: real): real
    requires f != 0.0
  {
    coffee as real / f
  }

  /**
   * `normalize` as written. In the coffee-and-ratio branch the water is
   * computed from the default coffee amount, because the source reads its
   * local `coffee` before overwriting it with the user's value.
   */
  function Normalize(p: Inputs): Plan {
    if Supplied(p.water) && Supplied(p.coffee) then
      Plan(p.water.value, p.coffee.value)
    else if Supplied(p.water) && SuppliedRatio(p.ratio) then
      Plan(p.water.value, Round(Scale(p.water.value, FixRatio(p.ratio.value))))
    else if Supplied(p.coffee) && SuppliedRatio(p.ratio) then
      Plan(Round(Divide(DefaultCoffee, FixRatio(p.ratio.value))), p.coffee.value)
    else
      Plan(DefaultWater, DefaultCoffee)
  }

  /** `normalize` with the coffee-and-ratio branch dividing the user's coffee. */
  function NormalizeIntended(p: Inputs): Plan {
    if UsesCoffeeAndRatio(p) then
      Plan(Round(Divide(p.coffee.value, FixRatio(p.ratio.value))), p.coffee.value)
    else
      Normalize(p)
  }
}
