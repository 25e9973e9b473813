/**
 * What `normalize` makes of each combination of arguments, and how the
 * coffee-and-ratio branch as written differs from the evident intent.
 */
module NormalizeLaws {
  import opened Wrappers
  import opened Rounding
  import opened BrewRatio

  /** With water and coffee, both are taken as given, and a supplied ratio makes no difference. */
  lemma WaterCoffeeIgnoresRatio(p: Inputs)
    requires UsesWaterAndCoffee(p)
    ensures Normalize(p) == Plan(p.water.value, p.coffee.value)
    ensures Normalize(p) == Normalize(p.(ratio := None))
  {
  }

  /** Without a usable pair, the plan is the one for no arguments at all: the defaults. */
  lemma NoPairGivesDefaults(p: Inputs)
    requires !UsesWaterAndCoffee(p) && !UsesWaterAndRatio(p) && !UsesCoffeeAndRatio(p)
    ensures Normalize(p) == Normalize(Inputs(None, None, None))
    ensures Normalize(p) == Plan(DefaultWater, DefaultCoffee)
  {
  }

  /**
   * The arguments `Validate` rejects are exactly those for which
   * `Normalize` takes the water-and-coffee branch and ignores a supplied
   * ratio. A ratio supplied alone is also ignored, but not rejected.
   */
  lemma RejectedExactlyWhenRatioDropped(p: Inputs)
    ensures Validate(p).Some? <==> UsesWaterAndCoffee(p) && SuppliedRatio(p.ratio)
  {
  }

  /** With water and a ratio, the water is kept and the coffee is within half a gram of water times the ratio. */
  lemma WaterRatioCoffeeIsNearest(p: Inputs)
    requires UsesWaterAndRatio(p)
    ensures Normalize(p).water == p.water.value
    ensures var plan := Normalize(p);
            var exact := p.water.value as real * FixRatio(p.ratio.value);
            exact - 0.5 <= plan.coffee as real <= exact + 0.5
  {
  }

  /** With water and a ratio, the plan depends on the ratio only through its canonical form. */
  lemma WaterRatioCanonical(p: Inputs, q: Inputs)
    requires UsesWaterAndRatio(p) && UsesWaterAndRatio(q) && p.water == q.water
    requires FixRatio(p.ratio.value) == FixRatio(q.ratio.value)
    ensures Normalize(p) == Normalize(q)
  {
    assert Normalize(p).coffee == Round(Scale(p.water.value, FixRatio(p.ratio.value)));
    assert Normalize(q).coffee == Round(Scale(q.water.value, FixRatio(q.ratio.value)));
  }

  /** With water and a ratio, a ratio and its reciprocal give the same plan. */
  lemma WaterRatioOrientation(w: int, r: real)
    requires w != 0 && r > 0.0
    ensures Normalize(Inputs(Some(w), None, Some(r))) == Normalize(Inputs(Some(w), None, Some(1.0 / r)))
  {
    FixRatioOrientation(r);
    assert 1.0 / r > 0.0;
    WaterRatioCanonical(Inputs(Some(w), None, Some(r)), Inputs(Some(w), None, Some(1.0 / r)));
  }

  /**
   * With coffee and a ratio, the coffee is kept, but the water is within
   * half a gram of the default coffee amount divided by the ratio.
   */
  lemma CoffeeRatioWaterIsNearest(p: Inputs)
    requires UsesCoffeeAndRatio(p)
    ensures Normalize(p).coffee == p.coffee.value
    ensures var plan := Normalize(p);
            var exact := DefaultCoffee as real / FixRatio(p.ratio.value);
            exact - 0.5 <= plan.water as real <= exact + 0.5
  {
  }

  /** With coffee and a ratio, the returned water does not depend on the coffee supplied. */
  lemma CoffeeRatioIgnoresCoffee(c1: int, c2: int, r: real)
    requires c1 != 0 && c2 != 0 && r != 0.0
    ensures Normalize(Inputs(None, Some(c1), Some(r))).water == Normalize(Inputs(None, Some(c2), Some(r))).water
  {
  }

  /** 20 g of coffee at 14:1 yields 210 g of water rather than 280 g. */
  lemma CoffeeRatioCounterexample()
    ensures Normalize(Inputs(None, Some(20), Some(14.0))) == Plan(210, 20)
  {
    assert FixRatio(14.0) == 1.0 / 14.0;
    assert 15.0 / (1.0 / 14.0) == 210.0;
    RoundOfInt(210);
  }

  /**
   * The corrected `normalize` differs from the written one only in the
   * coffee-and-ratio branch, where it keeps the user's coffee.
   */
  lemma IntendedOnlyFixesCoffeeRatio(p: Inputs)
    ensures !UsesCoffeeAndRatio(p) ==> NormalizeIntended(p) == Normalize(p)
    ensures UsesCoffeeAndRatio(p) ==>
              NormalizeIntended(p).coffee == Normalize(p).coffee == p.coffee.value
  {
  }

  /**
   * With coffee and a ratio, the intended water is within half a gram of
   * coffee divided by the ratio, so the plan keeps the requested ratio up
   * to rounding.
   */
  lemma IntendedKeepsRatio(p: Inputs)
    requires UsesCoffeeAndRatio(p)
    ensures var plan := NormalizeIntended(p);
            var exact := p.coffee.value as real / FixRatio(p.ratio.value);
            exact - 0.5 <= plan.water as real <= exact + 0.5
  {
  }

  /** The intended and the written coffee-and-ratio branches agree when the coffee supplied is the default amount. */
  lemma IntendedAgreesAtDefaultCoffee(p: Inputs)
    requires UsesCoffeeAndRatio(p) && p.coffee.value == DefaultCoffee
    ensures NormalizeIntended(p) == Normalize(p)
  {
  }

  /** The corrected branch gives 280 g of water for 20 g of coffee at 14:1. */
  lemma IntendedCoffeeRatioExample()
    ensures NormalizeIntended(Inputs(None, Some(20), Some(14.0))) == Plan(280, 20)
  {
    assert FixRatio(14.0) == 1.0 / 14.0;
    assert 20.0 / (1.0 / 14.0) == 280.0;
    RoundOfInt(280);
  }
}
