/** The anaerobic-digestion yield estimator, `ad_biogas_yield` in app.py: a
    linear chain from wet feed to dry mass, volatile solids, biogas, methane
    and biogas energy. */
module Digestion {
  import opened Constants

  /** Biogas produced per unit of volatile solids, m3 per kg. */
  const BiogasPerVolatileSolid: real := 0.40
  /** Methane fraction of biogas. */
  const MethaneFraction: real := 0.60

  /** Dry mass and volatile solids in kg/h, biogas and methane in m3/h,
      biogas energy in MJ/h. */
  datatype Yield = Yield(dryMass: real, volatileSolids: real, biogas: real, methane: real, biogasEnergy: real)

  /** The estimator. Inputs are not validated, as in the source. */
  function BiogasYield(feedRate: real, moisturePct: real, vsFraction: real): (r: Yield)
    // mass balance: dry mass plus the water in the feed is the feed
    ensures r.dryMass + feedRate * moisturePct / 100.0 == feedRate
    ensures r.volatileSolids == vsFraction * r.dryMass
    ensures r.biogas == BiogasPerVolatileSolid * r.volatileSolids
    ensures r.methane == MethaneFraction * r.biogas
    ensures r.biogasEnergy == BiogasLhv * r.biogas
  {
    var dryMass := feedRate * (1.0 - moisturePct / 100.0);
    var volatileSolids := dryMass * vsFraction;
    var biogas := volatileSolids * BiogasPerVolatileSolid;
    var methane := biogas * MethaneFraction;
    var biogasEnergy := biogas * BiogasLhv;
    Yield(dryMass, volatileSolids, biogas, methane, biogasEnergy)
  }

  /** Every output multiplied by `k`. */
  function Scale(y: Yield, k: real): Yield
  {
    Yield(k * y.dryMass, k * y.volatileSolids, k * y.biogas, k * y.methane, k * y.biogasEnergy)
  }

  /** The outputs of two digesters side by side. */
  function Add(a: Yield, b: Yield): Yield
  {
    Yield(a.dryMass + b.dryMass, a.volatileSolids + b.volatileSolids, a.biogas + b.biogas,
          a.methane + b.methane, a.biogasEnergy + b.biogasEnergy)
  }

  /** Scaling the feed rate by `k` scales every output by `k`. */
  lemma Homogeneous(k: real, feedRate: real, moisturePct: real, vsFraction: real)
    ensures BiogasYield(k * feedRate, moisturePct, vsFraction)
         == Scale(BiogasYield(feedRate, moisturePct, vsFraction), k)
  {
    var d := 1.0 - moisturePct / 100.0;
    assert (k * feedRate) * d == k * (feedRate * d);
    assert (k * (feedRate * d)) * vsFraction == k * ((feedRate * d) * vsFraction);
  }

  /** Splitting a feed between two digesters of the same kind yields the
      same as digesting it in one. */
  lemma Additive(f1: real, f2: real, moisturePct: real, vsFraction: real)
    ensures BiogasYield(f1 + f2, moisturePct, vsFraction)
         == Add(BiogasYield(f1, moisturePct, vsFraction), BiogasYield(f2, moisturePct, vsFraction))
  {
    var d := 1.0 - moisturePct / 100.0;
    assert (f1 + f2) * d == f1 * d + f2 * d;
    assert (f1 * d + f2 * d) * vsFraction == (f1 * d) * vsFraction + (f2 * d) * vsFraction;
  }

  /** 800 kg/h at 70 percent moisture and 80 percent volatile solids. */
  lemma Example()
    ensures BiogasYield(800.0, 70.0, 0.80) == Yield(240.0, 192.0, 76.8, 46.08, 1689.6)
  {
  }
}
