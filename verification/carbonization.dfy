/** The hydrothermal-carbonisation balance, `htc_process` in app.py: dry
    mass, hydrochar, process water, hydrochar energy and the energy needed
    to heat the feed from 25 degrees C to the reactor temperature. */
module Carbonization {
  import opened Constants

  /** Hydrochar produced per unit of dry mass. */
  const HydrocharYield: real := 0.60
  /** Temperature the feed is heated from, degrees C. */
  const FeedTemp: real := 25.0

  /** Masses in kg/h, energies in MJ/h. */
  datatype Balance = Balance(dryMass: real, hydrochar: real, processWater: real,
                             hydrocharEnergy: real, energyRequired: real)

  /** The estimator. Inputs are not validated, as in the source. */
  function Process(feedRate: real, moisturePct: real, tReactor: real): (r: Balance)
    // mass balances: dry mass plus water is the feed, hydrochar plus process water is the feed
    ensures r.dryMass + feedRate * moisturePct / 100.0 == feedRate
    ensures r.hydrochar + r.processWater == feedRate
    ensures r.hydrochar == HydrocharYield * r.dryMass
    ensures r.hydrocharEnergy == HydrocharHhv * r.hydrochar
    // sensible heat of the whole feed, as water, from 25 degrees C, in MJ
    ensures r.energyRequired * 1000.0 == feedRate * CpWater * (tReactor - FeedTemp)
  {
    var dryMass := feedRate * (1.0 - moisturePct / 100.0);
    var hydrochar := dryMass * HydrocharYield;
    var processWater := feedRate - hydrochar;
    var hydrocharEnergy := hydrochar * HydrocharHhv;
    var energyRequired := feedRate * CpWater * (tReactor - FeedTemp) / 1000.0;
    Balance(dryMass, hydrochar, processWater, hydrocharEnergy, energyRequired)
  }

  /** Heating needs energy exactly when the reactor is hotter than the feed
      (for a positive feed), none at 25 degrees C, and the energy has the sign
      of feed rate times temperature lift. */
  lemma EnergyRequiredSign(feedRate: real, moisturePct: real, tReactor: real)
    ensures var e := Process(feedRate, moisturePct, tReactor).energyRequired;
      && (tReactor == FeedTemp ==> e == 0.0)
      && (0.0 < e <==> 0.0 < feedRate * (tReactor - FeedTemp))
      && (e < 0.0 <==> feedRate * (tReactor - FeedTemp) < 0.0)
  {
    var lift := feedRate * (tReactor - FeedTemp);
    assert Process(feedRate, moisturePct, tReactor).energyRequired == lift * (CpWater / 1000.0);
  }

  /** Every output multiplied by `k`. */
  function Scale(b: Balance, k: real): Balance
  {
    Balance(k * b.dryMass, k * b.hydrochar, k * b.processWater, k * b.hydrocharEnergy, k * b.energyRequired)
  }

  /** The balances of two reactors side by side. */
  function Add(a: Balance, b: Balance): Balance
  {
    Balance(a.dryMass + b.dryMass, a.hydrochar + b.hydrochar, a.processWater + b.processWater,
            a.hydrocharEnergy + b.hydrocharEnergy, a.energyRequired + b.energyRequired)
  }

  /** Scaling the feed rate by `k` scales every output by `k`. */
  lemma Homogeneous(k: real, feedRate: real, moisturePct: real, tReactor: real)
    ensures Process(k * feedRate, moisturePct, tReactor) == Scale(Process(feedRate, moisturePct, tReactor), k)
  {
    var d := 1.0 - moisturePct / 100.0;
    var lift := tReactor - FeedTemp;
    assert (k * feedRate) * d == k * (feedRate * d);
    assert (k * feedRate) * CpWater * lift == k * (feedRate * CpWater * lift);
  }

  /** Splitting a feed between two reactors at the same conditions gives the
      same balance as one reactor. */
  lemma Additive(f1: real, f2: real, moisturePct: real, tReactor: real)
    ensures Process(f1 + f2, moisturePct, tReactor)
         == Add(Process(f1, moisturePct, tReactor), Process(f2, moisturePct, tReactor))
  {
    var d := 1.0 - moisturePct / 100.0;
    var lift := tReactor - FeedTemp;
    assert (f1 + f2) * d == f1 * d + f2 * d;
    assert (f1 + f2) * CpWater * lift == f1 * CpWater * lift + f2 * CpWater * lift;
  }

  /** 500 kg/h at 20 percent moisture into a reactor at 200 degrees C. */
  lemma Example()
    ensures Process(500.0, 20.0, 200.0) == Balance(400.0, 240.0, 260.0, 6000.0, 366.275)
  {
  }
}
