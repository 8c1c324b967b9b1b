/** The arithmetic the dashboard callback (`run_analysis` in app.py) performs
    on the four results: the air mass flow that turns the biogas energy into
    the gas cycle's heat input, and the net electrical power of the plant. */
module Plant {
  import opened Outcome
  import opened Transcendental
  import Brayton
  import Steam
  import Digestion
  import Carbonization

  /** Reactor pressure the callback passes to the steam solver, bar. */
  const SteamPressure: real := 20.0

  /** Air mass flow in kg/h whose heat input `qIn` (kJ/kg) absorbs the biogas
      energy (MJ/h); 1.0 when the gas cycle takes in no heat. */
  function AirMassFlow(biogasEnergy: real, qIn: real): (mAir: real)
    ensures 0.0 < qIn ==> mAir * qIn == 1000.0 * biogasEnergy
    ensures qIn <= 0.0 ==> mAir == 1.0
    ensures 0.0 <= biogasEnergy ==> 0.0 <= mAir
  {
    if qIn > 0.0 then biogasEnergy / (qIn / 1000.0) else 1.0
  }

  /** Gas-turbine power as the callback writes it: net work (kJ/kg) times air
      flow (kg/h) divided by 3.6, a factor that converts MJ/h, not kJ/h, to kW. */
  function GasPowerAsWritten(wNet: real, mAir: real): (shown: real)
    ensures shown * 3.6 == wNet * mAir
  {
    wNet * mAir / 3.6
  }

  /** Power in kW of a cycle: specific net work (kJ/kg) times mass flow
      (kg/h) is kJ/h, and 3600 kJ/h make one kW. The steam cycle's power uses
      the HTC feed as its flow; the gas turbine's uses the air flow. */
  function PowerKw(specificWork: real, massFlowPerHour: real): (kW: real)
    ensures kW * 3600.0 == specificWork * massFlowPerHour
  {
    specificWork * massFlowPerHour / 3600.0
  }

  /** The gas-turbine power as written is 1000 times the energy balance, and
      misses it whenever any power is produced. */
  lemma GasPowerUnitSlip(wNet: real, mAir: real)
    ensures GasPowerAsWritten(wNet, mAir) == 1000.0 * PowerKw(wNet, mAir)
    ensures wNet * mAir != 0.0 ==> GasPowerAsWritten(wNet, mAir) * 3600.0 != wNet * mAir
  {
  }

  /** 360 kJ/kg of net work on 1000 kg/h of air is 360 000 kJ/h, that is
      100 kW; the callback reports 100 000. */
  lemma GasPowerExample()
    ensures GasPowerAsWritten(360.0, 1000.0) == 100000.0
    ensures PowerKw(360.0, 1000.0) == 100.0
  {
  }

  /** The callback's inputs, as the dashboard's controls deliver them:
      tank A feeds the HTC reactor, tank B the digester; the two turbine
      efficiencies come in percent. */
  datatype Inputs = Inputs(
    taFeed: real, taMoist: real, taTReact: real,
    tbFeed: real, tbMoist: real, tbVs: real,
    gtRp: real, gtTit: real, gtTamb: real, gtEtacPct: real, gtEtatPct: real)

  /** The four results and the quantities derived from them: the gas-turbine
      and total power the dashboard shows (`gasPowerShown`, `totalPowerShown`,
      computed as the callback writes them) beside the energy-balanced ones
      (`gasPower`, `totalPower`). */
  datatype Report = Report(
    gas: Brayton.Solution, steam: Steam.Solution,
    ad: Digestion.Yield, htc: Carbonization.Balance,
    mAir: real, gasPower: real, steamPower: real, totalPower: real,
    gasPowerShown: real, totalPowerShown: real)

  /** The reconciliation of the four results: the air flow follows from the
      biogas energy and the gas cycle's heat input, and the plant's power is
      the sum of the two cycles' powers. */
  function Reconcile(gas: Brayton.Solution, steam: Steam.Solution,
                     ad: Digestion.Yield, htc: Carbonization.Balance, taFeed: real): (r: Report)
    ensures r.gas == gas && r.steam == steam && r.ad == ad && r.htc == htc
    ensures r.totalPower == r.gasPower + r.steamPower
    // the air flow carries the biogas energy as the gas cycle's heat input
    ensures 0.0 < gas.metrics.qIn ==> r.mAir * gas.metrics.qIn == 1000.0 * ad.biogasEnergy
    ensures gas.metrics.qIn <= 0.0 ==> r.mAir == 1.0
    ensures r.gasPower * 3600.0 == gas.metrics.wNet * r.mAir
    ensures r.steamPower * 3600.0 == steam.metrics.wNet * taFeed
    // what the dashboard shows: the gas power divided by 3.6, 1000 times the balanced one
    ensures r.gasPowerShown * 3.6 == gas.metrics.wNet * r.mAir
    ensures r.gasPowerShown == 1000.0 * r.gasPower
    ensures r.totalPowerShown == r.gasPowerShown + r.steamPower
  {
    var mAir := AirMassFlow(ad.biogasEnergy, gas.metrics.qIn);
    var gasPower := PowerKw(gas.metrics.wNet, mAir);
    var steamPower := PowerKw(steam.metrics.wNet, taFeed);
    var gasPowerShown := GasPowerAsWritten(gas.metrics.wNet, mAir);
    GasPowerUnitSlip(gas.metrics.wNet, mAir);
    Report(gas, steam, ad, htc, mAir, gasPower, steamPower, gasPower + steamPower,
           gasPowerShown, gasPowerShown + steamPower)
  }

  /** Runs the four calculations in the callback's order and reconciles them.
      A fault of either cycle solver ends the run, as its exception would. */
  function RunAnalysis(m: Math, i: Inputs): (r: Result<Report>)
    requires m.Sound()
    ensures r.Failure? <==>
      (|| Brayton.Cycle(m, i.gtTamb, i.gtRp, i.gtTit, i.gtEtacPct / 100.0, i.gtEtatPct / 100.0).Failure?
       || Steam.Cycle(m, i.taTReact, SteamPressure).Failure?)
    ensures r.Success? ==> r.value == Reconcile(
      Brayton.Cycle(m, i.gtTamb, i.gtRp, i.gtTit, i.gtEtacPct / 100.0, i.gtEtatPct / 100.0).value,
      Steam.Cycle(m, i.taTReact, SteamPressure).value,
      Digestion.BiogasYield(i.tbFeed, i.tbMoist, i.tbVs),
      Carbonization.Process(i.taFeed, i.taMoist, i.taTReact),
      i.taFeed)
  {
    var gas := Brayton.Cycle(m, i.gtTamb, i.gtRp, i.gtTit, i.gtEtacPct / 100.0, i.gtEtatPct / 100.0);
    if gas.Failure? then Failure(gas.fault)
    else
      var steam := Steam.Cycle(m, i.taTReact, SteamPressure);
      if steam.Failure? then Failure(steam.fault)
      else
        var ad := Digestion.BiogasYield(i.tbFeed, i.tbMoist, i.tbVs);
        var htc := Carbonization.Process(i.taFeed, i.taMoist, i.taTReact);
        Success(Reconcile(gas.value, steam.value, ad, htc, i.taFeed))
  }

  /** With the gas-turbine controls in their physical ranges and the reactor
      above -323.15 degrees C, the run completes; the air flow is then never
      negative for a non-negative biogas energy. */
  lemma RunAnalysisDefined(m: Math, i: Inputs)
    requires m.Sound()
    requires Brayton.PhysicalInputs(i.gtTamb, i.gtRp, i.gtTit, i.gtEtacPct / 100.0, i.gtEtatPct / 100.0)
    requires -323.15 < i.taTReact
    ensures RunAnalysis(m, i).Success?
    ensures 0.0 <= RunAnalysis(m, i).value.ad.biogasEnergy ==> 0.0 <= RunAnalysis(m, i).value.mAir
  {
    Brayton.DefinedOnPhysicalInputs(m, i.gtTamb, i.gtRp, i.gtTit, i.gtEtacPct / 100.0, i.gtEtatPct / 100.0);
  }

  /** When the gas cycle takes in heat, the gas-turbine power in kW is its
      thermal efficiency (percent) times the biogas fuel power: MJ/h divided
      by 3.6 is kW, so power * 360 == etaTh * biogasEnergy. The requirement on
      the efficiency holds for every gas-cycle result (Brayton.GuardedRatios). */
  lemma GasPowerFromFuel(gas: Brayton.Solution, steam: Steam.Solution,
                         ad: Digestion.Yield, htc: Carbonization.Balance, taFeed: real)
    requires 0.0 < gas.metrics.qIn
    requires gas.metrics.etaTh * gas.metrics.qIn == 100.0 * gas.metrics.wNet
    ensures var r := Reconcile(gas, steam, ad, htc, taFeed);
      r.gasPower * 360.0 == gas.metrics.etaTh * ad.biogasEnergy
  {
    var r := Reconcile(gas, steam, ad, htc, taFeed);
    FuelBalance(r.gasPower, gas.metrics.wNet, r.mAir, gas.metrics.qIn, ad.biogasEnergy, gas.metrics.etaTh);
  }

  /** The unit bookkeeping behind GasPowerFromFuel, on plain numbers. */
  lemma FuelBalance(power: real, wNet: real, mAir: real, qIn: real, energy: real, eta: real)
    requires 0.0 < qIn
    requires power * 3600.0 == wNet * mAir
    requires mAir * qIn == 1000.0 * energy
    requires eta * qIn == 100.0 * wNet
    ensures power * 360.0 == eta * energy
  {
    assert power * 360.0 * qIn == wNet * (mAir * qIn) / 10.0;
    assert (power * 360.0) * qIn == (eta * energy) * qIn;
  }
}
