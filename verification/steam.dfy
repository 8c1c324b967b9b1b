/** The HTC steam-cycle solver, `htc_steam_cycle` in app.py: a linearised
    Rankine-like cycle between a fixed condenser (45 degrees C, 0.1 bar) and a
    boiler outlet 50 degrees C above the HTC reactor temperature, with a fixed
    turbine efficiency and a fixed entropy penalty across the turbine. */
module Steam {
  import opened Constants
  import opened Outcome
  import opened Transcendental
  import opened Cycles

  /** Condenser temperature, degrees C. */
  const CondenserTemp: real := 45.0
  /** Condenser pressure, bar. */
  const CondenserPressure: real := 0.1
  /** Boiler outlet temperature above the reactor temperature, degrees C. */
  const Superheat: real := 50.0
  /** Isentropic efficiency of the steam turbine. */
  const TurbineEfficiency: real := 0.85
  /** Quality assumed at the isentropic turbine exhaust. */
  const ExhaustQuality: real := 0.88
  /** Entropy added across the turbine by its irreversibilities, kJ/(kg K). */
  const EntropyPenalty: real := 0.15

  /** Specific works and heat in kJ/kg, thermal efficiency in percent. */
  datatype Metrics = Metrics(wPump: real, wTurb: real, wNet: real, qIn: real, eta: real)

  /** The four state points (pump inlet, pump outlet, boiler outlet, turbine
      outlet) and the metrics. */
  datatype Solution = Solution(states: seq<StatePoint>, metrics: Metrics)

  /** Enthalpy of the isentropic turbine exhaust, kJ/kg. */
  function IsentropicExhaust(h1: real): (h4s: real)
    // the quality recovered from the exhaust enthalpy is the assumed one
    ensures (h4s - h1) / HfgWater == ExhaustQuality
  {
    h1 + ExhaustQuality * HfgWater
  }

  /** The solver. The only exception the source can raise is the division by
      the absolute boiler-outlet temperature in the entropy of state 3. */
  function Cycle(m: Math, tReactor: real, pReactor: real): (r: Result<Solution>)
    ensures r.Failure? <==> tReactor + Superheat + KelvinOffset == 0.0
    ensures r.Failure? ==> r.fault == ZeroDivision
    ensures r.Success? ==> |r.value.states| == 4
    // boiler outlet: water heated to 100 °C, vaporised, then superheated
    ensures r.Success? ==>
      r.value.states[2].h == CpWater * 100.0 + HfgWater + CpSteam * (r.value.states[2].t - 100.0)
    // first law: net work is heat in minus the heat rejected from 4 back to 1
    ensures r.Success? ==>
      r.value.metrics.wNet == r.value.metrics.qIn - (r.value.states[3].h - r.value.states[0].h)
    // the boiler's entropy rise is its heat input over the absolute outlet temperature
    ensures r.Success? ==>
      (r.value.states[2].s - r.value.states[1].s) * (r.value.states[2].t + KelvinOffset) == r.value.metrics.qIn
  {
    var t1 := CondenserTemp;
    var t3 := tReactor + Superheat;
    var pLow := CondenserPressure;
    var pHigh := pReactor;
    var h1 := CpWater * t1;
    var h2 := h1 + 0.001 * (pHigh - pLow) * 100.0;
    var h3 := CpWater * 100.0 + HfgWater + CpSteam * (t3 - 100.0);
    var h4s := IsentropicExhaust(h1);
    var h4 := h3 - TurbineEfficiency * (h3 - h4s);
    var s1 := CpWater * m.ln((t1 + KelvinOffset) / KelvinOffset);
    if t3 + KelvinOffset == 0.0 then Failure(ZeroDivision)
    else
      var s2 := s1;
      var s3 := s1 + (h3 - h2) / (t3 + KelvinOffset);
      var s4 := s3 + EntropyPenalty;
      var wPump := h2 - h1;
      var wTurb := h3 - h4;
      var qIn := h3 - h2;
      var wNet := wTurb - wPump;
      Success(Solution(
        [ StatePoint("1 – Pump Inlet", t1, h1, s1),
          StatePoint("2 – Pump Outlet", t1 + 2.0, h2, s2),
          StatePoint("3 – Boiler Outlet", t3, h3, s3),
          StatePoint("4 – Turb Outlet", t1 + 20.0, h4, s4) ],
        Metrics(wPump, wTurb, wNet, qIn, GuardedPercent(wNet, qIn))))
  }

  /** The parts of the cycle that do not depend on the reactor: the condenser
      enthalpy 4.186 * 45, the isentropic pump, the fixed entropy penalty, the
      reported temperatures, and a pump work of 0.1 kJ/kg per bar of lift. */
  lemma FixedStructure(m: Math, tReactor: real, pReactor: real)
    requires Cycle(m, tReactor, pReactor).Success?
    ensures var sts := Cycle(m, tReactor, pReactor).value.states;
      && sts[0].h == 188.37
      && sts[0].s == CpWater * m.ln(318.15 / 273.15)
      && sts[1].h - sts[0].h == 0.1 * (pReactor - 0.1)
      && sts[1].s == sts[0].s
      && sts[3].s == sts[2].s + 0.15
      && [sts[0].t, sts[1].t, sts[2].t, sts[3].t] == [45.0, 47.0, tReactor + 50.0, 65.0]
  {
  }

  /** The pump does work on the water exactly when the reactor pressure is at
      least the condenser pressure. */
  lemma PumpWorkSign(m: Math, tReactor: real, pReactor: real)
    requires Cycle(m, tReactor, pReactor).Success?
    ensures var g := Cycle(m, tReactor, pReactor).value.metrics;
      && g.wPump == 0.1 * (pReactor - CondenserPressure)
      && (0.0 <= g.wPump <==> CondenserPressure <= pReactor)
  {
  }

  /** Turbine work is 85 percent of the isentropic drop to the exhaust
      enthalpy h1 + 0.88 hfg; net work is turbine minus pump work; the
      efficiency is guarded against a non-positive heat input and stays below
      100 percent exactly when the turbine exhaust is above the condenser
      enthalpy. */
  lemma TurbineAndEfficiency(m: Math, tReactor: real, pReactor: real)
    requires Cycle(m, tReactor, pReactor).Success?
    ensures var sol := Cycle(m, tReactor, pReactor).value;
      var g := sol.metrics;
      && g.wTurb == TurbineEfficiency * (sol.states[2].h - (188.37 + 0.88 * 2257.0))
      && g.wNet == g.wTurb - g.wPump
      && g.qIn == sol.states[2].h - sol.states[1].h
      && (g.qIn <= 0.0 ==> g.eta == 0.0)
      && (0.0 < g.qIn ==> g.eta * g.qIn == 100.0 * g.wNet)
      && (0.0 < g.qIn ==> (g.eta < 100.0 <==> sol.states[0].h < sol.states[3].h))
  {
    var sol := Cycle(m, tReactor, pReactor).value;
    var g := sol.metrics;
    if 0.0 < g.qIn {
      GuardedPercentSigns(g.wNet, g.qIn);
    }
  }

  /** The default operating point (reactor at 200 degrees C and 20 bar). */
  lemma DefaultOperatingPoint(m: Math)
    ensures Cycle(m, 200.0, 20.0).Success?
    ensures var sol := Cycle(m, 200.0, 20.0).value;
      && sol.states[0].h == 188.37
      && sol.states[2].h == 2977.1
      && sol.metrics.wPump == 1.99
      && sol.metrics.qIn == 2786.74
      && sol.metrics.wTurb == 682.1845
      && sol.metrics.wNet == 680.1945
      && 0.0 < sol.metrics.eta < 100.0
  {
    var g := Cycle(m, 200.0, 20.0).value.metrics;
    GuardedPercentSigns(g.wNet, g.qIn);
  }

  /** Over the dashboard's reactor-temperature range (150 to 300 degrees C) at
      the callback's 20 bar, the solver never raises and its efficiency lies
      strictly between 0 and 100 percent. */
  lemma EfficiencyInDashboardRange(m: Math, tReactor: real)
    requires 150.0 <= tReactor <= 300.0
    ensures Cycle(m, tReactor, 20.0).Success?
    ensures 0.0 < Cycle(m, tReactor, 20.0).value.metrics.eta < 100.0
  {
    TurbineAndEfficiency(m, tReactor, 20.0);
    var g := Cycle(m, tReactor, 20.0).value.metrics;
    GuardedPercentSigns(g.wNet, g.qIn);
  }
}
