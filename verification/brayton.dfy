/** The gas-turbine (Brayton) cycle solver, `brayton_cycle` in app.py: from the
    compressor inlet temperature, the pressure ratio, the turbine inlet
    temperature and the two isentropic efficiencies it finds the four state
    points and the cycle's work, heat and efficiency figures. */
module Brayton {
  import opened Constants
  import opened Outcome
  import opened Transcendental
  import opened Cycles
  import opened RealArith

  /** (gamma - 1) / gamma, the exponent of the pressure ratio in the
      isentropic temperature ratio. */
  const IsentropicExponent: real := (GammaAir - 1.0) / GammaAir

  /** Specific works and heats in kJ/kg, thermal efficiency and back-work
      ratio in percent. */
  datatype Metrics = Metrics(
    wComp: real, wTurb: real, wNet: real,
    qIn: real, qOut: real,
    etaTh: real, bwr: real)

  /** The four state points (compressor inlet, compressor outlet, turbine
      inlet, turbine outlet) and the metrics. */
  datatype Solution = Solution(states: seq<StatePoint>, metrics: Metrics)

  /** Absolute temperatures of the cycle in kelvin, with the isentropic
      outlet temperatures of the compressor (t2s) and the turbine (t4s). */
  datatype Temperatures = Temperatures(t1: real, t2s: real, t2: real, t3: real, t4s: real, t4: real)

  /** The compressor outlet temperature for isentropic efficiency `etaC`. */
  function CompressorOutlet(t1: real, t2s: real, etaC: real): (t2: real)
    requires etaC != 0.0
    ensures (t2 - t1) * etaC == t2s - t1
  {
    t1 + (t2s - t1) / etaC
  }

  /** The turbine outlet temperature for isentropic efficiency `etaT`. */
  function TurbineOutlet(t3: real, t4s: real, etaT: real): (t4: real)
    ensures t3 - t4 == etaT * (t3 - t4s)
  {
    t3 - (t3 - t4s) * etaT
  }

  /** The temperatures of the cycle for inputs the solver gets past its
      divisions with. */
  function TemperaturesOf(m: Math, t1C: real, rp: real, t3C: real, etaC: real, etaT: real): (t: Temperatures)
    requires m.Sound()
    requires 0.0 < rp && etaC != 0.0
    ensures t.t1 == t1C + KelvinOffset && t.t3 == t3C + KelvinOffset
    ensures t.t2s == t.t1 * m.pow(rp, IsentropicExponent)
    ensures t.t4s * m.pow(rp, IsentropicExponent) == t.t3
    // the outlets follow from the isentropic efficiencies
    ensures (t.t2 - t.t1) * etaC == t.t2s - t.t1
    ensures t.t3 - t.t4 == etaT * (t.t3 - t.t4s)
  {
    var t1 := t1C + KelvinOffset;
    var t3 := t3C + KelvinOffset;
    var ratio := m.pow(rp, IsentropicExponent);
    var t2s := t1 * ratio;
    var t4s := t3 / ratio;
    Temperatures(t1, t2s, CompressorOutlet(t1, t2s, etaC), t3, t4s, TurbineOutlet(t3, t4s, etaT))
  }

  /** Works, heats and the two guarded ratios of the cycle. */
  function MetricsOf(t: Temperatures): (g: Metrics)
    ensures g.wNet == g.qIn - g.qOut
  {
    var wComp := CpAir * (t.t2 - t.t1);
    var wTurb := CpAir * (t.t3 - t.t4);
    var wNet := wTurb - wComp;
    var qIn := CpAir * (t.t3 - t.t2);
    var qOut := CpAir * (t.t4 - t.t1);
    Metrics(wComp, wTurb, wNet, qIn, qOut, GuardedPercent(wNet, qIn), GuardedPercent(wComp, wTurb))
  }

  /** The four state points, enthalpy and entropy both measured from state 1,
      temperatures reported back in degrees Celsius. */
  function StatesOf(m: Math, t: Temperatures, rp: real): (sts: seq<StatePoint>)
    requires t.t1 != 0.0 && t.t2 != 0.0 && t.t3 != 0.0
    ensures |sts| == 4
    // the Celsius temperatures reported give back the absolute ones
    ensures && sts[0].t + KelvinOffset == t.t1 && sts[1].t + KelvinOffset == t.t2
            && sts[2].t + KelvinOffset == t.t3 && sts[3].t + KelvinOffset == t.t4
    // enthalpy is cp times the temperature above state 1
    ensures && sts[0].h == 0.0 && sts[1].h == CpAir * (sts[1].t - sts[0].t)
            && sts[2].h == CpAir * (sts[2].t - sts[0].t) && sts[3].h == CpAir * (sts[3].t - sts[0].t)
    // entropy changes of an ideal gas: cp ln of the temperature ratio less R ln of
    // the pressure ratio (rp up the compressor, 1/rp down the turbine); the
    // combustor works at constant pressure
    ensures sts[0].s == 0.0
    ensures sts[1].s - sts[0].s == CpAir * m.ln(t.t2 / t.t1) - RAir * m.ln(rp)
    ensures sts[2].s - sts[1].s == CpAir * m.ln(t.t3 / t.t2)
    ensures sts[3].s - sts[2].s == CpAir * m.ln(t.t4 / t.t3) + RAir * m.ln(rp)
  {
    var s2 := CpAir * m.ln(t.t2 / t.t1) - RAir * m.ln(rp);
    var s3 := s2 + CpAir * m.ln(t.t3 / t.t2);
    var s4 := s3 + CpAir * m.ln(t.t4 / t.t3) + RAir * m.ln(rp);
    [ StatePoint("1 – Comp Inlet", t.t1 - KelvinOffset, 0.0, 0.0),
      StatePoint("2 – Comp Outlet", t.t2 - KelvinOffset, CpAir * (t.t2 - t.t1), s2),
      StatePoint("3 – Turb Inlet", t.t3 - KelvinOffset, CpAir * (t.t3 - t.t1), s3),
      StatePoint("4 – Turb Outlet", t.t4 - KelvinOffset, CpAir * (t.t4 - t.t1), s4) ]
  }

  /** The solver. A `Failure` stands for the exception the source raises, at
      the first operation that raises it: the division by `etaC`, the
      division by `rp ** k` (zero when rp is 0), the comparison of a complex
      heat input (rp negative gives a complex power), the division T2 / T1
      (zero when T1 is 0 K), and the three logarithms of temperature
      ratios. */
  function Cycle(m: Math, t1C: real, rp: real, t3C: real, etaC: real, etaT: real): (r: Result<Solution>)
    requires m.Sound()
    ensures r.Success? ==> |r.value.states| == 4
    ensures r.Success? ==> 0.0 < rp && etaC != 0.0
    ensures r.Success? ==> r.value.metrics == MetricsOf(TemperaturesOf(m, t1C, rp, t3C, etaC, etaT))
    // first law: net work is heat in minus heat out
    ensures r.Success? ==> r.value.metrics.wNet == r.value.metrics.qIn - r.value.metrics.qOut
    ensures r.Success? ==> r.value.metrics.wNet == r.value.metrics.wTurb - r.value.metrics.wComp
    // state 1 is the reference state of enthalpy and entropy
    ensures r.Success? ==> r.value.states[0].h == 0.0 && r.value.states[0].s == 0.0
    ensures r.Success? ==> r.value.states[1].h == r.value.metrics.wComp
    ensures r.Success? ==> r.value.states[2].h - r.value.states[1].h == r.value.metrics.qIn
    ensures r.Success? ==> r.value.states[3].h == r.value.metrics.qOut
    // the reported Celsius temperatures give back the two inputs
    ensures r.Success? ==> r.value.states[0].t == t1C && r.value.states[2].t == t3C
  {
    if etaC == 0.0 then Failure(ZeroDivision)
    else if rp == 0.0 then Failure(ZeroDivision)
    else if rp < 0.0 then Failure(ComplexOrdering)
    else
      var t := TemperaturesOf(m, t1C, rp, t3C, etaC, etaT);
      if t.t1 == 0.0 then Failure(ZeroDivision)
      else if t.t2 / t.t1 <= 0.0 then Failure(LogDomain)
      else if t.t3 / t.t2 <= 0.0 then Failure(LogDomain)
      else if t.t4 / t.t3 <= 0.0 then Failure(LogDomain)
      else Success(Solution(StatesOf(m, t, rp), MetricsOf(t)))
  }

  /** Inputs in the ranges the solver is meant for: both temperatures above
      absolute zero, a compressing pressure ratio and efficiencies in (0, 1]. */
  predicate PhysicalInputs(t1C: real, rp: real, t3C: real, etaC: real, etaT: real)
  {
    && -KelvinOffset < t1C && -KelvinOffset < t3C
    && 1.0 < rp
    && 0.0 < etaC <= 1.0 && 0.0 < etaT <= 1.0
  }

  /** What a successful run is made of: the inputs passed the divisions and
      the logarithm arguments were positive. */
  lemma Unfold(m: Math, t1C: real, rp: real, t3C: real, etaC: real, etaT: real)
    requires m.Sound()
    requires Cycle(m, t1C, rp, t3C, etaC, etaT).Success?
    ensures 0.0 < rp && etaC != 0.0
    ensures var t := TemperaturesOf(m, t1C, rp, t3C, etaC, etaT);
      && t.t1 != 0.0 && t.t2 != 0.0 && t.t3 != 0.0
      && 0.0 < t.t2 / t.t1 && 0.0 < t.t3 / t.t2 && 0.0 < t.t4 / t.t3
      && Cycle(m, t1C, rp, t3C, etaC, etaT).value == Solution(StatesOf(m, t, rp), MetricsOf(t))
  {
  }

  /** The compressor reaches its isentropic outlet temperature exactly when it
      is ideal or does not compress at all. */
  lemma IdealCompressor(t1: real, t2s: real, etaC: real)
    requires etaC != 0.0
    ensures CompressorOutlet(t1, t2s, etaC) == t2s <==> (etaC == 1.0 || t2s == t1)
  {
    var t2 := CompressorOutlet(t1, t2s, etaC);
    if t2 == t2s {
      assert (t2s - t1) * (etaC - 1.0) == 0.0;
      ZeroProduct(t2s - t1, etaC - 1.0);
    }
  }

  /** The turbine reaches its isentropic outlet temperature exactly when it is
      ideal or does not expand at all. */
  lemma IdealTurbine(t3: real, t4s: real, etaT: real)
    ensures TurbineOutlet(t3, t4s, etaT) == t4s <==> (etaT == 1.0 || t4s == t3)
  {
    var t4 := TurbineOutlet(t3, t4s, etaT);
    assert t4 - t4s == (t3 - t4s) * (1.0 - etaT);
    if t4 == t4s {
      ZeroProduct(t3 - t4s, 1.0 - etaT);
    }
  }

  /** With ideal machines the reported outlet temperatures are the isentropic
      ones, T1 * rp^k and T3 / rp^k. */
  lemma IdealLimit(m: Math, t1C: real, rp: real, t3C: real, etaC: real, etaT: real)
    requires m.Sound()
    requires Cycle(m, t1C, rp, t3C, etaC, etaT).Success?
    ensures etaC == 1.0 ==>
      Cycle(m, t1C, rp, t3C, etaC, etaT).value.states[1].t + KelvinOffset
        == (t1C + KelvinOffset) * m.pow(rp, IsentropicExponent)
    ensures etaT == 1.0 ==>
      Cycle(m, t1C, rp, t3C, etaC, etaT).value.states[3].t + KelvinOffset
        == (t3C + KelvinOffset) / m.pow(rp, IsentropicExponent)
  {
    Unfold(m, t1C, rp, t3C, etaC, etaT);
    var t := TemperaturesOf(m, t1C, rp, t3C, etaC, etaT);
    var sts := Cycle(m, t1C, rp, t3C, etaC, etaT).value.states;
    assert sts == StatesOf(m, t, rp);
    assert sts[1].t + KelvinOffset == t.t2 && sts[3].t + KelvinOffset == t.t4;
    IdealTemperatures(t, etaC, etaT);
  }

  /** Ideal machines reach the isentropic outlet temperatures. */
  lemma IdealTemperatures(t: Temperatures, etaC: real, etaT: real)
    requires etaC != 0.0 && t.t2 == CompressorOutlet(t.t1, t.t2s, etaC)
    requires t.t4 == TurbineOutlet(t.t3, t.t4s, etaT)
    ensures etaC == 1.0 ==> t.t2 == t.t2s
    ensures etaT == 1.0 ==> t.t4 == t.t4s
  {
    IdealCompressor(t.t1, t.t2s, etaC);
    IdealTurbine(t.t3, t.t4s, etaT);
  }

  /** Which inputs make the source raise, and what it raises. */
  lemma CycleFaults(m: Math, t1C: real, rp: real, t3C: real, etaC: real, etaT: real)
    requires m.Sound()
    ensures etaC == 0.0 ==> Cycle(m, t1C, rp, t3C, etaC, etaT) == Failure(ZeroDivision)
    ensures etaC != 0.0 && rp == 0.0 ==> Cycle(m, t1C, rp, t3C, etaC, etaT) == Failure(ZeroDivision)
    ensures etaC != 0.0 && rp < 0.0 ==> Cycle(m, t1C, rp, t3C, etaC, etaT) == Failure(ComplexOrdering)
    ensures etaC != 0.0 && 0.0 < rp && t1C == -KelvinOffset ==>
      Cycle(m, t1C, rp, t3C, etaC, etaT) == Failure(ZeroDivision)
    ensures Cycle(m, t1C, rp, t3C, etaC, etaT).Failure? ==>
      (|| etaC == 0.0 || rp <= 0.0 || t1C == -KelvinOffset
       || Cycle(m, t1C, rp, t3C, etaC, etaT).fault == LogDomain)
  {
  }

  /** Closed forms of the two works the solver reports, in terms of the
      isentropic temperature ratio p = rp^k: w_comp = cp T1 (p - 1) / eta_c
      and w_turb = eta_t cp T3 (1 - 1/p). */
  lemma WorkClosedForms(m: Math, t1C: real, rp: real, t3C: real, etaC: real, etaT: real)
    requires m.Sound()
    requires 0.0 < rp && etaC != 0.0
    ensures var g := MetricsOf(TemperaturesOf(m, t1C, rp, t3C, etaC, etaT));
      var p := m.pow(rp, IsentropicExponent);
      && g.wComp * etaC == CpAir * (t1C + KelvinOffset) * (p - 1.0)
      && g.wTurb * p == etaT * CpAir * (t3C + KelvinOffset) * (p - 1.0)
  {
    var t := TemperaturesOf(m, t1C, rp, t3C, etaC, etaT);
    var p := m.pow(rp, IsentropicExponent);
    var g := MetricsOf(t);
    CompressionWork(g.wComp, t1C + KelvinOffset, t.t2s, t.t2, p, etaC);
    ExpansionWork(g.wTurb, t3C + KelvinOffset, t.t4s, t.t4, p, etaT);
  }

  /** Compressor work times its efficiency is cp T1 (p - 1). */
  lemma CompressionWork(w: real, t1: real, t2s: real, t2: real, p: real, etaC: real)
    requires etaC != 0.0 && t2s == t1 * p && t2 == CompressorOutlet(t1, t2s, etaC)
    requires w == CpAir * (t2 - t1)
    ensures w * etaC == CpAir * t1 * (p - 1.0)
  {
  }

  /** Turbine work times p is eta_t cp T3 (p - 1). */
  lemma ExpansionWork(w: real, t3: real, t4s: real, t4: real, p: real, etaT: real)
    requires t4s * p == t3 && t4 == TurbineOutlet(t3, t4s, etaT)
    requires w == CpAir * (t3 - t4)
    ensures w * p == etaT * CpAir * t3 * (p - 1.0)
  {
    assert (t3 - t4) * p == etaT * (t3 * p - t4s * p);
  }

  /** For any temperatures, the efficiency and the back-work ratio are 0
      when their denominator is not positive; otherwise they are the
      percentage quotient, below 100 or positive exactly when the first law
      says so. */
  lemma GuardedRatios(t: Temperatures)
    ensures var g := MetricsOf(t);
      && (g.qIn <= 0.0 ==> g.etaTh == 0.0)
      && (0.0 < g.qIn ==> g.etaTh * g.qIn == 100.0 * g.wNet)
      && (0.0 < g.qIn ==> (g.etaTh < 100.0 <==> 0.0 < g.qOut))
      && (0.0 < g.qIn ==> (0.0 < g.etaTh <==> g.wComp < g.wTurb))
      && (g.wTurb <= 0.0 ==> g.bwr == 0.0)
      && (0.0 < g.wTurb ==> g.bwr * g.wTurb == 100.0 * g.wComp)
      && (0.0 < g.wTurb ==> (g.bwr < 100.0 <==> 0.0 < g.wNet))
  {
    var g := MetricsOf(t);
    if 0.0 < g.qIn {
      GuardedPercentSigns(g.wNet, g.qIn);
    }
    if 0.0 < g.wTurb {
      GuardedPercentSigns(g.wComp, g.wTurb);
    }
  }

  /** A compressor with efficiency in (0, 1] heats the air at least as much as
      the isentropic one does, and the isentropic one heats it when p > 1. */
  lemma PhysicalCompressor(t1: real, p: real, etaC: real, t2s: real, t2: real)
    requires 0.0 < t1 && 1.0 < p && 0.0 < etaC <= 1.0
    requires t2s == t1 * p && t2 == CompressorOutlet(t1, t2s, etaC)
    ensures t1 < t2s <= t2
  {
    Grows(t1, p, t2s);
    EfficiencyRise(t2 - t1, t2s - t1, etaC);
  }

  /** A turbine with efficiency in (0, 1] cools the air at most as much as the
      isentropic one does, and the isentropic one cools it when p > 1. */
  lemma PhysicalTurbine(t3: real, p: real, etaT: real, t4s: real, t4: real)
    requires 0.0 < t3 && 1.0 < p && 0.0 < etaT <= 1.0
    requires t4s * p == t3 && t4 == TurbineOutlet(t3, t4s, etaT)
    ensures 0.0 < t4s <= t4 < t3
  {
    Shrinks(t3, p, t4s);
    EfficiencyDrop(t3 - t4, t3 - t4s, etaT);
  }

  /** When heat is added (T3 > T2), the turbine outlet lies above the
      compressor inlet, since T1 p = T2s <= T2 < T3 = T4s p <= T4 p. */
  lemma HeatRejectedWhenHeatAdded(t1: real, p: real, t2s: real, t2: real, t3: real, t4s: real, t4: real)
    requires 0.0 < p && t2s == t1 * p && t4s * p == t3
    requires t2s <= t2 < t3 && t4s <= t4
    ensures t1 < t4
  {
    CancelFactor(t1, t4s, p);
  }

  /** On physical inputs the solver raises nothing, the compressor heats and
      the turbine cools the air, both works are positive, and the thermal
      efficiency stays below 100 percent. */
  lemma DefinedOnPhysicalInputs(m: Math, t1C: real, rp: real, t3C: real, etaC: real, etaT: real)
    requires m.Sound()
    requires PhysicalInputs(t1C, rp, t3C, etaC, etaT)
    ensures Cycle(m, t1C, rp, t3C, etaC, etaT).Success?
    ensures var sol := Cycle(m, t1C, rp, t3C, etaC, etaT).value;
      && sol.states[0].t < sol.states[1].t
      && sol.states[3].t < sol.states[2].t
      && 0.0 < sol.metrics.wComp && 0.0 < sol.metrics.wTurb
      && 0.0 < sol.metrics.bwr
      && sol.metrics.etaTh < 100.0
  {
    var t := TemperaturesOf(m, t1C, rp, t3C, etaC, etaT);
    PhysicalTemperaturesOf(m, t1C, rp, t3C, etaC, etaT);
    PhysicalMetrics(t);
    PositiveQuotient(t.t2, t.t1);
    PositiveQuotient(t.t3, t.t2);
    PositiveQuotient(t.t4, t.t3);
    assert Cycle(m, t1C, rp, t3C, etaC, etaT) == Success(Solution(StatesOf(m, t, rp), MetricsOf(t)));
  }

  /** The temperatures of a cycle run on physical inputs. */
  lemma PhysicalTemperaturesOf(m: Math, t1C: real, rp: real, t3C: real, etaC: real, etaT: real)
    requires m.Sound()
    requires PhysicalInputs(t1C, rp, t3C, etaC, etaT)
    ensures var t := TemperaturesOf(m, t1C, rp, t3C, etaC, etaT);
      && 0.0 < t.t1 < t.t2 && 0.0 < t.t4 < t.t3
      && (t.t2 < t.t3 ==> t.t1 < t.t4)
  {
    var t := TemperaturesOf(m, t1C, rp, t3C, etaC, etaT);
    var p := m.pow(rp, IsentropicExponent);
    assert 1.0 < p;
    PhysicalCompressor(t.t1, p, etaC, t.t2s, t.t2);
    PhysicalTurbine(t.t3, p, etaT, t.t4s, t.t4);
    if t.t2 < t.t3 {
      HeatRejectedWhenHeatAdded(t.t1, p, t.t2s, t.t2, t.t3, t.t4s, t.t4);
    }
  }

  /** The metrics of a cycle whose compressor heats, whose turbine cools, and
      whose turbine outlet stays above the compressor inlet when heat is
      added. */
  lemma PhysicalMetrics(t: Temperatures)
    requires 0.0 < t.t1 < t.t2 && 0.0 < t.t4 < t.t3
    requires t.t2 < t.t3 ==> t.t1 < t.t4
    ensures var g := MetricsOf(t);
      0.0 < g.wComp && 0.0 < g.wTurb && 0.0 < g.bwr && g.etaTh < 100.0
  {
    var g := MetricsOf(t);
    GuardedPercentSigns(g.wComp, g.wTurb);
    if 0.0 < g.qIn {
      GuardedPercentSigns(g.wNet, g.qIn);
    }
  }

  /** State 4's entropy telescopes to the constant-pressure change from T1 to
      T4: the pressure terms of compression and expansion cancel. */
  lemma StatesEntropyClosure(m: Math, t: Temperatures, rp: real)
    requires m.Sound()
    requires t.t1 != 0.0 && t.t2 != 0.0 && t.t3 != 0.0
    requires 0.0 < t.t2 / t.t1 && 0.0 < t.t3 / t.t2 && 0.0 < t.t4 / t.t3
    ensures StatesOf(m, t, rp)[3].s == CpAir * m.ln(t.t4 / t.t1)
  {
    LnChain(m, t.t1, t.t2, t.t3);
    LnChain(m, t.t1, t.t3, t.t4);
  }

  /** The entropy the solver reports at state 4 is the one of a
      constant-pressure path from state 1 to the turbine outlet temperature,
      so the 4 -> 1 heat rejection closes the cycle on the entropy axis. */
  lemma EntropyClosure(m: Math, t1C: real, rp: real, t3C: real, etaC: real, etaT: real)
    requires m.Sound()
    requires Cycle(m, t1C, rp, t3C, etaC, etaT).Success?
    ensures var sts := Cycle(m, t1C, rp, t3C, etaC, etaT).value.states;
      sts[3].s == CpAir * m.ln((sts[3].t + KelvinOffset) / (sts[0].t + KelvinOffset))
  {
    Unfold(m, t1C, rp, t3C, etaC, etaT);
    var t := TemperaturesOf(m, t1C, rp, t3C, etaC, etaT);
    StatesEntropyClosure(m, t, rp);
    var sts := StatesOf(m, t, rp);
    assert sts[3].t + KelvinOffset == t.t4 && sts[0].t + KelvinOffset == t.t1;
  }

  /** The air constants are not quite those of an ideal gas: cp (gamma - 1) /
      gamma exceeds R by exactly 1/7000 kJ/(kg K). */
  lemma ConstantMismatch()
    ensures CpAir * IsentropicExponent - RAir == 1.0 / 7000.0
  {
  }

  /** Entropy changes of the ideal machines, at the level of temperatures. */
  lemma StatesIdealEntropy(m: Math, t1C: real, rp: real, t3C: real, etaC: real, etaT: real)
    requires m.Sound()
    requires 0.0 < rp && etaC != 0.0
    requires var t := TemperaturesOf(m, t1C, rp, t3C, etaC, etaT);
      t.t1 != 0.0 && t.t2 != 0.0 && t.t3 != 0.0
    ensures var sts := StatesOf(m, TemperaturesOf(m, t1C, rp, t3C, etaC, etaT), rp);
      etaC == 1.0 ==> sts[1].s * 7000.0 == m.ln(rp)
    ensures var sts := StatesOf(m, TemperaturesOf(m, t1C, rp, t3C, etaC, etaT), rp);
      etaT == 1.0 ==> (sts[3].s - sts[2].s) * 7000.0 == -m.ln(rp)
  {
    var t := TemperaturesOf(m, t1C, rp, t3C, etaC, etaT);
    var p := m.pow(rp, IsentropicExponent);
    if etaC == 1.0 {
      IdealCompressor(t.t1, t.t2s, etaC);
      QuotientOfProduct(t.t2, t.t1, p);
      IdealCompressionEntropy(m, t, rp);
    }
    if etaT == 1.0 {
      IdealTurbine(t.t3, t.t4s, etaT);
      ReciprocalQuotient(t.t4, t.t3, p);
      IdealExpansionEntropy(m, t, rp);
    }
  }

  /** The compression half of StatesIdealEntropy. */
  lemma IdealCompressionEntropy(m: Math, t: Temperatures, rp: real)
    requires m.Sound()
    requires 0.0 < rp
    requires t.t1 != 0.0 && t.t2 != 0.0 && t.t3 != 0.0
    requires t.t2 / t.t1 == m.pow(rp, IsentropicExponent)
    ensures StatesOf(m, t, rp)[1].s * 7000.0 == m.ln(rp)
  {
    var p := m.pow(rp, IsentropicExponent);
    assert m.ln(p) == IsentropicExponent * m.ln(rp);
    EntropyMismatch(StatesOf(m, t, rp)[1].s, m.ln(p), m.ln(rp));
  }

  /** The expansion half of StatesIdealEntropy. */
  lemma IdealExpansionEntropy(m: Math, t: Temperatures, rp: real)
    requires m.Sound()
    requires 0.0 < rp
    requires t.t1 != 0.0 && t.t2 != 0.0 && t.t3 != 0.0
    requires t.t4 / t.t3 == 1.0 / m.pow(rp, IsentropicExponent)
    ensures (StatesOf(m, t, rp)[3].s - StatesOf(m, t, rp)[2].s) * 7000.0 == -m.ln(rp)
  {
    var p := m.pow(rp, IsentropicExponent);
    var sts := StatesOf(m, t, rp);
    assert m.ln(p) == IsentropicExponent * m.ln(rp);
    LnReciprocal(m, p);
    EntropyMismatch(sts[2].s - sts[3].s, m.ln(p), m.ln(rp));
  }

  /** An entropy change cp ln p - R ln rp, where ln p = k ln rp, is
      ln(rp) / 7000. */
  lemma EntropyMismatch(ds: real, lnP: real, lnRp: real)
    requires lnP == IsentropicExponent * lnRp
    requires ds == CpAir * lnP - RAir * lnRp
    ensures ds * 7000.0 == lnRp
  {
    ConstantMismatch();
  }

  /** With ideal machines compression and expansion are isentropic only up to
      the mismatch of the air constants: compression raises the entropy by
      ln(rp) / 7000 and expansion lowers it by the same amount. */
  lemma IdealEntropy(m: Math, t1C: real, rp: real, t3C: real, etaC: real, etaT: real)
    requires m.Sound()
    requires Cycle(m, t1C, rp, t3C, etaC, etaT).Success?
    ensures var sts := Cycle(m, t1C, rp, t3C, etaC, etaT).value.states;
      etaC == 1.0 ==> sts[1].s * 7000.0 == m.ln(rp)
    ensures var sts := Cycle(m, t1C, rp, t3C, etaC, etaT).value.states;
      etaT == 1.0 ==> (sts[3].s - sts[2].s) * 7000.0 == -m.ln(rp)
  {
    Unfold(m, t1C, rp, t3C, etaC, etaT);
    StatesIdealEntropy(m, t1C, rp, t3C, etaC, etaT);
  }

  /** A pressure ratio of 25 gives an isentropic temperature ratio
      25^(2/7) between 2 and 2.6, because its seventh power is 25^2 = 625. */
  lemma RatioAtTwentyFive(m: Math)
    requires m.Sound()
    ensures 2.0 < m.pow(25.0, IsentropicExponent) < 2.6
  {
    var k := IsentropicExponent;
    var p := m.pow(25.0, k);
    var p2 := m.pow(25.0, k + k);
    var p4 := m.pow(25.0, (k + k) + (k + k));
    var p6 := m.pow(25.0, ((k + k) + (k + k)) + (k + k));
    assert Mul(p, p) == p2;
    assert Mul(p2, p2) == p4;
    assert Mul(p4, p2) == p6;
    assert (((k + k) + (k + k)) + (k + k)) + k == 2.0;
    assert Mul(p6, p) == m.pow(25.0, 2.0);
    assert Mul(m.pow(25.0, 1.0), m.pow(25.0, 1.0)) == m.pow(25.0, 2.0);
    assert Seventh(p) == 625.0;
    if p <= 2.0 {
      SeventhMonotone(p, 2.0);
    }
    if 2.6 <= p {
      SeventhMonotone(2.6, p);
    }
  }

  /** With a temperature ratio above 2, a 45 degree C inlet, an 800 degree C
      turbine inlet and both machines at 70 percent, the turbine gives less
      work than the compressor takes. */
  lemma TurbineOutworked(wComp: real, wTurb: real, p: real)
    requires 2.0 < p
    requires wComp * 0.7 == CpAir * (45.0 + KelvinOffset) * (p - 1.0)
    requires wTurb * p == 0.7 * CpAir * (800.0 + KelvinOffset) * (p - 1.0)
    ensures 0.0 < wTurb < wComp
  {
    ScaleCompare(0.0, wTurb, p);
    ScaleCompare(2.0, p, wTurb);
  }

  /** The metrics at ambient 45 degrees C, pressure ratio 25, turbine inlet
      800 degrees C and both machines at 70 percent: heat is added, yet the
      net work is negative, so the efficiency is negative and the back-work
      ratio is above 100 percent. */
  lemma WorkConsumingSetting(m: Math)
    requires m.Sound()
    ensures var g := MetricsOf(TemperaturesOf(m, 45.0, 25.0, 800.0, 0.7, 0.7));
      && 0.0 < g.qIn && g.wNet < 0.0
      && g.etaTh < 0.0 && 100.0 < g.bwr
  {
    RatioAtTwentyFive(m);
    var p := m.pow(25.0, IsentropicExponent);
    var t := TemperaturesOf(m, 45.0, 25.0, 800.0, 0.7, 0.7);
    var g := MetricsOf(t);
    WorkClosedForms(m, 45.0, 25.0, 800.0, 0.7, 0.7);
    TurbineOutworked(g.wComp, g.wTurb, p);
    assert 0.0 < g.qIn;
    GuardedRatios(t);
    ScaleCompare(g.etaTh, 0.0, g.qIn);
    ScaleCompare(100.0, g.bwr, g.wTurb);
  }

  /** The same setting in the solver: the dashboard's sliders reach it (ambient
      10 to 45 degrees C, pressure ratio 4 to 25, turbine inlet 800 to 1500
      degrees C, efficiencies 70 to 95 percent), the run succeeds, and the
      efficiency it reports is negative and the back-work ratio above 100. */
  lemma WorkConsumingOnDashboard(m: Math)
    requires m.Sound()
    ensures PhysicalInputs(45.0, 25.0, 800.0, 0.7, 0.7)
    ensures Cycle(m, 45.0, 25.0, 800.0, 0.7, 0.7).Success?
    ensures var g := Cycle(m, 45.0, 25.0, 800.0, 0.7, 0.7).value.metrics;
      g.wNet < 0.0 && g.etaTh < 0.0 && 100.0 < g.bwr
  {
    DefinedOnPhysicalInputs(m, 45.0, 25.0, 800.0, 0.7, 0.7);
    WorkConsumingSetting(m);
  }
}
