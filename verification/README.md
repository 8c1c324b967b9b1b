# A verified model of the ADHTC plant calculations

The ADHTC system is a dashboard for a plant that treats two biomass
streams. A moisture-rich stream goes to anaerobic digestion (AD), which
yields biogas. A moisture-lean stream goes to hydrothermal carbonization
(HTC), which yields hydrochar. The biogas fires a gas turbine, which runs on
a Brayton cycle. Heat from the HTC reactor raises steam for a small
Rankine-like steam cycle.

This project models the calculation core of `app.py` in Dafny:

- the material constants;
- the Brayton cycle solver (`brayton_cycle`);
- the HTC steam cycle solver (`htc_steam_cycle`);
- the digester yield (`ad_biogas_yield`);
- the HTC mass and energy balance (`htc_process`);
- the arithmetic in the dashboard callback that combines them into an air
  mass flow and the plant's net power.

## Files

| file | module | contents |
|---|---|---|
| `constants.dfy` | `Constants` | the eight material constants, and the 273.15 Celsius-to-kelvin offset |
| `outcome.dfy` | `Outcome` | `Result` and `Fault`, which stand in for the Python exceptions |
| `transcendental.dfy` | `Transcendental` | `Math`: the power and logarithm functions, with the laws the proofs rely on |
| `arith.dfy` | `RealArith` | small lemmas about ordered fields |
| `cycles.dfy` | `Cycles` | the state-point record, and the guarded percentage both cycles use |
| `brayton.dfy` | `Brayton` | the gas-turbine cycle |
| `steam.dfy` | `Steam` | the HTC steam cycle |
| `digestion.dfy` | `Digestion` | the anaerobic digestion yield |
| `carbonization.dfy` | `Carbonization` | the HTC products and energy demand |
| `plant.dfy` | `Plant` | the callback's air flow and power arithmetic |

## How the model stands in for Python

- **Real numbers, not floats.** Quantities are Dafny `real`s. The model is
  exact rational arithmetic, not IEEE doubles, and has no rounding.
- **Power and logarithm are parameters.** `rp ** k` and `math.log` have no
  closed form over the reals. Every operation that uses them takes a value
  `m: Math`, which carries a power function and a logarithm function. The
  proofs assume only the laws in `Math.Sound`:
  - a power of a positive base is positive;
  - a power of a base above 1 with a positive exponent is above 1;
  - `x^1 = x` and `x^a · x^b = x^(a+b)` for positive `x`;
  - `ln(x*y) = ln x + ln y` for positive `x` and `y`;
  - `ln(x^e) = e ln x`.

  As a result, every theorem holds for any functions that obey these laws.
- **Exceptions are values.** Each input that makes the source raise gives
  `Failure(fault)`. The fault is the first exception in the source's
  evaluation order:

  | fault | Python exception | when the source raises it |
  |---|---|---|
  | `ZeroDivision` | `ZeroDivisionError` | a division by zero |
  | `LogDomain` | `ValueError` | `math.log` of a non-positive number |
  | `ComplexOrdering` | `TypeError` | the heat input is compared with 0 after a negative pressure ratio made the power complex |

- **Only the gas cycle is measured from state 1.** The gas solver sets
  h1 = s1 = 0 (app.py:90, 96). The steam solver does not: it sets
  h1 = 4.186 · 45 = 188.37 kJ/kg and s1 = 4.186 ln(318.15/273.15)
  (app.py:140, 150). `Steam.FixedStructure` states this.
- **The gas-cycle efficiency is not bounded below by 0.** On physical
  inputs the solver's thermal efficiency is always below 100 % and its
  back-work ratio positive (`Brayton.DefinedOnPhysicalInputs`). But when the
  compressor takes more work than the turbine gives, the net work is
  negative. Then the efficiency is negative and the back-work ratio exceeds
  100 %, and nothing in the code clamps either value. This happens within
  the dashboard's slider ranges (app.py:810-814). At ambient 45 °C, pressure
  ratio 25, turbine inlet 800 °C and both machines at 70 %, the figures are
  T2 ≈ 730.6 °C, q_in ≈ 69.7 kJ/kg, w_net ≈ −235 kJ/kg, an efficiency near
  −337 % and a back-work ratio near 152 % (computed by hand from
  25^(2/7) ≈ 2.508). `Brayton.WorkConsumingOnDashboard` proves the signs
  for every power function obeying the laws above. The steam cycle's
  efficiency, by contrast, stays strictly between 0 and 100 % over the whole
  reactor-temperature slider (`Steam.EfficiencyInDashboardRange`).
- **The ideal compressor is not exactly isentropic.** The air constants
  disagree with each other slightly: cp (γ−1)/γ − R = 1/7000 rather than 0.
  So the model's ideal compressor shows an entropy change of ln(rp)/7000,
  as the source's does (`Brayton.ConstantMismatch`, `Brayton.IdealEntropy`).

## Model

| member | source | states |
|---|---|---|
| Cycles.GuardedPercent | app.py:86-87 | With a positive denominator, the result is the percentage: r · den = 100 · num. With a zero or negative denominator, the result is 0. |
| Cycles.GuardedPercentSigns | app.py:86-87 | With a positive denominator, the percentage is below 100 exactly when num < den, and positive exactly when num is positive. |
| Brayton.CompressorOutlet | app.py:74 | The actual temperature rise times the compressor efficiency equals the isentropic rise. |
| Brayton.TurbineOutlet | app.py:78 | The actual temperature drop is the turbine efficiency times the isentropic drop. |
| Brayton.TemperaturesOf | app.py:69-78 | T1 and T3 are the inputs plus 273.15. T2s = T1 · rp^k. T4s · rp^k = T3, where k = (γ−1)/γ. The outlets follow from the efficiencies: (T2 − T1) · η_c = T2s − T1 and T3 − T4 = η_t · (T3 − T4s). |
| Brayton.MetricsOf | app.py:81-87 | The first law: net work equals heat in minus heat out. |
| Brayton.StatesOf | app.py:89-107 | Four states. The reported Celsius temperatures give back T1 to T4. Enthalpy is cp times the temperature above state 1. Entropy starts at 0 and changes as for an ideal gas: cp ln(T2/T1) − R ln rp across the compressor, cp ln(T3/T2) across the constant-pressure combustor, and cp ln(T4/T3) + R ln rp across the turbine. |
| Brayton.Cycle | app.py:54-119 | On success: four states; metrics equal to those of the cycle's temperatures; net work equals both heat in minus heat out and turbine minus compressor work. Enthalpy and entropy are measured from state 1. The enthalpies of states 2–4 are w_comp, w_comp + q_in and q_out. The reported temperatures give back the two input temperatures. |
| Brayton.Unfold | app.py:73-93 | A successful run passed every division. Its three logarithm arguments T2/T1, T3/T2 and T4/T3 are positive. |
| Brayton.CycleFaults | app.py:73-93 | eta_c = 0 raises a zero division, and so does rp = 0. Otherwise a negative rp raises at the complex comparison. With a positive rp, T1 = 0 K raises a zero division. Every other failure is a logarithm domain error. |
| Brayton.IdealCompressor | app.py:74 | The compressor reaches its isentropic outlet temperature if and only if eta_c = 1 or T2s = T1. |
| Brayton.IdealTurbine | app.py:78 | The turbine reaches its isentropic outlet temperature if and only if eta_t = 1 or T4s = T3. |
| Brayton.IdealLimit | app.py:73-78 | With ideal machines, the reported outlet temperatures plus 273.15 are T1 · rp^k and T3 / rp^k. |
| Brayton.WorkClosedForms | app.py:73-82 | w_comp · eta_c = cp T1 (rp^k − 1) and w_turb · rp^k = eta_t cp T3 (rp^k − 1). |
| Brayton.CompressionWork | app.py:73-74 | Compressor work times eta_c equals the isentropic compressor work. |
| Brayton.ExpansionWork | app.py:77-78 | Turbine work is eta_t times the isentropic turbine work. |
| Brayton.GuardedRatios | app.py:83-87 | The efficiency is 0 without heat input; otherwise eta_th · q_in = 100 · w_net. It is below 100 exactly when heat is rejected, and positive exactly when the turbine outworks the compressor. The back-work ratio is 0 without turbine work; otherwise bwr · w_turb = 100 · w_comp, and it is below 100 exactly when net work is positive. |
| Brayton.PhysicalCompressor | app.py:73-74 | A compressing ratio with efficiency in (0, 1] gives T1 < T2s ≤ T2. |
| Brayton.PhysicalTurbine | app.py:77-78 | An expanding ratio with efficiency in (0, 1] gives 0 < T4s ≤ T4 < T3. |
| Brayton.HeatRejectedWhenHeatAdded | app.py:73-78 | If the combustor adds heat (T2 < T3), the turbine exhaust is hotter than the compressor inlet. |
| Brayton.PhysicalTemperaturesOf | app.py:69-78 | Physical inputs give 0 < T1 < T2 and 0 < T4 < T3. When heat is added, they also give T1 < T4. |
| Brayton.PhysicalMetrics | app.py:81-87 | For such temperatures, both works are positive, the back-work ratio is positive, and the efficiency is below 100 %. |
| Brayton.DefinedOnPhysicalInputs | app.py:54-119 | Physical inputs never raise. The compressor heats, the turbine cools, both works and the back-work ratio are positive, and the efficiency is below 100 %. |
| Brayton.StatesEntropyClosure | app.py:90-93 | The entropy of state 4 is cp ln(T4/T1): the pressure terms of compression and expansion cancel. |
| Brayton.EntropyClosure | app.py:90-104 | For every successful run, s4 = cp ln(T4/T1), in terms of the reported temperatures. |
| Brayton.ConstantMismatch | app.py:40-42 | cp (γ−1)/γ − R = 1/7000. |
| Brayton.StatesIdealEntropy | app.py:73-93 | With ideal machines, the entropy rise across the compressor is ln(rp)/7000, and across the turbine it is −ln(rp)/7000. |
| Brayton.IdealEntropy | app.py:73-104 | The same, for every successful run. |
| Brayton.RatioAtTwentyFive | app.py:73 | The isentropic temperature ratio at pressure ratio 25 lies between 2 and 2.6, because its seventh power is 625. |
| Brayton.WorkConsumingSetting | app.py:73-87 | At ambient 45 °C, pressure ratio 25, turbine inlet 800 °C and both efficiencies 0.7, heat is added (q_in > 0) but the net work is negative. So the efficiency is negative and the back-work ratio is above 100. |
| Brayton.WorkConsumingOnDashboard | app.py:54-119 | That setting passes the physical-input test, and the solver succeeds on it. It reports a negative net work, a negative efficiency and a back-work ratio above 100. |
| Steam.IsentropicExhaust | app.py:146 | The quality recovered from the isentropic exhaust enthalpy, (h4s − h1) / hfg, is the assumed 0.88. |
| Steam.Cycle | app.py:122-177 | The solver fails exactly when T_reactor + 50 = −273.15 °C, and then with a zero division. On success: four states; the boiler-outlet enthalpy is that of water heated to 100 °C, vaporised, then superheated to the reported T3: 4.186 · 100 + 2257 + 2.01 · (T3 − 100); net work equals heat in minus the heat rejected from state 4 back to state 1; the boiler's entropy rise times its absolute outlet temperature equals its heat input. |
| Steam.FixedStructure | app.py:134-158 | h1 = 188.37 and s1 = 4.186 ln(318.15/273.15). The pump adds 0.1 kJ/kg per bar of lift and is isentropic. The turbine adds 0.15 kJ/(kg K). The reported temperatures are 45, 47, T_reactor + 50 and 65. |
| Steam.PumpWorkSign | app.py:163 | Pump work is 0.1 · (P − 0.1). It is non-negative exactly when P ≥ 0.1 bar. |
| Steam.TurbineAndEfficiency | app.py:144-167 | Turbine work is 0.85 times the drop from h3 to 188.37 + 0.88 · 2257. Net work is turbine minus pump work. Heat in is h3 − h2. The efficiency is guarded, and is below 100 % exactly when the turbine exhaust is above h1. |
| Steam.DefaultOperatingPoint | app.py:122-177 | At 200 °C and 20 bar: h1 = 188.37, h3 = 2977.1, pump work 1.99, heat in 2786.74, turbine work 682.1845, net work 680.1945, and an efficiency strictly between 0 and 100. |
| Steam.EfficiencyInDashboardRange | app.py:134-167 | For every reactor temperature from 150 to 300 °C (the slider at app.py:794) at the callback's 20 bar, the solver succeeds. Its efficiency is then strictly between 0 and 100 %. |
| Digestion.BiogasYield | app.py:180-196 | Dry mass plus water equals feed. Volatile solids are the given fraction of dry mass. Biogas is 0.40 m³ per kg of volatile solids, and 60 % of it is methane. Its energy is 22 MJ/m³. |
| Digestion.Homogeneous | app.py:184-188 | Scaling the feed scales every output. |
| Digestion.Additive | app.py:184-188 | The yield of two feeds at the same moisture is the sum of their yields. |
| Digestion.Example | app.py:180-196 | 800 kg/h at 70 % moisture and 0.8 volatile solids: 240 kg dry, 192 kg volatile solids, 76.8 m³ biogas, 46.08 m³ methane, 1689.6 MJ/h. |
| Carbonization.Process | app.py:199-215 | Dry mass plus water equals feed. Hydrochar plus process water equals feed. Hydrochar is 60 % of dry mass. Its energy is 25 MJ/kg. The heating demand, times 1000, is the feed's sensible heat as water from 25 °C: feed · 4.186 · (T_reactor − 25) kJ/h. |
| Carbonization.EnergyRequiredSign | app.py:207 | The heating demand has the sign of feed × (T_reactor − 25 °C). |
| Carbonization.Homogeneous | app.py:203-207 | Scaling the feed scales every output. |
| Carbonization.Additive | app.py:203-207 | The balance of two feeds at the same moisture and temperature is the sum of their balances. |
| Carbonization.Example | app.py:199-215 | 500 kg/h at 20 % moisture and 200 °C: 400 kg dry, 240 kg hydrochar, 260 kg process water, 6000 MJ/h in hydrochar, 366.275 MJ/h of heating. |
| Plant.AirMassFlow | app.py:922-925 | With heat input, the air flow times q_in carries the biogas energy: m_air · q_in = 1000 · E. Without heat input, the air flow is 1.0. A non-negative biogas energy gives a non-negative air flow. |
| Plant.GasPowerAsWritten | app.py:928 | The gas-turbine power as written: shown · 3.6 = w_net · m_air. |
| Plant.PowerKw | app.py:928-929 | A cycle's power from its specific net work and hourly mass flow: kW · 3600 = w_net · flow. Line 929 computes the steam power this way over the HTC feed. It is also the corrected gas-turbine power of line 928, over the air flow. |
| Plant.GasPowerUnitSlip | app.py:928 | The power as written is 1000 times the corrected power. It misses the energy balance whenever any power is produced. |
| Plant.GasPowerExample | app.py:928 | 360 kJ/kg on 1000 kg/h of air is 100 kW. The code as written reports 100000. |
| Plant.Reconcile | app.py:922-930 | The air flow carries the biogas energy into the gas cycle. The report carries the gas power and total the dashboard shows: shown · 3.6 = w_net · m_air, which is 1000 times the balanced power, and the shown total is the shown gas power plus the steam power. Beside them are the energy-balanced gas power (power · 3600 = w_net · m_air) and its total. The steam power balances its cycle's net work over the HTC feed. |
| Plant.GasPowerFromFuel | app.py:922-928 | With heat input, the gas-turbine power · 360 = eta_th · biogas energy. That is, the electric power is the thermal efficiency times the fuel power. The lemma is stated for any gas-cycle result whose efficiency is the guarded percentage, which `Brayton.GuardedRatios` proves of every solver result. |
| Plant.RunAnalysis | app.py:908-930 | The callback fails exactly when one of the two cycle solvers raises. Otherwise it returns the reconciliation of the four results, with the turbine efficiencies converted from percent and the steam cycle run at 20 bar. |
| Plant.RunAnalysisDefined | app.py:908-930 | Physical gas-turbine controls and a reactor above −323.15 °C never raise. A non-negative biogas energy then gives a non-negative air flow. |

## Left out

- Rounding. The source rounds every metric to 2 decimals, the steam state
  enthalpies to 1 decimal, and the steam entropies to 4. It rounds every
  output of `ad_biogas_yield` and `htc_process` to 2 decimals
  (app.py:190-196, 209-215). It also rounds m_air and the powers to 2
  decimals. The model is exact throughout.
- The rounded intermediates. The source tests m_air's guard on the rounded
  q_in. It computes m_air from the rounded biogas energy and the rounded
  q_in (app.py:923). It computes the powers from the rounded w_net and
  m_air. The model uses the exact values.
- Plant.AirMassFlow: tests the exact heat input against 0. The source tests
  q_in after rounding it to 2 decimals, so a q_in below 0.005 kJ/kg gives
  m_air = 1.0 there but a large flow here.
- IEEE floating point. Overflow, infinities and NaN are not modelled.
- Numeric values of power and logarithm. They are the parameter `m: Math`,
  constrained only by the laws listed above. So no statement mentions a
  concrete value of rp^k or of a logarithm.
- Python's complex results from a negative pressure ratio. They are modelled
  only as the exception they lead to (`ComplexOrdering`).
- Inputs the dashboard leaves empty. `None` reaching the callback raises a
  `TypeError`; those inputs are not modelled.
- Everything around the calculations: the process schematic, the charts
  (`make_hs_chart`, `make_t_hdot_chart`), the Dash layout and callback
  wiring, the report cards, the entry point, and `verify.py`.
- Plant.Reconcile: the displayed gas power and total are the unrounded
  values of app.py:928 and 930. The energy-balanced pair beside them uses
  /3600 (see Findings) and is not something the dashboard displays.
- Default arguments. `ad_biogas_yield` defaults vs_fraction to 0.80,
  `htc_steam_cycle` defaults to 200 °C and 20 bar, and `htc_process` defaults
  to 200 °C. The callback always passes these explicitly, so the model's
  functions take every argument explicitly.

## Findings

| source | as written | input that shows it | evidently intended | confidence | as-written member | corrected member |
|---|---|---|---|---|---|---|
| app.py:928 | `gt_power_kW = w_net * m_air / 3.6`, with w_net in kJ/kg and m_air in kg/h (the dashboard labels it kg/h, and line 923 computes it from MJ/h over MJ/kg), so the value is kJ/h ÷ 3.6, which is W and not kW | w_net = 360 kJ/kg and m_air = 1000 kg/h give 100000 "kW" where the energy balance gives 100 kW (`Plant.GasPowerExample`) | divide by 3600, as the steam power does on line 929 | medium, not executed | Plant.GasPowerUnitSlip | Plant.PowerKw |
