/** The physical constants shared by the cycle solvers and the yield estimators
    (app.py lines 40-47), plus the Celsius/Kelvin offset the solvers use. */
module Constants {

  /** Specific heat of air at constant pressure, kJ/(kg K). */
  const CpAir: real := 1.005

  /** Ratio of specific heats of air. */
  const GammaAir: real := 1.4

  /** Gas constant of air, kJ/(kg K). */
  const RAir: real := 0.287

  /** Specific heat of superheated steam (approximate), kJ/(kg K). */
  const CpSteam: real := 2.01

  /** Latent heat of vaporisation of water, kJ/kg. */
  const HfgWater: real := 2257.0

  /** Specific heat of liquid water, kJ/(kg K). */
  const CpWater: real := 4.186

  /** Lower heating value of biogas, MJ/m3. */
  const BiogasLhv: real := 22.0

  /** Higher heating value of hydrochar, MJ/kg. */
  const HydrocharHhv: real := 25.0

  /** Added to a Celsius temperature to obtain kelvin. */
  const KelvinOffset: real := 273.15
}
