/** What the two cycle solvers share: the state-point record and the guarded
    percentage used for every efficiency and ratio they report. */
module Cycles {
  import opened RealArith

  /** One state of a cycle: temperature in degrees Celsius, specific enthalpy
      in kJ/kg and specific entropy in kJ/(kg K), with its display label. */
  datatype StatePoint = StatePoint(name: string, t: real, h: real, s: real)

  /** `num / den * 100` when the denominator is positive, and 0 otherwise, so
      that no division by a non-positive denominator takes place. */
  function GuardedPercent(num: real, den: real): (r: real)
    ensures den <= 0.0 ==> r == 0.0
    ensures 0.0 < den ==> r * den == 100.0 * num
  {
    if den > 0.0 then num / den * 100.0 else 0.0
  }

  /** With a positive denominator the percentage is below 100 exactly when
      the numerator is below the denominator, and positive exactly when the
      numerator is. */
  lemma GuardedPercentSigns(num: real, den: real)
    requires 0.0 < den
    ensures GuardedPercent(num, den) < 100.0 <==> num < den
    ensures 0.0 < GuardedPercent(num, den) <==> 0.0 < num
  {
    var pct := GuardedPercent(num, den);
    ScaleCompare(pct, 100.0, den);
    ScaleCompare(0.0, pct, den);
    assert pct * den == 100.0 * num;
    ScaleCompare(num, den, 100.0);
  }
}
