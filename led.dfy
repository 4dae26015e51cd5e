/** One PWM-driven LED channel: a duty cycle and the ceiling the channel may be
    driven to. The PWM peripheral itself is not modelled; its `duty_cycle`
    register is the field `dutyCycle`. */
module Leds {
  import opened Numeric

  /** `2 ** 16 - 1`, the full-scale duty cycle of a 16-bit PWM output. */
  const MaxDutyCycle: nat := 65535

  /** The duty cycle `Led.set(pct)` writes on a channel whose ceiling is `maxDuty`:
      `pct` is capped at 1, scaled to the ceiling and truncated like Python's
      `int()`, and the result is capped at the ceiling again. */
  function DutyFor(maxDuty: nat, pct: real): (d: int)
    ensures d <= maxDuty
    ensures 1.0 <= pct ==> d == maxDuty
    ensures 0.0 <= pct ==> 0 <= d
    ensures 0.0 <= pct <= 1.0 ==> d as real <= maxDuty as real * pct < d as real + 1.0
  {
    var capped := if pct <= 1.0 then pct else 1.0;
    var scaled := Trunc(maxDuty as real * capped);
    CappedScale(maxDuty, capped, scaled);
    if scaled <= maxDuty then scaled else maxDuty
  }

  /** Scaling a ceiling by a fraction of at most 1 and truncating stays within
      the ceiling, and is the whole part of the product when the fraction is
      not negative. */
  lemma CappedScale(m: nat, c: real, t: int)
    requires c <= 1.0 && t == Trunc(m as real * c)
    ensures t <= m
    ensures 0.0 <= c ==> 0 <= t && t as real <= m as real * c < t as real + 1.0
  {
    var top := m as real;
    var product := top * c;
    ScaleMonotone(top, c, 1.0);
    assert top * c <= top * 1.0;
    assert product == top * c;
    assert product <= top;
    if 0.0 <= c {
      ScaleMonotone(top, 0.0, c);
      assert 0.0 <= product;
    }
  }

  class Led {
    var dutyCycle: int
    const maxDutyCycle: nat

    /** The channel never runs above its ceiling. */
    ghost predicate Valid()
      reads this
    {
      dutyCycle <= maxDutyCycle
    }

    /** The PWM output starts with a zero duty cycle. */
    constructor (maxDutyCycle: nat := MaxDutyCycle)
      ensures Valid()
      ensures this.maxDutyCycle == maxDutyCycle && dutyCycle == 0
    {
      this.maxDutyCycle := maxDutyCycle;
      dutyCycle := 0;
    }

    method On()
      modifies this
      ensures Valid() && dutyCycle == maxDutyCycle
    {
      dutyCycle := maxDutyCycle;
    }

    method Off()
      modifies this
      ensures Valid() && dutyCycle == 0
    {
      dutyCycle := 0;
    }

    /** Sets the brightness as a fraction of the ceiling. */
    method Set(pct: real)
      modifies this
      ensures Valid() && dutyCycle == DutyFor(maxDutyCycle, pct)
      ensures 1.0 <= pct ==> dutyCycle == maxDutyCycle
      ensures pct <= 0.0 ==> dutyCycle <= 0
    {
      var capped := if pct <= 1.0 then pct else 1.0;
      var scaled := Trunc(maxDutyCycle as real * capped);
      dutyCycle := if scaled <= maxDutyCycle then scaled else maxDutyCycle;
    }
  }
}
