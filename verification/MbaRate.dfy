/** Rounding a memory bandwidth rate to what the hardware can throttle. */
module MbaRate {
  import opened Arith
  import opened Bits
  import opened Capabilities

  const LINEAR_MAX: nat := 100

  /** The discovered step and maximum add up to 100 in linear mode. */
  ghost predicate Linear(mba: MbaCap) {
    mba.isLinear && 1 <= mba.throttleStep <= LINEAR_MAX && mba.throttleMax == LINEAR_MAX - mba.throttleStep
  }

  function RoundedRate(step: nat, rate: nat): nat
    requires step > 0
  {
    (rate + step / 2) / step * step
  }

  /** The throttle for a rounded rate; the subtraction wraps at 32 bits. */
  function Throttle(mba: MbaCap, rounded: nat): (v: Word) {
    var v := (LINEAR_MAX - rounded) % UINT_LIMIT;
    if v > mba.throttleMax then mba.throttleMax % WORD_LIMIT else v
  }

  /** The throttle value written to the register. */
  function MsrThrottle(mba: MbaCap, rate: nat): (v: Word)
    requires mba.throttleStep > 0
  {
    Throttle(mba, RoundedRate(mba.throttleStep, rate))
  }

  /** The rate the register backend applies and reports. */
  function MsrRate(mba: MbaCap, rate: nat): int
    requires mba.throttleStep > 0
  {
    LINEAR_MAX - MsrThrottle(mba, rate)
  }

  /** The rate the resctrl backend writes. */
  function OsRate(step: nat, rate: nat): nat
    requires step > 0
  {
    if RoundedRate(step, rate) == 0 then step else RoundedRate(step, rate)
  }

  /** `m` is a multiple of `step` nearest to `rate`; a tie goes up. */
  ghost predicate Nearest(step: nat, rate: nat, m: nat)
    requires step > 0
  {
    m % step == 0 && rate - (step - 1) / 2 <= m <= rate + step / 2
  }

  lemma RoundedIsNearest(step: nat, rate: nat)
    requires step > 0
    ensures Nearest(step, rate, RoundedRate(step, rate))
    ensures RoundedRate(step, rate) == 0 || step <= RoundedRate(step, rate) <= rate + step / 2
  {
    var n := rate + step / 2;
    assert n == n / step * step + n % step;
    Multiple(n / step, step);
    SmallMultiple(step, RoundedRate(step, rate));
  }

  /** Both backends apply the same rate exactly when rounding stays within 100. */
  lemma BackendsAgree(mba: MbaCap, rate: nat)
    requires Linear(mba) && 1 <= rate <= LINEAR_MAX
    ensures MsrRate(mba, rate) == OsRate(mba.throttleStep, rate) <==> RoundedRate(mba.throttleStep, rate) <= LINEAR_MAX
    ensures RoundedRate(mba.throttleStep, rate) > LINEAR_MAX ==> MsrRate(mba, rate) == mba.throttleStep
  {
    hide RoundedRate, Nearest, Throttle;
    RoundedIsNearest(mba.throttleStep, rate);
    ThrottleOfRounded(mba, RoundedRate(mba.throttleStep, rate));
  }

  /** Up to 100 the register holds what is left to 100; past 100 the wrapped value is cut to the maximum. */
  lemma ThrottleOfRounded(mba: MbaCap, m: nat)
    requires Linear(mba) && m <= 200 && (m == 0 || m >= mba.throttleStep)
    ensures Throttle(mba, m) == if m == 0 || m > LINEAR_MAX then LINEAR_MAX - mba.throttleStep else LINEAR_MAX - m
  {
  }

  lemma SmallMultiple(step: nat, m: nat)
    requires step > 0 && m % step == 0
    ensures m == 0 || m >= step
  {
  }

  /** A step of 40 turns the full rate into the strongest throttle. */
  lemma RoundingPastFull()
    ensures RoundedRate(40, 100) == 120
    ensures MsrRate(MbaCap(8, 60, 40, true), 100) == 40 && OsRate(40, 100) == 120
  {
  }

  /** A step that divides 100 never rounds past it; the applied rate is then what the documentation promises. */
  lemma AppliedRate(mba: MbaCap, rate: nat)
    requires Linear(mba) && LINEAR_MAX % mba.throttleStep == 0 && 1 <= rate <= LINEAR_MAX
    ensures MsrRate(mba, rate) == OsRate(mba.throttleStep, rate)
    ensures mba.throttleStep <= MsrRate(mba, rate) <= LINEAR_MAX
    ensures MsrRate(mba, rate) % mba.throttleStep == 0
    ensures Nearest(mba.throttleStep, rate, MsrRate(mba, rate))
      || (MsrRate(mba, rate) == mba.throttleStep && 2 * rate < mba.throttleStep)
  {
    var step := mba.throttleStep;
    RoundedIsNearest(step, rate);
    NoMultipleBetween(step, RoundedRate(step, rate));
    BackendsAgree(mba, rate);
    SmallMultiple(step, RoundedRate(step, rate));
  }

  lemma NoMultipleBetween(step: nat, m: nat)
    requires 0 < step && LINEAR_MAX % step == 0 && m % step == 0 && m <= LINEAR_MAX + step / 2
    ensures m <= LINEAR_MAX
  {
    var a, b := LINEAR_MAX / step, m / step;
    assert a * step == LINEAR_MAX && b * step == m;
    assert (a + 1) * step == a * step + step;
    if b > a {
      MulMonotone(a + 1, b, step);
    } else {
      MulMonotone(b, a, step);
    }
  }

  lemma RateMonotone(mba: MbaCap, lower: nat, higher: nat)
    requires Linear(mba) && LINEAR_MAX % mba.throttleStep == 0
    requires 1 <= lower <= higher <= LINEAR_MAX
    ensures MsrRate(mba, lower) <= MsrRate(mba, higher)
  {
    var step := mba.throttleStep;
    AppliedRate(mba, lower);
    AppliedRate(mba, higher);
    DivMonotone(lower + step / 2, higher + step / 2, step);
    MulMonotone((lower + step / 2) / step, (higher + step / 2) / step, step);
  }

  lemma RateIdempotent(mba: MbaCap, rate: nat)
    requires Linear(mba) && LINEAR_MAX % mba.throttleStep == 0 && 1 <= rate <= LINEAR_MAX
    ensures MsrRate(mba, rate) > 0
    ensures MsrRate(mba, MsrRate(mba, rate)) == MsrRate(mba, rate)
  {
    var step := mba.throttleStep;
    AppliedRate(mba, rate);
    AppliedRate(mba, MsrRate(mba, rate));
    RoundingAMultiple(step, MsrRate(mba, rate));
  }

  lemma RoundingAMultiple(step: nat, m: nat)
    requires step > 0 && m % step == 0
    ensures RoundedRate(step, m) == m
  {
    assert m == m / step * step;
    Quotient(m + step / 2, step, m / step);
  }
}
