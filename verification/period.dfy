/** The orbital period read from an element set, the sampling step derived
    from it, and the grid of instants the pass scan visits
    (visibility.py: get_orbital_period and the set-up of predict_passes). */
module Period {
  import opened Results
  import opened Text
  import opened FloatParse

  /** The two ways reading the period fails: `float` raises `ValueError` on
      the field, or the division raises `ZeroDivisionError`. */
  datatype PeriodError = MalformedMeanMotion | ZeroMeanMotion

  const MinutesPerDay: real := 1440.0

  /** `line2[52:63]`: the mean-motion field (revolutions per day) of line 2. */
  function MeanMotionField(line2: string): (r: string)
    ensures |line2| >= 63 ==> r == line2[52..63]
    ensures |r| <= 11
  {
    Slice(line2, 52, 63)
  }

  /** `get_orbital_period`: minutes per revolution, i.e. a day divided by the
      mean motion read from line 2. */
  function OrbitalPeriod(line2: string): (r: Result<real, PeriodError>)
    ensures ParseFloat(MeanMotionField(line2)).None? <==> r == Err(MalformedMeanMotion)
    ensures ParseFloat(MeanMotionField(line2)) == Some(0.0) <==> r == Err(ZeroMeanMotion)
    ensures r.Ok? ==> r.value == MinutesPerDay / ParseFloat(MeanMotionField(line2)).value
  {
    PeriodOf(ParseFloat(MeanMotionField(line2)))
  }

  /** The period for an already parsed mean motion. A negative mean motion is
      not rejected and gives a negative period. */
  function PeriodOf(meanMotion: Option<real>): (r: Result<real, PeriodError>)
    ensures meanMotion.None? <==> r == Err(MalformedMeanMotion)
    ensures meanMotion == Some(0.0) <==> r == Err(ZeroMeanMotion)
    ensures r.Ok? ==> r.value == MinutesPerDay / meanMotion.value
  {
    match meanMotion
    case None => Err(MalformedMeanMotion)
    case Some(mm) => if mm == 0.0 then Err(ZeroMeanMotion) else Ok(MinutesPerDay / mm)
  }

  /** An element set whose mean-motion field holds the fixed-point number
      `whole.frac` (right-aligned with blanks, as element sets are written)
      has a day divided by that number as its period, and a zero field is an
      error rather than a period. */
  lemma PeriodOfFixedField(line2: string, pad: string, whole: nat, frac: nat, places: nat)
    requires |line2| >= 63 && FloatBlank(pad) && frac < Pow10(places)
    requires line2[52..63] == pad + RenderFixed(whole, frac, places)
    ensures whole == 0 && frac == 0 ==> OrbitalPeriod(line2) == Err(ZeroMeanMotion)
    ensures FixedValue(whole, frac, places) > 0.0 ==>
              OrbitalPeriod(line2) == Ok(MinutesPerDay / FixedValue(whole, frac, places))
  {
    ParseRenderFixed(pad, whole, frac, places);
    assert MeanMotionField(line2) == pad + RenderFixed(whole, frac, places);
    assert OrbitalPeriod(line2) == PeriodOf(Some(FixedValue(whole, frac, places)));
    PeriodOfFixedValue(whole, frac, places);
  }

  lemma PeriodOfFixedValue(whole: nat, frac: nat, places: nat)
    ensures whole == 0 && frac == 0 ==> PeriodOf(Some(FixedValue(whole, frac, places))) == Err(ZeroMeanMotion)
    ensures FixedValue(whole, frac, places) > 0.0 ==>
              PeriodOf(Some(FixedValue(whole, frac, places))) == Ok(MinutesPerDay / FixedValue(whole, frac, places))
  {
    FixedValueSign(whole, frac, places);
  }

  /** A fixed-point field is zero exactly when both its digit groups are,
      and positive otherwise. */
  lemma FixedValueSign(whole: nat, frac: nat, places: nat)
    ensures whole == 0 && frac == 0 <==> FixedValue(whole, frac, places) == 0.0
    ensures FixedValue(whole, frac, places) >= 0.0
  {
    var p := Pow10(places) as real;
    if frac > 0 {
      DivPositive(frac as real, p);
    } else {
      assert frac as real / p == 0.0;
    }
  }

  lemma DivPositive(a: real, b: real)
    requires a > 0.0 && b > 0.0
    ensures a / b > 0.0
  {
  }

  /** `max(1, period / 60)`: one sixtieth of a revolution, but never under a
      minute. */
  function StepMinutes(period: real): (step: real)
    ensures step >= 1.0 && step >= period / 60.0
    ensures step == 1.0 || step == period / 60.0
  {
    if period / 60.0 > 1.0 then period / 60.0 else 1.0
  }

  /** The `k`-th instant the scan visits, in minutes: the clock is advanced
      by exactly one step per iteration. */
  function GridTime(start: real, step: real, k: nat): real {
    start + k as real * step
  }

  /** The clock advanced by one step is the next grid instant. */
  lemma GridNext(start: real, step: real, k: nat)
    ensures GridTime(start, step, k + 1) == GridTime(start, step, k) + step
  {
    assert (k + 1) as real * step == k as real * step + step;
  }

  /** How many instants `start + k * step`, k = 0, 1, ..., satisfy
      `t <= end`: the scan's end is inclusive. */
  function SampleCount(start: real, step: real, end: real): (n: nat)
    requires step > 0.0
    ensures forall k: nat :: k < n <==> GridTime(start, step, k) <= end
  {
    if end < start then
      assert forall k: nat :: GridTime(start, step, k) >= start by {
        forall k: nat ensures GridTime(start, step, k) >= start {
          MulNonneg(k as real, step);
        }
      }
      0
    else
      var f := ((end - start) / step).Floor;
      assert f >= 0;
      forall k: nat ensures k <= f <==> GridTime(start, step, k) <= end {
        GridBelowEnd(start, step, end, k);
      }
      f + 1
  }

  lemma GridBelowEnd(start: real, step: real, end: real, k: nat)
    requires step > 0.0 && start <= end
    ensures k <= ((end - start) / step).Floor <==> GridTime(start, step, k) <= end
  {
    var x := (end - start) / step;
    var f := x.Floor;
    assert x * step == end - start;
    if k <= f {
      MulLe(k as real, x, step);
    } else {
      assert k as real > x;
      MulLt(x, k as real, step);
    }
  }

  lemma MulNonneg(a: real, c: real)
    requires a >= 0.0 && c > 0.0
    ensures a * c >= 0.0
  {
  }

  lemma MulLe(a: real, b: real, c: real)
    requires a <= b && c > 0.0
    ensures a * c <= b * c
  {
  }

  lemma MulLt(a: real, b: real, c: real)
    requires a < b && c > 0.0
    ensures a * c < b * c
  {
  }

  /** For orbits of an hour or longer the step is exactly a sixtieth of the
      period, so one revolution is covered by 60 steps and 61 samples, end
      point included; shorter orbits fall back to one-minute steps. */
  lemma SamplesPerRevolution(period: real)
    ensures period >= 60.0 ==> SampleCount(0.0, StepMinutes(period), period) == 61
    ensures period < 60.0 ==> StepMinutes(period) == 1.0
  {
    if period >= 60.0 {
      var step := StepMinutes(period);
      var n := SampleCount(0.0, step, period);
      assert step == period / 60.0;
      assert GridTime(0.0, step, 60) == period;
      assert GridTime(0.0, step, 61) > period;
      assert 60 < n;
      assert !(61 < n);
    }
  }
}
