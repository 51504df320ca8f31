/**
 * The progress arithmetic of the scene loader: the host engine's clamping
 * and linear-interpolation helpers over exact reals, and the two slider
 * mappings built from them (the load phase and the minimum-duration pad).
 */
module Progress {

  /** A non-negative span of time in seconds (frame times, the pad timer). */
  type Duration = r: real | r >= 0.0

  /** Upper end of the raw progress the host reports while activation is held back. */
  const RawCeiling: real := 0.9

  /** Share of the slider range filled by the load phase; the pad fills the rest. */
  const LoadShare: real := 0.8

  /** The host's `Clamp01`: the nearest point of [0, 1]. */
  function Clamp01(x: real): (r: real)
    ensures 0.0 <= r <= 1.0
    ensures 0.0 <= x <= 1.0 ==> r == x
    ensures x < 0.0 ==> r == 0.0
    ensures x > 1.0 ==> r == 1.0
  {
    if x < 0.0 then 0.0 else if x > 1.0 then 1.0 else x
  }

  /** The host's `Max` on two numbers. */
  function Max(a: real, b: real): (r: real)
    ensures r >= a && r >= b
    ensures r == a || r == b
  {
    if a > b then a else b
  }

  /** The host's `InverseLerp`: where `v` lies between `a` and `b`, clamped to [0, 1]; 0 when the bounds coincide. */
  function InverseLerp(a: real, b: real, v: real): (r: real)
    ensures 0.0 <= r <= 1.0
    ensures a == b ==> r == 0.0
    ensures a < b && a <= v <= b ==> r == (v - a) / (b - a)
    ensures a < b && v >= b ==> r == 1.0
    ensures a < b && v <= a ==> r == 0.0
  {
    assert a < b && a <= v <= b ==> 0.0 <= (v - a) / (b - a) <= 1.0 by {
      if a < b && a <= v <= b { QuotientInUnit(v - a, b - a); }
    }
    assert a < b && v <= a ==> (v - a) / (b - a) <= 0.0 by {
      if a < b && v <= a { QuotientNonPositive(v - a, b - a); }
    }
    assert a < b && v >= b ==> (v - a) / (b - a) >= 1.0 by {
      if a < b && v >= b { DivAtLeastOne(v - a, b - a); }
    }
    if a != b then Clamp01((v - a) / (b - a)) else 0.0
  }

  lemma QuotientNonPositive(x: real, d: real)
    requires x <= 0.0 && d > 0.0
    ensures x / d <= 0.0
  {
    assert x / d * d == x;
  }

  lemma QuotientInUnit(x: real, d: real)
    requires 0.0 <= x <= d && d > 0.0
    ensures 0.0 <= x / d <= 1.0
  {
    assert x / d * d == x;
  }

  /** The host's `Lerp`: the point of [a, b] at fraction `t`, with `t` clamped to [0, 1]. */
  function Lerp(a: real, b: real, t: real): (r: real)
    ensures a <= b ==> a <= r <= b
    ensures t <= 0.0 ==> r == a
    ensures t >= 1.0 ==> r == b
    ensures 0.0 <= t <= 1.0 ==> r == (1.0 - t) * a + t * b
  {
    var c := Clamp01(t);
    LerpFacts(a, b, c);
    a + (b - a) * c
  }

  lemma LerpFacts(a: real, b: real, c: real)
    requires 0.0 <= c <= 1.0
    ensures a <= b ==> 0.0 <= (b - a) * c <= b - a
    ensures c == 0.0 ==> a + (b - a) * c == a
    ensures c == 1.0 ==> a + (b - a) * c == b
    ensures a + (b - a) * c == (1.0 - c) * a + c * b
  {
    if a <= b {
      MulNonNeg(b - a, c);
      MulNonNeg(b - a, 1.0 - c);
      assert (b - a) * (1.0 - c) == (b - a) - (b - a) * c;
    }
  }

  lemma MulNonNeg(x: real, y: real)
    requires x >= 0.0 && y >= 0.0
    ensures x * y >= 0.0
  {
  }

  lemma Clamp01Monotone(x: real, y: real)
    requires x <= y
    ensures Clamp01(x) <= Clamp01(y)
  {
  }

  /** `Lerp` over an ordered interval never decreases as the fraction grows. */
  lemma LerpMonotone(a: real, b: real, t: real, u: real)
    requires a <= b && t <= u
    ensures Lerp(a, b, t) <= Lerp(a, b, u)
  {
    Clamp01Monotone(t, u);
    ScaleMonotone(a, b, Clamp01(t), Clamp01(u));
  }

  lemma ScaleMonotone(a: real, b: real, c: real, c': real)
    requires a <= b && c <= c'
    ensures a + (b - a) * c <= a + (b - a) * c'
  {
    MulNonNeg(b - a, c' - c);
    assert (b - a) * (c' - c) == (b - a) * c' - (b - a) * c;
  }

  /**
   * The load phase's remapping of the host's raw progress (which stops at
   * 0.9 until activation is allowed) onto [0, 1].
   */
  function LoadNormalized(raw: real): (r: real)
    ensures 0.0 <= r <= 1.0
    ensures 0.0 <= raw <= RawCeiling ==> r == raw / RawCeiling
    ensures raw <= 0.0 ==> r == 0.0
    ensures r >= 1.0 <==> raw >= RawCeiling
  {
    InverseLerp(0.0, RawCeiling, raw)
  }

  lemma LoadNormalizedMonotone(raw: real, raw': real)
    requires raw <= raw'
    ensures LoadNormalized(raw) <= LoadNormalized(raw')
  {
    Clamp01Monotone(raw / RawCeiling, raw' / RawCeiling);
  }

  /** The slider value shown for raw progress `raw` during the load phase. */
  function LoadSlider(minValue: real, maxValue: real, raw: real): (r: real)
    ensures minValue <= LoadShare * maxValue ==> minValue <= r <= LoadShare * maxValue
    ensures raw <= 0.0 ==> r == minValue
    ensures raw >= RawCeiling ==> r == LoadShare * maxValue
  {
    Lerp(minValue, LoadShare * maxValue, LoadNormalized(raw))
  }

  /** The load-phase slider never moves backwards while raw progress grows. */
  lemma LoadSliderMonotone(minValue: real, maxValue: real, raw: real, raw': real)
    requires minValue <= LoadShare * maxValue
    requires raw <= raw'
    ensures LoadSlider(minValue, maxValue, raw) <= LoadSlider(minValue, maxValue, raw')
  {
    LoadNormalizedMonotone(raw, raw');
    LerpMonotone(minValue, LoadShare * maxValue, LoadNormalized(raw), LoadNormalized(raw'));
  }

  /** Time still owed to the minimum loading duration after `elapsed` seconds. */
  function LeftTime(minLoadTime: real, elapsed: real): (r: Duration)
    ensures r == 0.0 <==> elapsed >= minLoadTime
    ensures r > 0.0 ==> r == minLoadTime - elapsed
    ensures elapsed >= 0.0 ==> r <= Max(minLoadTime, 0.0)
  {
    Max(0.0, minLoadTime - elapsed)
  }

  /** The slider value shown during the pad once `timer` of `leftTime` seconds have passed. */
  function PadSlider(maxValue: real, timer: real, leftTime: real): (r: real)
    requires leftTime > 0.0
    ensures maxValue >= 0.0 ==> LoadShare * maxValue <= r <= maxValue
    ensures timer >= leftTime ==> r == maxValue
    ensures timer <= 0.0 ==> r == LoadShare * maxValue
  {
    assert timer >= leftTime ==> timer / leftTime >= 1.0 by {
      if timer >= leftTime { DivAtLeastOne(timer, leftTime); }
    }
    Lerp(LoadShare * maxValue, maxValue, Clamp01(timer / leftTime))
  }

  lemma DivAtLeastOne(x: real, y: real)
    requires y > 0.0 && x >= y
    ensures x / y >= 1.0
  {
    assert x / y * y == x;
  }

  /** The pad slider never moves backwards while the timer advances. */
  lemma PadSliderMonotone(maxValue: real, timer: real, timer': real, leftTime: real)
    requires maxValue >= 0.0 && leftTime > 0.0
    requires timer <= timer'
    ensures PadSlider(maxValue, timer, leftTime) <= PadSlider(maxValue, timer', leftTime)
  {
    assert timer / leftTime <= timer' / leftTime by {
      assert timer' / leftTime - timer / leftTime == (timer' - timer) / leftTime;
    }
    Clamp01Monotone(timer / leftTime, timer' / leftTime);
    LerpMonotone(LoadShare * maxValue, maxValue, Clamp01(timer / leftTime), Clamp01(timer' / leftTime));
  }
}
