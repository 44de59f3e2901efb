/** Binary32 arithmetic where rounding has nothing to do. A rounding is any function that leaves
    the representable reals alone (section 4.3.1 of IEEE 754-2019); which one it is never matters here. */
module Binary32 {
  import opened Bytes

  type Rounding = real -> real

  function Pow2(k: nat): nat {
    if k == 0 then 1 else 2 * Pow2(k - 1)
  }

  lemma {:induction false} Pow2Positive(k: nat)
    ensures Pow2(k) > 0
  {
    if k > 0 {
      Pow2Positive(k - 1);
    }
  }

  /** m scaled down by 2^k. */
  predicate IsScaled(x: real, m: int, k: nat) {
    x * Pow2(k) as real == m as real
  }

  /** An integer below 2^24 in magnitude over a power of two up to 2^149: a binary32 number. */
  ghost predicate Fits(x: real) {
    exists m: int, k: nat :: -0x100_0000 < m < 0x100_0000 && k <= 149 && IsScaled(x, m, k)
  }

  ghost predicate IsRounding(rnd: Rounding) {
    forall x: real :: Fits(x) ==> rnd(x) == x
  }

  lemma {:induction false} Exact(rnd: Rounding, x: real, m: int, k: nat)
    requires IsRounding(rnd)
    requires -0x100_0000 < m < 0x100_0000 && k <= 149 && IsScaled(x, m, k)
    ensures rnd(x) == x
  {
    assert Fits(x);
  }

  // ---- the encoder pipeline, operation by operation ----

  function Voltage(rnd: Rounding, adc: Word): real {
    rnd(rnd(rnd(adc as real) * 4.0) / 65536.0)
  }

  function Times(a: real, b: real): real {
    a * b
  }

  function Shifted(rnd: Rounding, voltage: real, zero: real, scale: real): real {
    rnd(Times(rnd(voltage - zero), scale))
  }

  function Angle(rnd: Rounding, voltage: real): real {
    rnd(rnd(voltage / 4.0) * 360.0)
  }

  /** A difference of two ADC words. */
  function Steps(adc: Word, zero: Word): int {
    adc as int - zero as int
  }

  lemma {:induction false} VoltageIsExact(rnd: Rounding, adc: Word)
    requires IsRounding(rnd)
    ensures Voltage(rnd, adc) == adc as real / 16384.0
  {
    Exact(rnd, adc as real, adc, 0);
    Exact(rnd, adc as real * 4.0, adc * 4, 0);
    assert Pow2(14) == 16384;
    Exact(rnd, adc as real * 4.0 / 65536.0, adc, 14);
  }

  lemma {:induction false} ShiftIsExact(rnd: Rounding, adc: Word, zero: Word)
    requires IsRounding(rnd)
    ensures Shifted(rnd, Voltage(rnd, adc), Voltage(rnd, zero), 1.0) == Steps(adc, zero) as real / 16384.0
  {
    VoltageIsExact(rnd, adc);
    VoltageIsExact(rnd, zero);
    assert Pow2(14) == 16384;
    Exact(rnd, Steps(adc, zero) as real / 16384.0, Steps(adc, zero), 14);
  }

  lemma {:induction false} AngleIsExact(rnd: Rounding, steps: int)
    requires IsRounding(rnd) && -0x1_0000 < steps < 0x1_0000
    ensures Angle(rnd, steps as real / 16384.0) == 360.0 * steps as real / 65536.0
  {
    assert Pow2(16) == 65536 && Pow2(13) == 8192;
    Exact(rnd, steps as real / 16384.0 / 4.0, steps, 16);
    Exact(rnd, steps as real / 65536.0 * 360.0, steps * 45, 13);
  }

  /** From ADC word to angle, every intermediate is exact: the uncalibrated angle is 360*adc/65536
      in [0, 360), the zero-calibrated one 360*(adc - zero)/65536 in (-360, 360). */
  lemma {:induction false} AnglesAreExact(rnd: Rounding, adc: Word, zero: Word)
    requires IsRounding(rnd)
    ensures Angle(rnd, Voltage(rnd, adc)) == 360.0 * adc as real / 65536.0
    ensures 0.0 <= Angle(rnd, Voltage(rnd, adc)) < 360.0
    ensures var calibrated := Angle(rnd, Shifted(rnd, Voltage(rnd, adc), Voltage(rnd, zero), 1.0));
            calibrated == 360.0 * Steps(adc, zero) as real / 65536.0 && -360.0 < calibrated < 360.0
  {
    VoltageIsExact(rnd, adc);
    AngleIsExact(rnd, adc);
    ShiftIsExact(rnd, adc, zero);
    AngleIsExact(rnd, Steps(adc, zero));
  }

  // ---- a scale other than one ----

  lemma {:induction false} Pow2Sum(k: nat, n: nat)
    ensures Pow2(k + n) == Pow2(k) * Pow2(n)
  {
    if n > 0 {
      Pow2Sum(k, n - 1);
      assert Pow2(k + n) == 2 * Pow2(k + n - 1);
    }
  }

  /** A scaled number times a scaled number is scaled by both. */
  lemma {:induction false} ScaledTimes(x: real, m: int, k: nat, y: real, n: int, j: nat)
    requires IsScaled(x, m, k) && IsScaled(y, n, j)
    ensures IsScaled(Times(x, y), m * n, k + j)
  {
    Pow2Sum(k, j);
    var p, q := Pow2(k) as real, Pow2(j) as real;
    assert Pow2(k + j) as real == Times(p, q);
    Regroup(x, y, p, q);
  }

  lemma Regroup(x: real, y: real, p: real, q: real)
    ensures Times(Times(x, y), Times(p, q)) == Times(Times(x, p), Times(y, q))
  {
  }

  /** A product by a small constant: 360/4 of a scaled number. */
  lemma {:induction false} ScaledAngle(x: real, m: int, k: nat)
    requires IsScaled(x, m, k)
    ensures IsScaled(x / 4.0, m, k + 2)
    ensures k >= 1 ==> IsScaled(x / 4.0 * 360.0, 45 * m, k - 1)
  {
    Pow2Sum(k, 2);
    assert Pow2(2) == 4;
    if k >= 1 {
      Pow2Sum(k - 1, 1);
      assert Pow2(1) == 2;
    }
  }

  /** With any scale that is a binary fraction m/2^k, the calibrated voltage is (v - zero) * scale, and
      the angle 90 degrees per volt of it, with no rounding, as long as the products fit. */
  lemma {:induction false} ScaledAnglesAreExact(rnd: Rounding, adc: Word, zero: Word, scale: real, m: int, k: nat)
    requires IsRounding(rnd) && IsScaled(scale, m, k) && k <= 133
    requires -0x100_0000 < 45 * (Steps(adc, zero) * m) < 0x100_0000
    ensures var voltage := Shifted(rnd, Voltage(rnd, adc), Voltage(rnd, zero), scale);
            && voltage == (adc as real / 16384.0 - zero as real / 16384.0) * scale
            && Angle(rnd, voltage) == voltage * 90.0
  {
    VoltageIsExact(rnd, adc);
    VoltageIsExact(rnd, zero);
    var steps := Steps(adc, zero);
    var shifted := steps as real / 16384.0;
    assert Pow2(14) == 16384;
    Exact(rnd, shifted, steps, 14);
    ScaledTimes(shifted, steps, 14, scale, m, k);
    Exact(rnd, Times(shifted, scale), steps * m, 14 + k);
    ScaledAngle(Times(shifted, scale), steps * m, 14 + k);
    Exact(rnd, Times(shifted, scale) / 4.0, steps * m, 16 + k);
    Exact(rnd, Times(shifted, scale) / 4.0 * 360.0, 45 * (steps * m), 13 + k);
  }
}
