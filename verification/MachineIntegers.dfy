/** Fixed-width integers as the repository uses them, and the optional value.

    Dafny's integers are unbounded, so every wrap, saturation and overflow check of the
    original is written out with the functions below. A total that only grows is cut into laps
    of 2^64: its quotient by that modulus says how often it has wrapped, and the difference of
    two readings is true exactly if both are in one lap. */
module MachineIntegers {

  datatype Option<+T> = None | Some(value: T)

  const U64_MODULUS: int := 0x1_0000_0000_0000_0000
  const U64_MAX: int := U64_MODULUS - 1
  const I64_MAX: int := 0x7FFF_FFFF_FFFF_FFFF
  const I64_MIN: int := -0x8000_0000_0000_0000

  type U64 = x: int | 0 <= x < U64_MODULUS
  type I64 = x: int | I64_MIN <= x <= I64_MAX

  predicate FitsI64(x: int) {
    I64_MIN <= x <= I64_MAX
  }

  /** The unsigned word congruent to `x`. */
  function WrapU64(x: int): (r: U64)
    ensures 0 <= x <= U64_MAX ==> r == x
  {
    x % U64_MODULUS
  }

  /** The two's complement word congruent to `x`. */
  function WrapI64(x: int): (r: I64)
    ensures FitsI64(x) ==> r == x
  {
    (x - I64_MIN) % U64_MODULUS + I64_MIN
  }

  /** Wrapping after every addition is the same as wrapping once at the end. */
  lemma WrapI64Absorbs(x: int, delta: int)
    ensures WrapI64(WrapI64(x) + delta) == WrapI64(x + delta)
  {
    ModAbsorbs(x - I64_MIN, delta);
    assert WrapI64(x) + delta - I64_MIN == (x - I64_MIN) % U64_MODULUS + delta;
    assert x + delta - I64_MIN == x - I64_MIN + delta;
  }

  lemma WrapU64Absorbs(x: int, delta: int)
    ensures WrapU64(WrapU64(x) + delta) == WrapU64(x + delta)
  {
    ModAbsorbs(x, delta);
  }

  lemma ModAbsorbs(x: int, delta: int)
    ensures (x % U64_MODULUS + delta) % U64_MODULUS == (x + delta) % U64_MODULUS
  {
    var q := x / U64_MODULUS;
    var y := x % U64_MODULUS + delta;
    assert x + delta == y + q * U64_MODULUS;
    ModShift(y, q);
  }

  lemma ModShift(y: int, q: int)
    ensures (y + q * U64_MODULUS) % U64_MODULUS == y % U64_MODULUS
  {
    var z := y + q * U64_MODULUS;
    assert z == (y / U64_MODULUS + q) * U64_MODULUS + y % U64_MODULUS;
    EuclideanUnique(z, y / U64_MODULUS + q, y % U64_MODULUS);
  }

  lemma EuclideanUnique(z: int, q: int, r: int)
    requires 0 <= r < U64_MODULUS && z == q * U64_MODULUS + r
    ensures z % U64_MODULUS == r && z / U64_MODULUS == q
  {
  }

  // ----- laps: how often a total has wrapped -----

  lemma WrapsBy(x: int)
    ensures WrapU64(x) == x - x / U64_MODULUS * U64_MODULUS
  {
  }

  /** A difference of wrapped totals is off by whole laps. */
  lemma DeltaIsOffByLaps(x: int, y: int)
    ensures WrapU64(y) - WrapU64(x) == y - x <==> x / U64_MODULUS == y / U64_MODULUS
  {
    WrapsBy(x);
    WrapsBy(y);
  }

  lemma LapsGrow(x: int, y: int)
    requires x <= y
    ensures x / U64_MODULUS <= y / U64_MODULUS
  {
  }
}
