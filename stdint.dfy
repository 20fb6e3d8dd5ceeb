/**
 * The fixed-width unsigned integers of <stdint.h> that the firmware uses,
 * and the one piece of wrap-around arithmetic it relies on: the unsigned
 * 32-bit difference `millis() - start`.
 */
module StdInt {
  newtype uint8 = x: int | 0 <= x < 0x100
  newtype uint16 = x: int | 0 <= x < 0x1_0000
  newtype uint32 = x: int | 0 <= x < 0x1_0000_0000

  /** 2^32: every uint32 operation is taken modulo this. */
  const UINT32_MODULUS: int := 0x1_0000_0000

  /** `a - b` evaluated in uint32 arithmetic, which wraps modulo 2^32. */
  function Sub32(a: uint32, b: uint32): (r: uint32)
    ensures b <= a ==> r as int == a as int - b as int
    ensures a < b ==> r as int == UINT32_MODULUS + a as int - b as int
  {
    ((a as int - b as int) % UINT32_MODULUS) as uint32
  }

  /** The value a free-running millisecond counter shows at absolute time `t`. */
  function Clock(t: nat): uint32
  {
    (t % UINT32_MODULUS) as uint32
  }

  /**
   * Reading the counter at two absolute times less than 2^32 ms apart, the
   * unsigned difference of the two readings is the true elapsed time, even
   * when the counter wrapped around in between.
   */
  lemma Sub32MeasuresElapsed(t0: nat, t1: nat)
    requires t0 <= t1 < t0 + UINT32_MODULUS
    ensures Sub32(Clock(t1), Clock(t0)) as int == t1 - t0
  {
    var q0, q1 := t0 / UINT32_MODULUS, t1 / UINT32_MODULUS;
    var a, b := t1 % UINT32_MODULUS, t0 % UINT32_MODULUS;
    assert t0 == q0 * UINT32_MODULUS + b;
    assert t1 == q1 * UINT32_MODULUS + a;
    assert (q1 - q0) * UINT32_MODULUS == (t1 - t0) - (a - b);
    assert -UINT32_MODULUS < (q1 - q0) * UINT32_MODULUS < 2 * UINT32_MODULUS;
    assert 0 <= q1 - q0 <= 1;
    if q1 == q0 {
      assert a - b == t1 - t0;
    } else {
      assert a - b == t1 - t0 - UINT32_MODULUS;
    }
  }
}
