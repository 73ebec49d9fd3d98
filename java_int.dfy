/**
 * Java's 32-bit `int`. Arithmetic on it wraps around modulo 2^32; the only
 * operation the order flow performs on one is `totalOrders + 1`.
 */
module JavaInt {
  const MIN: int := -0x8000_0000
  const MAX: int := 0x7fff_ffff
  const MODULUS: int := 0x1_0000_0000

  newtype int32 = x: int | -0x8000_0000 <= x < 0x8000_0000

  /** The Java `int` that the mathematical integer `x` is truncated to. */
  function Wrap(x: int): (r: int32)
    ensures MIN <= x <= MAX ==> r as int == x
    ensures (x - r as int) % MODULUS == 0
  {
    ((x - MIN) % MODULUS + MIN) as int32
  }

  /** Java's `a + 1` on an `int`: exact below MAX, wraps to MIN at MAX. */
  function Inc(a: int32): (r: int32)
    ensures a as int < MAX ==> r as int == a as int + 1
    ensures a as int == MAX ==> r as int == MIN
  {
    Wrap(a as int + 1)
  }

  /** Two integers that agree modulo 2^32 truncate to the same `int`. */
  lemma WrapCongruent(x: int, y: int)
    requires (x - y) % MODULUS == 0
    ensures Wrap(x) == Wrap(y)
  {
    var k := (x - y) / MODULUS;
    assert x - MIN == (y - MIN) + k * MODULUS;
  }

  /** Counting one more and then truncating equals incrementing the truncated count. */
  lemma IncWrap(n: int)
    ensures Inc(Wrap(n)) == Wrap(n + 1)
  {
    WrapCongruent(Wrap(n) as int + 1, n + 1);
  }
}
