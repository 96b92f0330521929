/**
 Java's 32-bit `int`: the type of account ids and balances, and the
 wrap-around arithmetic that `+` and `-` perform on it.
 */
module JavaInt {

  const MinInt: int := -0x8000_0000
  const MaxInt: int := 0x7fff_ffff
  /** 2^32: two Java ints with the same bits differ by a multiple of this. */
  const Modulus: int := 0x1_0000_0000

  newtype Int32 = x: int | -0x8000_0000 <= x < 0x8000_0000

  predicate InRange(x: int) {
    MinInt <= x <= MaxInt
  }

  /** Two's-complement truncation of a mathematical integer to 32 bits. */
  function Wrap(x: int): (r: Int32)
    ensures (x - r as int) % Modulus == 0
    ensures InRange(x) ==> r as int == x
  {
    ((x - MinInt) % Modulus + MinInt) as Int32
  }

  /** Java's `a + b` on ints. */
  function Add(a: Int32, b: Int32): Int32 {
    Wrap(a as int + b as int)
  }

  /** Java's `a - b` on ints. */
  function Sub(a: Int32, b: Int32): Int32 {
    Wrap(a as int - b as int)
  }

  /** Integers that agree modulo 2^32 wrap to the same int. */
  lemma WrapCongruent(x: int, y: int)
    requires (x - y) % Modulus == 0
    ensures Wrap(x) == Wrap(y)
  {
    var k := (x - y) / Modulus;
    assert x - MinInt == (y - MinInt) + k * Modulus;
    ModShift(y - MinInt, k);
  }

  lemma ModShift(a: int, k: int)
    ensures (a + k * Modulus) % Modulus == a % Modulus
  {
  }

  /** Subtracting and then adding the same amount gives back the original int,
      overflow or not. */
  lemma {:induction false} SubThenAdd(b: Int32, a: Int32)
    ensures Add(Sub(b, a), a) == b
  {
    var d := Sub(b, a);
    assert ((d as int + a as int) - b as int) == d as int - (b as int - a as int);
    assert (d as int - (b as int - a as int)) % Modulus == 0;
    WrapCongruent(d as int + a as int, b as int);
  }
}
