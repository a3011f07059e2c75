/** Java's 32-bit two's-complement `int`, and the wrap-around of its addition. */
module Int32 {
  const Modulus: int := 0x1_0000_0000
  const Min: int := -0x8000_0000
  const Max: int := 0x7fff_ffff

  newtype int32 = x: int | -0x8000_0000 <= x < 0x8000_0000

  /** The value Java keeps of the mathematical integer `x`: the one int32 congruent to it
      modulo 2^32. */
  function Wrap(x: int): (r: int32)
    ensures Min <= x <= Max ==> r as int == x
  {
    (((x - Min) % Modulus) + Min) as int32
  }

  /** The wrapped value differs from the exact one by a multiple of 2^32. */
  lemma WrapIsCongruent(x: int)
    ensures (Wrap(x) as int - x) % Modulus == 0
  {
    var r := (x - Min) % Modulus;
    var d := (x - Min) / Modulus;
    assert x - Min == d * Modulus + r;
    assert Wrap(x) as int - x == -d * Modulus;
  }

  /** Two integers that agree modulo 2^32 wrap to the same int32. */
  lemma WrapCongruent(x: int, y: int)
    requires (x - y) % Modulus == 0
    ensures Wrap(x) == Wrap(y)
  {
    var q := (x - y) / Modulus;
    assert x == y + q * Modulus;
    assert (x - Min) % Modulus == (y - Min) % Modulus by {
      ModShift(y - Min, q);
    }
  }

  lemma ModShift(a: int, q: int)
    ensures (a + q * Modulus) % Modulus == a % Modulus
  {
    var r := a % Modulus;
    var d := a / Modulus;
    assert a == d * Modulus + r;
    assert a + q * Modulus == (d + q) * Modulus + r;
  }

  /** Java's `acc += x` on an int: wrapping the running sum at every step gives the
      same result as wrapping the exact sum once. */
  lemma WrapAdd(acc: int, x: int)
    ensures Wrap(Wrap(acc) as int + x) == Wrap(acc + x)
  {
    WrapIsCongruent(acc);
    WrapCongruent(Wrap(acc) as int + x, acc + x);
  }
}
