/**
 * Fixed-width C integer types and the bitwise exclusive-or on them,
 * over Dafny's unbounded integers.
 */
module Bits {

  /** 2^32, the modulus of `unsigned int` arithmetic. */
  const U32Modulus: int := 0x1_0000_0000

  /** `unsigned int`: every operation on it is reduced modulo 2^32. */
  type u32 = x: int | 0 <= x < 0x1_0000_0000

  /** `int` (32-bit, two's complement). */
  type i32 = x: int | -0x8000_0000 <= x < 0x8000_0000

  /** `long` and `long long` (64-bit, two's complement), also `time_t`. */
  type i64 = x: int | -0x8000_0000_0000_0000 <= x < 0x8000_0000_0000_0000

  /** The conversion `(unsigned int)x` of any integer: reduction modulo 2^32. */
  function ToU32(x: int): (r: u32)
    ensures (r - x) % U32Modulus == 0
    ensures 0 <= x < U32Modulus ==> r == x
  {
    x % U32Modulus
  }

  /**
   * The conversion `(int)x` of a 64-bit value: wrap-around into the 32-bit
   * range (what GCC and Clang do with an out-of-range value).
   */
  function ToI32(x: int): (r: i32)
    ensures (r - x) % U32Modulus == 0
    ensures -0x8000_0000 <= x < 0x8000_0000 ==> r == x
  {
    var u := x % U32Modulus;
    if u < 0x8000_0000 then u else u - U32Modulus
  }

  /** 2^n. */
  function Pow2(n: nat): nat
  {
    if n == 0 then 1 else 2 * Pow2(n - 1)
  }

  lemma {:induction false} Pow2Add(m: nat, n: nat)
    ensures Pow2(m + n) == Pow2(m) * Pow2(n)
  {
    if m > 0 {
      Pow2Add(m - 1, n);
    }
  }

  lemma Pow2Of32()
    ensures Pow2(32) == U32Modulus
  {
    assert Pow2(4) == 16;
    Pow2Add(4, 4);
    Pow2Add(8, 8);
    Pow2Add(16, 16);
  }

  /** Bitwise exclusive-or of two naturals, least significant bit first. */
  function Xor(a: nat, b: nat): nat
    decreases a + b
  {
    if a == 0 && b == 0 then 0
    else 2 * Xor(a / 2, b / 2) + (if a % 2 == b % 2 then 0 else 1)
  }

  /** Exclusive-or of two n-bit values is an n-bit value. */
  lemma {:induction false} XorBelow(a: nat, b: nat, n: nat)
    requires a < Pow2(n) && b < Pow2(n)
    ensures Xor(a, b) < Pow2(n)
  {
    if a == 0 && b == 0 {
    } else {
      assert n > 0;
      XorBelow(a / 2, b / 2, n - 1);
    }
  }

  /** `a ^ b` on `unsigned int`. */
  function XorU32(a: u32, b: u32): u32
  {
    Pow2Of32();
    XorBelow(a, b, 32);
    Xor(a, b)
  }

  /** Exclusive-or with a fixed value undoes itself. */
  lemma {:induction false} XorCancel(t: nat, a: nat)
    ensures Xor(t, Xor(t, a)) == a
  {
    if t == 0 && a == 0 {
    } else {
      var x := Xor(t, a);
      assert x == 2 * Xor(t / 2, a / 2) + (if t % 2 == a % 2 then 0 else 1);
      assert x / 2 == Xor(t / 2, a / 2) && x % 2 == (if t % 2 == a % 2 then 0 else 1);
      XorCancel(t / 2, a / 2);
    }
  }

  /** For a fixed left operand, exclusive-or is injective. */
  lemma {:induction false} XorInjective(t: nat, a: nat, b: nat)
    requires Xor(t, a) == Xor(t, b)
    ensures a == b
  {
    XorCancel(t, a);
    XorCancel(t, b);
  }
}
