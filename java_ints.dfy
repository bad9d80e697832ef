/** Java's fixed-width integers, their wrap-around, the truncating remainder
    and the bit operations of java.lang.Integer and java.lang.Long, written over
    unbounded integers. Bitwise exclusive-or is defined bit by bit on
    naturals (the unsigned view of a Java int or long). */
module JavaInts {

  const INT_MIN: int := -0x8000_0000
  const INT_MAX: int := 0x7fff_ffff
  const LONG_MIN: int := -0x8000_0000_0000_0000
  const LONG_MAX: int := 0x7fff_ffff_ffff_ffff
  const TWO_16: int := 0x1_0000
  const TWO_32: int := 0x1_0000_0000
  const TWO_64: int := 0x1_0000_0000_0000_0000

  type Int8 = x: int | -128 <= x < 128
  type Int32 = x: int | INT_MIN <= x <= INT_MAX
  type Int64 = x: int | LONG_MIN <= x <= LONG_MAX

  /** 2^k */
  function Pow2(k: nat): (r: nat)
    ensures r >= 1
  {
    if k == 0 then 1 else 2 * Pow2(k - 1)
  }

  /** The int a 32-bit two's-complement computation yields for the exact value x. */
  function Wrap32(x: int): (r: Int32)
    ensures (r - x) % TWO_32 == 0
    ensures INT_MIN <= x <= INT_MAX ==> r == x
  {
    (x - INT_MIN) % TWO_32 + INT_MIN
  }

  /** The long a 64-bit two's-complement computation yields for the exact value x. */
  function Wrap64(x: int): (r: Int64)
    ensures (r - x) % TWO_64 == 0
    ensures LONG_MIN <= x <= LONG_MAX ==> r == x
  {
    (x - LONG_MIN) % TWO_64 + LONG_MIN
  }

  /** Java's `%`: the remainder of a division that truncates toward zero, so
      it takes the sign of the dividend (Dafny's own `%` is Euclidean). */
  function Rem(a: int, b: int): (r: int)
    requires b != 0
    ensures Abs(r) < Abs(b)
    ensures a >= 0 ==> 0 <= r
    ensures a <= 0 ==> r <= 0
    ensures Abs(r) == Abs(a) % Abs(b)
  {
    if a >= 0 then a % Abs(b) else -((-a) % Abs(b))
  }

  function Abs(x: int): nat { if x < 0 then -x else x }

  /** `Math.abs(long)`: the negation of Long.MIN_VALUE overflows back to itself. */
  function AbsLong(x: Int64): (r: Int64)
    ensures x != LONG_MIN ==> r == Abs(x)
    ensures x == LONG_MIN ==> r == LONG_MIN
  {
    if x < 0 then Wrap64(-(x as int)) else x
  }

  /** The unsigned reading of an int's 32 bits. */
  function Unsigned32(x: Int32): (u: nat)
    ensures u < TWO_32
    ensures x >= 0 ==> u == x
    ensures x < 0 ==> u == x + TWO_32
  {
    if x >= 0 then x else x + TWO_32
  }

  /** The int whose 32 bits, read unsigned, are u. */
  function Signed32(u: nat): (x: Int32)
    requires u < TWO_32
    ensures Unsigned32(x) == u
  {
    if u <= INT_MAX then u else u - TWO_32
  }

  /** The unsigned reading of a long's 64 bits. */
  function Unsigned64(x: Int64): (u: nat)
    ensures u < TWO_64
    ensures x >= 0 ==> u == x
    ensures x < 0 ==> u == x + TWO_64
  {
    if x >= 0 then x else x + TWO_64
  }

  /** Bitwise exclusive-or of two naturals, one bit per recursion step. */
  function Xor(a: nat, b: nat): nat
    decreases a + b
  {
    if a == 0 then b
    else if b == 0 then a
    else 2 * Xor(a / 2, b / 2) + (if a % 2 == b % 2 then 0 else 1)
  }

  /** The lowest bit of Xor(a, b) is the exclusive-or of the lowest bits,
      the others are Xor of the remaining bits; this holds for zero operands too. */
  lemma XorStep(a: nat, b: nat)
    ensures Xor(a, b) == 2 * Xor(a / 2, b / 2) + (if a % 2 == b % 2 then 0 else 1)
  {
    if a == 0 {
      assert Xor(a / 2, b / 2) == b / 2;
    } else if b == 0 {
      assert Xor(a / 2, b / 2) == a / 2;
    }
  }

  /** x ^ b ^ b == x */
  lemma {:induction false} XorSelfInverse(a: nat, b: nat)
    ensures Xor(Xor(a, b), b) == a
    decreases a + b
  {
    if a + b > 0 {
      var x := Xor(a, b);
      XorStep(a, b);
      XorStep(x, b);
      assert x / 2 == Xor(a / 2, b / 2) && x % 2 == (if a % 2 == b % 2 then 0 else 1);
      XorSelfInverse(a / 2, b / 2);
    }
  }

  lemma DivModDouble(a: nat, p: nat)
    requires p > 0
    ensures a / (2 * p) == (a / 2) / p
    ensures a % (2 * p) == 2 * ((a / 2) % p) + a % 2
  {
    var q, r := (a / 2) / p, (a / 2) % p;
    assert a / 2 == q * p + r;
    assert a == (2 * p) * q + (2 * r + a % 2);
    assert 0 <= 2 * r + a % 2 < 2 * p;
    DivModUnique(a, 2 * p, q, 2 * r + a % 2);
  }

  lemma DivModUnique(a: int, d: int, q: int, r: int)
    requires d > 0 && a == d * q + r && 0 <= r < d
    ensures a / d == q && a % d == r
  {
    var q', r' := a / d, a % d;
    assert d * (q - q') == r' - r by {
      assert d * q - d * q' == d * (q - q');
    }
    if q > q' {
      MulAtLeast(d, q - q');
    } else if q < q' {
      MulAtLeast(d, q' - q);
    }
  }

  /** A 64-bit computation only sees its exact value modulo 2^64: one more
      step from a wrapped counter is the wrapped value of one more step. */
  lemma Wrap64Increment(x: int)
    ensures Wrap64(Wrap64(x) + 1) == Wrap64(x + 1)
  {
    var w := Wrap64(x);
    var a, b := x + 1 - LONG_MIN, w + 1 - LONG_MIN;
    var m := (w - x) / TWO_64;
    assert w - x == TWO_64 * m;
    assert b == a + TWO_64 * m;
    assert a == TWO_64 * (a / TWO_64) + a % TWO_64;
    assert b == TWO_64 * (a / TWO_64 + m) + a % TWO_64 by {
      assert TWO_64 * (a / TWO_64) + TWO_64 * m == TWO_64 * (a / TWO_64 + m);
    }
    DivModUnique(b, TWO_64, a / TWO_64 + m, a % TWO_64);
  }

  /** A 32-bit multiply-add only sees its exact operand modulo 2^32. */
  lemma Wrap32MulAdd(x: int, k: int, c: int)
    ensures Wrap32(k * Wrap32(x) + c) == Wrap32(k * x + c)
  {
    var w := Wrap32(x);
    var m := (w - x) / TWO_32;
    assert w - x == TWO_32 * m;
    var a, b := k * x + c - INT_MIN, k * w + c - INT_MIN;
    assert b == a + TWO_32 * (k * m) by {
      assert k * w == k * x + k * (TWO_32 * m);
      assert k * (TWO_32 * m) == TWO_32 * (k * m);
    }
    assert b == TWO_32 * (a / TWO_32 + k * m) + a % TWO_32 by {
      assert a == TWO_32 * (a / TWO_32) + a % TWO_32;
      assert TWO_32 * (a / TWO_32) + TWO_32 * (k * m) == TWO_32 * (a / TWO_32 + k * m);
    }
    DivModUnique(b, TWO_32, a / TWO_32 + k * m, a % TWO_32);
  }

  lemma MulAtLeast(d: int, m: int)
    requires d > 0 && m >= 1
    ensures d * m >= d
  {
    assert d * m == d + d * (m - 1);
    assert d * (m - 1) >= 0;
  }

  /** Exclusive-or with a value below 2^k leaves every bit from k upwards
      alone and acts on the low k bits only. */
  lemma {:induction false} XorLowBits(a: nat, b: nat, k: nat)
    requires b < Pow2(k)
    ensures Xor(a, b) / Pow2(k) == a / Pow2(k)
    ensures Xor(a, b) % Pow2(k) == Xor(a % Pow2(k), b)
  {
    if k == 0 {
      assert b == 0;
    } else {
      var p := Pow2(k - 1);
      var x' := Xor(a / 2, b / 2);
      var bit := if a % 2 == b % 2 then 0 else 1;
      XorStep(a, b);
      XorLowBits(a / 2, b / 2, k - 1);
      var x := Xor(a, b);
      assert x / 2 == x' && x % 2 == bit;
      DivModDouble(x, p);
      DivModDouble(a, p);
      var am := a % Pow2(k);
      assert am / 2 == (a / 2) % p && am % 2 == a % 2;
      XorStep(am, b);
    }
  }

  lemma XorZero(a: nat)
    ensures Xor(a, 0) == a
  {
  }

  /** x ^ x == 0 */
  lemma {:induction false} XorSelf(a: nat)
    ensures Xor(a, a) == 0
  {
    if a > 0 {
      XorSelf(a / 2);
    }
  }

  /** Exclusive-or of two k-bit values is a k-bit value. */
  lemma XorBelow(a: nat, b: nat, k: nat)
    requires a < Pow2(k) && b < Pow2(k)
    ensures Xor(a, b) < Pow2(k)
  {
    var p, x := Pow2(k), Xor(a, b);
    XorLowBits(a, b, k);
    DivModUnique(a, p, 0, a);
    assert x == p * (x / p) + x % p;
  }

  /** `Integer.highestOneBit` on a non-negative int: the largest power of two
      not above m, or 0 for m == 0. */
  function HighestOneBit(m: nat): (r: nat)
    ensures m == 0 <==> r == 0
    ensures m > 0 ==> IsPowerOfTwo(r) && r <= m < 2 * r
  {
    if m <= 1 then m else 2 * HighestOneBit(m / 2)
  }

  /** n is 1, 2, 4, 8, ... */
  predicate IsPowerOfTwo(n: int)
    decreases if n > 0 then n else 0
  {
    n == 1 || (n > 1 && n % 2 == 0 && IsPowerOfTwo(n / 2))
  }

  /** The number of one bits in the binary form of u. */
  function BitCount(u: nat): nat
  {
    if u == 0 then 0 else u % 2 + BitCount(u / 2)
  }

  /** `Integer.bitCount(x)`: counts the bits of the two's-complement form. */
  function IntBitCount(x: Int32): nat { BitCount(Unsigned32(x)) }

  lemma {:induction false} BitCountOneIsPowerOfTwo(u: nat)
    ensures BitCount(u) == 1 <==> IsPowerOfTwo(u)
  {
    if u > 1 {
      BitCountOneIsPowerOfTwo(u / 2);
      if u % 2 == 1 {
        assert !IsPowerOfTwo(u);
        if BitCount(u) == 1 {
          assert BitCount(u / 2) == 0;
          BitCountZero(u / 2);
        }
      }
    }
  }

  lemma {:induction false} BitCountZero(u: nat)
    requires BitCount(u) == 0
    ensures u == 0
  {
    if u > 0 {
      BitCountZero(u / 2);
    }
  }

  /** Two powers of two within a factor of two of each other are equal. */
  lemma {:induction false} PowersOfTwoApart(p: int, q: int)
    requires IsPowerOfTwo(p) && IsPowerOfTwo(q) && q <= p < 2 * q
    ensures p == q
    decreases q
  {
    if q > 1 {
      PowersOfTwoApart(p / 2, q / 2);
    }
  }

  lemma Pow2IsPowerOfTwo(k: nat)
    ensures IsPowerOfTwo(Pow2(k))
  {
    if k > 0 {
      Pow2IsPowerOfTwo(k - 1);
      assert Pow2(k) / 2 == Pow2(k - 1);
    }
  }

  /** `Integer.bitCount(x) == 1` holds exactly for the positive powers of two
      and for Integer.MIN_VALUE, whose only set bit is the sign bit. */
  lemma {:induction false} SingleBitInts(x: Int32)
    ensures IntBitCount(x) == 1 <==> (x > 0 && IsPowerOfTwo(x)) || x == INT_MIN
  {
    var u := Unsigned32(x);
    BitCountOneIsPowerOfTwo(u);
    Pow2Values();
    Pow2IsPowerOfTwo(31);
    if x < 0 && IsPowerOfTwo(u) {
      PowersOfTwoApart(u, -INT_MIN);
    }
    if x == INT_MIN {
      assert u == -INT_MIN;
    }
  }

  lemma {:induction false} Pow2Add(a: nat, b: nat)
    ensures Pow2(a + b) == Pow2(a) * Pow2(b)
  {
    if b > 0 {
      Pow2Add(a, b - 1);
      assert Pow2(a + b) == 2 * Pow2(a + (b - 1));
    }
  }

  /** The powers of two the modelled code shifts and masks by. */
  lemma Pow2Values()
    ensures Pow2(16) == TWO_16 && Pow2(31) == -INT_MIN && Pow2(32) == TWO_32
    ensures Pow2(63) == -LONG_MIN && Pow2(64) == TWO_64
  {
    Pow2Of16();
    Pow2Of32();
    Pow2Of64();
  }

  lemma Pow2Of16()
    ensures Pow2(16) == TWO_16
  {
    assert Pow2(2) == 4;
    Pow2Add(2, 2);
    Pow2Add(4, 4);
    Pow2Add(8, 8);
  }

  lemma Pow2Of32()
    ensures Pow2(31) == -INT_MIN && Pow2(32) == TWO_32
  {
    Pow2Of16();
    Pow2Add(16, 16);
    assert Pow2(31) * 2 == Pow2(32);
  }

  lemma Pow2Of64()
    ensures Pow2(63) == -LONG_MIN && Pow2(64) == TWO_64
  {
    Pow2Of32();
    Pow2Add(32, 32);
    assert Pow2(63) * 2 == Pow2(64);
  }
}
