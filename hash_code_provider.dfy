/** `DefaultHashCodeProvider`: Java's built-in hash codes for the four key types,
    each passed through the HashMap-style spreader `h ^ (h >>> 16)`. */
module HashCodeProvider {
  import opened JavaInts
  import opened Lang

  /** `normalize(h)`, on the unsigned reading u of h: u ^ (u >>> 16). */
  function Normalize(h: Int32): (r: Int32)
    ensures Unsigned32(r) == Xor(Unsigned32(h), Unsigned32(h) / TWO_16)
  {
    var u := Unsigned32(h);
    Pow2Values();
    XorBelow(u, u / TWO_16, 32);
    Signed32(Xor(u, u / TWO_16))
  }

  /** The upper 16 bits of normalize(h) are those of h; the lower 16 bits are
      h's lower half exclusive-or its upper half. */
  lemma NormalizeHalves(h: Int32)
    ensures Unsigned32(Normalize(h)) / TWO_16 == Unsigned32(h) / TWO_16
    ensures Unsigned32(Normalize(h)) % TWO_16 == Xor(Unsigned32(h) % TWO_16, Unsigned32(h) / TWO_16)
  {
    var u := Unsigned32(h);
    Pow2Values();
    XorLowBits(u, u / TWO_16, 16);
  }

  /** normalize undoes itself. */
  lemma NormalizeInvolution(h: Int32)
    ensures Normalize(Normalize(h)) == h
  {
    var u, r := Unsigned32(h), Normalize(h);
    NormalizeHalves(h);
    XorSelfInverse(u, u / TWO_16);
    assert Unsigned32(Normalize(r)) == Unsigned32(h);
  }

  /** `provide(int)` */
  function ProvideInt(key: Int32): (r: Int32)
    ensures Normalize(r) == key
  {
    NormalizeInvolution(key);
    Normalize(key)
  }

  /** `provide(int)` sends distinct keys to distinct hashes. */
  lemma ProvideIntInjective(a: Int32, b: Int32)
    requires ProvideInt(a) == ProvideInt(b)
    ensures a == b
  {
  }

  lemma ProvideIntZero()
    ensures ProvideInt(0) == 0
  {
  }

  /** `Long.hashCode(k)` as Java SE defines it: `(int)(k ^ (k >>> 32))`. */
  function LongHashCode(k: Int64): (r: Int32)
    ensures Unsigned32(r) == Xor(Unsigned64(k), Unsigned64(k) / TWO_32) % TWO_32
  {
    var v := Unsigned64(k);
    Signed32(Xor(v, v / TWO_32) % TWO_32)
  }

  /** `provide(long)` */
  function ProvideLong(key: Int64): (r: Int32)
    ensures Normalize(r) == LongHashCode(key)
  {
    NormalizeInvolution(LongHashCode(key));
    Normalize(LongHashCode(key))
  }

  /** A long key in the non-negative int range hashes exactly as the same int key. */
  lemma ProvideLongAgreesWithInt(k: Int64)
    requires 0 <= k <= INT_MAX
    ensures LongHashCode(k) == k
    ensures ProvideLong(k) == ProvideInt(k)
  {
  }

  /** The long keys -1 and 0 collide: -1 folds its two all-ones halves into zero. */
  lemma ProvideLongMinusOneIsZero()
    ensures LongHashCode(-1) == 0
    ensures ProvideLong(-1) == ProvideLong(0)
  {
    var v := Unsigned64(-1);
    Pow2Values();
    assert v == TWO_64 - 1 && v / TWO_32 == TWO_32 - 1 && v % TWO_32 == TWO_32 - 1;
    XorLowBits(v, TWO_32 - 1, 32);
    XorSelf(TWO_32 - 1);
    ProvideLongAgreesWithInt(0);
  }

  /** `String.hashCode()`: s[0]*31^(n-1) + ... + s[n-1] in int arithmetic,
      each character taken as one UTF-16 code unit. */
  function StringHashCode(s: string): Int32
  {
    StringHashFrom(0, s)
  }

  function StringHashFrom(acc: Int32, s: string): Int32
    decreases |s|
  {
    if s == [] then acc else StringHashFrom(Wrap32(31 * acc + s[0] as int), s[1..])
  }

  /** `Arrays.hashCode(byte[])`: starts at 1 and folds 31 * h + b in int arithmetic. */
  function BytesHashCode(bytes: seq<Int8>): Int32
  {
    BytesHashFrom(1, bytes)
  }

  function BytesHashFrom(acc: Int32, bytes: seq<Int8>): Int32
    decreases |bytes|
  {
    if bytes == [] then acc else BytesHashFrom(Wrap32(31 * acc + bytes[0]), bytes[1..])
  }

  /** Hashing a string in two pieces continues the fold where the first piece left it. */
  lemma {:induction false} StringHashAppend(acc: Int32, s: string, t: string)
    ensures StringHashFrom(acc, s + t) == StringHashFrom(StringHashFrom(acc, s), t)
    decreases |s|
  {
    if s == [] {
      assert s + t == t;
    } else {
      assert (s + t)[0] == s[0] && (s + t)[1..] == s[1..] + t;
      StringHashAppend(Wrap32(31 * acc + s[0] as int), s[1..], t);
    }
  }

  /** The hash Java documents for a string, s[0]*31^(n-1) + ... + s[n-1], exactly. */
  function StringPolynomial(s: string): int
  {
    if s == [] then 0 else 31 * StringPolynomial(s[..|s| - 1]) + s[|s| - 1] as int
  }

  /** `String.hashCode()` is the documented polynomial taken modulo 2^32. */
  lemma {:induction false} StringHashIsPolynomial(s: string)
    ensures StringHashCode(s) == Wrap32(StringPolynomial(s))
    decreases |s|
  {
    if s != [] {
      var init, c := s[..|s| - 1], s[|s| - 1] as int;
      assert s == init + [s[|s| - 1]];
      StringHashAppend(0, init, [s[|s| - 1]]);
      StringHashIsPolynomial(init);
      Wrap32MulAdd(StringPolynomial(init), 31, c);
    }
  }

  /** Hashing a byte array in two pieces continues the fold where the first piece left it. */
  lemma {:induction false} BytesHashAppend(acc: Int32, a: seq<Int8>, b: seq<Int8>)
    ensures BytesHashFrom(acc, a + b) == BytesHashFrom(BytesHashFrom(acc, a), b)
    decreases |a|
  {
    if a == [] {
      assert a + b == b;
    } else {
      assert (a + b)[0] == a[0] && (a + b)[1..] == a[1..] + b;
      BytesHashAppend(Wrap32(31 * acc + a[0]), a[1..], b);
    }
  }

  /** The hash Java documents for a byte array, that of the list of its
      elements: 31^n + b[0]*31^(n-1) + ... + b[n-1], exactly. */
  function BytesPolynomial(bytes: seq<Int8>): int
  {
    if bytes == [] then 1 else 31 * BytesPolynomial(bytes[..|bytes| - 1]) + bytes[|bytes| - 1]
  }

  /** `Arrays.hashCode(byte[])` is the documented polynomial taken modulo 2^32. */
  lemma {:induction false} BytesHashIsPolynomial(bytes: seq<Int8>)
    ensures BytesHashCode(bytes) == Wrap32(BytesPolynomial(bytes))
    decreases |bytes|
  {
    if bytes != [] {
      var init, c := bytes[..|bytes| - 1], bytes[|bytes| - 1];
      assert bytes == init + [c];
      BytesHashAppend(1, init, [c]);
      BytesHashIsPolynomial(init);
      Wrap32MulAdd(BytesPolynomial(init), 31, c);
    }
  }

  /** `provide(String)` */
  function ProvideString(key: string): (r: Int32)
    ensures Normalize(r) == StringHashCode(key)
  {
    NormalizeInvolution(StringHashCode(key));
    Normalize(StringHashCode(key))
  }

  /** `provide(byte[])` */
  function ProvideBytes(key: seq<Int8>): (r: Int32)
    ensures Normalize(r) == BytesHashCode(key)
  {
    NormalizeInvolution(BytesHashCode(key));
    Normalize(BytesHashCode(key))
  }

  /** `provide(String)` on a reference that may be null: `key.hashCode()`
      throws NullPointerException on a null key. */
  function ProvideNullableString(key: Option<string>): (r: Result<Int32>)
    ensures r.Err? <==> key.None?
    ensures r.Err? ==> r.error.NullPointerException?
    ensures key.Some? ==> r.Ok? && Normalize(r.value) == StringHashCode(key.value)
  {
    match key
    case None => Err(NullPointerException(""))
    case Some(s) => Ok(ProvideString(s))
  }

  /** `provide(byte[])` on a reference that may be null: `Arrays.hashCode`
      of null is 0, and normalize(0) == 0. */
  function ProvideNullableBytes(key: Option<seq<Int8>>): (r: Int32)
    ensures key.None? ==> r == 0
    ensures key.Some? ==> Normalize(r) == BytesHashCode(key.value)
  {
    match key
    case None => Normalize(0)
    case Some(bytes) => ProvideBytes(bytes)
  }

  /** A null byte array shares its hash with the empty string, not with the
      empty byte array. */
  lemma NullBytesLikeEmptyString()
    ensures ProvideNullableBytes(None) == ProvideString("")
    ensures ProvideNullableBytes(None) != ProvideNullableBytes(Some([]))
  {
    EmptyKeys();
  }

  /** The empty string hashes to 0 and the empty byte array to normalize(1) == 1. */
  lemma EmptyKeys()
    ensures ProvideString("") == 0
    ensures ProvideBytes([]) == 1
  {
  }

  /** Two strings with equal Java hash codes (such as "Aa" and "BB") are
      indistinguishable to the provider. */
  lemma ProvideStringCollision()
    ensures ProvideString("Aa") == ProvideString("BB")
  {
  }
}
