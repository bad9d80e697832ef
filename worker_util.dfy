/** Key hashing of the ryntric worker service (`io/github/ryntric/WorkerUtil.java`):
    a Guava hash function turns a key into a `HashCode`, which is widened to the
    64-bit key hash that the node table is indexed by. The hash function itself
    is an uninterpreted deterministic function. */
module WorkerUtil {
  import opened JavaInts

  /** A Guava `HashCode` as Guava's own hash functions yield it: a positive
      multiple of 32 bits wide.
      A 32-bit code has only `asInt()`; a wider code also has `asLong()` (its
      first eight bytes), and its `asInt()` is the first four of those bytes,
      the low half of `asLong()`. */
  datatype HashCode =
    | Code32(asInt32: Int32)
    | CodeWide(extraWords: nat, asLong: Int64)
  {
    function Bits(): (b: nat)
      ensures b >= 32 && b % 32 == 0
    {
      if Code32? then 32 else 64 + 32 * extraWords
    }

    function AsInt(): Int32
    {
      if Code32? then asInt32 else Wrap32(asLong)
    }
  }

  datatype Charset = Charset(name: string)

  const UTF_8: Charset := Charset("UTF-8")

  /** A Guava `HashFunction`, as the four entry points the service calls. */
  datatype HashFunction = HashFunction(
    hashString: (string, Charset) -> HashCode,
    hashInt: Int32 -> HashCode,
    hashLong: Int64 -> HashCode,
    hashBytes: seq<Int8> -> HashCode)

  /** The four key types the services accept. */
  datatype Key =
    | StringKey(s: string)
    | IntKey(i: Int32)
    | LongKey(l: Int64)
    | BytesKey(bytes: seq<Int8>)

  /** `getHashCode`: codes wider than 32 bits are read as their long value,
      32-bit codes as their int value, sign-extended to a long. */
  function GetHashCode(code: HashCode): (h: Int64)
    ensures code.Bits() > 32 ==> h == code.asLong
    ensures code.Bits() <= 32 ==> INT_MIN <= h <= INT_MAX && h == code.AsInt()
    ensures Wrap32(h) == code.AsInt()
  {
    if code.Bits() > 32 then code.asLong else code.AsInt()
  }

  /** `getKeyHash(String, HashFunction, Charset)` */
  function StringKeyHash(key: string, hf: HashFunction, charset: Charset): (h: Int64)
    ensures h == GetHashCode(hf.hashString(key, charset))
  {
    GetHashCode(hf.hashString(key, charset))
  }

  /** The `getKeyHash` overloads, one per key type; strings are hashed as UTF-8. */
  function KeyHash(key: Key, hf: HashFunction): (h: Int64)
  {
    match key
    case StringKey(s) => StringKeyHash(s, hf, UTF_8)
    case IntKey(i) => GetHashCode(hf.hashInt(i))
    case LongKey(l) => GetHashCode(hf.hashLong(l))
    case BytesKey(b) => GetHashCode(hf.hashBytes(b))
  }

  /** The code a hash function yields for a key. */
  function CodeOf(key: Key, hf: HashFunction): HashCode
  {
    match key
    case StringKey(s) => hf.hashString(s, UTF_8)
    case IntKey(i) => hf.hashInt(i)
    case LongKey(l) => hf.hashLong(l)
    case BytesKey(b) => hf.hashBytes(b)
  }

  /** A key whose hash code is 32 bits wide hashes into the int range, so its
      key hash is never Long.MIN_VALUE; its low 32 bits are always the code's int. */
  lemma {:induction false} NarrowKeyHashInIntRange(key: Key, hf: HashFunction)
    requires CodeOf(key, hf).Bits() <= 32
    ensures INT_MIN <= KeyHash(key, hf) <= INT_MAX
    ensures KeyHash(key, hf) != LONG_MIN
    ensures KeyHash(key, hf) == CodeOf(key, hf).AsInt()
  {
    match key
    case StringKey(s) =>
    case IntKey(i) =>
    case LongKey(l) =>
    case BytesKey(b) =>
  }

  /** `getAvailableProcessors`, for a JVM reporting `processors` processors:
      one processor is left free when there are several. */
  function AvailableProcessors(processors: Int32): (r: Int32)
    ensures processors > 1 ==> r == processors - 1
    ensures processors <= 1 ==> r == processors
    ensures processors >= 1 ==> 1 <= r <= processors
  {
    if processors > 1 then processors - 1 else processors
  }
}
