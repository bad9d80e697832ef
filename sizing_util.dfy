/** `io/github/ryntric/util/WorkerUtil.java`: the default worker count and the
    rounding of a size up to a power of two. */
module SizingUtil {
  import opened JavaInts
  import WorkerUtil

  /** `getWorkerCount`, for a JVM reporting `processors` processors: the same
      leave-one-free rule as `WorkerUtil.getAvailableProcessors`. */
  function GetWorkerCount(processors: Int32): (r: Int32)
    ensures r == WorkerUtil.AvailableProcessors(processors)
    ensures processors >= 1 ==> 1 <= r <= processors
    ensures processors > 1 ==> r < processors
  {
    if processors > 1 then processors - 1 else processors
  }

  /** `ceilPowerOfTwo(n)` as written: 1 for n <= 0, otherwise
      `Integer.highestOneBit(n - 1) << 1` in int arithmetic. */
  function CeilPowerOfTwo(n: Int32): (r: Int32)
    ensures n <= 0 ==> r == 1
    ensures n == 1 ==> r == 0
  {
    if n <= 0 then 1 else Wrap32(HighestOneBit(n - 1) * 2)
  }

  /** For 2 <= n <= 2^30 the result is the least power of two not below n. */
  lemma CeilPowerOfTwoInRange(n: Int32)
    requires 2 <= n <= 0x4000_0000
    ensures IsPowerOfTwo(CeilPowerOfTwo(n))
    ensures n <= CeilPowerOfTwo(n) < 2 * n
  {
    var h := HighestOneBit(n - 1);
    assert h <= n - 1 < 2 * h;
    assert CeilPowerOfTwo(n) == 2 * h;
    assert IsPowerOfTwo(2 * h);
  }

  /** A power of two n >= 2 is its own ceiling. */
  lemma CeilPowerOfTwoFixesPowers(n: Int32)
    requires n >= 2 && IsPowerOfTwo(n)
    ensures CeilPowerOfTwo(n) == n
  {
    PowerOfTwoIntAtMost2To30(n);
    CeilPowerOfTwoInRange(n);
    PowersOfTwoApart(CeilPowerOfTwo(n), n);
  }

  /** The largest power of two an int holds is 2^30. */
  lemma PowerOfTwoIntAtMost2To30(n: Int32)
    requires IsPowerOfTwo(n)
    ensures n <= 0x4000_0000
  {
    Pow2Values();
    Pow2IsPowerOfTwo(31);
    if n > 0x4000_0000 {
      PowersOfTwoApart(0x8000_0000, n);
    }
  }

  /** Above 2^30 the shift overflows into the sign bit. */
  lemma CeilPowerOfTwoOverflows(n: Int32)
    requires n > 0x4000_0000
    ensures CeilPowerOfTwo(n) == INT_MIN
  {
    var h := HighestOneBit(n - 1);
    var q := 0x4000_0000;
    Pow2Values();
    assert Pow2(30) == q;
    Pow2IsPowerOfTwo(30);
    if h >= q {
      PowersOfTwoApart(h, q);
    } else {
      PowersOfTwoApart(q, h);
    }
    assert h == q;
  }

  /** The intended rounding: 1 is already a power of two, so it rounds to itself. */
  function CeilPowerOfTwoCorrected(n: Int32): (r: Int32)
    ensures n <= 1 ==> r == 1
    ensures n > 1 ==> r == CeilPowerOfTwo(n)
  {
    if n <= 1 then 1 else CeilPowerOfTwo(n)
  }

  /** For every 1 <= n <= 2^30 the corrected rounding is the least power of two not below n. */
  lemma CeilPowerOfTwoCorrectedInRange(n: Int32)
    requires 1 <= n <= 0x4000_0000
    ensures IsPowerOfTwo(CeilPowerOfTwoCorrected(n))
    ensures n <= CeilPowerOfTwoCorrected(n) < 2 * n
  {
    if n > 1 {
      CeilPowerOfTwoInRange(n);
    }
  }

  /** As written, n == 1 rounds to 0, which is no power of two and below n. */
  lemma CeilPowerOfTwoOfOne()
    ensures CeilPowerOfTwo(1) == 0
    ensures !IsPowerOfTwo(CeilPowerOfTwo(1))
  {
  }
}
