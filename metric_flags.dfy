/** The flag byte both `MetricConfig` classes keep: one bit per metric tag,
    read with `&`, set with `|=`, cleared with `&= ~` and toggled with `^=`. */
module MetricFlags {

  /** Whether the tag bit `flag` is set in `features`. */
  predicate FlagSet(features: bv8, flag: bv8)
  {
    features & flag != 0
  }

  /** `features &= (byte) ~flag`. */
  function Cleared(features: bv8, flag: bv8): (f: bv8)
  {
    features & !flag
  }

  /** `features |= flag`. */
  function Set(features: bv8, flag: bv8): (f: bv8)
  {
    features | flag
  }

  /** `features ^= flag`. */
  function Toggled(features: bv8, flag: bv8): (f: bv8)
  {
    features ^ flag
  }

  /** Two single-bit flags that differ share no bit. */
  predicate SingleBits(a: bv8, b: bv8)
  {
    a != b && a in {1, 2, 4, 8, 16, 32, 64, 128} && b in {1, 2, 4, 8, 16, 32, 64, 128}
  }

  /** Clearing a flag switches it off and every other single-bit flag keeps its state;
      clearing twice is clearing once. */
  lemma ClearedSpec(features: bv8, flag: bv8, other: bv8)
    requires flag != 0
    ensures !FlagSet(Cleared(features, flag), flag)
    ensures SingleBits(flag, other) ==> (FlagSet(Cleared(features, flag), other) <==> FlagSet(features, other))
    ensures Cleared(Cleared(features, flag), flag) == Cleared(features, flag)
  {
  }

  /** Setting a flag switches it on and every other single-bit flag keeps its state;
      setting twice is setting once. */
  lemma SetSpec(features: bv8, flag: bv8, other: bv8)
    requires flag != 0
    ensures FlagSet(Set(features, flag), flag)
    ensures SingleBits(flag, other) ==> (FlagSet(Set(features, flag), other) <==> FlagSet(features, other))
    ensures Set(Set(features, flag), flag) == Set(features, flag)
  {
  }

  /** Toggling a single-bit flag inverts it and keeps every other single-bit flag;
      toggling twice restores the byte, so it is not idempotent. */
  lemma ToggledSpec(features: bv8, flag: bv8, other: bv8)
    requires flag in {1, 2, 4, 8, 16, 32, 64, 128}
    ensures FlagSet(Toggled(features, flag), flag) <==> !FlagSet(features, flag)
    ensures SingleBits(flag, other) ==> (FlagSet(Toggled(features, flag), other) <==> FlagSet(features, other))
    ensures Toggled(Toggled(features, flag), flag) == features
    ensures Toggled(Toggled(features, flag), flag) != Toggled(features, flag)
  {
    ToggledFlips(features, flag);
    if SingleBits(flag, other) {
      ToggledKeepsOthers(features, flag, other);
    }
    ToggledTwiceRestores(features, flag);
  }

  lemma ToggledFlips(features: bv8, flag: bv8)
    requires flag in {1, 2, 4, 8, 16, 32, 64, 128}
    ensures FlagSet(Toggled(features, flag), flag) <==> !FlagSet(features, flag)
  {
  }

  lemma ToggledKeepsOthers(features: bv8, flag: bv8, other: bv8)
    requires SingleBits(flag, other)
    ensures FlagSet(Toggled(features, flag), other) <==> FlagSet(features, other)
  {
  }

  lemma ToggledTwiceRestores(features: bv8, flag: bv8)
    requires flag != 0
    ensures Toggled(Toggled(features, flag), flag) == features
    ensures Toggled(features, flag) != features
  {
  }
}
