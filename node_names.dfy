/** Virtual node names, `String.format("%s-vwn-%d", uuid, idx)`, as both node
    factories build them, and why two nodes of one factory run never share a name. */
module NodeNames {

  predicate IsDigit(c: char) { '0' <= c <= '9' }

  predicate AllDigits(s: string) { forall i | 0 <= i < |s| :: IsDigit(s[i]) }

  function DigitChar(d: nat): (c: char)
    requires d < 10
    ensures IsDigit(c)
  {
    ['0', '1', '2', '3', '4', '5', '6', '7', '8', '9'][d]
  }

  /** `%d` of a non-negative int: its decimal digits, without sign or leading zeros. */
  function Decimal(n: nat): (s: string)
    ensures |s| >= 1 && AllDigits(s)
    ensures n >= 10 <==> |s| >= 2
  {
    if n < 10 then [DigitChar(n)] else Decimal(n / 10) + [DigitChar(n % 10)]
  }

  lemma DigitCharInjective(a: nat, b: nat)
    requires a < 10 && b < 10 && DigitChar(a) == DigitChar(b)
    ensures a == b
  {
  }

  /** Different numbers print differently. */
  lemma {:induction false} DecimalInjective(a: nat, b: nat)
    requires Decimal(a) == Decimal(b)
    ensures a == b
  {
    var s := Decimal(a);
    if a >= 10 {
      assert b >= 10;
      assert s[|s| - 1] == DigitChar(a % 10) == DigitChar(b % 10);
      DigitCharInjective(a % 10, b % 10);
      assert Decimal(a / 10) == s[..|s| - 1] == Decimal(b / 10);
      DecimalInjective(a / 10, b / 10);
    } else {
      DigitCharInjective(a, b);
    }
  }

  const NODE_INFIX: string := "-vwn-"

  /** The name of the node with running index idx and the UUID drawn for it. */
  function NodeName(uuid: string, idx: nat): (name: string)
    ensures |name| > |Decimal(idx)|
    ensures name[|name| - |Decimal(idx)| - 1] == '-'
    ensures name[|name| - |Decimal(idx)|..] == Decimal(idx)
  {
    uuid + NODE_INFIX + Decimal(idx)
  }

  /** Two strings that end in '-' followed by digits end in the same digits when equal. */
  lemma SameDigitTail(s: string, d1: string, d2: string)
    requires AllDigits(d1) && AllDigits(d2)
    requires |s| > |d1| && |s| > |d2|
    requires s[|s| - |d1| - 1] == '-' && s[|s| - |d1|..] == d1
    requires s[|s| - |d2| - 1] == '-' && s[|s| - |d2|..] == d2
    ensures d1 == d2
  {
  }

  /** Node names with different indices differ, whatever UUIDs were drawn:
      the digits after the last '-' are the index. */
  lemma NodeNamesDistinct(u1: string, i1: nat, u2: string, i2: nat)
    requires i1 != i2
    ensures NodeName(u1, i1) != NodeName(u2, i2)
  {
    if NodeName(u1, i1) == NodeName(u2, i2) {
      SameDigitTail(NodeName(u1, i1), Decimal(i1), Decimal(i2));
      DecimalInjective(i1, i2);
    }
  }
}
