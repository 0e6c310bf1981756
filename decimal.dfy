/**
 * The decimal text Go's `%d` verb produces for an integer, and a parser that
 * reads it back. The parser exists only to state that the text determines the
 * number, which the error messages and the dice shorthand rely on.
 */
module Decimal {

  predicate IsDigit(c: char) { '0' <= c <= '9' }

  /** A character that can occur in the `%d` text of some integer. */
  predicate IsNumeralChar(c: char) { IsDigit(c) || c == '-' }

  predicate IsNumeral(s: string) { forall i :: 0 <= i < |s| ==> IsNumeralChar(s[i]) }

  function DigitChar(k: nat): (c: char)
    requires k < 10
    ensures IsDigit(c) && c as int - '0' as int == k
  {
    ('0' as int + k) as char
  }

  ghost function DigitValue(c: char): nat
  {
    if IsDigit(c) then c as int - '0' as int else 0
  }

  /** Decimal digits of a natural number, most significant first, no leading zeros. */
  function NatText(n: nat): (s: string)
    ensures |s| >= 1
  {
    if n < 10 then [DigitChar(n)] else NatText(n / 10) + [DigitChar(n % 10)]
  }

  /** Go's `%d` rendering of an integer: a minus sign for negatives, then the digits. */
  function IntText(n: int): (s: string)
    ensures |s| >= 1 && (s[0] == '-' <==> n < 0)
  {
    if n < 0 then "-" + NatText(-n) else NatTextDigits(n); NatText(n)
  }

  ghost function ParseNat(s: string): nat
  {
    if s == [] then 0 else 10 * ParseNat(s[..|s| - 1]) + DigitValue(s[|s| - 1])
  }

  ghost function ParseInt(s: string): int
  {
    if |s| > 0 && s[0] == '-' then -(ParseNat(s[1..]) as int) else ParseNat(s)
  }

  lemma {:induction false} NatTextDigits(n: nat)
    ensures forall i :: 0 <= i < |NatText(n)| ==> IsDigit(NatText(n)[i])
  {
    if n >= 10 {
      NatTextDigits(n / 10);
      var s := NatText(n);
      assert s == NatText(n / 10) + [DigitChar(n % 10)];
    }
  }

  lemma {:induction false} ParseNatText(n: nat)
    ensures ParseNat(NatText(n)) == n
  {
    if n >= 10 {
      var s := NatText(n);
      assert s[..|s| - 1] == NatText(n / 10);
      ParseNatText(n / 10);
    }
  }

  /** Reading back the `%d` text of any integer gives that integer. */
  lemma ParseIntText(n: int)
    ensures ParseInt(IntText(n)) == n
  {
    if n < 0 {
      assert IntText(n)[1..] == NatText(-n);
      ParseNatText(-n);
    } else {
      NatTextDigits(n);
      assert IsDigit(NatText(n)[0]);
      ParseNatText(n);
    }
  }

  /** Every `%d` text is a non-empty numeral, and it starts with '-' exactly for negatives. */
  lemma IntTextShape(n: int)
    ensures |IntText(n)| >= 1 && IsNumeral(IntText(n))
    ensures IntText(n)[0] == '-' <==> n < 0
  {
    var m: nat := if n < 0 then -n else n;
    NatTextDigits(m);
    assert IsDigit(NatText(m)[0]);
  }

  /** Distinct integers have distinct `%d` texts. */
  lemma IntTextInjective(a: int, b: int)
    ensures IntText(a) == IntText(b) <==> a == b
  {
    if IntText(a) == IntText(b) {
      ParseIntText(a);
      ParseIntText(b);
    }
  }

  /**
   * A numeral followed by text that does not continue it is split in only one
   * way: this is how `%d` fields separated by spaces or letters are read back.
   */
  lemma NumeralSplit(a1: string, t1: string, a2: string, t2: string)
    requires IsNumeral(a1) && IsNumeral(a2)
    requires t1 == [] || !IsNumeralChar(t1[0])
    requires t2 == [] || !IsNumeralChar(t2[0])
    requires a1 + t1 == a2 + t2
    ensures a1 == a2 && t1 == t2
  {
    assert a1 == (a1 + t1)[..|a1|];
    assert a2 == (a2 + t2)[..|a2|];
    assert t1 == (a1 + t1)[|a1|..];
    assert t2 == (a2 + t2)[|a2|..];
  }

  /** A `%d` field followed by text that does not continue it: both are read back. */
  lemma FieldThenText(x1: int, t1: string, x2: int, t2: string)
    requires t1 == [] || !IsNumeralChar(t1[0])
    requires t2 == [] || !IsNumeralChar(t2[0])
    requires IntText(x1) + t1 == IntText(x2) + t2
    ensures x1 == x2 && t1 == t2
  {
    IntTextShape(x1);
    IntTextShape(x2);
    NumeralSplit(IntText(x1), t1, IntText(x2), t2);
    IntTextInjective(x1, x2);
  }

  lemma StripPrefix(p: string, s1: string, s2: string)
    requires p + s1 == p + s2
    ensures s1 == s2
  {
    assert s1 == (p + s1)[|p|..];
    assert s2 == (p + s2)[|p|..];
  }

  lemma Associate(a: string, b: string, c: string)
    ensures a + b + c == a + (b + c)
  {
  }
}
