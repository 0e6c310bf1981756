/**
 * A dice group: `number` identical dice with `sides` faces each, of which the
 * `dropLow` lowest and `dropHigh` highest results are discarded. This module
 * holds the group's validation, its construction and its shorthand text.
 */
module DiceSpec {
  import opened Wrappers
  import opened Decimal
  import opened DiceErrors

  datatype Dice = Dice(number: int, sides: int, dropLow: int, dropHigh: int)

  /** The five rules a dice group must satisfy before it can be rolled. */
  predicate Valid(d: Dice)
  {
    && d.number >= 1
    && d.sides >= 2
    && d.dropLow >= 0
    && d.dropHigh >= 0
    && d.dropLow + d.dropHigh < d.number
  }

  /**
   * Checks the rules in a fixed order and reports the first one broken, with
   * the field values it concerns; `None` when the group is valid.
   */
  function Validate(d: Dice): (r: Option<DiceError>)
    ensures r.None? <==> Valid(d)
  {
    if d.number < 1 then Some(NumberTooLow(d.number))
    else if d.sides <= 1 then Some(SidesTooLow(d.sides))
    else if d.dropLow < 0 then Some(DropLowTooLow(d.dropLow))
    else if d.dropHigh < 0 then Some(DropHighTooLow(d.dropHigh))
    else if d.dropLow + d.dropHigh >= d.number then Some(TooManyDropped(d.dropLow, d.dropHigh, d.number))
    else None
  }

  /**
   * Every rule the group breaks, each judged on its own, in the order of
   * precedence: count, sides, drop-low, drop-high, too many dropped.
   */
  ghost function Violations(d: Dice): seq<DiceError>
  {
    (if d.number < 1 then [NumberTooLow(d.number)] else [])
    + (if d.sides <= 1 then [SidesTooLow(d.sides)] else [])
    + (if d.dropLow < 0 then [DropLowTooLow(d.dropLow)] else [])
    + (if d.dropHigh < 0 then [DropHighTooLow(d.dropHigh)] else [])
    + (if d.dropLow + d.dropHigh >= d.number then [TooManyDropped(d.dropLow, d.dropHigh, d.number)] else [])
  }

  /** `Validate` fails exactly when some rule is broken, and reports the first broken rule. */
  lemma ValidateReportsFirstViolation(d: Dice)
    ensures Validate(d) == if Violations(d) == [] then None else Some(Violations(d)[0])
  {
  }

  /**
   * Builds a dice group and validates it: either the group with exactly the
   * given fields and no error, or no group and the error `Validate` gives.
   */
  function NewExt(num: int, sides: int, dropLow: int, dropHigh: int): (r: Result<Dice, DiceError>)
    ensures r.Ok? <==> Valid(Dice(num, sides, dropLow, dropHigh))
    ensures r.Ok? ==> r.value == Dice(num, sides, dropLow, dropHigh)
    ensures r.Err? ==> Validate(Dice(num, sides, dropLow, dropHigh)) == Some(r.error)
  {
    var d := Dice(num, sides, dropLow, dropHigh);
    match Validate(d)
    case Some(e) => Err(e)
    case None => Ok(d)
  }

  /**
   * A group that drops nothing. It fails only on the count or the sides, and
   * on the count first.
   */
  function New(num: int, sides: int): (r: Result<Dice, DiceError>)
    ensures r.Ok? <==> num >= 1 && sides >= 2
    ensures r.Ok? ==> r.value == Dice(num, sides, 0, 0)
    ensures r.Err? ==> r.error == if num < 1 then NumberTooLow(num) else SidesTooLow(sides)
  {
    NewExt(num, sides, 0, 0)
  }

  /** The shorthand text of a group, such as `5d20L2H1`. */
  function String(d: Dice): (r: string)
    ensures IntText(d.number) + "d" + IntText(d.sides) <= r
    ensures |r| > |IntText(d.number) + "d" + IntText(d.sides)| <==> d.dropLow > 0 || d.dropHigh > 0
  {
    if d.dropLow > 0 then
      if d.dropHigh > 0 then
        IntText(d.number) + "d" + IntText(d.sides) + "L" + IntText(d.dropLow) + "H" + IntText(d.dropHigh)
      else
        IntText(d.number) + "d" + IntText(d.sides) + "L" + IntText(d.dropLow)
    else if d.dropHigh > 0 then
      IntText(d.number) + "d" + IntText(d.sides) + "H" + IntText(d.dropHigh)
    else
      IntText(d.number) + "d" + IntText(d.sides)
  }

  /** The optional `L{dropLow}` part of the shorthand. */
  function LowPart(dropLow: int): string
  {
    if dropLow > 0 then "L" + IntText(dropLow) else ""
  }

  /** The optional `H{dropHigh}` part of the shorthand. */
  function HighPart(dropHigh: int): string
  {
    if dropHigh > 0 then "H" + IntText(dropHigh) else ""
  }

  /**
   * The shorthand is `{number}d{sides}`, then `L{dropLow}` only when dice are
   * dropped low, then `H{dropHigh}` only when dice are dropped high.
   */
  lemma StringShape(d: Dice)
    ensures String(d) == IntText(d.number) + "d" + IntText(d.sides) + LowPart(d.dropLow) + HighPart(d.dropHigh)
  {
  }

  /**
   * The shorthand is canonical: two groups whose drop counts are not negative
   * (every valid group) have the same text exactly when they are the same group.
   */
  lemma StringInjective(d1: Dice, d2: Dice)
    requires d1.dropLow >= 0 && d1.dropHigh >= 0
    requires d2.dropLow >= 0 && d2.dropHigh >= 0
    ensures String(d1) == String(d2) <==> d1 == d2
  {
    if String(d1) == String(d2) {
      StringShape(d1);
      StringShape(d2);
      ShorthandInjective(d1.number, d1.sides, d1.dropLow, d1.dropHigh, d2.number, d2.sides, d2.dropLow, d2.dropHigh);
    }
  }

  lemma ShorthandInjective(n1: int, s1: int, l1: int, h1: int, n2: int, s2: int, l2: int, h2: int)
    requires l1 >= 0 && h1 >= 0 && l2 >= 0 && h2 >= 0
    requires IntText(n1) + "d" + IntText(s1) + LowPart(l1) + HighPart(h1)
          == IntText(n2) + "d" + IntText(s2) + LowPart(l2) + HighPart(h2)
    ensures n1 == n2 && s1 == s2 && l1 == l2 && h1 == h2
  {
    var t1, t2 := LowPart(l1) + HighPart(h1), LowPart(l2) + HighPart(h2);
    SuffixStart(l1, h1);
    SuffixStart(l2, h2);
    var r1, r2 := IntText(s1) + t1, IntText(s2) + t2;
    assert IntText(n1) + "d" + IntText(s1) + LowPart(l1) + HighPart(h1) == IntText(n1) + ("d" + r1) by {
      Associate(IntText(n1) + "d" + IntText(s1), LowPart(l1), HighPart(h1));
      Associate(IntText(n1) + "d", IntText(s1), t1);
      Associate(IntText(n1), "d", r1);
    }
    assert IntText(n2) + "d" + IntText(s2) + LowPart(l2) + HighPart(h2) == IntText(n2) + ("d" + r2) by {
      Associate(IntText(n2) + "d" + IntText(s2), LowPart(l2), HighPart(h2));
      Associate(IntText(n2) + "d", IntText(s2), t2);
      Associate(IntText(n2), "d", r2);
    }
    FieldThenText(n1, "d" + r1, n2, "d" + r2);
    StripPrefix("d", r1, r2);
    FieldThenText(s1, t1, s2, t2);
    SuffixInjective(l1, h1, l2, h2);
  }

  /** The optional parts start with a letter, never with a numeral character. */
  lemma SuffixStart(l: int, h: int)
    ensures var t := LowPart(l) + HighPart(h); t == [] || t[0] == 'L' || t[0] == 'H'
  {
  }

  lemma SuffixInjective(l1: int, h1: int, l2: int, h2: int)
    requires l1 >= 0 && h1 >= 0 && l2 >= 0 && h2 >= 0
    requires LowPart(l1) + HighPart(h1) == LowPart(l2) + HighPart(h2)
    ensures l1 == l2 && h1 == h2
  {
    if l1 > 0 && l2 > 0 {
      BothLowParts(l1, h1, l2, h2);
    } else if l1 > 0 || l2 > 0 {
      OneLowPart(l1, h1, l2, h2);
    } else {
      assert LowPart(l1) + HighPart(h1) == HighPart(h1);
      assert LowPart(l2) + HighPart(h2) == HighPart(h2);
      HighPartInjective(h1, h2);
    }
  }

  lemma BothLowParts(l1: int, h1: int, l2: int, h2: int)
    requires l1 > 0 && h1 >= 0 && l2 > 0 && h2 >= 0
    requires LowPart(l1) + HighPart(h1) == LowPart(l2) + HighPart(h2)
    ensures l1 == l2 && h1 == h2
  {
    var a1, a2 := IntText(l1), IntText(l2);
    var e1, e2 := HighPart(h1), HighPart(h2);
    Associate("L", a1, e1);
    Associate("L", a2, e2);
    StripPrefix("L", a1 + e1, a2 + e2);
    FieldThenText(l1, e1, l2, e2);
    HighPartInjective(h1, h2);
  }

  lemma OneLowPart(l1: int, h1: int, l2: int, h2: int)
    requires (l1 > 0) != (l2 > 0) && h1 >= 0 && h2 >= 0
    ensures LowPart(l1) + HighPart(h1) != LowPart(l2) + HighPart(h2)
  {
    var t1, t2 := LowPart(l1) + HighPart(h1), LowPart(l2) + HighPart(h2);
    if l1 > 0 {
      assert t1[0] == 'L';
      assert t2 == HighPart(h2);
    } else {
      assert t2[0] == 'L';
      assert t1 == HighPart(h1);
    }
  }

  lemma HighPartInjective(h1: int, h2: int)
    requires h1 >= 0 && h2 >= 0 && HighPart(h1) == HighPart(h2)
    ensures h1 == h2
  {
    if h1 > 0 && h2 > 0 {
      StripPrefix("H", IntText(h1), IntText(h2));
      IntTextInjective(h1, h2);
    }
  }

  /** Construction of the groups the package's own examples use. */
  lemma ConstructionExamples()
    ensures New(2, 20) == Ok(Dice(2, 20, 0, 0))
    ensures New(0, 20) == Err(NumberTooLow(0)) && New(2, 1) == Err(SidesTooLow(1))
    ensures New(1, 2).Ok?
    ensures NewExt(2, 20, -1, 0) == Err(DropLowTooLow(-1))
    ensures NewExt(2, 20, 0, -1) == Err(DropHighTooLow(-1))
    ensures NewExt(2, 20, 2, 0) == Err(TooManyDropped(2, 0, 2))
    ensures NewExt(2, 20, 1, 1) == Err(TooManyDropped(1, 1, 2))
  {
  }

  /** The shorthand of the groups the package's own examples use. */
  lemma ShorthandExamples()
    ensures String(Dice(2, 20, 0, 0)) == "2d20" && String(Dice(2, 20, 1, 0)) == "2d20L1"
    ensures String(Dice(2, 20, 0, 1)) == "2d20H1" && String(Dice(3, 20, 1, 1)) == "3d20L1H1"
  {
    assert NatText(20) == NatText(2) + [DigitChar(0)];
  }

  // Go's `int` is 64 bits wide on the platforms the package targets.
  const MinInt64: int := -0x8000_0000_0000_0000
  const MaxInt64: int := 0x7fff_ffff_ffff_ffff

  predicate InInt64(x: int) { MinInt64 <= x <= MaxInt64 }

  predicate FieldsInInt64(d: Dice)
  {
    InInt64(d.number) && InInt64(d.sides) && InInt64(d.dropLow) && InInt64(d.dropHigh)
  }

  /** The result of a 64-bit two's-complement addition whose exact sum is x. */
  function Wrap64(x: int): (r: int)
    ensures InInt64(r)
    ensures InInt64(x) ==> r == x
  {
    (x - MinInt64) % 0x1_0000_0000_0000_0000 + MinInt64
  }

  /**
   * `Validate` as the Go code evaluates it: the sum in the last rule is a
   * 64-bit addition, which wraps around when both drop counts are large.
   */
  function ValidateAsWritten(d: Dice): (r: Option<DiceError>)
    requires FieldsInInt64(d)
    ensures r.None? <==> Valid(d) || (d.number >= 1 && d.sides >= 2 && d.dropLow >= 0 && d.dropHigh >= 0
                                      && d.dropLow + d.dropHigh > MaxInt64)
  {
    if d.number < 1 then Some(NumberTooLow(d.number))
    else if d.sides <= 1 then Some(SidesTooLow(d.sides))
    else if d.dropLow < 0 then Some(DropLowTooLow(d.dropLow))
    else if d.dropHigh < 0 then Some(DropHighTooLow(d.dropHigh))
    else if Wrap64(d.dropLow + d.dropHigh) >= d.number then Some(TooManyDropped(d.dropLow, d.dropHigh, d.number))
    else None
  }

  /**
   * The Go check differs from the intended one exactly when the first four
   * rules hold and the two drop counts add up past the largest 64-bit int.
   */
  lemma ValidateAsWrittenDiffers(d: Dice)
    requires FieldsInInt64(d)
    ensures ValidateAsWritten(d) != Validate(d)
        <==> d.number >= 1 && d.sides >= 2 && d.dropLow >= 0 && d.dropHigh >= 0
             && d.dropLow + d.dropHigh > MaxInt64
  {
  }

  /**
   * Two dice, drop the lowest 9223372036854775807 and the highest one: the Go
   * check accepts the group, although the first slice of the roll,
   * `Raw[:DropLow]`, asks for more elements than the two faces there are, so
   * rolling it panics.
   */
  lemma TooManyDroppedOverflow()
    ensures var d := Dice(2, 20, MaxInt64, 1);
      && FieldsInInt64(d)
      && ValidateAsWritten(d) == None
      && d.dropLow > d.number
      && d.dropLow > d.number - d.dropHigh
      && Validate(d) == Some(TooManyDropped(MaxInt64, 1, 2))
  {
  }

  /** A group `Validate` accepts gives slice bounds 0 <= dropLow <= number - dropHigh <= number. */
  lemma ValidBoundsSlices(d: Dice)
    requires Validate(d) == None
    ensures 0 <= d.dropLow <= d.number - d.dropHigh <= d.number
  {
  }
}
