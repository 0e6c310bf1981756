/**
 * The five validation errors of a dice group. Each Go constructor in
 * pkg/dice/errors.go becomes one datatype constructor carrying the same
 * integer arguments; `Message` is the text the Go constructor formats.
 */
module DiceErrors {
  import opened Decimal

  datatype DiceError =
    | NumberTooLow(num: int)                        // ErrNumberTooLow
    | SidesTooLow(num: int)                         // ErrSidesTooLow
    | DropLowTooLow(num: int)                       // ErrDropLowTooLow
    | DropHighTooLow(num: int)                      // ErrDropHighTooLow
    | TooManyDropped(low: int, high: int, num: int) // ErrTooManyDropped

  /** The fixed text in front of the first number of each kind of message. */
  function Prefix(e: DiceError): (r: string)
    ensures |r| > 10 && r[10] == KindMark(e)
  {
    match e
    case NumberTooLow(_) => "number of dice is too low: "
    case SidesTooLow(_) => "number of sides is too low: "
    case DropLowTooLow(_) => "number of low dice to drop must be positive: "
    case DropHighTooLow(_) => "number of high dice to drop must be positive: "
    case TooManyDropped(_, _, _) => "too many dice dropped: "
  }

  /** The error text, with every payload written by `%d`. */
  function Message(e: DiceError): (r: string)
    ensures Prefix(e) <= r && |r| > |Prefix(e)|
  {
    Prefix(e) + Payload(e)
  }

  /** The part of the message after the prefix. */
  function Payload(e: DiceError): (r: string)
    ensures |r| >= 1
    ensures e.TooManyDropped? <==> ' ' in r
  {
    match e
    case TooManyDropped(low, high, num) => IntText(low) + " + " + IntText(high) + " >= " + IntText(num)
    case _ => IntTextShape(e.num); IntText(e.num)
  }

  /** The character at position 10 tells the five kinds of message apart. */
  function KindMark(e: DiceError): char
  {
    match e
    case NumberTooLow(_) => 'd'
    case SidesTooLow(_) => 's'
    case DropLowTooLow(_) => 'l'
    case DropHighTooLow(_) => 'h'
    case TooManyDropped(_, _, _) => 'i'
  }

  lemma MessageMark(e: DiceError)
    ensures |Message(e)| > 10 && Message(e)[10] == KindMark(e)
  {
    ConcatIndex(Prefix(e), Payload(e), 10);
  }

  lemma ConcatIndex(p: string, q: string, i: nat)
    requires i < |p|
    ensures |p + q| > i && (p + q)[i] == p[i]
  {
  }

  /**
   * Two errors have the same message exactly when they are the same error:
   * errors of different kinds never compare equal, and errors of one kind are
   * equal exactly when their payloads are.
   */
  lemma MessageInjective(a: DiceError, b: DiceError)
    ensures Message(a) == Message(b) <==> a == b
  {
    if Message(a) == Message(b) {
      MessageMark(a);
      MessageMark(b);
      assert KindMark(a) == KindMark(b);
      assert Prefix(b) == Prefix(a);
      StripPrefix(Prefix(a), Payload(a), Payload(b));
      if a.TooManyDropped? {
        TooManyDroppedTail(a.low, a.high, a.num, b.low, b.high, b.num);
      } else {
        IntTextInjective(a.num, b.num);
      }
    }
  }

  /** Three `%d` fields separated by " + " and " >= " are read back in one way only. */
  lemma TooManyDroppedTail(l1: int, h1: int, n1: int, l2: int, h2: int, n2: int)
    requires IntText(l1) + " + " + IntText(h1) + " >= " + IntText(n1)
          == IntText(l2) + " + " + IntText(h2) + " >= " + IntText(n2)
    ensures l1 == l2 && h1 == h2 && n1 == n2
  {
    var a1, b1, c1 := IntText(l1), IntText(h1), IntText(n1);
    var a2, b2, c2 := IntText(l2), IntText(h2), IntText(n2);
    assert a1 + " + " + b1 + " >= " + c1 == a1 + " + " + (b1 + " >= " + c1) by {
      Associate(a1 + " + " + b1, " >= ", c1);
      Associate(a1 + " + ", b1, " >= " + c1);
      Associate(b1, " >= ", c1);
    }
    assert a2 + " + " + b2 + " >= " + c2 == a2 + " + " + (b2 + " >= " + c2) by {
      Associate(a2 + " + " + b2, " >= ", c2);
      Associate(a2 + " + ", b2, " >= " + c2);
      Associate(b2, " >= ", c2);
    }
    SeparatedField(l1, " + ", b1 + " >= " + c1, l2, b2 + " >= " + c2);
    SeparatedField(h1, " >= ", c1, h2, c2);
    IntTextInjective(n1, n2);
  }

  /** A `%d` field followed by a separator that starts with a space. */
  lemma SeparatedField(x1: int, sep: string, r1: string, x2: int, r2: string)
    requires |sep| > 0 && sep[0] == ' '
    requires IntText(x1) + sep + r1 == IntText(x2) + sep + r2
    ensures x1 == x2 && r1 == r2
  {
    Associate(IntText(x1), sep, r1);
    Associate(IntText(x2), sep, r2);
    FieldThenText(x1, sep + r1, x2, sep + r2);
    StripPrefix(sep, r1, r2);
  }
}
