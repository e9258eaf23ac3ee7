/**
 * The pieces of Java's arithmetic and string conversion that the converter relies on:
 * the ranges of `int` and `long`, division that truncates toward zero, 32-bit
 * wrap-around of `int` addition, and `Integer.toString` (what `"<" + pri` produces).
 */
module JavaLang {
  import opened Wrappers

  const MIN_INT: int := -0x8000_0000
  const MAX_INT: int := 0x7FFF_FFFF
  const MIN_LONG: int := -0x8000_0000_0000_0000
  const MAX_LONG: int := 0x7FFF_FFFF_FFFF_FFFF

  /** Values of the Java type `int`. */
  type Int32 = x: int | MIN_INT <= x <= MAX_INT
  /** Values of the Java type `long`. */
  type Long = x: int | MIN_LONG <= x <= MAX_LONG

  function Abs(x: int): nat { if x < 0 then -x else x }

  /**
   * Java's `long` division by the constant 1000, `a / 1000`: it rounds toward zero,
   * whereas Dafny's `/` is Euclidean. So the quotient is the floor of a/1000 for a
   * non-negative dividend and the ceiling for a negative one.
   */
  function JavaDiv1000(a: int): (q: int)
    ensures a >= 0 ==> 1000 * q <= a < 1000 * q + 1000
    ensures a < 0 ==> 1000 * q - 1000 < a <= 1000 * q
    ensures Abs(q) <= Abs(a)
  {
    if a >= 0 then a / 1000 else -((-a) / 1000)
  }

  /**
   * On a negative dividend that is not a multiple of 1000, truncation is one above
   * the floor: the truncated second of -500 ms is 0, not -1.
   */
  lemma JavaDiv1000OfNegative(a: int)
    requires a < 0
    ensures a % 1000 == 0 ==> JavaDiv1000(a) == a / 1000
    ensures a % 1000 != 0 ==> JavaDiv1000(a) == a / 1000 + 1
  {
  }

  /** Java `int` addition: the exact sum reduced into the range of `int`. */
  function AddInt32(a: Int32, b: Int32): (s: Int32)
    ensures (s - (a + b)) % 0x1_0000_0000 == 0
    ensures MIN_INT <= a + b <= MAX_INT ==> s == a + b
  {
    var t := (a + b - MIN_INT) % 0x1_0000_0000 + MIN_INT;
    t
  }

  predicate IsDigit(c: char) { '0' <= c <= '9' }

  function DigitChar(d: nat): (c: char)
    requires d < 10
    ensures IsDigit(c)
  {
    ('0' as int + d) as char
  }

  function DigitValue(c: char): (d: nat)
    requires IsDigit(c)
    ensures d < 10 && DigitChar(d) == c
  {
    c as int - '0' as int
  }

  predicate AllDigits(s: string) { forall i :: 0 <= i < |s| ==> IsDigit(s[i]) }

  /**
   * A canonical decimal numeral: one or more digits and no leading zero, except the
   * numeral "0" itself.
   */
  predicate Canonical(s: string) {
    |s| >= 1 && AllDigits(s) && (s[0] == '0' ==> |s| == 1)
  }

  /** The decimal digits of a natural number, most significant first. */
  function NatToString(n: nat): (s: string)
    ensures Canonical(s)
    ensures n < 10 <==> |s| == 1
    decreases n
  {
    if n < 10 then [DigitChar(n)] else NatToString(n / 10) + [DigitChar(n % 10)]
  }

  /** The number a string of digits denotes. */
  function DigitsValue(s: string): nat
    requires AllDigits(s)
  {
    if |s| == 0 then 0 else DigitsValue(s[..|s| - 1]) * 10 + DigitValue(s[|s| - 1])
  }

  /** `Integer.toString(i)`: a minus sign for negative values, then the magnitude in decimal. */
  function IntToString(i: int): (s: string)
    ensures |s| >= 1
    ensures i >= 0 ==> Canonical(s)
    ensures i < 0 ==> s[0] == '-' && Canonical(s[1..])
  {
    if i < 0 then "-" + NatToString(-i) else NatToString(i)
  }

  /** Reads a canonical decimal numeral; anything else is rejected. */
  function ParseNat(s: string): Option<nat> {
    if Canonical(s) then Some(DigitsValue(s)) else None
  }

  /** Reads what `IntToString` writes: an optional minus sign before a non-zero canonical numeral. */
  function ParseInt(s: string): Option<int> {
    if |s| >= 1 && s[0] == '-' then
      match ParseNat(s[1..])
      case Some(n) => if n == 0 then None else Some(-(n as int))
      case None => None
    else
      match ParseNat(s)
      case Some(n) => Some(n)
      case None => None
  }

  lemma {:induction false} DigitsValueOfNatToString(n: nat)
    ensures DigitsValue(NatToString(n)) == n
    decreases n
  {
    if n >= 10 {
      var p := NatToString(n / 10);
      var s := NatToString(n);
      assert s == p + [DigitChar(n % 10)];
      assert s[..|s| - 1] == p;
      DigitsValueOfNatToString(n / 10);
    }
  }

  lemma {:induction false} LeadingDigitPositive(s: string)
    requires AllDigits(s) && |s| >= 1 && s[0] != '0'
    ensures DigitsValue(s) >= 1
    decreases |s|
  {
    if |s| > 1 {
      var p := s[..|s| - 1];
      assert p[0] == s[0];
      LeadingDigitPositive(p);
    }
  }

  lemma {:induction false} NatToStringOfDigitsValue(s: string)
    requires Canonical(s)
    ensures NatToString(DigitsValue(s)) == s
    decreases |s|
  {
    if |s| > 1 {
      var p := s[..|s| - 1];
      var c := s[|s| - 1];
      assert p[0] == s[0];
      assert Canonical(p);
      LeadingDigitPositive(p);
      var v := DigitsValue(s);
      assert v == DigitsValue(p) * 10 + DigitValue(c);
      assert v >= 10;
      assert v / 10 == DigitsValue(p) && v % 10 == DigitValue(c);
      NatToStringOfDigitsValue(p);
      assert s == p + [c];
    }
  }

  /** Reading back what `Integer.toString` wrote gives the original number. */
  lemma ParseIntOfIntToString(i: int)
    ensures ParseInt(IntToString(i)) == Some(i)
  {
    var s := IntToString(i);
    if i < 0 {
      var t := NatToString(-i);
      assert s == "-" + t;
      assert s[1..] == t;
      DigitsValueOfNatToString(-i);
      assert ParseNat(s[1..]) == Some(-i);
    } else {
      DigitsValueOfNatToString(i);
      assert s[0] != '-';
      assert ParseNat(s) == Some(i);
    }
  }

  /** Whatever `ParseInt` accepts is exactly the text `Integer.toString` writes for its value. */
  lemma IntToStringOfParseInt(s: string, i: int)
    requires ParseInt(s) == Some(i)
    ensures IntToString(i) == s
  {
    if |s| >= 1 && s[0] == '-' {
      NatToStringOfDigitsValue(s[1..]);
      assert s == "-" + s[1..];
    } else {
      NatToStringOfDigitsValue(s);
    }
  }

  /** How a Java call ends: it returns a value, or it throws a `NullPointerException`. */
  datatype Outcome<T> = Normal(value: T) | NullPointer

  /** The Java string conversion of a possibly-null `String`: null is written as "null". */
  /** Java's concatenation cannot tell a null reference from the text "null". */
  function JavaStr(s: Option<string>): (r: string)
    ensures r == "null" <==> s.None? || s == Some("null")
    ensures s.Some? ==> |r| == |s.value|
  {
    match s
    case Some(v) => v
    case None => "null"
  }
}
