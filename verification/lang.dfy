/** Java-language notions the builder relies on: references that may be
    null, the exceptions it throws, ASCII upper-casing and the decimal
    rendering that string concatenation gives an `int`. */
module Lang {

  /** A Java reference that may be null. */
  datatype Nullable<+T> = Null | NonNull(value: T)

  /** The exceptions the builder throws or lets through. `cause` is the
      exception an `IOException` wraps, if any. */
  datatype Exception =
    | IOException(message: string, cause: Nullable<Exception>)
    | ServletException(message: string)
    | IllegalArgumentException(message: string)
    | NullPointerException
    | RuntimeException(message: string)

  /** The way a Java call ends: it returns a value or throws. */
  datatype Outcome<+T> = Returned(value: T) | Threw(exception: Exception)

  /** What `"" + s` renders for a possibly-null string. */
  function Render(s: Nullable<string>): (r: string)
    ensures s.NonNull? ==> r == s.value
    ensures s.Null? ==> r == "null"
  {
    match s
    case Null => "null"
    case NonNull(v) => v
  }

  // ---------------------------------------------------------------------
  // ASCII upper-casing (String.toUpperCase restricted to ASCII letters)
  // ---------------------------------------------------------------------

  predicate IsLowerAscii(c: char) {
    'a' <= c <= 'z'
  }

  function UpperChar(c: char): (r: char)
    ensures !IsLowerAscii(r)
    ensures IsLowerAscii(c) ==> r as int == c as int - 32
    ensures !IsLowerAscii(c) ==> r == c
  {
    if IsLowerAscii(c) then (c as int - 32) as char else c
  }

  /** No ASCII lower-case letter anywhere in `s`. */
  predicate IsUpperAscii(s: string) {
    forall i :: 0 <= i < |s| ==> !IsLowerAscii(s[i])
  }

  /** Two strings that differ at most in the case of ASCII letters. */
  predicate EqualIgnoringAsciiCase(s: string, t: string) {
    |s| == |t| && forall i :: 0 <= i < |s| ==> UpperChar(s[i]) == UpperChar(t[i])
  }

  function ToUpperAscii(s: string): (r: string)
    ensures |r| == |s|
    ensures forall i :: 0 <= i < |s| ==> r[i] == UpperChar(s[i])
  {
    if |s| == 0 then "" else [UpperChar(s[0])] + ToUpperAscii(s[1..])
  }

  /** The upper-cased string is upper case, agrees with its input up to
      case, and upper-casing it again changes nothing. */
  lemma ToUpperAsciiProperties(s: string)
    ensures IsUpperAscii(ToUpperAscii(s))
    ensures EqualIgnoringAsciiCase(ToUpperAscii(s), s)
    ensures ToUpperAscii(ToUpperAscii(s)) == ToUpperAscii(s)
  {
    var u := ToUpperAscii(s);
    assert forall i :: 0 <= i < |u| ==> UpperChar(u[i]) == u[i];
  }

  // ---------------------------------------------------------------------
  // Decimal rendering of integers (Integer.toString / string concatenation)
  // ---------------------------------------------------------------------

  predicate IsDigit(c: char) {
    '0' <= c <= '9'
  }

  predicate AllDigits(s: string) {
    forall i :: 0 <= i < |s| ==> IsDigit(s[i])
  }

  function DigitChar(d: nat): (c: char)
    requires d < 10
    ensures IsDigit(c)
    ensures DigitValue(c) == d
  {
    ('0' as int + d) as char
  }

  function DigitValue(c: char): (d: nat)
    requires IsDigit(c)
    ensures d < 10
  {
    c as int - '0' as int
  }

  /** Decimal digits of `n`, most significant first, without leading zeros. */
  function NatToString(n: nat): (r: string)
    ensures 0 < |r|
    ensures AllDigits(r)
    ensures |r| > 1 ==> r[0] != '0'
  {
    if n < 10 then [DigitChar(n)] else NatToString(n / 10) + [DigitChar(n % 10)]
  }

  /** Java's rendering of an `int`: a minus sign before the digits of a
      negative value. */
  function IntToString(i: int): (r: string)
    ensures 0 < |r|
    ensures i >= 0 ==> AllDigits(r)
    ensures i < 0 ==> r[0] == '-' && |r| > 1 && AllDigits(r[1..])
  {
    if i < 0 then "-" + NatToString(-i) else NatToString(i)
  }

  /** The value of a non-empty digit string. */
  function ParseNat(s: string): (n: nat)
    requires 0 < |s| && AllDigits(s)
  {
    if |s| == 1 then DigitValue(s[0])
    else ParseNat(s[..|s| - 1]) * 10 + DigitValue(s[|s| - 1])
  }

  /** Parses an optionally signed decimal digit string, leading zeros
      included; `Null` when `s` is not one. It reads back what
      `IntToString` writes. */
  function ParseInt(s: string): (r: Nullable<int>) {
    if 0 < |s| && AllDigits(s) then NonNull(ParseNat(s))
    else if 1 < |s| && s[0] == '-' && AllDigits(s[1..]) then NonNull(0 - ParseNat(s[1..]) as int)
    else Null
  }

  lemma {:induction false} ParseNatToString(n: nat)
    ensures ParseNat(NatToString(n)) == n
  {
    if n >= 10 {
      var r := NatToString(n);
      ParseNatToString(n / 10);
      assert r[..|r| - 1] == NatToString(n / 10);
    }
  }

  /** The decimal rendering of an `int` determines the `int`. */
  lemma IntToStringRoundTrip(i: int)
    ensures ParseInt(IntToString(i)) == NonNull(i)
  {
    if i < 0 {
      ParseNatToString(-i);
      assert IntToString(i)[1..] == NatToString(-i);
    } else {
      ParseNatToString(i);
    }
  }
}
