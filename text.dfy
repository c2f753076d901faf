/** The string routines of the JDK that the core relies on: case-insensitive
    comparison (String.equalsIgnoreCase), and the decimal and boolean parsers
    (Integer.parseInt, Long.parseLong, Boolean.parseBoolean), together with
    the decimal formatter that parsing inverts. Only ASCII letters and digits
    are given their case and digit meaning. */
module Text {
  import opened Lang

  const INT_MIN: int := -0x8000_0000
  const INT_MAX: int := 0x7fff_ffff
  const LONG_MIN: int := -0x8000_0000_0000_0000
  const LONG_MAX: int := 0x7fff_ffff_ffff_ffff

  /** Upper-case an ASCII letter; every other character is its own upper case. */
  function ToUpper(c: char): (u: char)
    ensures 'a' <= c <= 'z' ==> 'A' <= u <= 'Z' && u as int == c as int - 32
    ensures !('a' <= c <= 'z') ==> u == c
  {
    if 'a' <= c <= 'z' then (c as int - 32) as char else c
  }

  /** String.equalsIgnoreCase: same length, and the characters agree up to case. */
  predicate EqualsIgnoreCase(s: string, t: string) {
    |s| == |t| && forall i :: 0 <= i < |s| ==> ToUpper(s[i]) == ToUpper(t[i])
  }

  lemma EqualsIgnoreCaseIsEquivalence(s: string, t: string, u: string)
    ensures EqualsIgnoreCase(s, s)
    ensures EqualsIgnoreCase(s, t) ==> EqualsIgnoreCase(t, s)
    ensures EqualsIgnoreCase(s, t) && EqualsIgnoreCase(t, u) ==> EqualsIgnoreCase(s, u)
  {
  }

  predicate IsDigit(c: char) {
    '0' <= c <= '9'
  }

  predicate AllDigits(s: string) {
    forall i :: 0 <= i < |s| ==> IsDigit(s[i])
  }

  /** The value of a string of decimal digits, most significant first. */
  function DigitsValue(s: string): nat
    requires AllDigits(s)
  {
    if s == [] then 0 else DigitsValue(s[..|s| - 1]) * 10 + (s[|s| - 1] as int - '0' as int)
  }

  /** The number written by an optional sign followed by at least one decimal
      digit, as Integer.parseInt and Long.parseLong read it before they check
      the range; None where they throw NumberFormatException. */
  function ParseDecimal(s: string): Option<int> {
    if |s| == 0 then None
    else if s[0] == '-' || s[0] == '+' then
      if |s| == 1 || !AllDigits(s[1..]) then None
      else if s[0] == '-' then Some(-(DigitsValue(s[1..]) as int))
      else Some(DigitsValue(s[1..]))
    else if AllDigits(s) then Some(DigitsValue(s))
    else None
  }

  /** Integer.parseInt: None stands for NumberFormatException. */
  function ParseInt(s: string): (r: Option<int>)
    ensures r.Some? ==> INT_MIN <= r.value <= INT_MAX
  {
    match ParseDecimal(s)
    case Some(n) => if INT_MIN <= n <= INT_MAX then Some(n) else None
    case None => None
  }

  /** Long.parseLong: None stands for NumberFormatException. */
  function ParseLong(s: string): (r: Option<int>)
    ensures r.Some? ==> LONG_MIN <= r.value <= LONG_MAX
  {
    match ParseDecimal(s)
    case Some(n) => if LONG_MIN <= n <= LONG_MAX then Some(n) else None
    case None => None
  }

  /** Boolean.parseBoolean: true exactly for "true" in any case; it never throws. */
  predicate ParseBoolean(s: Option<string>): (b: bool)
    ensures s.None? ==> !b
    ensures s == Some("true") || s == Some("TRUE") || s == Some("True") ==> b
    ensures b ==> |s.value| == 4 && s.value[0] in "tT"
  {
    s.Some? && EqualsIgnoreCase(s.value, "true")
  }

  /** The decimal digits of a natural number, most significant first. */
  function NaturalDigits(n: nat): string {
    if n < 10 then [('0' as int + n) as char]
    else NaturalDigits(n / 10) + [('0' as int + n % 10) as char]
  }

  /** Integer.toString / Long.toString: an optional minus sign, then the digits. */
  function FormatDecimal(n: int): string {
    if n < 0 then "-" + NaturalDigits(-n) else NaturalDigits(n)
  }

  lemma {:induction false} NaturalDigitsValue(n: nat)
    ensures |NaturalDigits(n)| >= 1
    ensures AllDigits(NaturalDigits(n))
    ensures DigitsValue(NaturalDigits(n)) == n
  {
    var ds := NaturalDigits(n);
    if n >= 10 {
      var prefix := NaturalDigits(n / 10);
      NaturalDigitsValue(n / 10);
      assert ds == prefix + [('0' as int + n % 10) as char];
      assert ds[..|ds| - 1] == prefix;
    }
  }

  /** Parsing inverts formatting: every number is read back from its decimal text. */
  lemma DecimalRoundTrip(n: int)
    ensures ParseDecimal(FormatDecimal(n)) == Some(n)
  {
    if n < 0 {
      NaturalDigitsValue(-n);
      assert FormatDecimal(n)[1..] == NaturalDigits(-n);
    } else {
      NaturalDigitsValue(n);
    }
  }

  lemma IntRoundTrip(n: int)
    requires INT_MIN <= n <= INT_MAX
    ensures ParseInt(FormatDecimal(n)) == Some(n)
  {
    DecimalRoundTrip(n);
  }

  lemma LongRoundTrip(n: int)
    requires LONG_MIN <= n <= LONG_MAX
    ensures ParseLong(FormatDecimal(n)) == Some(n)
  {
    DecimalRoundTrip(n);
  }

  /** A number outside the 32-bit range is rejected even though its text is
      well formed: parseInt throws rather than wrapping or saturating. */
  lemma IntOutOfRangeRejected(n: int)
    requires !(INT_MIN <= n <= INT_MAX)
    ensures ParseInt(FormatDecimal(n)) == None
  {
    DecimalRoundTrip(n);
  }

  /** The same for parseLong and the 64-bit range. */
  lemma LongOutOfRangeRejected(n: int)
    requires !(LONG_MIN <= n <= LONG_MAX)
    ensures ParseLong(FormatDecimal(n)) == None
  {
    DecimalRoundTrip(n);
  }

  /** The texts parseInt rejects outright: the empty string, a lone sign,
      and anything holding a character that is neither a leading sign nor a digit. */
  lemma ParseDecimalRejects(s: string)
    ensures s == [] ==> ParseDecimal(s) == None
    ensures s == "-" || s == "+" ==> ParseDecimal(s) == None
    ensures (exists i :: 0 < i < |s| && !IsDigit(s[i])) ==> ParseDecimal(s) == None
    ensures |s| > 0 && !IsDigit(s[0]) && s[0] != '-' && s[0] != '+' ==> ParseDecimal(s) == None
  {
    if exists i :: 0 < i < |s| && !IsDigit(s[i]) {
      var i :| 0 < i < |s| && !IsDigit(s[i]);
      if s[0] == '-' || s[0] == '+' {
        assert !IsDigit(s[1..][i - 1]);
      } else {
        assert !AllDigits(s);
      }
    }
  }
}
