/**
 * Integer.parseInt(String) and Integer.toString(int), for the 32-bit signed
 * int of the Java platform.
 */
module JavaInt {
  import opened Wrappers
  import opened JavaText

  const MIN_VALUE: int := -0x8000_0000
  const MAX_VALUE: int := 0x7FFF_FFFF

  predicate InIntRange(v: int) {
    MIN_VALUE <= v <= MAX_VALUE
  }

  function DigitValue(c: char): nat
    requires IsDigit(c)
  {
    c as int - '0' as int
  }

  /** The value of a string of decimal digits, most significant first. */
  function DigitsValue(s: string): nat
    requires AllDigits(s)
  {
    if s == [] then 0 else 10 * DigitsValue(s[..|s| - 1]) + DigitValue(s[|s| - 1])
  }

  /** The text after an optional leading '+' or '-'. */
  function Unsigned(s: string): string {
    if s != [] && (s[0] == '-' || s[0] == '+') then s[1..] else s
  }

  /**
   * Integer.parseInt: an optional sign followed by one or more digits whose
   * value fits in an int; anything else is a NumberFormatException (None).
   * The magnitude may reach MAX_VALUE + 1 only under a leading '-'.
   */
  function ParseInt(s: string): (r: Option<int>)
    ensures r.Some? ==> Unsigned(s) != [] && AllDigits(Unsigned(s)) && InIntRange(r.value)
    ensures r.Some? ==> (if s[0] == '-' then -r.value else r.value) == DigitsValue(Unsigned(s))
    ensures r.None? ==> Unsigned(s) == [] || !AllDigits(Unsigned(s))
                        || DigitsValue(Unsigned(s)) > MAX_VALUE + (if s[0] == '-' then 1 else 0)
  {
    var digits := Unsigned(s);
    if digits == [] || !AllDigits(digits) then None
    else
      var v: int := if s[0] == '-' then 0 - DigitsValue(digits) as int else DigitsValue(digits);
      if InIntRange(v) then Some(v) else None
  }

  function DigitChar(d: nat): (c: char)
    requires d < 10
    ensures IsDigit(c) && DigitValue(c) == d
  {
    ('0' as int + d) as char
  }

  /** The shortest decimal rendering of n: no sign, no leading zero. */
  function DecimalString(n: nat): (s: string)
    ensures s != [] && AllDigits(s)
    ensures |s| > 1 ==> s[0] != '0'
  {
    if n < 10 then [DigitChar(n)] else DecimalString(n / 10) + [DigitChar(n % 10)]
  }

  /** Integer.toString: a '-' for a negative value, then the decimal digits of its magnitude. */
  function IntToString(v: int): (s: string)
    ensures s != [] && (s[0] == '-' <==> v < 0)
    ensures v >= 0 ==> AllDigits(s)
    ensures AllDigits(Unsigned(s)) && DigitsValue(Unsigned(s)) == if v < 0 then -v else v
    ensures |Unsigned(s)| > 1 ==> Unsigned(s)[0] != '0'
  {
    DecimalStringValue(if v < 0 then -v else v);
    if v < 0 then "-" + DecimalString(-v) else DecimalString(v)
  }

  lemma {:induction false} DecimalStringValue(n: nat)
    ensures DigitsValue(DecimalString(n)) == n
  {
    if n >= 10 {
      DecimalStringValue(n / 10);
    }
  }

  /** Integer.parseInt(Integer.toString(v)) == v for every int v. */
  lemma ParseIntToString(v: int)
    requires InIntRange(v)
    ensures ParseInt(IntToString(v)) == Some(v)
  {
  }
}
