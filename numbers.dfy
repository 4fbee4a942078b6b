/**
 * Base-10 `strtol` as the C library defines it for the "C" locale, the
 * service's `s_to_long` wrapper around it (src/main.c), and the "%ld"
 * rendering that `snprintf` gives a length.
 */
module Numbers {
  import opened Wrappers

  /** Range of a 64-bit `long`. */
  const LONG_MIN: int := -0x8000_0000_0000_0000
  const LONG_MAX: int := 0x7FFF_FFFF_FFFF_FFFF
  /** The value `errno` takes when `strtol` overflows. */
  const ERANGE: int := 34

  /** The characters `isspace` accepts in the "C" locale. */
  predicate IsSpace(c: char)
  {
    c == ' ' || c == '\t' || c == '\n' || c == '\U{000B}' || c == '\U{000C}' || c == '\r'
  }

  predicate IsDigit(c: char)
  {
    '0' <= c <= '9'
  }

  predicate AllDigits(d: seq<char>)
  {
    forall i :: 0 <= i < |d| ==> IsDigit(d[i])
  }

  function DigitValue(c: char): (v: nat)
    requires IsDigit(c)
    ensures v < 10
  {
    (c as int) - ('0' as int)
  }

  function DigitChar(v: nat): (c: char)
    requires v < 10
    ensures IsDigit(c) && DigitValue(c) == v
  {
    (('0' as int) + v) as char
  }

  /** The input with its leading white space removed. */
  function SkipSpace(s: seq<char>): (r: seq<char>)
    ensures |r| <= |s| && r == s[|s| - |r|..]
    ensures r == [] || !IsSpace(r[0])
    ensures forall i :: 0 <= i < |s| - |r| ==> IsSpace(s[i])
  {
    if s != [] && IsSpace(s[0]) then SkipSpace(s[1..]) else s
  }

  /** The longest run of decimal digits at the front of `s`. */
  function DigitPrefix(s: seq<char>): (d: seq<char>)
    ensures d <= s && AllDigits(d)
    ensures |d| < |s| ==> !IsDigit(s[|d|])
  {
    if s != [] && IsDigit(s[0]) then [s[0]] + DigitPrefix(s[1..]) else []
  }

  /** The number a run of decimal digits denotes, unbounded. */
  function DigitsValue(d: seq<char>): nat
    requires AllDigits(d)
  {
    if d == [] then 0 else DigitsValue(d[..|d| - 1]) * 10 + DigitValue(d[|d| - 1])
  }

  /** What one call of `strtol(s, &end, 10)` gives: its value and whether it raised ERANGE. */
  datatype Conversion = Conversion(value: int, overflow: bool)

  /** The unbounded value of the optional sign and digits after the leading space. */
  function Magnitude(s: seq<char>): int
  {
    var t := SkipSpace(s);
    var m: int := DigitsValue(DigitPrefix(AfterSign(t)));
    if t != [] && t[0] == '-' then -m else m
  }

  /** The text after an optional leading sign. */
  function AfterSign(t: seq<char>): seq<char>
  {
    if t != [] && (t[0] == '-' || t[0] == '+') then t[1..] else t
  }

  /**
   * `strtol(s, &end, 10)`: the value of the longest prefix of the form
   * spaces, optional sign, digits; 0 when there are no digits; LONG_MAX or
   * LONG_MIN, with ERANGE, when that value does not fit a `long`.
   */
  function Strtol(s: seq<char>): (c: Conversion)
    ensures LONG_MIN <= c.value <= LONG_MAX
    ensures c.overflow <==> !(LONG_MIN <= Magnitude(s) <= LONG_MAX)
    ensures !c.overflow ==> c.value == Magnitude(s)
    ensures c.overflow ==> c.value == (if Magnitude(s) > 0 then LONG_MAX else LONG_MIN)
  {
    var v := Magnitude(s);
    if v > LONG_MAX then Conversion(LONG_MAX, true)
    else if v < LONG_MIN then Conversion(LONG_MIN, true)
    else Conversion(v, false)
  }

  /** The value `s_to_long` returns and `errno` after the call. */
  datatype LongResult = LongResult(value: int, errno: int)

  /**
   * `s_to_long(input)` with `errno` holding `errno` on entry: -1 for NULL;
   * -1 when the ERANGE test or the "errno set and value 0" test fires;
   * otherwise the `strtol` value. `strtol` sets `errno` only on overflow and
   * the source never resets it, so a stale `errno` reaches the tests.
   */
  function ToLong(input: Option<seq<char>>, errno: int): (r: LongResult)
    ensures input.None? ==> r == LongResult(-1, errno)
    ensures r.value == -1 || LONG_MIN <= r.value <= LONG_MAX
  {
    match input
    case None => LongResult(-1, errno)
    case Some(s) =>
      var c := Strtol(s);
      var e := if c.overflow then ERANGE else errno;
      if (e == ERANGE && (c.value == LONG_MAX || c.value == LONG_MIN)) || (e != 0 && c.value == 0) then
        LongResult(-1, e)
      else
        LongResult(c.value, e)
  }

  /**
   * With a clean `errno`, `s_to_long` fails only on NULL or overflow, and
   * otherwise returns the value of the sign-and-digits prefix (0 when
   * there are no digits).
   */
  lemma CleanToLong(s: seq<char>)
    ensures var r := ToLong(Some(s), 0);
      (r.errno == ERANGE <==> Strtol(s).overflow) &&
      (Strtol(s).overflow ==> r.value == -1) &&
      (!Strtol(s).overflow ==> r.value == Magnitude(s))
  {
  }

  /** Text with no digit after its space and sign converts to 0. */
  lemma NoDigitsIsZero(s: seq<char>)
    requires var rest := AfterSign(SkipSpace(s)); rest == [] || !IsDigit(rest[0])
    ensures ToLong(Some(s), 0).value == 0
  {
    assert DigitPrefix(AfterSign(SkipSpace(s))) == [];
    assert Magnitude(s) == 0;
  }

  /** `snprintf(buf, 48, "%ld", n)` for a non-negative `n`: its decimal digits, no leading zero. */
  function Decimal(n: nat): (d: seq<char>)
    ensures d != [] && AllDigits(d)
    ensures |d| > 1 ==> d[0] != '0'
  {
    if n < 10 then [DigitChar(n)] else Decimal(n / 10) + [DigitChar(n % 10)]
  }

  lemma {:induction false} DecimalValue(n: nat)
    ensures DigitsValue(Decimal(n)) == n
  {
    if n >= 10 {
      var d := Decimal(n);
      assert d[..|d| - 1] == Decimal(n / 10);
      DecimalValue(n / 10);
    }
  }

  lemma {:induction false} DigitPrefixOfDigits(d: seq<char>)
    requires AllDigits(d)
    ensures DigitPrefix(d) == d
  {
    if d != [] {
      DigitPrefixOfDigits(d[1..]);
    }
  }

  /** A run of digits, with no space or sign before it, has the magnitude it denotes. */
  lemma MagnitudeOfDigits(d: seq<char>)
    requires d != [] && AllDigits(d)
    ensures Magnitude(d) == DigitsValue(d)
  {
    assert SkipSpace(d) == d && AfterSign(d) == d by {
      assert IsDigit(d[0]);
    }
    DigitPrefixOfDigits(d);
  }

  /** Reading the "%ld" rendering of a length back with `s_to_long` gives the length. */
  lemma DecimalRoundTrip(n: nat)
    requires n <= LONG_MAX
    ensures ToLong(Some(Decimal(n)), 0) == LongResult(n, 0)
  {
    var d := Decimal(n);
    DecimalValue(n);
    MagnitudeOfDigits(d);
  }
}
