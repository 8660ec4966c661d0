/**
 * The global `parseInt(string)` of JavaScript, called with no radix, as
 * section 19.2.5 of ECMA-262 defines it: skip leading white space, take an
 * optional sign, take a `0x`/`0X` prefix as radix 16 (radix 10 otherwise),
 * and read the longest run of digits of that radix.  An empty run gives NaN.
 *
 * The result is kept as a mathematical integer; the rounding to a double
 * that the standard applies to long digit runs is not modelled.
 */
module JsParseInt {

  /** A Number that parseInt can return: an integer value or NaN. */
  datatype ParsedInt = Int(value: int) | NaN

  /** StrWhiteSpaceChar: WhiteSpace (TAB, VT, FF, ZWNBSP and the Zs space separators) or a LineTerminator. */
  predicate IsStrWhiteSpace(c: char) {
    || c == '\t' || c == '\U{000B}' || c == '\U{000C}' || c == '\U{FEFF}'
    || c == ' ' || c == '\U{00A0}' || c == '\U{1680}' || ('\U{2000}' <= c <= '\U{200A}')
    || c == '\U{202F}' || c == '\U{205F}' || c == '\U{3000}'
    || c == '\n' || c == '\r' || c == '\U{2028}' || c == '\U{2029}'
  }

  predicate IsDecimalDigit(c: char) { '0' <= c <= '9' }

  /** What `s` is left with once its leading white space is removed. */
  function TrimStart(s: string): (r: string)
    ensures |r| <= |s| && r == s[|s| - |r|..]
    ensures forall i :: 0 <= i < |s| - |r| ==> IsStrWhiteSpace(s[i])
    ensures r == [] || !IsStrWhiteSpace(r[0])
  {
    if s != [] && IsStrWhiteSpace(s[0]) then TrimStart(s[1..]) else s
  }

  /** The value of a digit in radix up to 36; 36 for a character that is no digit. */
  function DigitValue(c: char): (v: nat)
    ensures v <= 36
    ensures v < 10 <==> IsDecimalDigit(c)
  {
    if '0' <= c <= '9' then c as int - '0' as int
    else if 'a' <= c <= 'z' then c as int - 'a' as int + 10
    else if 'A' <= c <= 'Z' then c as int - 'A' as int + 10
    else 36
  }

  /** Length of the longest prefix of `s` made of digits of the radix. */
  function DigitRunLength(s: string, radix: nat): (n: nat)
    ensures n <= |s|
    ensures forall i :: 0 <= i < n ==> DigitValue(s[i]) < radix
    ensures n < |s| ==> DigitValue(s[n]) >= radix
  {
    if s == [] || DigitValue(s[0]) >= radix then 0 else 1 + DigitRunLength(s[1..], radix)
  }

  /** The integer that a run of digits denotes in the radix, most significant first. */
  function DigitsValue(s: string, radix: nat): nat {
    if s == [] then 0 else DigitsValue(s[..|s| - 1], radix) * radix + DigitValue(s[|s| - 1])
  }

  /** parseInt(s) with the radix argument absent. */
  function ParseInt(s: string): ParsedInt {
    var t := TrimStart(s);
    var sign := if t != [] && t[0] == '-' then -1 else 1;
    var u := if t != [] && (t[0] == '-' || t[0] == '+') then t[1..] else t;
    var hex := |u| >= 2 && u[0] == '0' && (u[1] == 'x' || u[1] == 'X');
    var radix := if hex then 16 else 10;
    var v := if hex then u[2..] else u;
    ReadDigits(v, radix, sign)
  }

  /** The last steps of parseInt: the digit run of `v`, or NaN when it is empty. */
  function ReadDigits(v: string, radix: nat, sign: int): ParsedInt {
    var n := DigitRunLength(v, radix);
    if n == 0 then NaN else Int(sign * DigitsValue(v[..n], radix))
  }

  /** The decimal spelling of a natural number, without leading zeros. */
  function DecimalString(n: nat): (r: string)
    ensures r != [] && forall i :: 0 <= i < |r| ==> IsDecimalDigit(r[i])
    ensures r[0] == '0' ==> n == 0
  {
    if n < 10 then [('0' as int + n) as char]
    else DecimalString(n / 10) + [('0' as int + n % 10) as char]
  }

  // ---------------------------------------------------------------------
  // Properties
  // ---------------------------------------------------------------------

  lemma DigitRunIs(s: string, radix: nat, n: nat)
    requires n <= |s| && forall i :: 0 <= i < n ==> DigitValue(s[i]) < radix
    requires n < |s| ==> DigitValue(s[n]) >= radix
    ensures DigitRunLength(s, radix) == n
  {
  }

  /** The digits of DecimalString(n) denote n. */
  lemma {:induction false} DecimalStringValue(n: nat)
    ensures DigitsValue(DecimalString(n), 10) == n
  {
    var d := DecimalString(n);
    if n >= 10 {
      DecimalStringValue(n / 10);
      assert d[..|d| - 1] == DecimalString(n / 10);
    }
  }

  /** A string that starts with a decimal digit and no `0x` is read in radix 10 from its start. */
  lemma PlainDecimal(s: string)
    requires s != [] && IsDecimalDigit(s[0])
    requires |s| >= 2 && s[0] == '0' ==> s[1] != 'x' && s[1] != 'X'
    ensures ParseInt(s) == ReadDigits(s, 10, 1)
  {
    assert !IsStrWhiteSpace(s[0]);
    assert TrimStart(s) == s;
  }

  /** The digit run of `d + rest` is `d` when `rest` does not continue it. */
  lemma DecimalRun(d: string, rest: string)
    requires forall i :: 0 <= i < |d| ==> IsDecimalDigit(d[i])
    requires rest == [] || !IsDecimalDigit(rest[0])
    ensures DigitRunLength(d + rest, 10) == |d| && (d + rest)[..|d|] == d
  {
    var s := d + rest;
    assert forall i :: 0 <= i < |d| ==> s[i] == d[i] && DigitValue(s[i]) < 10;
    assert |d| < |s| ==> s[|d|] == rest[0];
    DigitRunIs(s, 10, |d|);
  }

  /**
   * parseInt reads the leading decimal number and ignores what follows it
   * (so "12abc" gives 12), as long as what follows is no further digit and,
   * after a lone 0, no `x` that would make a hexadecimal prefix.
   */
  lemma LeadingDecimal(n: nat, rest: string)
    requires rest == [] || !IsDecimalDigit(rest[0])
    requires n == 0 && rest != [] ==> rest[0] != 'x' && rest[0] != 'X'
    ensures ParseInt(DecimalString(n) + rest) == Int(n)
  {
    var d := DecimalString(n);
    var s := d + rest;
    assert s[0] == d[0];
    assert |s| >= 2 ==> s[1] == if |d| == 1 then rest[0] else d[1];
    PlainDecimal(s);
    DecimalRun(d, rest);
    DecimalStringValue(n);
  }

  /** The route parameter a client writes for id `n` is parsed back to `n`. */
  lemma ParseDecimalString(n: nat)
    ensures ParseInt(DecimalString(n)) == Int(n)
  {
    LeadingDecimal(n, []);
    assert DecimalString(n) + [] == DecimalString(n);
  }

  /** A string that starts with no space, sign or digit is NaN. */
  lemma NoLeadingDigitIsNaN(s: string)
    requires s == [] || (!IsStrWhiteSpace(s[0]) && s[0] != '+' && s[0] != '-' && !IsDecimalDigit(s[0]))
    ensures ParseInt(s) == NaN
  {
    assert TrimStart(s) == s;
    if s != [] {
      assert DigitValue(s[0]) >= 10;
    }
  }

  lemma ParsesLeadingDigits(s: string)
    requires s == "12abc"
    ensures ParseInt(s) == Int(12)
  {
    assert DecimalString(12) == DecimalString(1) + "2" == "12";
    assert s == DecimalString(12) + "abc";
    LeadingDecimal(12, "abc");
  }

  lemma NoDigitsIsNaN(s: string)
    requires s == "abc"
    ensures ParseInt(s) == NaN
  {
    NoLeadingDigitIsNaN(s);
  }
}
