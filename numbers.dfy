/**
 * The numeric parsers coercion relies on: `parseInt(value, 10)` as specified in
 * section 19.2.5 of ECMA-262 (2022 edition), and the not-a-number test of
 * `parseFloat` from section 19.2.4. Both first skip leading white space
 * (TrimString with `start`) and accept one leading sign.
 */
module NumberParsing {
  import opened Wrappers
  import opened Text

  /** StrWhiteSpaceChar: the WhiteSpace and LineTerminator code points. */
  predicate IsStrWhiteSpace(c: char)
  {
    var n := c as int;
    n == 0x09 || n == 0x0A || n == 0x0B || n == 0x0C || n == 0x0D || n == 0x20 ||
    n == 0xA0 || n == 0x1680 || (0x2000 <= n <= 0x200A) || n == 0x2028 ||
    n == 0x2029 || n == 0x202F || n == 0x205F || n == 0x3000 || n == 0xFEFF
  }

  /** TrimString(s, start): `s` without its leading white space. */
  function TrimStart(s: string): (r: string)
    ensures |r| <= |s|
    ensures r == [] || !IsStrWhiteSpace(r[0])
  {
    if s != [] && IsStrWhiteSpace(s[0]) then TrimStart(s[1..]) else s
  }

  /** `s` without its first character when that is a sign. */
  function Unsigned(s: string): string
  {
    if s != [] && (s[0] == '+' || s[0] == '-') then s[1..] else s
  }

  /** The longest prefix of `s` made of decimal digits. */
  function DigitPrefix(s: string): (d: string)
    ensures |d| <= |s|
    ensures forall i :: 0 <= i < |d| ==> IsDigit(d[i])
  {
    if s != [] && IsDigit(s[0]) then [s[0]] + DigitPrefix(s[1..]) else []
  }

  predicate AllDigits(d: string)
  {
    forall i :: 0 <= i < |d| ==> IsDigit(d[i])
  }

  function DigitValue(c: char): nat
    requires IsDigit(c)
  {
    c as int - '0' as int
  }

  /** The integer a string of decimal digits denotes. */
  function DigitsValue(d: string): nat
    requires AllDigits(d)
  {
    if d == [] then 0 else DigitsValue(d[..|d| - 1]) * 10 + DigitValue(d[|d| - 1])
  }

  /**
   * `parseInt(s, 10)`: None stands for NaN. The Number returned is modelled as
   * the exact integer; the sign of a negative zero is dropped.
   */
  function ParseInt(s: string): Option<int>
  {
    var t := TrimStart(s);
    var sign := if t != [] && t[0] == '-' then -1 else 1;
    var z := DigitPrefix(Unsigned(t));
    if z == [] then None else Some(sign * DigitsValue(z))
  }

  /** `parseFloat(s)` is NaN: no prefix of the trimmed text is a StrDecimalLiteral. */
  predicate ParseFloatIsNaN(s: string)
  {
    var u := Unsigned(TrimStart(s));
    !((|u| >= 8 && u[..8] == "Infinity") ||
      (|u| >= 1 && IsDigit(u[0])) ||
      (|u| >= 2 && u[0] == '.' && IsDigit(u[1])))
  }

  function DigitChar(k: nat): (c: char)
    requires k < 10
    ensures IsDigit(c) && DigitValue(c) == k
  {
    ('0' as int + k) as char
  }

  /** The decimal text of a natural number, as `String(n)` writes it. */
  function Decimal(n: nat): (d: string)
    ensures d != [] && AllDigits(d)
  {
    if n < 10 then [DigitChar(n)] else Decimal(n / 10) + [DigitChar(n % 10)]
  }

  /** The decimal text of an integer, with a minus sign when negative. */
  function IntText(i: int): string
  {
    if i < 0 then "-" + Decimal(-i) else Decimal(i)
  }

  lemma {:induction false} DigitsValueOfDecimal(n: nat)
    ensures DigitsValue(Decimal(n)) == n
    decreases n
  {
    if n >= 10 {
      var d := Decimal(n);
      DigitsValueOfDecimal(n / 10);
      assert d[..|d| - 1] == Decimal(n / 10);
    }
  }

  lemma {:induction false} DigitPrefixOfDigits(d: string, rest: string)
    requires AllDigits(d)
    requires rest == [] || !IsDigit(rest[0])
    ensures DigitPrefix(d + rest) == d
    decreases |d|
  {
    if d == [] {
      assert d + rest == rest;
    } else {
      assert (d + rest)[1..] == d[1..] + rest;
      DigitPrefixOfDigits(d[1..], rest);
      assert [d[0]] + d[1..] == d;
    }
  }

  /**
   * Round trip: parseInt reads back the integer whose decimal text starts the
   * string, and stops at the first character that is not a digit.
   */
  lemma ParseIntOfText(i: int, rest: string)
    requires rest == [] || !IsDigit(rest[0])
    ensures ParseInt(IntText(i) + rest) == Some(i)
  {
    if i < 0 {
      var n: nat := -i;
      assert IntText(i) == "-" + Decimal(n);
      assert ("-" + Decimal(n)) + rest == "-" + (Decimal(n) + rest);
      assert IntText(i) + rest == "-" + (Decimal(n) + rest);
      ParseIntOfDecimal(n, rest);
    } else {
      assert IntText(i) == Decimal(i);
      ParseIntOfDecimal(i, rest);
    }
  }

  lemma ParseIntOfDecimal(n: nat, rest: string)
    requires rest == [] || !IsDigit(rest[0])
    ensures ParseInt(Decimal(n) + rest) == Some(n)
    ensures ParseInt("-" + (Decimal(n) + rest)) == Some(-(n as int))
  {
    var d := Decimal(n);
    var u := d + rest;
    assert u[0] == d[0] && IsDigit(u[0]);
    DigitsValueOfDecimal(n);
    DigitPrefixOfDigits(d, rest);
    assert DigitsValue(DigitPrefix(u)) == n;
    ParseIntSigned(u);
  }

  lemma ParseIntSigned(u: string)
    requires u != [] && IsDigit(u[0])
    ensures ParseInt(u) == Some(DigitsValue(DigitPrefix(u)))
    ensures ParseInt("-" + u) == Some(-(DigitsValue(DigitPrefix(u)) as int))
  {
    var t := "-" + u;
    assert TrimStart(t) == t;
    assert Unsigned(t) == u;
    assert TrimStart(u) == u;
    assert Unsigned(u) == u;
  }

  /** parseInt ignores leading white space. */
  lemma {:induction false} ParseIntSkipsWhiteSpace(ws: string, s: string)
    requires forall k :: 0 <= k < |ws| ==> IsStrWhiteSpace(ws[k])
    ensures ParseInt(ws + s) == ParseInt(s)
    ensures ParseFloatIsNaN(ws + s) == ParseFloatIsNaN(s)
    decreases |ws|
  {
    if ws != [] {
      assert (ws + s)[1..] == ws[1..] + s;
      ParseIntSkipsWhiteSpace(ws[1..], s);
      assert TrimStart(ws + s) == TrimStart(ws[1..] + s);
    } else {
      assert ws + s == s;
    }
  }

  /** parseInt yields NaN exactly when no digit follows the white space and the sign. */
  lemma ParseIntNaNIff(s: string)
    ensures ParseInt(s).None? <==>
      var u := Unsigned(TrimStart(s)); u == [] || !IsDigit(u[0])
  {
  }

  /** Whatever parseInt accepts, parseFloat accepts too. */
  lemma ParseFloatAcceptsIntegers(s: string)
    requires ParseInt(s).Some?
    ensures !ParseFloatIsNaN(s)
  {
  }
}
