/**
 * The global `parseInt` of JavaScript, called with one argument (no radix),
 * as section 19.2.5 of ECMA-262 defines it. The GET handler turns the
 * path segment into a number with it. `None` stands for NaN.
 */
module EcmaParseInt {
  import opened Wrappers

  /**
   * StrWhiteSpaceChar of ECMA-262: a WhiteSpace code point (TAB, VT, FF,
   * ZWNBSP and every Space_Separator) or a LineTerminator (LF, CR, LS, PS).
   */
  predicate IsStrWhiteSpace(c: char) {
    var x := c as int;
    || x == 0x09 || x == 0x0B || x == 0x0C || x == 0xFEFF
    || x == 0x20 || x == 0xA0 || x == 0x1680 || 0x2000 <= x <= 0x200A
    || x == 0x202F || x == 0x205F || x == 0x3000
    || x == 0x0A || x == 0x0D || x == 0x2028 || x == 0x2029
  }

  /** TrimString(s, start): what is left once the leading white space is dropped. */
  function TrimStart(s: string): (r: string)
    ensures |r| <= |s| && r == s[|s| - |r|..]
    ensures forall i :: 0 <= i < |s| - |r| ==> IsStrWhiteSpace(s[i])
    ensures r == [] || !IsStrWhiteSpace(r[0])
  {
    if s != [] && IsStrWhiteSpace(s[0]) then TrimStart(s[1..]) else s
  }

  /** The value of `c` as a digit of radix 36: `0`-`9`, then `a`-`z` or `A`-`Z` for 10-35. */
  function DigitValue(c: char): (d: Option<nat>)
    ensures d.Some? ==> d.value < 36
    ensures d.Some? && d.value < 10 <==> '0' <= c <= '9'
  {
    if '0' <= c <= '9' then Some(c as int - '0' as int)
    else if 'a' <= c <= 'z' then Some(c as int - 'a' as int + 10)
    else if 'A' <= c <= 'Z' then Some(c as int - 'A' as int + 10)
    else None
  }

  predicate IsRadixDigit(c: char, radix: nat) {
    DigitValue(c).Some? && DigitValue(c).value < radix
  }

  /** The decimal digit whose value is `d`. */
  function DigitChar(d: nat): (c: char)
    requires d < 10
    ensures DigitValue(c) == Some(d)
  {
    ('0' as int + d) as char
  }

  /** The length of the longest prefix of `s` made of radix-`radix` digits (step 11 of parseInt). */
  function DigitPrefixLength(s: string, radix: nat): (n: nat)
    ensures n <= |s|
    ensures forall i :: 0 <= i < n ==> IsRadixDigit(s[i], radix)
    ensures n < |s| ==> !IsRadixDigit(s[n], radix)
  {
    if s == [] || !IsRadixDigit(s[0], radix) then 0
    else 1 + DigitPrefixLength(s[1..], radix)
  }

  /** The value of a numeral once one more digit is appended to it. */
  function Shift(v: nat, radix: nat): nat {
    v * radix
  }

  /** The mathematical value of the numeral `z` in radix `radix` (step 14 of parseInt). */
  function ValueOf(z: string, radix: nat): (v: nat)
    requires forall i :: 0 <= i < |z| ==> IsRadixDigit(z[i], radix)
  {
    if z == [] then 0
    else
      var last := z[|z| - 1];
      assert IsRadixDigit(last, radix);
      Shift(ValueOf(z[..|z| - 1], radix), radix) + DigitValue(last).value
  }

  /**
   * Steps 11-14 of parseInt: read the longest run of digits. The result is
   * NaN exactly when the text does not start with a digit.
   */
  function ParseDigits(s: string, radix: nat): (r: Option<nat>)
    ensures r.None? <==> s == [] || !IsRadixDigit(s[0], radix)
  {
    var end := DigitPrefixLength(s, radix);
    if end == 0 then None else Some(ValueOf(s[..end], radix))
  }

  /** Step 4 of parseInt: a leading minus sign makes the result negative. */
  predicate IsNegative(s: string) {
    s != [] && s[0] == '-'
  }

  /** Step 16 of parseInt: the magnitude `v` with the sign applied. */
  function Signed(negative: bool, v: nat): int {
    if negative then -(v as int) else v
  }

  /** Step 5 of parseInt: the text after an optional sign. */
  function Unsigned(s: string): string {
    if s != [] && (s[0] == '+' || s[0] == '-') then s[1..] else s
  }

  predicate HasHexPrefix(s: string) {
    |s| >= 2 && s[0] == '0' && (s[1] == 'x' || s[1] == 'X')
  }

  /** Steps 8-10 of parseInt: radix 16 after a `0x` or `0X` prefix, radix 10 otherwise. */
  function Radix(u: string): nat {
    if HasHexPrefix(u) then 16 else 10
  }

  /** Step 10 of parseInt: the text after the `0x` or `0X` prefix, if there is one. */
  function DigitsPart(u: string): string {
    if HasHexPrefix(u) then u[2..] else u
  }

  /**
   * parseInt(input) with the radix left undefined: skip leading white space,
   * take an optional sign, switch to radix 16 after a `0x` or `0X` prefix
   * (radix 10 otherwise), then read the longest run of digits. The result is
   * NaN exactly when no digit follows; otherwise it is the value of that run,
   * negated after a minus sign.
   */
  function ParseInt(input: string): (r: Option<int>)
    ensures var s := TrimStart(input);
      var u := Unsigned(s);
      var d := DigitsPart(u);
      r.None? <==> d == [] || !IsRadixDigit(d[0], Radix(u))
  {
    var s := TrimStart(input);
    var u := Unsigned(s);
    match ParseDigits(DigitsPart(u), Radix(u))
    case None => None
    case Some(v) => Some(Signed(IsNegative(s), v))
  }

  /**
   * How JavaScript writes a non-negative integer below 10^21 as a string:
   * its decimal digits, without leading zeros. This is how a client writes
   * the `short_url` it received into the path of a short link.
   */
  function DecimalString(n: nat): (s: string)
    ensures |s| >= 1
    ensures forall i :: 0 <= i < |s| ==> IsRadixDigit(s[i], 10)
    ensures n >= 1 ==> s[0] != '0'
  {
    if n < 10 then [DigitChar(n)] else DecimalString(n / 10) + [DigitChar(n % 10)]
  }

  lemma {:induction false} ValueOfDecimalString(n: nat)
    ensures ValueOf(DecimalString(n), 10) == n
  {
    if n >= 10 {
      var s := DecimalString(n);
      assert s[..|s| - 1] == DecimalString(n / 10);
      ValueOfDecimalString(n / 10);
    }
  }

  /** A run of digits followed by a non-digit is read up to the non-digit. */
  lemma {:induction false} DigitPrefixOfDigits(z: string, rest: string, radix: nat)
    requires forall i :: 0 <= i < |z| ==> IsRadixDigit(z[i], radix)
    requires rest == [] || !IsRadixDigit(rest[0], radix)
    ensures DigitPrefixLength(z + rest, radix) == |z|
  {
    if z == [] {
      assert z + rest == rest;
    } else {
      assert (z + rest)[1..] == z[1..] + rest;
      DigitPrefixOfDigits(z[1..], rest, radix);
    }
  }

  /** A run of digits followed by a non-digit is read back as the value of the run. */
  lemma ParseDigitsOfRun(z: string, rest: string, radix: nat)
    requires z != [] && forall i :: 0 <= i < |z| ==> IsRadixDigit(z[i], radix)
    requires rest == [] || !IsRadixDigit(rest[0], radix)
    ensures ParseDigits(z + rest, radix) == Some(ValueOf(z, radix))
  {
    DigitPrefixOfDigits(z, rest, radix);
    assert (z + rest)[..|z|] == z;
  }

  /** Text that starts with a digit passes steps 1-5 of parseInt unchanged, with no sign. */
  lemma UnsignedDigits(u: string)
    requires u != [] && '0' <= u[0] <= '9'
    ensures TrimStart(u) == u && !IsNegative(u) && Unsigned(u) == u
  {
    assert !IsStrWhiteSpace(u[0]);
  }

  /** Text that starts with a decimal digit and no `0x` prefix is read as decimal digits. */
  lemma ParseIntOfUnsignedDecimal(s: string)
    requires s != [] && '0' <= s[0] <= '9' && !HasHexPrefix(s)
    ensures ParseInt(s) == ParseDigits(s, 10)
  {
    UnsignedDigits(s);
    assert DigitsPart(s) == s && Radix(s) == 10;
  }

  /** Text that starts with `0x` or `0X` is read as hexadecimal digits after the prefix. */
  lemma ParseIntOfHexPrefix(s: string)
    requires HasHexPrefix(s)
    ensures ParseInt(s) == ParseDigits(s[2..], 16)
  {
    UnsignedDigits(s);
    assert DigitsPart(s) == s[2..] && Radix(s) == 16;
  }

  /**
   * The `0x` prefix switches to radix 16: parseInt("0x" + z + rest) is the
   * hexadecimal value of the digits z, when rest does not continue them.
   */
  lemma ParseHex(z: string, rest: string)
    requires z != [] && forall i :: 0 <= i < |z| ==> IsRadixDigit(z[i], 16)
    requires rest == [] || !IsRadixDigit(rest[0], 16)
    ensures ParseInt(['0', 'x'] + (z + rest)) == Some(ValueOf(z, 16))
  {
    var s := ['0', 'x'] + (z + rest);
    assert s[2..] == z + rest;
    ParseIntOfHexPrefix(s);
    ParseDigitsOfRun(z, rest, 16);
  }

  /**
   * A decimal numeral followed by text that does not continue it parses
   * to its value: parseInt("42") is 42 and parseInt("42abc") is 42.
   */
  lemma ParseDecimalPrefix(n: nat, rest: string)
    requires rest == [] || !IsRadixDigit(rest[0], 10)
    requires n == 0 && rest != [] ==> rest[0] != 'x' && rest[0] != 'X'
    ensures ParseInt(DecimalString(n) + rest) == Some(n)
  {
    var z := DecimalString(n);
    var s := z + rest;
    assert s[0] == z[0];
    assert !HasHexPrefix(s) by {
      if |z| == 1 {
        assert |s| >= 2 ==> s[1] == rest[0];
      } else {
        assert n >= 1;
      }
    }
    ParseIntOfUnsignedDecimal(s);
    ParseDigitsOfRun(z, rest, 10);
    ValueOfDecimalString(n);
  }

  /** parseInt inverts the decimal rendering of a non-negative integer. */
  lemma ParseDecimal(n: nat)
    ensures ParseInt(DecimalString(n)) == Some(n)
  {
    assert DecimalString(n) + [] == DecimalString(n);
    ParseDecimalPrefix(n, []);
  }

  /** A minus sign in front of text that starts with a digit is taken off at step 5. */
  lemma MinusThenDigits(u: string)
    requires u != [] && '0' <= u[0] <= '9'
    ensures var s := ['-'] + u; TrimStart(s) == s && IsNegative(s) && Unsigned(s) == u
  {
    var s := ['-'] + u;
    assert s[1..] == u;
  }

  /**
   * A minus sign in front of text that starts with a digit negates what
   * parseInt reads from that text, and leaves NaN as NaN.
   */
  lemma ParseIntNegates(u: string)
    requires u != [] && '0' <= u[0] <= '9'
    ensures ParseInt(['-'] + u).Some? <==> ParseInt(u).Some?
    ensures ParseInt(u).Some? ==> ParseInt(['-'] + u) == Some(-ParseInt(u).value)
  {
    UnsignedDigits(u);
    MinusThenDigits(u);
  }

  lemma {:induction false} TrimStartSkipsWhiteSpace(ws: string, s: string)
    requires forall i :: 0 <= i < |ws| ==> IsStrWhiteSpace(ws[i])
    ensures TrimStart(ws + s) == TrimStart(s)
  {
    if ws == [] {
      assert ws + s == s;
    } else {
      assert (ws + s)[1..] == ws[1..] + s;
      TrimStartSkipsWhiteSpace(ws[1..], s);
    }
  }

  /** Leading white space does not change the result: parseInt(" 7") is 7. */
  lemma ParseIntSkipsWhiteSpace(ws: string, s: string)
    requires forall i :: 0 <= i < |ws| ==> IsStrWhiteSpace(ws[i])
    ensures ParseInt(ws + s) == ParseInt(s)
  {
    TrimStartSkipsWhiteSpace(ws, s);
  }

  /** Blank input, including the empty string, is NaN. */
  lemma ParseIntBlank(ws: string)
    requires forall i :: 0 <= i < |ws| ==> IsStrWhiteSpace(ws[i])
    ensures ParseInt(ws) == None
  {
    assert ws + [] == ws;
    TrimStartSkipsWhiteSpace(ws, []);
  }

  /**
   * Input whose first non-blank character is neither a sign nor a decimal
   * digit is NaN: parseInt("abc") and parseInt("  abc") are NaN.
   */
  lemma ParseIntNaN(ws: string, s: string)
    requires forall i :: 0 <= i < |ws| ==> IsStrWhiteSpace(ws[i])
    requires s != [] && !IsStrWhiteSpace(s[0]) && s[0] != '+' && s[0] != '-'
    requires !('0' <= s[0] <= '9')
    ensures ParseInt(ws + s) == None
  {
    ParseIntSkipsWhiteSpace(ws, s);
    assert TrimStart(s) == s && Unsigned(s) == s && DigitsPart(s) == s;
  }

  /** A plus sign in front of text that starts with a digit changes nothing. */
  lemma ParseIntPlus(u: string)
    requires u != [] && '0' <= u[0] <= '9'
    ensures ParseInt(['+'] + u) == ParseInt(u)
  {
    UnsignedDigits(u);
    assert (['+'] + u)[1..] == u;
  }

  /** The `0x` prefix selects radix 16: parseInt("0x1A") is 26. */
  lemma ParseHexExample()
    ensures ParseInt("0x1A") == Some(26)
  {
    var z := "1A";
    assert z[..1] == "1";
    assert ValueOf(z, 16) == 26;
    assert ['0', 'x'] + (z + []) == "0x1A";
    ParseHex(z, []);
  }

  /** A bare `0x` prefix has no digits after it: parseInt("0x") is NaN. */
  lemma ParseBareHexPrefix()
    ensures ParseInt("0x") == None
  {
    assert HasHexPrefix("0x");
    ParseIntOfHexPrefix("0x");
    assert "0x"[2..] == [];
  }
}
