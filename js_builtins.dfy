/** The few ECMAScript built-ins the widget's computations run through:
    `parseInt` with radix 10 (section 19.2.5 of ECMA-262), Number::toString on
    integral values (section 6.1.6.1.20), `Math.round` (section 21.3.2.28) and
    the relational operators, whose result is false when an operand is NaN
    (section 7.2.13, IsLessThan returning undefined).

    Numbers are exact reals: IEEE-754 rounding is not modelled. */
module JsBuiltins {

  datatype Option<+T> = None | Some(value: T)

  /** A JavaScript Number that is either NaN or a finite value. */
  datatype Number = NaN | Num(value: real)

  /** `x > c`: false when x is NaN. */
  predicate Gt(x: Number, c: real) {
    x.Num? && x.value > c
  }

  /** `x >= c`: false when x is NaN. */
  predicate Ge(x: Number, c: real) {
    x.Num? && x.value >= c
  }

  /** `x < c`: false when x is NaN. */
  predicate Lt(x: Number, c: real) {
    x.Num? && x.value < c
  }

  /** `x || 0` on a Number: NaN (and zero) are falsy and become 0. */
  function OrZero(x: Option<int>): (r: int)
    ensures x.Some? ==> r == x.value
    ensures x.None? ==> r == 0
  {
    match x
    case Some(n) => if n != 0 then n else 0
    case None => 0
  }

  // ---------------------------------------------------------------- Math.round

  /** `Math.round`: the integer closest to x, a tie going towards +infinity. */
  function Round(x: real): (r: int)
    ensures r as real - 0.5 <= x < r as real + 0.5
  {
    (x + 0.5).Floor
  }

  lemma RoundMonotone(x: real, y: real)
    requires x <= y
    ensures Round(x) <= Round(y)
  {
  }

  lemma RoundIntegral(n: int)
    ensures Round(n as real) == n
  {
  }

  // ---------------------------------------------------------------- parseInt

  /** StrWhiteSpaceChar: WhiteSpace (TAB, VT, FF, ZWNBSP, and every code
      point of category Zs) or LineTerminator (LF, CR, LS, PS). */
  predicate IsStrWhiteSpace(c: char) {
    || c == '\t' || c == '\U{000B}' || c == '\U{000C}' || c == '\U{FEFF}'
    || c == ' ' || c == '\U{00A0}' || c == '\U{1680}'
    || ('\U{2000}' <= c <= '\U{200A}')
    || c == '\U{202F}' || c == '\U{205F}' || c == '\U{3000}'
    || c == '\n' || c == '\r' || c == '\U{2028}' || c == '\U{2029}'
  }

  predicate IsDigit(c: char) {
    '0' <= c <= '9'
  }

  predicate AllDigits(s: string) {
    forall i :: 0 <= i < |s| ==> IsDigit(s[i])
  }

  function DigitValue(c: char): (d: nat)
    requires IsDigit(c)
    ensures d < 10
  {
    c as int - '0' as int
  }

  function DigitChar(d: nat): (c: char)
    requires d < 10
    ensures IsDigit(c) && DigitValue(c) == d
  {
    ('0' as int + d) as char
  }

  /** TrimString(S, start): drops the leading white space. */
  function TrimStart(s: string): (r: string)
    ensures |r| <= |s| && r == s[|s| - |r|..]
    ensures r == [] || !IsStrWhiteSpace(r[0])
    ensures forall i :: 0 <= i < |s| - |r| ==> IsStrWhiteSpace(s[i])
  {
    if s != [] && IsStrWhiteSpace(s[0]) then TrimStart(s[1..]) else s
  }

  /** Drops one leading '+' or '-'. */
  function DropSign(s: string): string
  {
    if s != [] && (s[0] == '+' || s[0] == '-') then s[1..] else s
  }

  /** The longest prefix of s made of decimal digits. */
  function DigitPrefix(s: string): (z: string)
    ensures |z| <= |s| && z == s[..|z|]
    ensures AllDigits(z)
    ensures |z| == |s| || !IsDigit(s[|z|])
  {
    if s != [] && IsDigit(s[0]) then [s[0]] + DigitPrefix(s[1..]) else []
  }

  /** The mathematical value of a string of decimal digits. */
  function DigitsValue(z: string): nat
    requires AllDigits(z)
  {
    if z == [] then 0 else 10 * DigitsValue(z[..|z| - 1]) + DigitValue(z[|z| - 1])
  }

  /** The steps of `parseInt(s, 10)` after the white space is trimmed: an
      optional sign, then the longest run of decimal digits. */
  function ParseTrimmed(t: string): (r: Option<int>)
    ensures r.None? <==> var u := DropSign(t); u == [] || !IsDigit(u[0])
    ensures r.Some? && r.value < 0 ==> t != [] && t[0] == '-'
  {
    var sign := if t != [] && t[0] == '-' then -1 else 1;
    var z := DigitPrefix(DropSign(t));
    if z == [] then None else Some(sign * DigitsValue(z))
  }

  /** `parseInt(s, 10)`; None stands for NaN. -0 is not distinguished from 0. */
  function ParseInt(s: string): (r: Option<int>)
    ensures r.None? <==>
      var u := DropSign(TrimStart(s)); u == [] || !IsDigit(u[0])
    ensures r.Some? && r.value < 0 ==> TrimStart(s)[0] == '-'
  {
    ParseTrimmed(TrimStart(s))
  }

  // ---------------------------------------------------------------- Number::toString

  /** The decimal digits of n, without leading zeros. */
  function NatToString(n: nat): (s: string)
    ensures s != [] && AllDigits(s)
    ensures DigitsValue(s) == n
    ensures s[0] == '0' ==> n == 0
  {
    if n < 10 then [DigitChar(n)]
    else
      var s := NatToString(n / 10) + [DigitChar(n % 10)];
      assert s[..|s| - 1] == NatToString(n / 10);
      s
  }

  /** Number::toString(n) for an integral n; exponent notation, which
      ECMAScript uses from 10^21 on, is not modelled. */
  function IntToString(n: int): (s: string)
    ensures s != [] && (s[0] == '-' <==> n < 0)
  {
    if n < 0 then "-" + NatToString(-n) else NatToString(n)
  }

  lemma {:induction false} DigitPrefixOfDigits(d: string, rest: string)
    requires AllDigits(d)
    requires rest == [] || !IsDigit(rest[0])
    ensures DigitPrefix(d + rest) == d
  {
    if d != [] {
      assert (d + rest)[1..] == d[1..] + rest;
      DigitPrefixOfDigits(d[1..], rest);
      assert d == [d[0]] + d[1..];
    } else {
      assert d + rest == rest;
    }
  }

  /** Trimming skips a prefix of white space. */
  lemma {:induction false} TrimStartSkips(ws: string, s: string)
    requires forall i :: 0 <= i < |ws| ==> IsStrWhiteSpace(ws[i])
    ensures TrimStart(ws + s) == TrimStart(s)
  {
    if ws != [] {
      assert (ws + s)[0] == ws[0];
      assert (ws + s)[1..] == ws[1..] + s;
      TrimStartSkips(ws[1..], s);
    } else {
      assert ws + s == s;
    }
  }

  lemma TrimStartNoWhiteSpace(s: string)
    requires s != [] && !IsStrWhiteSpace(s[0])
    ensures TrimStart(s) == s
  {
  }

  /** Unsigned digits followed by a non-digit are read in full. */
  lemma ParseTrimmedDigits(d: string, rest: string)
    requires d != [] && AllDigits(d)
    requires rest == [] || !IsDigit(rest[0])
    ensures ParseTrimmed(d + rest) == Some(DigitsValue(d))
  {
    var t := d + rest;
    assert t[0] == d[0];
    assert DropSign(t) == t;
    DigitPrefixOfDigits(d, rest);
  }

  /** After a '-', the digits are read in full and negated. */
  lemma ParseTrimmedNegative(t: string, d: string, rest: string)
    requires t != [] && t[0] == '-' && t[1..] == d + rest
    requires d != [] && AllDigits(d)
    requires rest == [] || !IsDigit(rest[0])
    ensures ParseTrimmed(t) == Some(-(DigitsValue(d) as int))
  {
    assert DropSign(t) == d + rest;
    DigitPrefixOfDigits(d, rest);
  }

  /** parseInt reads back the decimal text of any integer, and stops at the
      first character that is not a digit (so "50.9" parses as 50). */
  lemma ParseIntOfIntToString(n: int, rest: string)
    requires rest == [] || !IsDigit(rest[0])
    ensures ParseInt(IntToString(n) + rest) == Some(n)
  {
    if n < 0 {
      var d := NatToString(-n);
      var s := "-" + (d + rest);
      assert IntToString(n) + rest == s;
      assert s[0] == '-' && s[1..] == d + rest;
      TrimStartNoWhiteSpace(s);
      ParseTrimmedNegative(s, d, rest);
    } else {
      var d := NatToString(n);
      var s := d + rest;
      assert IntToString(n) + rest == s;
      assert s[0] == d[0];
      TrimStartNoWhiteSpace(s);
      ParseTrimmedDigits(d, rest);
    }
  }

  /** Leading white space does not change what parseInt reads. */
  lemma ParseIntSkipsWhiteSpace(ws: string, s: string)
    requires forall i :: 0 <= i < |ws| ==> IsStrWhiteSpace(ws[i])
    ensures ParseInt(ws + s) == ParseInt(s)
  {
    TrimStartSkips(ws, s);
  }

  /** "-" (what `aqiFromPM` returns for an unavailable reading) and text
      without digits parse as NaN. */
  lemma ParseIntNoDigits()
    ensures ParseInt("-") == None
    ensures ParseInt("") == None
    ensures ParseInt("abc") == None
  {
    ParseIntOfDash();
    ParseIntOfLetters();
  }

  lemma ParseIntOfDash()
    ensures ParseInt("-") == None
  {
    assert TrimStart("-") == "-";
    assert DropSign("-") == [];
  }

  lemma ParseIntOfLetters()
    ensures ParseInt("abc") == None
  {
    TrimStartNoWhiteSpace("abc");
  }

  /** "50.9" is the text of 50 followed by ".9". */
  lemma TruncatedText()
    ensures "50.9" == IntToString(50) + ".9"
  {
    assert IntToString(50) == "50" by {
      assert NatToString(5) == "5";
    }
  }

  lemma ParseIntTruncates()
    ensures ParseInt("50.9") == Some(50)
  {
    TruncatedText();
    ParseIntOfIntToString(50, ".9");
  }

  /** " -7x" is one white-space character, the text of -7, and "x". */
  lemma SignText()
    ensures " -7x" == " " + (IntToString(-7) + "x")
    ensures forall i :: 0 <= i < |" "| ==> IsStrWhiteSpace(" "[i])
  {
    assert IntToString(-7) == "-7";
  }

  lemma ParseIntSign()
    ensures ParseInt(" -7x") == Some(-7)
  {
    SignText();
    ParseIntOfIntToString(-7, "x");
    ParseIntSkipsWhiteSpace(" ", IntToString(-7) + "x");
  }
}
