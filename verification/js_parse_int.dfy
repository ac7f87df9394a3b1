/** The JavaScript global `parseInt(string, 10)` on strings, as the GET /data
    handler applies it to the raw `page` query value.

    With radix 10 the algorithm is: drop leading white space, read an
    optional `+` or `-`, then read the longest run of decimal digits. No
    digits at all gives NaN (modelled as `None`); otherwise the digits'
    value, negated after a `-`, is the result. Everything after the digit
    run ("3.9", "12abc", "1e3") is ignored. */
module JsParseInt {
  import opened Wrappers

  /** StrWhiteSpaceChar of ECMAScript: the WhiteSpace code points (TAB, VT,
      FF, ZWNBSP and every space separator) and the LineTerminator code
      points (LF, CR, LS, PS). */
  predicate IsStrWhiteSpace(c: char) {
    || c == '\t' || c == '\U{000B}' || c == '\U{000C}' || c == '\U{FEFF}'
    || c == '\n' || c == '\r' || c == '\U{2028}' || c == '\U{2029}'
    || c == ' ' || c == '\U{00A0}' || c == '\U{1680}'
    || ('\U{2000}' <= c <= '\U{200A}')
    || c == '\U{202F}' || c == '\U{205F}' || c == '\U{3000}'
  }

  predicate IsDecimalDigit(c: char) {
    '0' <= c <= '9'
  }

  predicate AllWhiteSpace(s: string) {
    forall i :: 0 <= i < |s| ==> IsStrWhiteSpace(s[i])
  }

  predicate AllDigits(s: string) {
    forall i :: 0 <= i < |s| ==> IsDecimalDigit(s[i])
  }

  function DigitValue(c: char): (d: nat)
    requires IsDecimalDigit(c)
    ensures d < 10
  {
    c as int - '0' as int
  }

  function DigitChar(d: nat): (c: char)
    requires d < 10
    ensures IsDecimalDigit(c) && DigitValue(c) == d
  {
    ('0' as int + d) as char
  }

  /** The string with its leading white space removed. */
  function TrimStart(s: string): (t: string)
    ensures |t| <= |s| && t == s[|s| - |t|..]
    ensures forall i :: 0 <= i < |s| - |t| ==> IsStrWhiteSpace(s[i])
    ensures t == [] || !IsStrWhiteSpace(t[0])
  {
    if s != [] && IsStrWhiteSpace(s[0]) then TrimStart(s[1..]) else s
  }

  /** The longest prefix of `s` made of decimal digits. */
  function DigitPrefix(s: string): (ds: string)
    ensures |ds| <= |s| && ds == s[..|ds|]
    ensures AllDigits(ds)
    ensures |ds| == |s| || !IsDecimalDigit(s[|ds|])
  {
    if s != [] && IsDecimalDigit(s[0]) then [s[0]] + DigitPrefix(s[1..]) else []
  }

  /** The value of a run of decimal digits, most significant digit first. */
  function DigitsValue(ds: string): nat
    requires AllDigits(ds)
  {
    if ds == [] then 0 else DigitsValue(ds[..|ds| - 1]) * 10 + DigitValue(ds[|ds| - 1])
  }

  /** The value of the leading digit run of `s`; `None` when `s` does not
      begin with a digit. */
  function ParseDigits(s: string): Option<int> {
    var ds := DigitPrefix(s);
    if ds == [] then None else Some(DigitsValue(ds))
  }

  function Negate(v: Option<int>): Option<int> {
    match v
    case None => None
    case Some(n) => Some(-n)
  }

  /** An optional sign followed by the digit run. */
  function ParseSigned(t: string): Option<int> {
    if t != [] && t[0] == '-' then Negate(ParseDigits(t[1..]))
    else if t != [] && t[0] == '+' then ParseDigits(t[1..])
    else ParseDigits(t)
  }

  /** `parseInt(s, 10)`; `None` stands for NaN. A number needs a digit in
      the text, and a negative number needs a `-` in it. */
  function ParseInt(s: string): (r: Option<int>)
    ensures r.Some? ==> exists i :: 0 <= i < |s| && IsDecimalDigit(s[i])
    ensures r.Some? && r.value < 0 ==> exists i :: 0 <= i < |s| && s[i] == '-'
  {
    ParseIntNeedsDigit(s);
    ParseSigned(TrimStart(s))
  }

  /** Where the digits and the sign that `ParseInt` reads sit in `s`. */
  lemma ParseIntNeedsDigit(s: string)
    ensures ParseSigned(TrimStart(s)).Some? ==> exists i :: 0 <= i < |s| && IsDecimalDigit(s[i])
    ensures ParseSigned(TrimStart(s)).Some? && ParseSigned(TrimStart(s)).value < 0 ==>
      exists i :: 0 <= i < |s| && s[i] == '-'
  {
    var t := TrimStart(s);
    var k := |s| - |t|;
    var r := ParseSigned(t);
    if r.Some? {
      var j := if t != [] && (t[0] == '-' || t[0] == '+') then 1 else 0;
      var ds := DigitPrefix(t[j..]);
      assert ds != [] && ds[0] == t[j];
      assert s[k + j] == t[j];
      if r.value < 0 {
        assert t[0] == '-';
        assert s[k] == '-';
      }
    }
  }

  /** The decimal numeral of `n` without leading zeros, as JavaScript's
      `String(n)` writes a non-negative integer. */
  function NatDigits(n: nat): (ds: string)
    ensures ds != [] && AllDigits(ds)
    ensures DigitsValue(ds) == n
    ensures ds[0] == '0' ==> n == 0
  {
    if n < 10 then [DigitChar(n)]
    else
      var ds := NatDigits(n / 10) + [DigitChar(n % 10)];
      assert ds[..|ds| - 1] == NatDigits(n / 10);
      ds
  }

  /** The decimal numeral of an integer, with a leading `-` when negative. */
  function IntToString(i: int): (s: string)
    ensures s != [] && (s[0] == '-' || IsDecimalDigit(s[0]))
  {
    if i < 0 then "-" + NatDigits(-i) else NatDigits(i)
  }

  /** Leading white space never changes what `TrimStart` keeps. */
  lemma {:induction false} TrimStartSkipsWhiteSpace(ws: string, s: string)
    requires AllWhiteSpace(ws)
    ensures TrimStart(ws + s) == TrimStart(s)
  {
    if ws != [] {
      assert (ws + s)[0] == ws[0];
      assert (ws + s)[1..] == ws[1..] + s;
      TrimStartSkipsWhiteSpace(ws[1..], s);
    } else {
      assert ws + s == s;
    }
  }

  /** The digit run ends exactly where the first non-digit begins. */
  lemma {:induction false} DigitPrefixOfDigitsThenOther(ds: string, rest: string)
    requires AllDigits(ds)
    requires rest == [] || !IsDecimalDigit(rest[0])
    ensures DigitPrefix(ds + rest) == ds
  {
    if ds != [] {
      assert (ds + rest)[1..] == ds[1..] + rest;
      DigitPrefixOfDigitsThenOther(ds[1..], rest);
    } else {
      assert ds + rest == rest;
    }
  }

  /** parseInt reads back every integer written in decimal, whatever white
      space precedes it and whatever non-digit text follows it
      (`parseInt(" -12px", 10) == -12`). */
  lemma ParseIntOfFormatted(ws: string, i: int, rest: string)
    requires AllWhiteSpace(ws)
    requires rest == [] || !IsDecimalDigit(rest[0])
    ensures ParseInt(ws + IntToString(i) + rest) == Some(i)
  {
    var u := IntToString(i) + rest;
    assert ws + IntToString(i) + rest == ws + u;
    ParseIntSkipsWhiteSpace(ws, u);
    ParseIntOfNumeral(i, rest);
  }

  /** Leading white space never changes what `parseInt` reads. */
  lemma ParseIntSkipsWhiteSpace(ws: string, u: string)
    requires AllWhiteSpace(ws)
    ensures ParseInt(ws + u) == ParseInt(u)
  {
    TrimStartSkipsWhiteSpace(ws, u);
  }

  /** The unpadded case of `ParseIntOfFormatted`. */
  lemma ParseIntOfNumeral(i: int, rest: string)
    requires rest == [] || !IsDecimalDigit(rest[0])
    ensures ParseInt(IntToString(i) + rest) == Some(i)
  {
    if i < 0 {
      ParseIntOfNegativeNumeral(i, rest);
    } else {
      ParseIntOfNonNegativeNumeral(i, rest);
    }
  }

  lemma ParseIntOfNegativeNumeral(i: int, rest: string)
    requires i < 0
    requires rest == [] || !IsDecimalDigit(rest[0])
    ensures ParseInt(IntToString(i) + rest) == Some(i)
  {
    ParseDigitsOfNumeral(-i, rest);
    assert IntToString(i) == "-" + NatDigits(-i);
    ParseIntOfMinus(NatDigits(-i), rest, -i);
  }

  lemma ParseIntOfNonNegativeNumeral(i: nat, rest: string)
    requires rest == [] || !IsDecimalDigit(rest[0])
    ensures ParseInt(IntToString(i) + rest) == Some(i)
  {
    var u := NatDigits(i) + rest;
    ParseDigitsOfNumeral(i, rest);
    assert IntToString(i) + rest == u;
    ParseIntOfDigit(u);
  }

  /** Text that starts with a digit parses as its digit run. */
  lemma ParseIntOfDigit(u: string)
    requires u != [] && IsDecimalDigit(u[0])
    ensures ParseInt(u) == ParseDigits(u)
  {
    TrimStartKeepsNonWhiteSpace(u);
  }

  /** A `-` followed by a digit run negates the run's value. */
  lemma ParseIntOfMinus(x: string, rest: string, n: nat)
    requires ParseDigits(x + rest) == Some(n)
    ensures ParseInt("-" + x + rest) == Some(-(n as int))
  {
    var t := "-" + x + rest;
    assert t[0] == '-';
    TrimStartKeepsNonWhiteSpace(t);
    assert t[1..] == x + rest;
  }

  /** A `+` followed by a digit run reads the run unchanged. */
  lemma ParseIntOfPlus(x: string, rest: string, n: nat)
    requires ParseDigits(x + rest) == Some(n)
    ensures ParseInt("+" + x + rest) == Some(n)
  {
    var t := "+" + x + rest;
    assert t[0] == '+';
    assert !IsStrWhiteSpace(t[0]);
    assert t[1..] == x + rest;
  }

  /** Every text whose first non-white-space characters are an optional
      sign and a digit run of value `n` parses to `n`, negated after `-`;
      leading zeros ("007") and a trailing non-digit ("12px") are allowed.
      With `ParseIntOfNoDigitRun` this fixes `ParseInt` on every string,
      since `TrimStart` splits each string into white space followed by
      text that does not start with white space. */
  lemma ParseIntOfSignedDigits(ws: string, sign: string, ds: string, rest: string, n: nat)
    requires AllWhiteSpace(ws)
    requires sign == "" || sign == "+" || sign == "-"
    requires ds != [] && AllDigits(ds) && n == DigitsValue(ds)
    requires rest == [] || !IsDecimalDigit(rest[0])
    ensures ParseInt(ws + (sign + ds + rest)) == Some(if sign == "-" then -(n as int) else n)
  {
    ParseDigitsOfRun(ds, rest, n);
    ParseIntOfPaddedRun(ws, sign, ds, rest, n);
  }

  lemma ParseIntOfPaddedRun(ws: string, sign: string, ds: string, rest: string, n: nat)
    requires AllWhiteSpace(ws)
    requires sign == "" || sign == "+" || sign == "-"
    requires ds != [] && ParseDigits(ds + rest) == Some(n)
    ensures ParseInt(ws + (sign + ds + rest)) == Some(if sign == "-" then -(n as int) else n)
  {
    ParseIntSkipsWhiteSpace(ws, sign + ds + rest);
    ParseIntOfSignedRun(sign, ds, rest, n);
  }

  /** A digit run followed by a non-digit reads as the run's value. */
  lemma ParseDigitsOfRun(ds: string, rest: string, n: nat)
    requires ds != [] && AllDigits(ds) && n == DigitsValue(ds)
    requires rest == [] || !IsDecimalDigit(rest[0])
    ensures ParseDigits(ds + rest) == Some(n)
  {
    DigitPrefixOfDigitsThenOther(ds, rest);
  }

  /** The unpadded case of `ParseIntOfSignedDigits`. */
  lemma ParseIntOfSignedRun(sign: string, ds: string, rest: string, n: nat)
    requires sign == "" || sign == "+" || sign == "-"
    requires ds != [] && ParseDigits(ds + rest) == Some(n)
    ensures ParseInt(sign + ds + rest) == Some(if sign == "-" then -(n as int) else n)
  {
    if sign == "-" {
      ParseIntOfMinus(ds, rest, n);
    } else if sign == "+" {
      ParseIntOfPlus(ds, rest, n);
    } else {
      var u := ds + rest;
      assert sign + ds + rest == u;
      assert u[0] == ds[0];
      assert IsDecimalDigit(u[0]);
      ParseIntOfDigit(u);
    }
  }

  /** Text whose first non-white-space characters are neither a digit nor
      a sign followed by a digit ("abc1", "-x5", "+-5", "") is NaN. */
  lemma ParseIntOfNoDigitRun(ws: string, t: string)
    requires AllWhiteSpace(ws)
    requires t == [] || !IsStrWhiteSpace(t[0])
    requires t == [] || !IsDecimalDigit(t[0])
    requires |t| >= 2 && (t[0] == '+' || t[0] == '-') ==> !IsDecimalDigit(t[1])
    ensures ParseInt(ws + t) == None
  {
    ParseIntSkipsWhiteSpace(ws, t);
    assert TrimStart(t) == t;
    if t != [] && (t[0] == '+' || t[0] == '-') {
      assert DigitPrefix(t[1..]) == [];
    }
  }

  /** Text that does not start with white space is not trimmed. */
  lemma TrimStartKeepsNonWhiteSpace(t: string)
    requires t != [] && (t[0] == '-' || IsDecimalDigit(t[0]))
    ensures TrimStart(t) == t
  {
    assert !IsStrWhiteSpace(t[0]);
  }

  /** The digit run of a numeral followed by a non-digit is the numeral. */
  lemma ParseDigitsOfNumeral(n: nat, rest: string)
    requires rest == [] || !IsDecimalDigit(rest[0])
    ensures ParseDigits(NatDigits(n) + rest) == Some(n)
  {
    DigitPrefixOfDigitsThenOther(NatDigits(n), rest);
  }

  /** parseInt of the plain decimal numeral of `i` is `i`. */
  lemma ParseIntRoundTrip(i: int)
    ensures ParseInt(IntToString(i)) == Some(i)
  {
    ParseIntOfNumeral(i, "");
    assert IntToString(i) + "" == IntToString(i);
  }

  /** A string without any decimal digit parses to NaN. */
  lemma ParseIntWithoutDigitsIsNaN(s: string)
    requires forall i :: 0 <= i < |s| ==> !IsDecimalDigit(s[i])
    ensures ParseInt(s) == None
  {
    var t := TrimStart(s);
    assert t == s[|s| - |t|..];
    if t != [] && (t[0] == '-' || t[0] == '+') {
      assert t[1..] == s[|s| - |t| + 1..];
      assert t[1..] == [] || !IsDecimalDigit(t[1..][0]);
    } else {
      assert t == [] || !IsDecimalDigit(t[0]);
    }
  }
}
