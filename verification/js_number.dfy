/**
 * JavaScript's `parseInt(text, 10)`, with `None` standing for `NaN`: skip leading
 * white space, take an optional sign, then the longest run of decimal digits.
 * Integers are unbounded here (JavaScript would lose precision on very long digit runs).
 */
module JsNumber {
  import opened Wrappers

  /** The characters `parseInt` skips: ECMAScript WhiteSpace and LineTerminator. */
  predicate IsWhitespace(c: char) {
    c == '\t' || c == '\n' || c == '\U{000B}' || c == '\U{000C}' || c == '\r' || c == ' '
    || c == '\U{00A0}' || c == '\U{1680}' || ('\U{2000}' <= c <= '\U{200A}')
    || c == '\U{2028}' || c == '\U{2029}' || c == '\U{202F}' || c == '\U{205F}'
    || c == '\U{3000}' || c == '\U{FEFF}'
  }

  predicate IsDigit(c: char) {
    '0' <= c <= '9'
  }

  predicate AllDigits(s: string) {
    forall k :: 0 <= k < |s| ==> IsDigit(s[k])
  }

  function DigitValue(c: char): (d: nat)
    requires IsDigit(c)
    ensures d < 10
  {
    (c as int) - ('0' as int)
  }

  function DigitChar(d: nat): (c: char)
    requires d < 10
    ensures IsDigit(c) && DigitValue(c) == d
  {
    (('0' as int) + d) as char
  }

  /** Length of the leading run of white space. */
  function WhitespacePrefix(s: string): (n: nat)
    ensures n <= |s|
    ensures forall k :: 0 <= k < n ==> IsWhitespace(s[k])
    ensures n < |s| ==> !IsWhitespace(s[n])
  {
    if |s| == 0 || !IsWhitespace(s[0]) then 0 else 1 + WhitespacePrefix(s[1..])
  }

  /** Length of the leading run of decimal digits. */
  function DigitPrefix(s: string): (n: nat)
    ensures n <= |s|
    ensures AllDigits(s[..n])
    ensures n < |s| ==> !IsDigit(s[n])
  {
    if |s| == 0 || !IsDigit(s[0]) then 0
    else
      var n := 1 + DigitPrefix(s[1..]);
      assert s[..n] == [s[0]] + s[1..][..n - 1];
      n
  }

  /** The value of a run of decimal digits, most significant first. */
  function DigitsValue(d: string): nat
    requires AllDigits(d)
  {
    if |d| == 0 then 0 else 10 * DigitsValue(d[..|d| - 1]) + DigitValue(d[|d| - 1])
  }

  /** `parseInt(text, 10)`, one leading white-space character at a time; `None` is `NaN`. */
  function ParseInt(text: string): Option<int> {
    if |text| > 0 && IsWhitespace(text[0]) then ParseInt(text[1..]) else ParseSigned(text)
  }

  /** What `parseInt` reads after the leading white space: an optional sign, then digits. */
  function ParseSigned(rest: string): Option<int> {
    if |rest| > 0 && rest[0] == '-' then
      match ParseDigits(rest[1..])
      case None => None
      case Some(v) => Some(-(v as int))
    else if |rest| > 0 && rest[0] == '+' then ParseDigits(rest[1..])
    else ParseDigits(rest)
  }

  /** The value of the leading digit run; `NaN` when there is none. */
  function ParseDigits(s: string): Option<nat> {
    var n := DigitPrefix(s);
    if n == 0 then None else Some(DigitsValue(s[..n]))
  }

  /** Decimal rendering of a natural number, without leading zeros. */
  function NatToString(n: nat): (s: string)
    ensures |s| > 0 && AllDigits(s)
  {
    if n < 10 then [DigitChar(n)] else NatToString(n / 10) + [DigitChar(n % 10)]
  }

  /** Decimal rendering of an integer, with a `-` for negative numbers. */
  function IntToString(i: int): (s: string)
    ensures |s| > 0
  {
    if i < 0 then "-" + NatToString(-i) else NatToString(i)
  }

  lemma {:induction false} DigitsValueOfNatToString(n: nat)
    ensures DigitsValue(NatToString(n)) == n
  {
    var s := NatToString(n);
    if n < 10 {
      assert s[..0] == [];
    } else {
      assert s[..|s| - 1] == NatToString(n / 10);
      DigitsValueOfNatToString(n / 10);
    }
  }

  /** The digit run of an all-digit string is the whole string. */
  lemma DigitPrefixOfDigits(s: string, tail: string)
    requires AllDigits(s)
    requires |tail| == 0 || !IsDigit(tail[0])
    ensures DigitPrefix(s + tail) == |s|
    ensures (s + tail)[..|s|] == s
  {
    assert (s + tail)[..|s|] == s;
  }

  /** `parseInt` reads what follows the whole leading run of white space. */
  lemma {:induction false} ParseIntAfterWhitespace(text: string)
    ensures ParseInt(text) == ParseSigned(text[WhitespacePrefix(text)..])
  {
    if |text| > 0 && IsWhitespace(text[0]) {
      ParseIntAfterWhitespace(text[1..]);
      assert text[1..][WhitespacePrefix(text[1..])..] == text[WhitespacePrefix(text)..];
    } else {
      assert text[0..] == text;
    }
  }

  /** Leading white space does not change what `parseInt` reads. */
  lemma {:induction false} ParseIntSkipsWhitespace(w: string, s: string)
    requires forall k :: 0 <= k < |w| ==> IsWhitespace(w[k])
    ensures ParseInt(w + s) == ParseInt(s)
  {
    if |w| > 0 {
      assert (w + s)[0] == w[0];
      assert (w + s)[1..] == w[1..] + s;
      ParseIntSkipsWhitespace(w[1..], s);
    } else {
      assert w + s == s;
    }
  }

  /** Text that does not start with white space is read from its first character. */
  lemma ParseIntNoLeadingSpace(s: string)
    requires |s| == 0 || !IsWhitespace(s[0])
    ensures ParseInt(s) == ParseSigned(s)
  {
  }

  /** A run of digits followed by anything that is not a digit parses to the digits' value. */
  lemma ParseIntDigitsThenTail(digits: string, tail: string)
    requires |digits| > 0 && AllDigits(digits)
    requires |tail| == 0 || !IsDigit(tail[0])
    ensures ParseInt(digits + tail) == Some(DigitsValue(digits))
  {
    var s := digits + tail;
    assert s[0] == digits[0];
    ParseIntNoLeadingSpace(s);
    DigitPrefixOfDigits(digits, tail);
  }

  /** `parseInt` inverts the decimal rendering of every integer. */
  lemma ParseIntRoundTrip(i: int)
    ensures ParseInt(IntToString(i)) == Some(i)
  {
    var s := IntToString(i);
    var digits := if i < 0 then NatToString(-i) else NatToString(i);
    DigitsValueOfNatToString(if i < 0 then -i else i);
    DigitPrefixOfDigits(digits, []);
    assert digits + [] == digits;
    assert !IsWhitespace(s[0]);
    ParseIntNoLeadingSpace(s);
    if i < 0 {
      assert s[1..] == digits;
    }
  }

  /** Text whose first non-space character (after an optional sign) is not a digit is `NaN`. */
  lemma ParseIntNoDigits(w: string, sign: string, rest: string)
    requires forall k :: 0 <= k < |w| ==> IsWhitespace(w[k])
    requires sign == "" || sign == "-" || sign == "+"
    requires |rest| == 0 || (!IsDigit(rest[0])
                            && (sign != "" || (!IsWhitespace(rest[0]) && rest[0] != '-' && rest[0] != '+')))
    ensures ParseInt(w + sign + rest) == None
  {
    var s := sign + rest;
    assert w + sign + rest == w + s;
    ParseIntSkipsWhitespace(w, s);
    if sign == "" {
      assert s == rest;
    } else {
      assert s[0] == sign[0];
      assert s[1..] == rest;
    }
    ParseIntNoLeadingSpace(s);
  }

  /** A `-` negates what the digits after it read as. */
  lemma ParseSignedMinus(u: string, v: nat)
    requires ParseDigits(u) == Some(v)
    ensures ParseSigned(['-'] + u) == Some(-(v as int))
  {
    assert (['-'] + u)[1..] == u;
  }

  /** A `+` reads as the digits after it. */
  lemma ParseSignedPlus(u: string, v: nat)
    requires ParseDigits(u) == Some(v)
    ensures ParseSigned(['+'] + u) == Some(v)
  {
    assert (['+'] + u)[1..] == u;
  }

  /** A sign followed by text whose digit run reads as `v`: `v`, negated for `-`. */
  lemma ParseIntSign(sign: char, u: string, v: nat)
    requires sign == '-' || sign == '+'
    requires ParseDigits(u) == Some(v)
    ensures sign == '-' ==> ParseInt([sign] + u) == Some(-(v as int))
    ensures sign == '+' ==> ParseInt([sign] + u) == Some(v)
  {
    ParseIntNoLeadingSpace([sign] + u);
    if sign == '-' {
      ParseSignedMinus(u, v);
    } else {
      ParseSignedPlus(u, v);
    }
  }

  /**
   * White space, a sign, then text starting with a digit: the value of its longest digit
   * run, with the sign applied (`"-12px"` gives -12, `"+5"` gives 5, `"-007"` gives -7).
   */
  lemma ParseIntSignedDigitRun(w: string, sign: char, u: string)
    requires forall k :: 0 <= k < |w| ==> IsWhitespace(w[k])
    requires sign == '-' || sign == '+'
    requires |u| > 0 && IsDigit(u[0])
    ensures sign == '-' ==> ParseInt(w + [sign] + u) == Some(-(DigitsValue(u[..DigitPrefix(u)]) as int))
    ensures sign == '+' ==> ParseInt(w + [sign] + u) == Some(DigitsValue(u[..DigitPrefix(u)]))
  {
    var s := [sign] + u;
    assert w + [sign] + u == w + s;
    ParseIntSkipsWhitespace(w, s);
    ParseIntSign(sign, u, DigitsValue(u[..DigitPrefix(u)]));
  }
}
