/** JavaScript numbers as far as the parser needs them: `parseInt` on an attribute value
    can produce `NaN`. */
module Numbers {

  datatype Number = Num(n: int) | NaN

  /** The characters `String.prototype.trim` and `parseInt` skip (WhiteSpace and
      LineTerminator of ECMAScript). */
  predicate IsJsWhitespace(c: char) {
    c == '\t' || c == '\U{000B}' || c == '\U{000C}' || c == ' ' || c == '\U{00A0}'
    || c == '\U{FEFF}' || c == '\n' || c == '\r' || c == '\U{2028}' || c == '\U{2029}'
    || c == '\U{1680}' || ('\U{2000}' <= c <= '\U{200A}') || c == '\U{202F}'
    || c == '\U{205F}' || c == '\U{3000}'
  }

  function TrimStart(s: string): (r: string)
    ensures |r| <= |s| && r == s[|s| - |r|..]
    ensures r == [] || !IsJsWhitespace(r[0])
    ensures forall k :: 0 <= k < |s| - |r| ==> IsJsWhitespace(s[k])
  {
    if s != [] && IsJsWhitespace(s[0]) then
      var r := TrimStart(s[1..]);
      assert forall k :: 1 <= k < |s| - |r| ==> s[k] == s[1..][k - 1];
      r
    else s
  }

  /** The value of `c` as a digit in base `radix` (10 or 16), or -1. */
  function DigitValue(c: char, radix: nat): (v: int)
    ensures -1 <= v < radix || (radix < 10 && v < 10)
  {
    if '0' <= c <= '9' then c as int - 48
    else if radix == 16 && 'a' <= c <= 'f' then c as int - 97 + 10
    else if radix == 16 && 'A' <= c <= 'F' then c as int - 65 + 10
    else -1
  }

  predicate IsDigit(c: char, radix: nat) {
    0 <= DigitValue(c, radix) < radix
  }

  /** Length of the longest prefix of `s` made of digits. */
  function DigitRun(s: string, radix: nat): (n: nat)
    ensures n <= |s|
    ensures forall k :: 0 <= k < n ==> IsDigit(s[k], radix)
    ensures n < |s| ==> !IsDigit(s[n], radix)
  {
    if s != [] && IsDigit(s[0], radix) then 1 + DigitRun(s[1..], radix) else 0
  }

  /** The value of a string of digits, most significant first. */
  function DigitsValue(d: string, radix: nat): (v: nat)
    requires forall k :: 0 <= k < |d| ==> IsDigit(d[k], radix)
  {
    if d == [] then 0
    else
      var init := d[..|d| - 1];
      assert forall k :: 0 <= k < |init| ==> init[k] == d[k];
      assert IsDigit(d[|d| - 1], radix);
      DigitsValue(init, radix) * radix + DigitValue(d[|d| - 1], radix)
  }

  /** The text after an optional leading sign. */
  function Unsigned(t: string): (u: string)
    ensures |u| <= |t|
  {
    if t != [] && (t[0] == '-' || t[0] == '+') then t[1..] else t
  }

  /** Whether the unsigned text starts with `0x` or `0X`, which switches to base 16. */
  predicate IsHexPrefixed(u: string) {
    |u| >= 2 && u[0] == '0' && (u[1] == 'x' || u[1] == 'X')
  }

  function RadixOf(u: string): nat {
    if IsHexPrefixed(u) then 16 else 10
  }

  /** The text where the digits start. */
  function DigitsOf(u: string): string {
    if IsHexPrefixed(u) then u[2..] else u
  }

  /** `parseInt(s)` with no radix: leading white space, an optional sign, an optional
      `0x`/`0X` that switches to base 16, then the longest run of digits; `NaN` when
      that run is empty. */
  function ParseInt(s: string): (r: Number)
    ensures (forall k :: 0 <= k < |s| ==> !IsDigit(s[k], 10)) ==> r == NaN
  {
    ParseTrimmed(TrimStart(s))
  }

  /** `parseInt` once the leading white space is gone. */
  function ParseTrimmed(t: string): Number {
    var negative := t != [] && t[0] == '-';
    var u := Unsigned(t);
    var radix := RadixOf(u);
    var digits := DigitsOf(u);
    var n := DigitRun(digits, radix);
    if n == 0 then NaN
    else
      var v: int := DigitsValue(digits[..n], radix);
      Num(if negative then -v else v)
  }

  function DigitChar(d: nat): (c: char)
    requires d < 10
    ensures IsDigit(c, 10) && DigitValue(c, 10) == d
  {
    (48 + d) as char
  }

  /** The decimal representation of `n` without leading zeros. */
  function DecimalString(n: nat): (s: string)
    ensures s != [] && forall k :: 0 <= k < |s| ==> IsDigit(s[k], 10)
  {
    if n < 10 then [DigitChar(n)] else DecimalString(n / 10) + [DigitChar(n % 10)]
  }

  /** Only the number 0 is written with a leading '0'. */
  lemma {:induction false} DecimalStringLead(n: nat)
    requires n != 0
    ensures DecimalString(n)[0] != '0'
  {
    if n >= 10 {
      DecimalStringLead(n / 10);
    }
  }

  lemma {:induction false} DecimalStringValue(n: nat)
    ensures DigitsValue(DecimalString(n), 10) == n
  {
    var s := DecimalString(n);
    if n >= 10 {
      DecimalStringValue(n / 10);
      assert s[..|s| - 1] == DecimalString(n / 10);
    }
  }

  lemma {:induction false} DigitRunAll(s: string, radix: nat)
    requires forall k :: 0 <= k < |s| ==> IsDigit(s[k], radix)
    ensures DigitRun(s, radix) == |s|
    decreases |s|
  {
    if s != [] {
      DigitRunAll(s[1..], radix);
    }
  }

  /** A decimal digit is none of the characters `parseInt` looks for before the digits. */
  lemma DecimalDigitIsPlain(c: char)
    requires IsDigit(c, 10)
    ensures !IsJsWhitespace(c) && c != '-' && c != '+' && c != 'x' && c != 'X'
  {
  }

  /** `parseInt` of a string of decimal digits with no white space, sign or `0x`
      prefix in front: their value. */
  lemma ParseIntPlain(s: string)
    requires TrimStart(s) == s && Unsigned(s) == s && DigitsOf(s) == s && RadixOf(s) == 10
    requires s != [] && s[0] != '-' && DigitRun(s, 10) == |s|
    ensures ParseInt(s) == Num(DigitsValue(s, 10))
  {
    assert s[..|s|] == s;
  }

  /** A string led by a decimal digit has no white space or sign in front. */
  lemma NoSignBeforeDigit(s: string)
    requires s != [] && IsDigit(s[0], 10)
    ensures TrimStart(s) == s && Unsigned(s) == s && s[0] != '-'
  {
    DecimalDigitIsPlain(s[0]);
  }

  /** A string of decimal digits has no `0x` prefix. */
  lemma NoHexBeforeDigit(s: string)
    requires s != [] && (|s| >= 2 ==> IsDigit(s[1], 10))
    ensures DigitsOf(s) == s && RadixOf(s) == 10
  {
    if |s| >= 2 {
      DecimalDigitIsPlain(s[1]);
    }
  }

  /** `parseInt` of a non-empty run of decimal digits is their value. */
  lemma ParseIntOfDigits(s: string)
    requires s != [] && forall k :: 0 <= k < |s| ==> IsDigit(s[k], 10)
    ensures ParseInt(s) == Num(DigitsValue(s, 10))
  {
    NoSignBeforeDigit(s);
    NoHexBeforeDigit(s);
    DigitRunAll(s, 10);
    ParseIntPlain(s);
  }

  /** `parseInt(String(n)) === n` for every non-negative integer. */
  lemma ParseIntDecimal(n: nat)
    ensures ParseInt(DecimalString(n)) == Num(n)
  {
    ParseIntOfDigits(DecimalString(n));
    DecimalStringValue(n);
  }

  /** White space in front of the number is skipped. */
  lemma {:induction false} TrimStartSkips(w: string, s: string)
    requires forall k :: 0 <= k < |w| ==> IsJsWhitespace(w[k])
    ensures TrimStart(w + s) == TrimStart(s)
    decreases |w|
  {
    if w == [] {
      assert w + s == s;
    } else {
      assert (w + s)[0] == w[0] && (w + s)[1..] == w[1..] + s;
      TrimStartSkips(w[1..], s);
    }
  }

  lemma ParseIntSkipsWhitespace(w: string, s: string)
    requires forall k :: 0 <= k < |w| ==> IsJsWhitespace(w[k])
    ensures ParseInt(w + s) == ParseInt(s)
  {
    TrimStartSkips(w, s);
  }

  /** The digit run stops at the first character that is not a digit. */
  lemma {:induction false} DigitRunPrefix(d: string, t: string, radix: nat)
    requires forall k :: 0 <= k < |d| ==> IsDigit(d[k], radix)
    requires t == [] || !IsDigit(t[0], radix)
    ensures DigitRun(d + t, radix) == |d|
    decreases |d|
  {
    if d == [] {
      assert d + t == t;
    } else {
      assert (d + t)[0] == d[0] && (d + t)[1..] == d[1..] + t;
      DigitRunPrefix(d[1..], t, radix);
    }
  }

  /** `parseInt` reads a number off the front of a text and ignores what follows once
      a character is not a digit (here one that cannot extend `0` to `0x`). */
  lemma ParseIntPrefix(n: nat, t: string)
    requires t == [] || (!IsDigit(t[0], 10) && (n != 0 || (t[0] != 'x' && t[0] != 'X')))
    ensures ParseInt(DecimalString(n) + t) == Num(n)
  {
    var d := DecimalString(n);
    var s := d + t;
    assert s[0] == d[0];
    NoSignBeforeDigit(s);
    if |d| >= 2 {
      assert s[1] == d[1];
    } else if t != [] {
      assert s[1] == t[0];
    }
    assert DigitsOf(s) == s && RadixOf(s) == 10 by {
      if |s| >= 2 {
        if |d| >= 2 {
          DecimalDigitIsPlain(s[1]);
        } else if n != 0 {
          DecimalStringLead(n);
        }
      }
    }
    DigitRunPrefix(d, t, 10);
    assert s[..|d|] == d;
    DecimalStringValue(n);
  }

  /** A leading `-` negates the value. */
  lemma ParseIntNegative(n: nat)
    ensures ParseInt("-" + DecimalString(n)) == Num(-(n as int))
  {
    var d := DecimalString(n);
    var s := "-" + d;
    assert s[1..] == d;
    MinusIsPlain(s);
    NoHexBeforeDigit(d);
    DigitRunAll(d, 10);
    ParseIntSigned(s, d);
    DecimalStringValue(n);
  }

  /** `parseInt` of `-` followed by plain decimal digits. */
  lemma ParseIntSigned(s: string, d: string)
    requires s != [] && s[0] == '-' && TrimStart(s) == s && Unsigned(s) == d
    requires d != [] && DigitsOf(d) == d && RadixOf(d) == 10 && DigitRun(d, 10) == |d|
    ensures ParseInt(s) == Num(-(DigitsValue(d, 10) as int))
  {
    assert d[..|d|] == d;
  }

  /** A leading `-` is neither white space nor part of the digits. */
  lemma MinusIsPlain(s: string)
    requires s != [] && s[0] == '-'
    ensures TrimStart(s) == s && Unsigned(s) == s[1..]
  {
  }
}
