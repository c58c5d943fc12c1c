/** The browser's `btoa` and `atob` on binary strings, written out as an RFC 4648
    section 4 codec over byte sequences. `Decode` follows the forgiving decoder that
    browsers implement: ASCII white space is dropped, up to two trailing `=` are
    dropped when the length is a multiple of four, and the final 2 or 3 characters of
    an unpadded group yield 1 or 2 bytes. */
module Base64 {
  import opened Common

  type byte = x: int | 0 <= x < 256
  type sextet = x: int | 0 <= x < 64

  predicate IsBase64Char(c: char) {
    ('A' <= c <= 'Z') || ('a' <= c <= 'z') || ('0' <= c <= '9') || c == '+' || c == '/'
  }

  predicate IsAsciiWhitespace(c: char) {
    c == '\t' || c == '\n' || c == '\U{000C}' || c == '\r' || c == ' '
  }

  /** The character of the standard alphabet ("A".."Z", "a".."z", "0".."9", "+", "/"). */
  function SextetToChar(v: sextet): (c: char)
    ensures IsBase64Char(c)
  {
    if v < 26 then (65 + v) as char
    else if v < 52 then (97 + v - 26) as char
    else if v < 62 then (48 + v - 52) as char
    else if v == 62 then '+'
    else '/'
  }

  function CharToSextet(c: char): (v: sextet)
    requires IsBase64Char(c)
    ensures SextetToChar(v) == c
  {
    if 'A' <= c <= 'Z' then c as int - 65
    else if 'a' <= c <= 'z' then c as int - 97 + 26
    else if '0' <= c <= '9' then c as int - 48 + 52
    else if c == '+' then 62
    else 63
  }

  lemma CharRoundTrip(v: sextet)
    ensures CharToSextet(SextetToChar(v)) == v
  {
  }

  predicate AllBase64(s: string) {
    forall i :: 0 <= i < |s| ==> IsBase64Char(s[i])
  }

  /** Three bytes as four characters. */
  function EncodeGroup(b0: byte, b1: byte, b2: byte): (s: string)
    ensures |s| == 4 && AllBase64(s)
  {
    [SextetToChar(b0 / 4), SextetToChar((b0 % 4) * 16 + b1 / 16),
     SextetToChar((b1 % 16) * 4 + b2 / 64), SextetToChar(b2 % 64)]
  }

  /** The `n` bytes (n = 1, 2 or 3) carried by the first n + 1 characters of a group;
      the low bits of the last character that do not fill a byte are discarded. */
  function DecodeGroup(s: string, n: nat): (b: seq<byte>)
    requires 1 <= n <= 3 && n + 1 == |s| && AllBase64(s)
    ensures |b| == n
  {
    var v0, v1 := CharToSextet(s[0]), CharToSextet(s[1]);
    var v2 := if n >= 2 then CharToSextet(s[2]) else 0;
    var v3 := if n >= 3 then CharToSextet(s[3]) else 0;
    [v0 * 4 + v1 / 16, (v1 % 16) * 16 + v2 / 4, (v2 % 4) * 64 + v3][..n]
  }

  /** The number of alphabet characters for `n` bytes: four per full group, and two
      or three for a final group of one or two bytes. */
  function UnpaddedLength(n: nat): nat
    decreases n
  {
    if n < 3 then (if n == 0 then 0 else n + 1) else 4 + UnpaddedLength(n - 3)
  }

  /** The alphabet characters of the encoding, without `=` padding: the last group of
      one or two bytes produces two or three characters. */
  function EncodeUnpadded(b: seq<byte>): (s: string)
    ensures AllBase64(s)
    ensures |s| == UnpaddedLength(|b|)
    decreases |b|
  {
    if |b| == 0 then ""
    else if |b| == 1 then EncodeGroup(b[0], 0, 0)[..2]
    else if |b| == 2 then EncodeGroup(b[0], b[1], 0)[..3]
    else EncodeGroup(b[0], b[1], b[2]) + EncodeUnpadded(b[3..])
  }

  function Padding(n: nat): string {
    if n % 3 == 1 then "==" else if n % 3 == 2 then "=" else ""
  }

  /** 4·⌈n/3⌉: the length `btoa` gives `n` bytes. */
  function EncodedLength(n: nat): nat {
    4 * ((n + 2) / 3)
  }

  /** The unpadded length is 0, 2 or 3 modulo four as `n` is 0, 1 or 2 modulo three,
      and the padding fills it up to the encoded length. */
  lemma UnpaddedLengthMod(n: nat)
    ensures UnpaddedLength(n) % 4 == (if n % 3 == 0 then 0 else n % 3 + 1)
    ensures UnpaddedLength(n) + |Padding(n)| == EncodedLength(n)
  {
    var q, r := n / 3, n % 3;
    assert n == 3 * q + r;
    UnpaddedLengthGroups(q, r);
    var c := if r == 0 then 0 else r + 1;
    assert UnpaddedLength(n) == 4 * q + c;
    assert (4 * q + c) % 4 == c;
    assert (n + 2) / 3 == if r == 0 then q else q + 1;
  }

  /** `q` full groups and `r` bytes left over take `4q` characters and two or three
      more when `r` is not zero. */
  lemma {:induction false} UnpaddedLengthGroups(q: nat, r: nat)
    requires r < 3
    ensures UnpaddedLength(3 * q + r) == 4 * q + (if r == 0 then 0 else r + 1)
    decreases q
  {
    if q > 0 {
      UnpaddedLengthGroups(q - 1, r);
      assert 3 * q + r - 3 == 3 * (q - 1) + r;
    }
  }

  /** `btoa` of the binary string whose character codes are `b`. */
  function Encode(b: seq<byte>): (s: string)
    ensures |s| == EncodedLength(|b|)
  {
    UnpaddedLengthMod(|b|);
    EncodeUnpadded(b) + Padding(|b|)
  }

  function StripWhitespace(s: string): (r: string)
    ensures forall i :: 0 <= i < |r| ==> !IsAsciiWhitespace(r[i])
  {
    if s == [] then ""
    else (if IsAsciiWhitespace(s[0]) then "" else [s[0]]) + StripWhitespace(s[1..])
  }

  /** Drops one or two trailing `=`. */
  function StripPadding(s: string): string {
    if |s| >= 2 && s[|s| - 2..] == "==" then s[..|s| - 2]
    else if |s| >= 1 && s[|s| - 1] == '=' then s[..|s| - 1]
    else s
  }

  function DecodeUnpadded(s: string): (b: seq<byte>)
    requires AllBase64(s)
    decreases |s|
  {
    if |s| < 2 then []
    else if |s| < 4 then DecodeGroup(s, |s| - 1)
    else DecodeGroup(s[..4], 3) + DecodeUnpadded(s[4..])
  }

  /** `atob(s)`: `None` where the browser throws `InvalidCharacterError`. */
  function Decode(s: string): (r: Option<seq<byte>>)
  {
    var d := StripWhitespace(s);
    var e := if |d| % 4 == 0 then StripPadding(d) else d;
    if |e| % 4 == 1 || !AllBase64(e) then None else Some(DecodeUnpadded(e))
  }

  lemma {:induction false} StripWhitespaceNone(s: string)
    requires forall i :: 0 <= i < |s| ==> !IsAsciiWhitespace(s[i])
    ensures StripWhitespace(s) == s
    decreases |s|
  {
    if s != [] {
      StripWhitespaceNone(s[1..]);
      assert s == [s[0]] + s[1..];
    }
  }

  /** One group decodes back to the bytes it encodes. */
  lemma GroupRoundTrip(b0: byte, b1: byte, b2: byte, n: nat)
    requires 1 <= n <= 3
    ensures DecodeGroup(EncodeGroup(b0, b1, b2)[..n + 1], n) == [b0, b1, b2][..n]
  {
    var v0, v1, v2, v3 := b0 / 4, (b0 % 4) * 16 + b1 / 16, (b1 % 16) * 4 + b2 / 64, b2 % 64;
    var s := EncodeGroup(b0, b1, b2);
    assert s == [SextetToChar(v0), SextetToChar(v1), SextetToChar(v2), SextetToChar(v3)];
    CharRoundTrip(v0);
    CharRoundTrip(v1);
    CharRoundTrip(v2);
    CharRoundTrip(v3);
    SextetsRejoin(b0, b1, b2);
  }

  /** The arithmetic of one group: the four sextets put the three bytes back together. */
  lemma SextetsRejoin(b0: byte, b1: byte, b2: byte)
    ensures (b0 / 4) * 4 + ((b0 % 4) * 16 + b1 / 16) / 16 == b0
    ensures (((b0 % 4) * 16 + b1 / 16) % 16) * 16 + ((b1 % 16) * 4 + b2 / 64) / 4 == b1
    ensures (((b1 % 16) * 4 + b2 / 64) % 4) * 64 + b2 % 64 == b2
  {
    var h0, l0 := b0 / 4, b0 % 4;
    var h1, l1 := b1 / 16, b1 % 16;
    var h2, l2 := b2 / 64, b2 % 64;
    assert (l0 * 16 + h1) / 16 == l0 && (l0 * 16 + h1) % 16 == h1;
    assert (l1 * 4 + h2) / 4 == l1 && (l1 * 4 + h2) % 4 == h2;
  }

  lemma {:induction false} UnpaddedRoundTrip(b: seq<byte>)
    ensures DecodeUnpadded(EncodeUnpadded(b)) == b
    decreases |b|
  {
    if |b| == 1 {
      GroupRoundTrip(b[0], 0, 0, 1);
      assert [b[0], 0, 0][..1] == b;
    } else if |b| == 2 {
      GroupRoundTrip(b[0], b[1], 0, 2);
      assert [b[0], b[1], 0][..2] == b;
    } else if |b| >= 3 {
      var g := EncodeGroup(b[0], b[1], b[2]);
      var rest := EncodeUnpadded(b[3..]);
      assert EncodeUnpadded(b) == g + rest;
      UnpaddedStep(g, rest);
      GroupRoundTrip(b[0], b[1], b[2], 3);
      assert g[..4] == g;
      assert DecodeGroup(g, 3) == [b[0], b[1], b[2]];
      UnpaddedRoundTrip(b[3..]);
      SplitFront(b);
    }
  }

  lemma SplitFront<T>(b: seq<T>)
    requires |b| >= 3
    ensures b == [b[0], b[1], b[2]] + b[3..]
  {
  }

  /** A full group in front is decoded on its own. */
  lemma UnpaddedStep(g: string, rest: string)
    requires |g| == 4 && AllBase64(g) && AllBase64(rest)
    ensures AllBase64(g + rest)
    ensures DecodeUnpadded(g + rest) == DecodeGroup(g, 3) + DecodeUnpadded(rest)
  {
    var s := g + rest;
    assert s[..4] == g && s[4..] == rest;
  }

  /** Removing the padding of an encoding leaves its alphabet characters. */
  lemma StripPaddingOfEncode(b: seq<byte>)
    ensures StripPadding(Encode(b)) == EncodeUnpadded(b)
  {
    var u := EncodeUnpadded(b);
    var s := Encode(b);
    if |b| % 3 == 1 {
      assert s[..|s| - 2] == u;
    } else if |b| % 3 == 2 {
      assert s[..|s| - 1] == u;
      assert |u| > 0 && IsBase64Char(u[|u| - 1]);
      assert s[|s| - 2..] != "==" by { assert s[|s| - 2] == u[|u| - 1]; }
    } else {
      assert s == u;
      assert |s| > 0 ==> IsBase64Char(s[|s| - 1]);
    }
  }

  lemma EncodedLengthGroups(n: nat)
    ensures EncodedLength(n) % 4 == 0
  {
    var k := (n + 2) / 3;
    assert EncodedLength(n) == 4 * k;
  }

  /** An encoding has no white space for `atob` to drop. */
  lemma EncodeNoWhitespace(b: seq<byte>)
    ensures StripWhitespace(Encode(b)) == Encode(b)
  {
    EncodeAlphabet(b);
    StripWhitespaceNone(Encode(b));
  }

  /** `atob` of text without white space whose padding is well placed. */
  lemma DecodeClean(s: string, u: string)
    requires StripWhitespace(s) == s && |s| % 4 == 0 && StripPadding(s) == u
    requires AllBase64(u) && |u| % 4 != 1
    ensures Decode(s) == Some(DecodeUnpadded(u))
  {
  }

  /** `atob(btoa(x)) == x`. */
  lemma {:induction false} RoundTrip(b: seq<byte>)
    ensures Decode(Encode(b)) == Some(b)
  {
    UnpaddedLengthMod(|b|);
    EncodedLengthGroups(|b|);
    EncodeNoWhitespace(b);
    StripPaddingOfEncode(b);
    DecodeClean(Encode(b), EncodeUnpadded(b));
    UnpaddedRoundTrip(b);
  }

  /** Every encoding uses only the alphabet and trailing `=` padding. */
  lemma EncodeAlphabet(b: seq<byte>)
    ensures forall i :: 0 <= i < |Encode(b)| ==> IsBase64Char(Encode(b)[i]) || Encode(b)[i] == '='
  {
  }

  lemma {:induction false} StripWhitespaceAppend(a: string, b: string)
    ensures StripWhitespace(a + b) == StripWhitespace(a) + StripWhitespace(b)
    decreases |a|
  {
    if a == [] {
      assert a + b == b;
    } else {
      assert (a + b)[0] == a[0] && (a + b)[1..] == a[1..] + b;
      StripWhitespaceAppend(a[1..], b);
    }
  }

  lemma {:induction false} StripWhitespaceBlank(w: string)
    requires forall k :: 0 <= k < |w| ==> IsAsciiWhitespace(w[k])
    ensures StripWhitespace(w) == ""
    decreases |w|
  {
    if w != [] {
      StripWhitespaceBlank(w[1..]);
    }
  }

  /** White space inserted anywhere does not change what `atob` returns, error or not. */
  lemma DecodeIgnoresWhitespace(a: string, w: string, b: string)
    requires forall k :: 0 <= k < |w| ==> IsAsciiWhitespace(w[k])
    ensures Decode(a + w + b) == Decode(a + b)
  {
    StripWhitespaceAppend(a + w, b);
    StripWhitespaceAppend(a, w);
    StripWhitespaceBlank(w);
    StripWhitespaceAppend(a, b);
    assert StripWhitespace(a + w + b) == StripWhitespace(a + b);
  }

  /** A character that is not white space survives its removal. */
  lemma {:induction false} StripWhitespaceKeeps(s: string, i: nat)
    requires i < |s| && !IsAsciiWhitespace(s[i])
    ensures s[i] in StripWhitespace(s)
    decreases |s|
  {
    if i > 0 {
      StripWhitespaceKeeps(s[1..], i - 1);
      assert s[1..][i - 1] == s[i];
    }
  }

  /** Dropping the padding only drops `=` characters. */
  lemma StripPaddingKeeps(d: string, c: char)
    requires c in d && c != '='
    ensures c in StripPadding(d)
  {
    var k :| 0 <= k < |d| && d[k] == c;
    if |d| >= 2 && d[|d| - 2..] == "==" {
      assert d[|d| - 2..][0] == d[|d| - 2] && d[|d| - 2..][1] == d[|d| - 1];
      assert StripPadding(d)[k] == c;
    } else if |d| >= 1 && d[|d| - 1] == '=' {
      assert StripPadding(d)[k] == c;
    }
  }

  /** A character outside the alphabet, `=` and white space makes `atob` throw. */
  lemma DecodeRejectsForeign(s: string, i: nat)
    requires i < |s| && !IsBase64Char(s[i]) && s[i] != '=' && !IsAsciiWhitespace(s[i])
    ensures Decode(s) == None
  {
    var d := StripWhitespace(s);
    StripWhitespaceKeeps(s, i);
    var e := if |d| % 4 == 0 then StripPadding(d) else d;
    if |d| % 4 == 0 {
      StripPaddingKeeps(d, s[i]);
    }
    var k :| 0 <= k < |e| && e[k] == s[i];
    assert !AllBase64(e);
  }
}
