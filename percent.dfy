/** Percent-decoding as `urllib.parse.unquote(s)` does it with its defaults
    (UTF-8, errors='replace'), following section 2.1 of RFC 3986.

    A string without '%' is returned as it is. Otherwise every maximal run of
    ASCII characters is turned into bytes ("%XX" with two hex digits of either
    case becomes that byte, anything else, including a stray '%', stays) and the
    bytes are decoded as UTF-8, each ill-formed part becoming U+FFFD; characters
    outside ASCII are copied unchanged. A '+' is an ordinary character: it is
    not turned into a space. */
module Percent {

  type Byte = b: int | 0 <= b < 256

  predicate IsAscii(c: char) {
    c as int < 128
  }

  predicate AllAscii(s: string) {
    forall i :: 0 <= i < |s| ==> IsAscii(s[i])
  }

  predicate IsHex(c: char) {
    '0' <= c <= '9' || 'a' <= c <= 'f' || 'A' <= c <= 'F'
  }

  function HexValue(c: char): (v: nat)
    requires IsHex(c)
    ensures v < 16
  {
    if '0' <= c <= '9' then c as int - '0' as int
    else if 'a' <= c <= 'f' then c as int - 'a' as int + 10
    else c as int - 'A' as int + 10
  }

  /** `unquote_to_bytes` on a run of ASCII characters. */
  function PercentBytes(s: string): seq<Byte>
    requires AllAscii(s)
    decreases |s|
  {
    if s == [] then []
    else if s[0] == '%' && |s| >= 3 && IsHex(s[1]) && IsHex(s[2]) then
      [HexValue(s[1]) * 16 + HexValue(s[2])] + PercentBytes(s[3..])
    else
      [s[0] as int] + PercentBytes(s[1..])
  }

  // ---------------------------------------------------------------- UTF-8

  /** How many bytes a UTF-8 sequence with this lead byte has; 0 when the byte cannot lead one. */
  function SequenceLength(lead: Byte): nat {
    if lead < 0x80 then 1
    else if 0xC2 <= lead <= 0xDF then 2
    else if 0xE0 <= lead <= 0xEF then 3
    else if 0xF0 <= lead <= 0xF4 then 4
    else 0
  }

  /** Whether `b` may stand at position `k` (1 to 3) of a sequence led by `lead`:
      the second byte's range excludes overlong forms, surrogates and values past U+10FFFF. */
  predicate ContinuationOk(lead: Byte, k: nat, b: Byte) {
    if k == 1 && lead == 0xE0 then 0xA0 <= b <= 0xBF
    else if k == 1 && lead == 0xED then 0x80 <= b <= 0x9F
    else if k == 1 && lead == 0xF0 then 0x90 <= b <= 0xBF
    else if k == 1 && lead == 0xF4 then 0x80 <= b <= 0x8F
    else 0x80 <= b <= 0xBF
  }

  /** The first position from `k` on (below `n`) whose byte is missing or not an
      acceptable continuation, or `n` when there is none. */
  function ContinuationEnd(b: seq<Byte>, n: nat, k: nat): (e: nat)
    requires 1 <= k <= n && k <= |b|
    ensures k <= e <= n && e <= |b|
    ensures forall j :: k <= j < e ==> j < |b| && ContinuationOk(b[0], j, b[j])
    ensures e < n ==> e >= |b| || !ContinuationOk(b[0], e, b[e])
    decreases n - k
  {
    if k == n || k >= |b| || !ContinuationOk(b[0], k, b[k]) then k else ContinuationEnd(b, n, k + 1)
  }

  const Replacement: char := '\U{FFFD}'

  /** The scalar value of the complete, well-formed sequence of `n` bytes at the front of `b`. */
  function SequenceChar(b: seq<Byte>, n: nat): char
    requires 2 <= n <= 4 && |b| >= n && n == SequenceLength(b[0])
    requires forall j :: 1 <= j < n ==> ContinuationOk(b[0], j, b[j])
  {
    assert ContinuationOk(b[0], 1, b[1]);
    if n == 2 then
      ((b[0] as int - 0xC0) * 64 + (b[1] as int - 0x80)) as char
    else if n == 3 then
      assert ContinuationOk(b[0], 2, b[2]);
      ((b[0] as int - 0xE0) * 4096 + (b[1] as int - 0x80) * 64 + (b[2] as int - 0x80)) as char
    else
      assert ContinuationOk(b[0], 2, b[2]) && ContinuationOk(b[0], 3, b[3]);
      ((b[0] as int - 0xF0) * 262144 + (b[1] as int - 0x80) * 4096 + (b[2] as int - 0x80) * 64 + (b[3] as int - 0x80)) as char
  }

  /** The character at the front of `b` and the number of bytes it takes. An
      ill-formed part (a byte that cannot lead, or a lead followed by fewer
      acceptable continuations than it needs) becomes one U+FFFD covering the
      lead and the acceptable continuations after it (its maximal subpart). */
  function DecodeStep(b: seq<Byte>): (r: (char, nat))
    requires |b| > 0
    ensures 1 <= r.1 <= |b|
  {
    var n := SequenceLength(b[0]);
    if n == 0 then (Replacement, 1)
    else if n == 1 then (b[0] as char, 1)
    else
      var e := ContinuationEnd(b, n, 1);
      if e == n then (SequenceChar(b, n), n) else (Replacement, e)
  }

  /** `bytes.decode("utf-8", "replace")`. */
  function Utf8Decode(b: seq<Byte>): string
    decreases |b|
  {
    if b == [] then ""
    else
      var step := DecodeStep(b);
      [step.0] + Utf8Decode(b[step.1..])
  }

  // ---------------------------------------------------------------- unquote

  /** The length of the maximal run of ASCII characters at the front of `s`. */
  function AsciiPrefixLength(s: string): (n: nat)
    ensures n <= |s|
    ensures forall i :: 0 <= i < n ==> IsAscii(s[i])
    ensures n < |s| ==> !IsAscii(s[n])
  {
    if s == [] || !IsAscii(s[0]) then 0 else 1 + AsciiPrefixLength(s[1..])
  }

  /** The decoding loop of `unquote`: ASCII runs are percent-decoded and read as
      UTF-8, other characters are copied. */
  function UnquoteParts(s: string): string
    decreases |s|
  {
    if s == [] then ""
    else if IsAscii(s[0]) then
      var n := AsciiPrefixLength(s);
      Utf8Decode(PercentBytes(s[..n])) + UnquoteParts(s[n..])
    else [s[0]] + UnquoteParts(s[1..])
  }

  /** `urllib.parse.unquote(s)`. */
  function Unquote(s: string): (r: string)
    ensures '%' !in s ==> r == s
  {
    if '%' !in s then s else UnquoteParts(s)
  }

  // ---------------------------------------------------------------- partner: the encoder

  /** The UTF-8 encoding of one scalar value. */
  function Utf8Encode(c: char): (r: seq<Byte>)
    ensures 1 <= |r| <= 4
  {
    var cp := c as int;
    if cp < 0x80 then [cp]
    else if cp < 0x800 then [0xC0 + cp / 64, 0x80 + cp % 64]
    else if cp < 0x10000 then [0xE0 + cp / 4096, 0x80 + cp / 64 % 64, 0x80 + cp % 64]
    else [0xF0 + cp / 262144, 0x80 + cp / 4096 % 64, 0x80 + cp / 64 % 64, 0x80 + cp % 64]
  }

  function EncodeString(s: string): seq<Byte> {
    if s == [] then [] else Utf8Encode(s[0]) + EncodeString(s[1..])
  }

  function HexDigit(d: nat): (c: char)
    requires d < 16
    ensures IsHex(c) && HexValue(c) == d && IsAscii(c)
  {
    if d < 10 then ('0' as int + d) as char else ('A' as int + d - 10) as char
  }

  /** Every byte written as "%XX". */
  function EscapeBytes(b: seq<Byte>): (r: string)
    ensures AllAscii(r)
    ensures |r| == 3 * |b|
    ensures b != [] ==> r[0] == '%'
  {
    if b == [] then ""
    else
      var r := ['%', HexDigit(b[0] / 16), HexDigit(b[0] % 16)] + EscapeBytes(b[1..]);
      assert forall i | 3 <= i < |r| :: r[i] == EscapeBytes(b[1..])[i - 3];
      r
  }

  /** A reference percent-encoder (every character escaped as its UTF-8 bytes); the inverse of Unquote. */
  function Quote(s: string): string {
    EscapeBytes(EncodeString(s))
  }

  lemma {:induction false} PercentBytesOfEscaped(b: seq<Byte>)
    ensures PercentBytes(EscapeBytes(b)) == b
  {
    if b != [] {
      var e := EscapeBytes(b);
      assert e[3..] == EscapeBytes(b[1..]);
      assert HexValue(e[1]) * 16 + HexValue(e[2]) == b[0];
      PercentBytesOfEscaped(b[1..]);
    }
  }

  /** Decoding the encoding of one character yields it back and consumes exactly its bytes. */
  lemma DecodeOfEncoded(c: char, rest: seq<Byte>)
    ensures DecodeStep(Utf8Encode(c) + rest) == (c, |Utf8Encode(c)|)
  {
    var cp := c as int;
    if cp < 0x80 {
    } else if cp < 0x800 {
      DecodeOfEncoded2(c, rest);
    } else if cp < 0x10000 {
      DecodeOfEncoded3(c, rest);
    } else {
      DecodeOfEncoded4(c, rest);
    }
  }

  lemma DecodeOfEncoded2(c: char, rest: seq<Byte>)
    requires 0x80 <= c as int < 0x800
    ensures DecodeStep(Utf8Encode(c) + rest) == (c, 2)
  {
    var cp := c as int;
    var b := Utf8Encode(c) + rest;
    assert b[0] == 0xC0 + cp / 64 && b[1] == 0x80 + cp % 64;
    assert SequenceLength(b[0]) == 2;
    assert ContinuationOk(b[0], 1, b[1]);
    assert ContinuationEnd(b, 2, 1) == 2;
  }

  lemma DecodeOfEncoded3(c: char, rest: seq<Byte>)
    requires 0x800 <= c as int < 0x10000
    ensures DecodeStep(Utf8Encode(c) + rest) == (c, 3)
  {
    var cp := c as int;
    var b := Utf8Encode(c) + rest;
    var b0, b1, b2 := 0xE0 + cp / 4096, 0x80 + cp / 64 % 64, 0x80 + cp % 64;
    assert b[0] == b0 && b[1] == b1 && b[2] == b2;
    SplitSix(cp);
    assert SequenceLength(b0) == 3;
    assert ContinuationOk(b0, 1, b1);
    assert ContinuationOk(b0, 2, b2);
    assert ContinuationEnd(b, 3, 1) == 3;
    assert (b0 - 0xE0) * 4096 + (b1 - 0x80) * 64 + (b2 - 0x80) == cp;
  }

  lemma DecodeOfEncoded4(c: char, rest: seq<Byte>)
    requires 0x10000 <= c as int
    ensures DecodeStep(Utf8Encode(c) + rest) == (c, 4)
  {
    var cp := c as int;
    var b := Utf8Encode(c) + rest;
    var b0, b1, b2, b3 := 0xF0 + cp / 262144, 0x80 + cp / 4096 % 64, 0x80 + cp / 64 % 64, 0x80 + cp % 64;
    assert b[0] == b0 && b[1] == b1 && b[2] == b2 && b[3] == b3;
    SplitSix(cp);
    SplitSix(cp / 64);
    assert cp / 262144 == cp / 64 / 4096;
    assert SequenceLength(b0) == 4;
    assert ContinuationOk(b0, 1, b1);
    assert ContinuationOk(b0, 2, b2) && ContinuationOk(b0, 3, b3);
    assert ContinuationEnd(b, 4, 1) == 4;
    assert (b0 - 0xF0) * 262144 + (b1 - 0x80) * 4096 + (b2 - 0x80) * 64 + (b3 - 0x80) == cp;
  }

  lemma SplitSix(x: nat)
    ensures x == (x / 4096) * 4096 + (x / 64 % 64) * 64 + x % 64
    ensures x / 4096 == x / 64 / 64
  {
    var q := x / 64;
    assert x == q * 64 + x % 64;
    assert q == (q / 64) * 64 + q % 64;
    assert x / 4096 == q / 64;
  }

  lemma {:induction false} DecodeOfEncodeString(s: string)
    ensures Utf8Decode(EncodeString(s)) == s
  {
    if s != [] {
      var e := Utf8Encode(s[0]);
      var rest := EncodeString(s[1..]);
      DecodeOfEncoded(s[0], rest);
      assert (e + rest)[|e|..] == rest;
      DecodeOfEncodeString(s[1..]);
    }
  }

  /** Unquote undoes Quote: percent-decoding the escaped UTF-8 bytes of a text gives the text back. */
  lemma UnquoteOfQuote(s: string)
    ensures Unquote(Quote(s)) == s
  {
    var q := Quote(s);
    if s != [] {
      assert EncodeString(s) != [];
      assert q[0] == '%' && q[0] in q;
      AsciiPrefixOfAscii(q);
      assert q[..|q|] == q && q[|q|..] == [];
      assert Unquote(q) == Utf8Decode(PercentBytes(q)) + UnquoteParts([]);
      PercentBytesOfEscaped(EncodeString(s));
      DecodeOfEncodeString(s);
    }
  }

  lemma {:induction false} AsciiPrefixOfAscii(s: string)
    requires AllAscii(s)
    ensures AsciiPrefixLength(s) == |s|
  {
    if s != [] {
      AsciiPrefixOfAscii(s[1..]);
    }
  }

  // ---------------------------------------------------------------- the shortcut agrees

  /** Text without '%' comes through the general decoding loop unchanged, so the
      shortcut at the top of Unquote agrees with it. */
  lemma {:induction false} UnquotePartsWithoutPercent(s: string)
    requires '%' !in s
    ensures UnquoteParts(s) == s
    decreases |s|
  {
    if s != [] {
      if IsAscii(s[0]) {
        var n := AsciiPrefixLength(s);
        var a := s[..n];
        AsciiRunDecodes(a);
        UnquotePartsWithoutPercent(s[n..]);
        assert a + s[n..] == s;
      } else {
        UnquotePartsWithoutPercent(s[1..]);
      }
    }
  }

  lemma {:induction false} AsciiRunDecodes(a: string)
    requires AllAscii(a) && '%' !in a
    ensures Utf8Decode(PercentBytes(a)) == a
    decreases |a|
  {
    if a != [] {
      var b := PercentBytes(a);
      assert b == [a[0] as int] + PercentBytes(a[1..]);
      assert DecodeStep(b) == (a[0], 1);
      assert b[1..] == PercentBytes(a[1..]);
      AsciiRunDecodes(a[1..]);
    }
  }
}
