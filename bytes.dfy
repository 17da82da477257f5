/** Byte strings: lowercase hex encoding (the `hex` crate's `encode`) and the
    UTF-8 bytes of a string (Rust's `str::as_bytes`). */
module Bytes {

  type byte = x: int | 0 <= x < 256

  predicate IsLowerHex(c: char) {
    '0' <= c <= '9' || 'a' <= c <= 'f'
  }

  /** The lowercase hex digit of a nibble. */
  function HexDigit(v: int): (c: char)
    requires 0 <= v < 16
    ensures IsLowerHex(c)
  {
    if v < 10 then ('0' as int + v) as char else ('a' as int + v - 10) as char
  }

  function HexValue(c: char): (v: int)
    requires IsLowerHex(c)
    ensures 0 <= v < 16 && HexDigit(v) == c
  {
    if c <= '9' then c as int - '0' as int else c as int - 'a' as int + 10
  }

  /** Two lowercase hex digits per byte, high nibble first. */
  function HexEncode(b: seq<byte>): (s: string)
    ensures |s| == 2 * |b|
    ensures forall i :: 0 <= i < |s| ==> IsLowerHex(s[i])
  {
    if b == [] then [] else [HexDigit(b[0] / 16), HexDigit(b[0] % 16)] + HexEncode(b[1..])
  }

  function HexDecode(s: string): seq<byte>
    requires |s| % 2 == 0
    requires forall i :: 0 <= i < |s| ==> IsLowerHex(s[i])
  {
    if s == [] then [] else [HexValue(s[0]) * 16 + HexValue(s[1])] + HexDecode(s[2..])
  }

  lemma {:induction false} HexRoundTrip(b: seq<byte>)
    ensures HexDecode(HexEncode(b)) == b
  {
    if b != [] {
      var s := HexEncode(b);
      assert s[2..] == HexEncode(b[1..]);
      HexRoundTrip(b[1..]);
    }
  }

  /** Distinct byte strings have distinct hex forms. */
  lemma HexInjective(a: seq<byte>, b: seq<byte>)
    ensures HexEncode(a) == HexEncode(b) ==> a == b
  {
    HexRoundTrip(a);
    HexRoundTrip(b);
  }

  /** The UTF-8 encoding of one Unicode scalar value. */
  function Utf8Char(c: char): (b: seq<byte>)
    ensures 1 <= |b| <= 4
    ensures (c as int < 128) == (|b| == 1)
  {
    var v := c as int;
    if v < 0x80 then [v]
    else if v < 0x800 then [0xC0 + v / 0x40, 0x80 + v % 0x40]
    else if v < 0x10000 then [0xE0 + v / 0x1000, 0x80 + (v / 0x40) % 0x40, 0x80 + v % 0x40]
    else [0xF0 + v / 0x40000, 0x80 + (v / 0x1000) % 0x40, 0x80 + (v / 0x40) % 0x40, 0x80 + v % 0x40]
  }

  function Utf8(s: string): seq<byte> {
    if s == [] then [] else Utf8Char(s[0]) + Utf8(s[1..])
  }

  predicate IsAscii(s: string) {
    forall i :: 0 <= i < |s| ==> s[i] as int < 128
  }

  lemma {:induction false} Utf8Append(a: string, b: string)
    ensures Utf8(a + b) == Utf8(a) + Utf8(b)
    decreases |a|
  {
    if a != [] {
      assert (a + b)[0] == a[0] && (a + b)[1..] == a[1..] + b;
      Utf8Append(a[1..], b);
      calc {
        Utf8(a + b);
        Utf8Char(a[0]) + Utf8(a[1..] + b);
        Utf8Char(a[0]) + (Utf8(a[1..]) + Utf8(b));
        (Utf8Char(a[0]) + Utf8(a[1..])) + Utf8(b);
      }
    } else {
      assert a + b == b;
    }
  }

  /** An ASCII string's bytes are its character codes, one byte per character. */
  lemma {:induction false} Utf8OfAscii(s: string)
    requires IsAscii(s)
    ensures |Utf8(s)| == |s|
    ensures forall i :: 0 <= i < |s| ==> Utf8(s)[i] == s[i] as int
    decreases |s|
  {
    if s != [] {
      Utf8OfAscii(s[1..]);
    }
  }
}
