/** UTF-8 (RFC 3629): the bytes of a string, as the hasher sees them. */
module Utf8 {
  import opened Base

  function EncodeChar(c: char): (b: Bytes)
    ensures |b| > 0
  {
    var n := c as int;
    if n < 0x80 then [n as byte]
    else if n < 0x800 then [(0xC0 + n / 64) as byte, (0x80 + n % 64) as byte]
    else if n < 0x10000 then [(0xE0 + n / 4096) as byte, (0x80 + n / 64 % 64) as byte, (0x80 + n % 64) as byte]
    else [(0xF0 + n / 262144) as byte, (0x80 + n / 4096 % 64) as byte, (0x80 + n / 64 % 64) as byte, (0x80 + n % 64) as byte]
  }

  function Encode(s: string): Bytes {
    if s == [] then [] else EncodeChar(s[0]) + Encode(s[1..])
  }

  predicate NulFree(s: string) {
    forall i :: 0 <= i < |s| ==> s[i] != '\0'
  }

  predicate NoZero(b: Bytes) {
    forall i :: 0 <= i < |b| ==> b[i] != 0
  }

  /** The code point that the bytes of one character stand for. */
  function DecodeChar(b: Bytes): int {
    if |b| == 1 then b[0] as int
    else if |b| == 2 then (b[0] as int - 0xC0) * 64 + (b[1] as int - 0x80)
    else if |b| == 3 then (b[0] as int - 0xE0) * 4096 + (b[1] as int - 0x80) * 64 + (b[2] as int - 0x80)
    else if |b| == 4 then
      (b[0] as int - 0xF0) * 262144 + (b[1] as int - 0x80) * 4096 + (b[2] as int - 0x80) * 64 + (b[3] as int - 0x80)
    else 0
  }

  lemma SixBitDigits(n: nat)
    ensures n == n / 64 * 64 + n % 64
    ensures n / 64 == n / 4096 * 64 + n / 64 % 64
    ensures n / 4096 == n / 262144 * 64 + n / 4096 % 64
  {
  }

  /** No two characters share their bytes. */
  lemma CharRoundTrip(c: char)
    ensures DecodeChar(EncodeChar(c)) == c as int
  {
    SixBitDigits(c as int);
  }

  /** The first byte tells the width. */
  function Width(lead: byte): nat {
    if lead < 0xC0 then 1 else if lead < 0xE0 then 2 else if lead < 0xF0 then 3 else 4
  }

  lemma CharWidth(c: char)
    ensures |EncodeChar(c)| == Width(EncodeChar(c)[0])
  {
  }

  /** Different strings have different bytes. */
  lemma {:induction false} EncodeInjective(s: string, t: string)
    requires Encode(s) == Encode(t)
    ensures s == t
  {
    hide EncodeChar, DecodeChar, Width;
    assert s != [] ==> Encode(s) != [];
    assert t != [] ==> Encode(t) != [];
    if s != [] {
      assert Encode(s)[0] == EncodeChar(s[0])[0];
      assert Encode(t)[0] == EncodeChar(t[0])[0];
      CharWidth(s[0]);
      CharWidth(t[0]);
      var n := |EncodeChar(s[0])|;
      assert EncodeChar(s[0]) == Encode(s)[..n] && EncodeChar(t[0]) == Encode(t)[..n];
      assert Encode(s[1..]) == Encode(s)[n..] && Encode(t[1..]) == Encode(t)[n..];
      CharRoundTrip(s[0]);
      CharRoundTrip(t[0]);
      EncodeInjective(s[1..], t[1..]);
      assert s == [s[0]] + s[1..] && t == [t[0]] + t[1..];
    }
  }

  /** Only NUL itself has a zero byte. */
  lemma {:induction false} EncodeNoZero(s: string)
    requires NulFree(s)
    ensures NoZero(Encode(s))
  {
    if s != [] {
      EncodeNoZero(s[1..]);
      assert s[0] as int != 0;
    }
  }
}
