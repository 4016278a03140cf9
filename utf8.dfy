/**
  UTF-8, as Node's `Buffer.from(string)` and `buffer.toString()` use it:
  a string is encoded to bytes before it is base64-encoded, and decoded bytes
  are turned back into a string before the credentials are split out of them.
 */
module Utf8 {

  type Byte = x: int | 0 <= x < 256

  predicate IsScalar(n: int) {
    (0 <= n < 0xD800) || (0xE000 <= n < 0x11_0000)
  }

  lemma CharIsScalar(c: char)
    ensures IsScalar(c as int)
  {
  }

  /** The one to four bytes of one character. */
  function EncodeChar(c: char): (r: seq<Byte>)
    ensures 1 <= |r| <= 4
  {
    CharIsScalar(c);
    var n := c as int;
    if n < 0x80 then [n]
    else if n < 0x800 then [0xC0 + n / 64, 0x80 + n % 64]
    else if n < 0x1_0000 then [0xE0 + n / 4096, 0x80 + (n / 64) % 64, 0x80 + n % 64]
    else [0xF0 + n / 262144, 0x80 + (n / 4096) % 64, 0x80 + (n / 64) % 64, 0x80 + n % 64]
  }

  /** `Buffer.from(s)` */
  function Encode(s: string): seq<Byte>
  {
    if s == [] then [] else EncodeChar(s[0]) + Encode(s[1..])
  }

  predicate IsCont(b: Byte) {
    0x80 <= b < 0xC0
  }

  const Replacement: char := '\U{FFFD}'

  /**
    Decodes the character at the head of a non-empty byte sequence and says how many
    bytes it took. A byte that does not start a well-formed sequence decodes to U+FFFD
    and is consumed alone.
   */
  function DecodeOne(b: seq<Byte>): (r: (char, nat))
    requires |b| >= 1
    ensures 1 <= r.1 <= |b|
  {
    var b0: int := b[0];
    if b0 < 0x80 then (b0 as char, 1)
    else if 0xC2 <= b0 < 0xE0 && |b| >= 2 && IsCont(b[1]) then
      (((b0 - 0xC0) * 64 + (b[1] as int - 0x80)) as char, 2)
    else if 0xE0 <= b0 < 0xF0 && |b| >= 3 && IsCont(b[1]) && IsCont(b[2])
      && (b0 != 0xE0 || b[1] >= 0xA0) && (b0 != 0xED || b[1] < 0xA0) then
      var n := (b0 - 0xE0) * 4096 + (b[1] as int - 0x80) * 64 + (b[2] as int - 0x80);
      assert 0x800 <= n < 0xD800 || 0xE000 <= n < 0x1_0000;
      (n as char, 3)
    else if 0xF0 <= b0 < 0xF5 && |b| >= 4 && IsCont(b[1]) && IsCont(b[2]) && IsCont(b[3])
      && (b0 != 0xF0 || b[1] >= 0x90) && (b0 != 0xF4 || b[1] < 0x90) then
      var n := (b0 - 0xF0) * 262144 + (b[1] as int - 0x80) * 4096 + (b[2] as int - 0x80) * 64 + (b[3] as int - 0x80);
      assert 0x1_0000 <= n < 0x11_0000;
      (n as char, 4)
    else (Replacement, 1)
  }

  /** `buffer.toString()` */
  function Decode(b: seq<Byte>): string
    decreases |b|
  {
    if b == [] then []
    else
      var (c, k) := DecodeOne(b);
      [c] + Decode(b[k..])
  }

  lemma DecodeTwo(n: int, b: seq<Byte>)
    requires 0x80 <= n < 0x800 && |b| >= 2
    requires b[0] == 0xC0 + n / 64 && b[1] == 0x80 + n % 64
    ensures DecodeOne(b) == (n as char, 2)
  {
    assert (n / 64) * 64 + n % 64 == n;
  }

  lemma DecodeThree(n: int, b: seq<Byte>)
    requires 0x800 <= n < 0xD800 || 0xE000 <= n < 0x1_0000
    requires |b| >= 3
    requires b[0] == 0xE0 + n / 4096 && b[1] == 0x80 + (n / 64) % 64 && b[2] == 0x80 + n % 64
    ensures DecodeOne(b) == (n as char, 3)
  {
    var q, m, l := n / 4096, (n / 64) % 64, n % 64;
    assert n / 64 == q * 64 + m;
    assert n == q * 4096 + m * 64 + l;
    assert b[0] != 0xE0 || b[1] >= 0xA0;
    assert b[0] != 0xED || b[1] < 0xA0;
  }

  lemma DecodeFour(n: int, b: seq<Byte>)
    requires 0x1_0000 <= n < 0x11_0000 && |b| >= 4
    requires b[0] == 0xF0 + n / 262144 && b[1] == 0x80 + (n / 4096) % 64
    requires b[2] == 0x80 + (n / 64) % 64 && b[3] == 0x80 + n % 64
    ensures DecodeOne(b) == (n as char, 4)
  {
    var p, q, m, l := n / 262144, (n / 4096) % 64, (n / 64) % 64, n % 64;
    assert n / 4096 == p * 64 + q;
    assert n / 64 == (n / 4096) * 64 + m;
    assert n == p * 262144 + q * 4096 + m * 64 + l;
    assert b[0] != 0xF0 || b[1] >= 0x90;
    assert b[0] != 0xF4 || b[1] < 0x90;
  }

  lemma DecodeOneEncoded(c: char, rest: seq<Byte>)
    ensures DecodeOne(EncodeChar(c) + rest) == (c, |EncodeChar(c)|)
  {
    CharIsScalar(c);
    var n := c as int;
    var e := EncodeChar(c);
    var b := e + rest;
    if n < 0x80 {
      assert b[0] == n;
    } else if n < 0x800 {
      assert b[0] == e[0] && b[1] == e[1];
      DecodeTwo(n, b);
    } else if n < 0x1_0000 {
      assert b[0] == e[0] && b[1] == e[1] && b[2] == e[2];
      DecodeThree(n, b);
    } else {
      assert b[0] == e[0] && b[1] == e[1] && b[2] == e[2] && b[3] == e[3];
      DecodeFour(n, b);
    }
  }

  /** Decoding what was encoded gives back the string, for every string. */
  lemma {:induction false} DecodeEncode(s: string)
    ensures Decode(Encode(s)) == s
  {
    if s != [] {
      var e := EncodeChar(s[0]);
      DecodeOneEncoded(s[0], Encode(s[1..]));
      assert (e + Encode(s[1..]))[|e|..] == Encode(s[1..]);
      DecodeEncode(s[1..]);
    }
  }
}
