/**
  Base64 as Node's `Buffer` does it: `buf.toString('base64')` (standard alphabet,
  '=' padding) and `Buffer.from(s, 'base64')`, which is lenient: it skips characters
  outside the alphabet, accepts the URL-safe '-' and '_', stops at the first '=',
  and turns a trailing group of two or three characters into one or two bytes.
 */
module Base64 {
  import opened Utf8

  type Sextet = x: int | 0 <= x < 64

  /** The character for a 6-bit value: A-Z, a-z, 0-9, '+', '/'. */
  function CharOf(i: Sextet): char {
    if i < 26 then ('A' as int + i) as char
    else if i < 52 then ('a' as int + (i - 26)) as char
    else if i < 62 then ('0' as int + (i - 52)) as char
    else if i == 62 then '+'
    else '/'
  }

  predicate InAlphabet(c: char) {
    ('A' <= c <= 'Z') || ('a' <= c <= 'z') || ('0' <= c <= '9')
      || c == '+' || c == '/' || c == '-' || c == '_'
  }

  function ValueOf(c: char): Sextet
    requires InAlphabet(c)
  {
    if 'A' <= c <= 'Z' then c as int - 'A' as int
    else if 'a' <= c <= 'z' then c as int - 'a' as int + 26
    else if '0' <= c <= '9' then c as int - '0' as int + 52
    else if c == '+' || c == '-' then 62
    else 63
  }

  lemma ValueOfCharOf(i: Sextet)
    ensures InAlphabet(CharOf(i)) && ValueOf(CharOf(i)) == i
  {
  }

  /** Three bytes to four characters. */
  function EncodeGroup(b0: Byte, b1: Byte, b2: Byte): string {
    [CharOf(b0 / 4), CharOf((b0 % 4) * 16 + b1 / 16), CharOf((b1 % 16) * 4 + b2 / 64), CharOf(b2 % 64)]
  }

  /** `Buffer.from(bytes).toString('base64')` */
  function Encode(b: seq<Byte>): (r: string)
    ensures |r| % 4 == 0
    decreases |b|
  {
    if |b| == 0 then []
    else if |b| == 1 then [CharOf(b[0] / 4), CharOf((b[0] % 4) * 16), '=', '=']
    else if |b| == 2 then
      [CharOf(b[0] / 4), CharOf((b[0] % 4) * 16 + b[1] / 16), CharOf((b[1] % 16) * 4), '=']
    else EncodeGroup(b[0], b[1], b[2]) + Encode(b[3..])
  }

  /** The 6-bit values the decoder reads: alphabet characters before the first '='. */
  function Sextets(s: string): seq<Sextet>
  {
    if s == [] || s[0] == '=' then []
    else if InAlphabet(s[0]) then [ValueOf(s[0])] + Sextets(s[1..])
    else Sextets(s[1..])
  }

  /** The bytes that straddle consecutive 6-bit values: 6+2, 4+4 and 2+6 bits. */
  function Byte0(x: Sextet, y: Sextet): Byte { x * 4 + y / 16 }
  function Byte1(y: Sextet, z: Sextet): Byte { (y % 16) * 16 + z / 4 }
  function Byte2(z: Sextet, w: Sextet): Byte { (z % 4) * 64 + w }

  /** Four 6-bit values to three bytes; a final two or three give one or two bytes. */
  function FromSextets(q: seq<Sextet>): seq<Byte>
    decreases |q|
  {
    if |q| < 2 then []
    else if |q| == 2 then [Byte0(q[0], q[1])]
    else if |q| == 3 then [Byte0(q[0], q[1]), Byte1(q[1], q[2])]
    else [Byte0(q[0], q[1]), Byte1(q[1], q[2]), Byte2(q[2], q[3])] + FromSextets(q[4..])
  }

  /** `Buffer.from(s, 'base64')` */
  function Decode(s: string): seq<Byte> {
    FromSextets(Sextets(s))
  }

  /** No space ever appears in an encoding. */
  lemma {:induction false} EncodeHasNoSpace(b: seq<Byte>)
    ensures ' ' !in Encode(b)
    decreases |b|
  {
    if |b| >= 3 {
      EncodeHasNoSpace(b[3..]);
    }
  }

  lemma SextetsOfGroup(g: string, rest: string)
    requires |g| == 4 && forall k :: 0 <= k < 4 ==> InAlphabet(g[k])
    ensures Sextets(g + rest) == [ValueOf(g[0]), ValueOf(g[1]), ValueOf(g[2]), ValueOf(g[3])] + Sextets(rest)
  {
    var s := g + rest;
    assert s[3..] == [g[3]] + rest;
    assert Sextets(s[3..]) == [ValueOf(g[3])] + Sextets(rest) by {
      assert s[3..][1..] == rest;
    }
    assert s[2..] == [g[2]] + s[3..];
    assert Sextets(s[2..]) == [ValueOf(g[2])] + Sextets(s[3..]) by {
      assert s[2..][1..] == s[3..];
    }
    assert s[1..] == [g[1]] + s[2..];
    assert Sextets(s[1..]) == [ValueOf(g[1])] + Sextets(s[2..]) by {
      assert s[1..][1..] == s[2..];
    }
    assert s == [g[0]] + s[1..];
  }

  lemma GroupRoundTrip(b0: Byte, b1: Byte, b2: Byte)
    ensures var g := EncodeGroup(b0, b1, b2);
      && (forall k :: 0 <= k < 4 ==> InAlphabet(g[k]))
      && Byte0(ValueOf(g[0]), ValueOf(g[1])) == b0
      && Byte1(ValueOf(g[1]), ValueOf(g[2])) == b1
      && Byte2(ValueOf(g[2]), ValueOf(g[3])) == b2
  {
    var c0, c1, c2, c3 := b0 / 4, (b0 % 4) * 16 + b1 / 16, (b1 % 16) * 4 + b2 / 64, b2 % 64;
    ValueOfCharOf(c0);
    ValueOfCharOf(c1);
    ValueOfCharOf(c2);
    ValueOfCharOf(c3);
    assert c1 / 16 == b0 % 4 && c1 % 16 == b1 / 16;
    assert c2 / 4 == b1 % 16 && c2 % 4 == b2 / 64;
  }

  lemma DecodeTail1(b: seq<Byte>)
    requires |b| == 1
    ensures Decode(Encode(b)) == b
  {
    var c0, c1 := b[0] / 4, (b[0] % 4) * 16;
    ValueOfCharOf(c0);
    ValueOfCharOf(c1);
    var s := [CharOf(c0), CharOf(c1), '=', '='];
    assert Encode(b) == s;
    assert Sextets(s[2..]) == [];
    assert Sextets(s[1..]) == [c1] by { assert s[1..][1..] == s[2..]; }
    assert Sextets(s) == [c0, c1];
    assert c1 / 16 == b[0] % 4;
    assert Byte0(c0, c1) == b[0];
  }

  lemma DecodeTail2(b: seq<Byte>)
    requires |b| == 2
    ensures Decode(Encode(b)) == b
  {
    var c0, c1, c2 := b[0] / 4, (b[0] % 4) * 16 + b[1] / 16, (b[1] % 16) * 4;
    ValueOfCharOf(c0);
    ValueOfCharOf(c1);
    ValueOfCharOf(c2);
    var s := Encode(b);
    assert s[3] == '=' && s[1..][1..][1..] == s[3..];
    assert Sextets(s[3..]) == [];
    assert Sextets(s[2..]) == [c2] + Sextets(s[3..]) by { assert s[2..][1..] == s[3..]; }
    assert Sextets(s[1..]) == [c1] + Sextets(s[2..]) by { assert s[1..][1..] == s[2..]; }
    assert Sextets(s) == [c0, c1, c2];
    assert c1 / 16 == b[0] % 4 && c1 % 16 == b[1] / 16;
    assert Byte0(c0, c1) == b[0] && Byte1(c1, c2) == b[1];
  }

  lemma FromSextetsGroup(v: seq<Sextet>, rest: seq<Sextet>)
    requires |v| == 4
    ensures FromSextets(v + rest) ==
      [Byte0(v[0], v[1]), Byte1(v[1], v[2]), Byte2(v[2], v[3])] + FromSextets(rest)
  {
    assert (v + rest)[4..] == rest;
  }

  lemma FirstThree(b: seq<Byte>)
    requires |b| >= 3
    ensures b[..3] == [b[0], b[1], b[2]]
  {
  }

  lemma DecodeGroupThen(b: seq<Byte>)
    requires |b| >= 3
    ensures Decode(Encode(b)) == b[..3] + Decode(Encode(b[3..]))
  {
    var g := EncodeGroup(b[0], b[1], b[2]);
    var rest := Encode(b[3..]);
    assert Encode(b) == g + rest;
    GroupRoundTrip(b[0], b[1], b[2]);
    var v := [ValueOf(g[0]), ValueOf(g[1]), ValueOf(g[2]), ValueOf(g[3])];
    assert Sextets(g + rest) == v + Sextets(rest) by {
      SextetsOfGroup(g, rest);
    }
    FromSextetsGroup(v, Sextets(rest));
    assert v[0] == ValueOf(g[0]) && v[1] == ValueOf(g[1]) && v[2] == ValueOf(g[2]) && v[3] == ValueOf(g[3]);
    var x, y, z := Byte0(v[0], v[1]), Byte1(v[1], v[2]), Byte2(v[2], v[3]);
    assert x == b[0] && y == b[1] && z == b[2];
    FirstThree(b);
  }

  /** Decoding an encoding gives back the bytes, for every byte sequence. */
  lemma {:induction false} DecodeEncode(b: seq<Byte>)
    ensures Decode(Encode(b)) == b
    decreases |b|
  {
    if |b| == 1 {
      DecodeTail1(b);
    } else if |b| == 2 {
      DecodeTail2(b);
    } else if |b| >= 3 {
      DecodeGroupThen(b);
      DecodeEncode(b[3..]);
      assert b[..3] + b[3..] == b;
    }
  }

  /** A string goes through UTF-8 and base64 and comes back unchanged. */
  lemma EncodeStringRoundTrip(s: string)
    ensures Utf8.Decode(Decode(Encode(Utf8.Encode(s)))) == s
  {
    DecodeEncode(Utf8.Encode(s));
    Utf8.DecodeEncode(s);
  }
}
