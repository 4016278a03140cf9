/**
  The pieces of the JavaScript string runtime the handlers rely on:
  `String.prototype.split` with a one-character separator, `Array.prototype.join`,
  ASCII case mapping, and an optional value standing for `undefined`.
 */
module Text {

  datatype Option<+T> = None | Some(value: T)

  /** JavaScript truthiness of an optional string: present and non-empty. */
  predicate Truthy(s: Option<string>) {
    s.Some? && s.value != ""
  }

  /** How a possibly-undefined value prints inside a string concatenation. */
  function JsString(s: Option<string>): string {
    if s.Some? then s.value else "undefined"
  }

  /** `s.split(d)`: never empty; "" splits to [""]; consecutive separators give empty words. */
  function Split(s: string, d: char): (r: seq<string>)
    ensures |r| >= 1
    decreases |s|
  {
    if s == [] then [[]]
    else
      var rest := Split(s[1..], d);
      if s[0] == d then [[]] + rest
      else [[s[0]] + rest[0]] + rest[1..]
  }

  /** `ws.join(d)` */
  function Join(ws: seq<string>, d: char): string
    decreases |ws|
  {
    if |ws| == 0 then []
    else if |ws| == 1 then ws[0]
    else ws[0] + [d] + Join(ws[1..], d)
  }

  /** No word produced by Split contains the separator. */
  lemma {:induction false} SplitWordsFree(s: string, d: char)
    ensures forall k :: 0 <= k < |Split(s, d)| ==> d !in Split(s, d)[k]
    decreases |s|
  {
    if s != [] {
      SplitWordsFree(s[1..], d);
    }
  }

  /** Splitting then joining gives the string back. */
  lemma {:induction false} JoinSplit(s: string, d: char)
    ensures Join(Split(s, d), d) == s
    decreases |s|
  {
    if s != [] {
      var rest := Split(s[1..], d);
      JoinSplit(s[1..], d);
      if s[0] == d {
        assert Split(s, d) == [[]] + rest;
        assert ([[]] + rest)[1..] == rest;
      } else {
        var r := [[s[0]] + rest[0]] + rest[1..];
        assert Split(s, d) == r;
        if |rest| == 1 {
          assert r == [[s[0]] + rest[0]];
        } else {
          assert r[1..] == rest[1..];
          assert Join(rest, d) == rest[0] + [d] + Join(rest[1..], d);
        }
      }
    }
  }

  /** A string without the separator splits to itself alone. */
  lemma {:induction false} SplitNoSeparator(a: string, d: char)
    requires d !in a
    ensures Split(a, d) == [a]
    decreases |a|
  {
    if a != [] {
      SplitNoSeparator(a[1..], d);
      assert [a[0]] + a[1..] == a;
    }
  }

  /** Splitting at the first separator: the first word is everything before it. */
  lemma {:induction false} SplitAtFirst(a: string, b: string, d: char)
    requires d !in a
    ensures Split(a + [d] + b, d) == [a] + Split(b, d)
    decreases |a|
  {
    if a == [] {
      assert a + [d] + b == [d] + b;
      assert ([d] + b)[1..] == b;
    } else {
      var s := a + [d] + b;
      assert s[1..] == a[1..] + [d] + b;
      SplitAtFirst(a[1..], b, d);
      assert [a[0]] + a[1..] == a;
    }
  }

  /** Joining words free of the separator and splitting again gives the words back. */
  lemma {:induction false} SplitJoin(ws: seq<string>, d: char)
    requires |ws| >= 1
    requires forall k :: 0 <= k < |ws| ==> d !in ws[k]
    ensures Split(Join(ws, d), d) == ws
    decreases |ws|
  {
    if |ws| == 1 {
      SplitNoSeparator(ws[0], d);
    } else {
      SplitJoin(ws[1..], d);
      SplitAtFirst(ws[0], Join(ws[1..], d), d);
      assert [ws[0]] + ws[1..] == ws;
    }
  }

  /** The first word is a prefix of the string, strictly shorter when the separator occurs. */
  lemma {:induction false} SplitFirstPrefix(s: string, d: char)
    ensures |Split(s, d)[0]| <= |s| && Split(s, d)[0] == s[..|Split(s, d)[0]|]
    ensures d in s ==> |Split(s, d)[0]| < |s|
    decreases |s|
  {
    if s != [] {
      SplitFirstPrefix(s[1..], d);
    }
  }

  /** Splitting a string that starts with a separator-free part: that part joins the first word. */
  lemma {:induction false} SplitFreePrefix(a: string, b: string, d: char)
    requires d !in a
    ensures Split(a + b, d)[0] == a + Split(b, d)[0]
    ensures |Split(a + b, d)| == |Split(b, d)|
    decreases |a|
  {
    if a == [] {
      assert a + b == b;
    } else {
      assert (a + b)[0] == a[0] && (a + b)[1..] == a[1..] + b;
      SplitFreePrefix(a[1..], b, d);
      assert [a[0]] + (a[1..] + Split(b, d)[0]) == a + Split(b, d)[0];
    }
  }

  /** The first word ends no later than the first occurrence of the separator. */
  lemma {:induction false} SplitFirstShort(s: string, d: char, i: nat)
    requires i < |s| && s[i] == d
    ensures |Split(s, d)[0]| <= i
    decreases |s|
  {
    if s[0] != d {
      SplitFirstShort(s[1..], d, i - 1);
    }
  }

  function UpperChar(c: char): (r: char)
    ensures ('a' <= c <= 'z') == (r != c)
    ensures 'a' <= c <= 'z' ==> r as int == c as int - 32 && 'A' <= r <= 'Z'
  {
    if 'a' <= c <= 'z' then (c as int - 32) as char else c
  }

  function LowerChar(c: char): (r: char)
    ensures ('A' <= c <= 'Z') == (r != c)
    ensures 'A' <= c <= 'Z' ==> r as int == c as int + 32 && 'a' <= r <= 'z'
  {
    if 'A' <= c <= 'Z' then (c as int + 32) as char else c
  }

  /** `s.toLowerCase()` over ASCII letters. */
  function Lower(s: string): (r: string)
    ensures |r| == |s|
    ensures forall i :: 0 <= i < |s| ==> r[i] == LowerChar(s[i])
  {
    if s == [] then [] else [LowerChar(s[0])] + Lower(s[1..])
  }

  predicate IsDigit(c: char) {
    '0' <= c <= '9'
  }

  predicate AllDigits(s: string) {
    forall i :: 0 <= i < |s| ==> IsDigit(s[i])
  }

  /** `s.replace(/\D/g, "")`: the decimal digits of s, in order. */
  function Digits(s: string): (r: string)
    ensures AllDigits(r) && |r| <= |s|
    ensures AllDigits(s) ==> r == s
    ensures |s| == 1 ==> r == (if IsDigit(s[0]) then s else [])
  {
    if s == [] then []
    else if IsDigit(s[0]) then [s[0]] + Digits(s[1..])
    else Digits(s[1..])
  }

  /** With the one-character case above, this says every digit is kept, in order. */
  lemma {:induction false} DigitsAppend(a: string, b: string)
    ensures Digits(a + b) == Digits(a) + Digits(b)
    decreases |a|
  {
    if a == [] {
      assert a + b == b;
    } else {
      assert (a + b)[0] == a[0];
      assert (a + b)[1..] == a[1..] + b;
      DigitsAppend(a[1..], b);
    }
  }
}
