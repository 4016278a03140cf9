/**
  The string normalisers of the intake handler in app/app.js: `capitalizeWords`,
  applied to names and addresses, and the telephone-number normalisation of
  `/addUser`, which turns whatever the form sent into "+1" and up to ten digits.
 */
module Normalise {
  import opened Text

  /** One word of `capitalizeWords`: its first character upper-cased, the rest kept. */
  function CapWord(w: string): (r: string)
    ensures |r| == |w|
    ensures w != [] ==> r[0] == UpperChar(w[0]) && r[1..] == w[1..]
  {
    if w == [] then [] else [UpperChar(w[0])] + w[1..]
  }

  function CapAll(ws: seq<string>): (r: seq<string>)
    ensures |r| == |ws|
    ensures forall k :: 0 <= k < |ws| ==> r[k] == CapWord(ws[k])
  {
    if ws == [] then [] else [CapWord(ws[0])] + CapAll(ws[1..])
  }

  /** `capitalizeWords(str)`: split on " ", capitalise every word, join with " ". */
  function CapitalizeWords(s: string): string {
    Join(CapAll(Split(s, ' ')), ' ')
  }

  /**
    A character-level reference definition: a character is upper-cased exactly
    when it starts the string or follows a space; every other character is kept.
   */
  function CapFrom(s: string, atStart: bool): (r: string)
    ensures |r| == |s|
  {
    if s == [] then []
    else [if atStart then UpperChar(s[0]) else s[0]] + CapFrom(s[1..], s[0] == ' ')
  }

  lemma {:induction false} CapFromNoSpace(a: string)
    requires ' ' !in a
    ensures CapFrom(a, true) == CapWord(a)
    ensures CapFrom(a, false) == a
    decreases |a|
  {
    if a != [] {
      CapFromNoSpace(a[1..]);
    }
  }

  lemma {:induction false} CapFromAtSpace(a: string, b: string, start: bool)
    requires ' ' !in a
    ensures CapFrom(a + [' '] + b, start) == CapFrom(a, start) + [' '] + CapFrom(b, true)
    decreases |a|
  {
    if a == [] {
      assert a + [' '] + b == [' '] + b;
      assert ([' '] + b)[1..] == b;
    } else {
      assert (a + [' '] + b)[1..] == a[1..] + [' '] + b;
      CapFromAtSpace(a[1..], b, a[0] == ' ');
    }
  }

  function FirstSpace(s: string): (i: nat)
    requires ' ' in s
    ensures i < |s| && s[i] == ' ' && ' ' !in s[..i]
  {
    if s[0] == ' ' then 0
    else
      var j := FirstSpace(s[1..]);
      assert s[1..][..j] == s[1..j + 1];
      1 + j
  }

  /** `capitalizeWords` agrees with the character-level definition. */
  lemma {:induction false} CapitalizeWordsCharwise(s: string)
    ensures CapitalizeWords(s) == CapFrom(s, true)
    decreases |s|
  {
    if ' ' !in s {
      SplitNoSeparator(s, ' ');
      CapFromNoSpace(s);
    } else {
      var i := FirstSpace(s);
      var a, b := s[..i], s[i + 1..];
      assert s == a + [' '] + b;
      SplitAtFirst(a, b, ' ');
      CapitalizeWordsCharwise(b);
      CapFromAtSpace(a, b, true);
      CapFromNoSpace(a);
      var ws := Split(b, ' ');
      var cs := [CapWord(a)] + CapAll(ws);
      assert CapAll([a] + ws) == cs;
      assert cs[1..] == CapAll(ws);
      assert Join(cs, ' ') == CapWord(a) + [' '] + Join(CapAll(ws), ' ');
    }
  }

  /** Every character of the result: upper-cased at a word start, unchanged elsewhere. */
  lemma {:induction false} CapFromAt(s: string, start: bool, i: nat)
    requires i < |s|
    ensures CapFrom(s, start)[i] ==
      (if (i == 0 && start) || (i > 0 && s[i - 1] == ' ') then UpperChar(s[i]) else s[i])
    decreases |s|
  {
    if i > 0 {
      CapFromAt(s[1..], s[0] == ' ', i - 1);
    }
  }

  /**
    `capitalizeWords` keeps the length, upper-cases exactly the first character of
    every space-separated word and leaves every other character as it was.
   */
  lemma CapitalizeWordsChars(s: string)
    ensures |CapitalizeWords(s)| == |s|
    ensures forall i :: 0 <= i < |s| ==>
      CapitalizeWords(s)[i] == (if i == 0 || s[i - 1] == ' ' then UpperChar(s[i]) else s[i])
  {
    CapitalizeWordsCharwise(s);
    forall i | 0 <= i < |s|
      ensures CapFrom(s, true)[i] == (if i == 0 || s[i - 1] == ' ' then UpperChar(s[i]) else s[i])
    {
      CapFromAt(s, true, i);
    }
  }

  /** The words of the result are the capitalised words of the input: as many, in order. */
  lemma CapitalizeWordsWords(s: string)
    ensures Split(CapitalizeWords(s), ' ') == CapAll(Split(s, ' '))
    ensures |Split(CapitalizeWords(s), ' ')| == |Split(s, ' ')|
  {
    var ws := Split(s, ' ');
    SplitWordsFree(s, ' ');
    var cs := CapAll(ws);
    forall k | 0 <= k < |cs| ensures ' ' !in cs[k] {
      assert cs[k] == CapWord(ws[k]);
      if ws[k] != [] {
        assert cs[k] == [UpperChar(ws[k][0])] + ws[k][1..];
        assert ws[k] == [ws[k][0]] + ws[k][1..];
      }
    }
    SplitJoin(cs, ' ');
  }

  lemma {:induction false} CapFromIdempotent(s: string, start: bool)
    ensures CapFrom(CapFrom(s, start), start) == CapFrom(s, start)
    decreases |s|
  {
    if s != [] {
      CapFromIdempotent(s[1..], s[0] == ' ');
      var c := if start then UpperChar(s[0]) else s[0];
      assert (c == ' ') == (s[0] == ' ');
      assert CapFrom(s, start)[1..] == CapFrom(s[1..], s[0] == ' ');
    }
  }

  /** Applying `capitalizeWords` twice is the same as applying it once. */
  lemma CapitalizeWordsIdempotent(s: string)
    ensures CapitalizeWords(CapitalizeWords(s)) == CapitalizeWords(s)
  {
    CapitalizeWordsCharwise(s);
    CapitalizeWordsCharwise(CapFrom(s, true));
    CapFromIdempotent(s, true);
  }

  // ---------------------------------------------------------------------------
  // Telephone numbers (`/addUser`)

  /** The digits kept: a leading '1' is dropped only when there are more than ten. */
  function TrimCountryCode(d: string): string {
    if |d| > 10 && d[0] == '1' then d[1..] else d
  }

  /** `"+1" + digits.substring(0, 10)` */
  function NormaliseTn(tn: string): (r: string)
    ensures 2 <= |r| <= 12 && r[..2] == "+1" && AllDigits(r[2..])
  {
    var d := TrimCountryCode(Digits(tn));
    "+1" + (if |d| <= 10 then d else d[..10])
  }

  /** What the kept digits are, case by case. */
  lemma NormaliseTnDigits(tn: string)
    ensures var d := Digits(tn); var out := NormaliseTn(tn)[2..];
      && (|d| <= 10 ==> out == d)
      && (|d| > 10 && d[0] == '1' ==> out == d[1..11])
      && (|d| > 10 && d[0] != '1' ==> out == d[..10])
  {
  }

  /** Normalising an output again leaves it unchanged exactly when it holds ten digits. */
  lemma NormaliseTnFixpoint(tn: string)
    ensures var r := NormaliseTn(tn); NormaliseTn(r) == r <==> |r| == 12
  {
    var r := NormaliseTn(tn);
    var ds := r[2..];
    assert r == "+1" + ds;
    assert r == ['+'] + (['1'] + ds);
    DigitsAppend(['+'], ['1'] + ds);
    assert Digits(['+']) == [];
    DigitsAppend(['1'], ds);
    assert Digits(['1']) == ['1'];
    assert Digits(r) == ['1'] + ds;
    if |r| == 12 {
      assert (['1'] + ds)[1..] == ds;
    } else {
      assert |NormaliseTn(r)| == 3 + |ds|;
    }
  }

  datatype TnResult = Normalised(tn: string) | Rejected(status: int)

  /**
    The telephone part of `/addUser`: a missing or empty `tn` is answered with 500
    before anything is written; otherwise the normalised number is what is stored
    and texted.
   */
  function AddUserTn(tn: Option<string>): (r: TnResult)
    ensures r.Rejected? <==> !Truthy(tn)
    ensures r.Rejected? ==> r.status == 500
    ensures r.Normalised? ==> 2 <= |r.tn| <= 12 && r.tn[..2] == "+1" && AllDigits(r.tn[2..])
    ensures r.Normalised? ==> r.tn == NormaliseTn(tn.value)
  {
    if !Truthy(tn) then Rejected(500) else Normalised(NormaliseTn(tn.value))
  }
}
