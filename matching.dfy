/**
  `/match` in app/app.js: every clinician of the requested practice is scored against
  the patient's preferences, and the three best scores are returned as an object
  `{partitionKey: score}`.

  A clinician earns one point per criterion met: ethnicity, gender, interface, day,
  and time, where the time criterion is counted twice, so six points at most. An
  interface mismatch sets the clinician's score to 0 without looking at the rest.
  The score is `Math.round(s / 6 * 100)`; with s an integer from 0 to 6 it is
  computed here exactly on integers.

  The `scores` object is a sequence of entries in insertion order: assigning an
  existing key keeps its place, a new key goes last.
 */
module Matching {
  import opened Text

  datatype Clinician = Clinician(
    partitionKey: string,
    ethnicity: string,
    gender: string,
    iface: string,
    days: seq<string>,
    times: seq<string>)

  /** The fields of the request body the scorer reads. */
  datatype Preferences = Preferences(
    ethnicities: seq<string>,
    genders: seq<string>,
    iface: string,
    day: string,
    times: seq<string>)

  const NoPreference: string := "No Preference"
  const NextAvailable: string := "No Preference / Next Available"
  const Either: string := "Either"

  // ---------------------------------------------------------------------------
  // The criteria

  predicate EthnicityOk(p: Preferences, c: Clinician) {
    NoPreference in p.ethnicities || c.ethnicity in p.ethnicities
  }

  predicate GenderOk(p: Preferences, c: Clinician) {
    NoPreference in p.genders || c.gender in p.genders
  }

  predicate InterfaceOk(p: Preferences, c: Clinician) {
    p.iface == Either || p.iface == c.iface || c.iface == Either
  }

  predicate DayOk(p: Preferences, c: Clinician) {
    p.day == Either || p.day in c.days
  }

  /**
    The first time preference is "next available", or some preferred time is one of the
    clinician's. An empty preference list has no first element and shares no time.
   */
  predicate TimeOk(p: Preferences, c: Clinician) {
    (|p.times| > 0 && p.times[0] == NextAvailable) || exists t :: t in p.times && t in c.times
  }

  function Point(b: bool): nat {
    if b then 1 else 0
  }

  /** The points of a clinician whose interface matches. */
  function Points(p: Preferences, c: Clinician): (s: nat)
    ensures s <= 6
  {
    Point(EthnicityOk(p, c)) + Point(GenderOk(p, c)) + Point(InterfaceOk(p, c))
      + Point(DayOk(p, c)) + 2 * Point(TimeOk(p, c))
  }

  /**
    `Math.round(s / 6 * 100)`: the integer nearest to 100s/6, a half rounded up, which
    is what `-3 < 6r - 100s <= 3` says.
   */
  function Round(s: nat): (r: int)
    requires s <= 6
    ensures -3 < 6 * r - 100 * s <= 3
  {
    (100 * s + 3) / 6
  }

  predicate ValidScore(v: int) {
    v == 0 || v == 17 || v == 33 || v == 50 || v == 67 || v == 83 || v == 100
  }

  /** A clinician's score: 0 on an interface mismatch, else the rounded percentage. */
  function Score(p: Preferences, c: Clinician): (r: int)
    ensures ValidScore(r)
    ensures !InterfaceOk(p, c) ==> r == 0
    ensures InterfaceOk(p, c) ==> r > 0
  {
    if !InterfaceOk(p, c) then 0
    else
      var s := Points(p, c);
      assert s == 1 || s == 2 || s == 3 || s == 4 || s == 5 || s == 6;
      Round(s)
  }

  /** The time preference is worth two points: meeting it or not changes the points by 2. */
  lemma TimeWorthTwoPoints(p: Preferences, c: Clinician, otherTimes: seq<string>)
    requires TimeOk(p, c) && !TimeOk(p, c.(times := otherTimes))
    ensures Points(p, c) == Points(p, c.(times := otherTimes)) + 2
  {
    var d := c.(times := otherTimes);
    assert EthnicityOk(p, c) == EthnicityOk(p, d) && GenderOk(p, c) == GenderOk(p, d);
    assert InterfaceOk(p, c) == InterfaceOk(p, d) && DayOk(p, c) == DayOk(p, d);
  }

  /** Whatever else matches, an interface mismatch scores 0. */
  lemma InterfaceMismatchZero(p: Preferences, c: Clinician)
    requires p.iface != Either && c.iface != Either && p.iface != c.iface
    ensures Score(p, c) == 0
  {
  }

  /** More points never give a lower score: the percentage is strictly increasing. */
  lemma RoundIncreasing(s: nat, t: nat)
    requires s < t <= 6
    ensures Round(s) < Round(t)
  {
  }

  // ---------------------------------------------------------------------------
  // The `scores` object

  datatype Entry = Entry(key: string, score: int)

  /** `scores[k] = v`: an existing key keeps its place, a new key goes last. */
  function Put(m: seq<Entry>, k: string, v: int): seq<Entry>
  {
    if m == [] then [Entry(k, v)]
    else if m[0].key == k then [Entry(k, v)] + m[1..]
    else [m[0]] + Put(m[1..], k, v)
  }

  /** `scores[k]`, None for a key never assigned. */
  function Lookup(m: seq<Entry>, k: string): Option<int>
  {
    if m == [] then None
    else if m[0].key == k then Some(m[0].score)
    else Lookup(m[1..], k)
  }

  function Keys(m: seq<Entry>): set<string> {
    set i | 0 <= i < |m| :: m[i].key
  }

  /** An object never holds the same key twice. */
  predicate DistinctKeys(m: seq<Entry>) {
    forall i, j :: 0 <= i < j < |m| ==> m[i].key != m[j].key
  }

  lemma {:induction false} PutLookup(m: seq<Entry>, k: string, v: int, k': string)
    ensures Lookup(Put(m, k, v), k') == if k' == k then Some(v) else Lookup(m, k')
    decreases |m|
  {
    if m != [] && m[0].key != k {
      PutLookup(m[1..], k, v, k');
    }
  }

  lemma KeysCons(e: Entry, m: seq<Entry>)
    ensures Keys([e] + m) == {e.key} + Keys(m)
  {
    var r := [e] + m;
    assert r[0].key == e.key;
    forall x | x in Keys(r) ensures x in {e.key} + Keys(m) {
      var i :| 0 <= i < |r| && r[i].key == x;
      if i > 0 {
        assert m[i - 1].key == x;
      }
    }
    forall x | x in Keys(m) ensures x in Keys(r) {
      var i :| 0 <= i < |m| && m[i].key == x;
      assert r[i + 1].key == x;
    }
  }

  lemma DistinctCons(e: Entry, m: seq<Entry>)
    ensures DistinctKeys([e] + m) <==> e.key !in Keys(m) && DistinctKeys(m)
  {
    var r := [e] + m;
    if DistinctKeys(r) {
      forall i | 0 <= i < |m| ensures m[i].key != e.key {
        assert r[0] == e && r[i + 1] == m[i];
      }
      forall a, b | 0 <= a < b < |m| ensures m[a].key != m[b].key {
        assert r[a + 1] == m[a] && r[b + 1] == m[b];
      }
    }
    if e.key !in Keys(m) && DistinctKeys(m) {
      forall a, b | 0 <= a < b < |r| ensures r[a].key != r[b].key {
        assert r[b] == m[b - 1];
        if a > 0 {
          assert r[a] == m[a - 1];
        }
      }
    }
  }

  lemma {:induction false} PutShape(m: seq<Entry>, k: string, v: int)
    requires DistinctKeys(m)
    ensures DistinctKeys(Put(m, k, v))
    ensures Keys(Put(m, k, v)) == Keys(m) + {k}
    ensures |Put(m, k, v)| == if k in Keys(m) then |m| else |m| + 1
    decreases |m|
  {
    if m != [] {
      assert m == [m[0]] + m[1..];
      KeysCons(m[0], m[1..]);
      DistinctCons(m[0], m[1..]);
      if m[0].key != k {
        PutShape(m[1..], k, v);
        KeysCons(m[0], Put(m[1..], k, v));
        DistinctCons(m[0], Put(m[1..], k, v));
      } else {
        KeysCons(Entry(k, v), m[1..]);
        DistinctCons(Entry(k, v), m[1..]);
      }
    } else {
      KeysCons(Entry(k, v), []);
      assert Put(m, k, v) == [Entry(k, v)] + [];
    }
  }

  /** The object after the loop has scored the given clinicians, in order. */
  function ScoresOf(p: Preferences, cs: seq<Clinician>): seq<Entry>
    decreases |cs|
  {
    if cs == [] then []
    else
      var c := cs[|cs| - 1];
      Put(ScoresOf(p, cs[..|cs| - 1]), c.partitionKey, Score(p, c))
  }

  /** The last clinician with the given key: the one whose score the object keeps. */
  function LastWith(cs: seq<Clinician>, k: string): Option<Clinician>
    decreases |cs|
  {
    if cs == [] then None
    else if cs[|cs| - 1].partitionKey == k then Some(cs[|cs| - 1])
    else LastWith(cs[..|cs| - 1], k)
  }

  function KeysOf(cs: seq<Clinician>): set<string> {
    set i | 0 <= i < |cs| :: cs[i].partitionKey
  }

  /**
    Every clinician's key is in `scores`, with the score of the last clinician that has
    it; no other key is.
   */
  lemma {:induction false} ScoresLookup(p: Preferences, cs: seq<Clinician>, k: string)
    ensures Lookup(ScoresOf(p, cs), k) ==
      (if LastWith(cs, k).Some? then Some(Score(p, LastWith(cs, k).value)) else None)
    decreases |cs|
  {
    if cs != [] {
      var c := cs[|cs| - 1];
      ScoresLookup(p, cs[..|cs| - 1], k);
      PutLookup(ScoresOf(p, cs[..|cs| - 1]), c.partitionKey, Score(p, c), k);
    }
  }

  /** `scores` holds each clinician key once, and only those, and only valid scores. */
  lemma {:induction false} ScoresShape(p: Preferences, cs: seq<Clinician>)
    ensures DistinctKeys(ScoresOf(p, cs))
    ensures Keys(ScoresOf(p, cs)) == KeysOf(cs)
    ensures forall i :: 0 <= i < |ScoresOf(p, cs)| ==> ValidScore(ScoresOf(p, cs)[i].score)
    decreases |cs|
  {
    if cs != [] {
      var c := cs[|cs| - 1];
      var front := cs[..|cs| - 1];
      ScoresShape(p, front);
      PutShape(ScoresOf(p, front), c.partitionKey, Score(p, c));
      assert KeysOf(cs) == KeysOf(front) + {c.partitionKey} by {
        forall x | x in KeysOf(cs) ensures x in KeysOf(front) + {c.partitionKey} {
          var i :| 0 <= i < |cs| && cs[i].partitionKey == x;
          if i < |cs| - 1 {
            assert front[i].partitionKey == x;
          }
        }
        forall x | x in KeysOf(front) ensures x in KeysOf(cs) {
          var i :| 0 <= i < |front| && front[i].partitionKey == x;
          assert cs[i].partitionKey == x;
        }
      }
      PutScores(ScoresOf(p, front), c.partitionKey, Score(p, c));
    }
  }

  lemma {:induction false} PutScores(m: seq<Entry>, k: string, v: int)
    requires ValidScore(v) && forall i :: 0 <= i < |m| ==> ValidScore(m[i].score)
    ensures forall i :: 0 <= i < |Put(m, k, v)| ==> ValidScore(Put(m, k, v)[i].score)
    decreases |m|
  {
    if m != [] && m[0].key != k {
      PutScores(m[1..], k, v);
      assert forall i :: 0 < i < |Put(m, k, v)| ==> Put(m, k, v)[i] == Put(m[1..], k, v)[i - 1];
    }
  }

  /**
    One pass of the loop body: the points counted criterion by criterion, stopping at
    an interface mismatch (the `continue` of the loop).
   */
  method Tally(p: Preferences, c: Clinician) returns (s: nat, mismatch: bool)
    ensures mismatch <==> !InterfaceOk(p, c)
    ensures !mismatch ==> s == Points(p, c)
  {
    s := 0;
    mismatch := false;
    if NoPreference in p.ethnicities {
      s := s + 1;
    } else if c.ethnicity in p.ethnicities {
      s := s + 1;
    }
    if NoPreference in p.genders {
      s := s + 1;
    } else if c.gender in p.genders {
      s := s + 1;
    }
    if p.iface == Either {
      s := s + 1;
    } else if p.iface == c.iface || c.iface == Either {
      s := s + 1;
    } else {
      mismatch := true;
      return;
    }
    if p.day == Either {
      s := s + 1;
    } else if p.day in c.days {
      s := s + 1;
    }
    var shared := exists t :: t in p.times && t in c.times;
    if |p.times| > 0 && p.times[0] == NextAvailable {
      s := s + 1;
    } else if shared {
      s := s + 1;
    }
    if |p.times| > 0 && p.times[0] == NextAvailable {
      s := s + 1;
    } else if shared {
      s := s + 1;
    }
  }

  /** The scoring loop of `/match`, assigning into the `scores` object clinician by clinician. */
  method ScoreAll(p: Preferences, clinicians: seq<Clinician>) returns (scores: seq<Entry>)
    ensures scores == ScoresOf(p, clinicians)
  {
    scores := [];
    for i := 0 to |clinicians|
      invariant scores == ScoresOf(p, clinicians[..i])
    {
      var c := clinicians[i];
      assert clinicians[..i + 1][..i] == clinicians[..i];
      var s, mismatch := Tally(p, c);
      if mismatch {
        scores := Put(scores, c.partitionKey, 0);
        continue;
      }
      scores := Put(scores, c.partitionKey, Round(s));
    }
    assert clinicians[..|clinicians|] == clinicians;
  }

  // ---------------------------------------------------------------------------
  // `Object.entries(scores).sort((a, b) => b[1] - a[1]).slice(0, 3)`

  /**
    Puts an entry into a list sorted by descending score, ahead of the entries with a
    lower or equal score: the insertion step of a stable sort that takes the entries
    from the back.
   */
  function Insert(e: Entry, t: seq<Entry>): (r: seq<Entry>)
    ensures |r| == |t| + 1
  {
    if t == [] || e.score >= t[0].score then [e] + t
    else [t[0]] + Insert(e, t[1..])
  }

  /** The comparator `b[1] - a[1]` under a stable sort: descending, ties in input order. */
  function SortDesc(s: seq<Entry>): (r: seq<Entry>)
    ensures |r| == |s|
  {
    if s == [] then [] else Insert(s[0], SortDesc(s[1..]))
  }

  predicate SortedDesc(t: seq<Entry>) {
    forall i, j :: 0 <= i < j < |t| ==> t[i].score >= t[j].score
  }

  /** The entries with one score, in their order. */
  function WithScore(t: seq<Entry>, v: int): seq<Entry> {
    if t == [] then []
    else (if t[0].score == v then [t[0]] else []) + WithScore(t[1..], v)
  }

  lemma {:induction false} WithScoreAppend(a: seq<Entry>, b: seq<Entry>, v: int)
    ensures WithScore(a + b, v) == WithScore(a, v) + WithScore(b, v)
    decreases |a|
  {
    if a != [] {
      assert (a + b)[1..] == a[1..] + b;
      WithScoreAppend(a[1..], b, v);
    } else {
      assert a + b == b;
    }
  }

  lemma {:induction false} InsertMultiset(e: Entry, t: seq<Entry>)
    ensures multiset(Insert(e, t)) == multiset{e} + multiset(t)
    decreases |t|
  {
    if t != [] && e.score < t[0].score {
      InsertMultiset(e, t[1..]);
      assert t == [t[0]] + t[1..];
    }
  }

  lemma {:induction false} InsertSorted(e: Entry, t: seq<Entry>)
    requires SortedDesc(t)
    ensures SortedDesc(Insert(e, t))
    decreases |t|
  {
    if t != [] && e.score < t[0].score {
      var rest := Insert(e, t[1..]);
      InsertSorted(e, t[1..]);
      InsertMultiset(e, t[1..]);
      forall j | 0 <= j < |rest| ensures t[0].score >= rest[j].score {
        assert rest[j] in multiset(rest);
        if rest[j] != e {
          assert rest[j] in multiset(t[1..]);
          var k :| 0 <= k < |t[1..]| && t[1..][k] == rest[j];
          assert t[k + 1] == rest[j];
        }
      }
      var r := [t[0]] + rest;
      forall i, j | 0 <= i < j < |r| ensures r[i].score >= r[j].score {
        if i == 0 {
          assert r[j] == rest[j - 1];
        } else {
          assert r[i] == rest[i - 1] && r[j] == rest[j - 1];
        }
      }
    }
  }

  /** The new entry goes after no entry of its own score: it keeps its place among ties. */
  lemma {:induction false} InsertStable(e: Entry, t: seq<Entry>, v: int)
    ensures WithScore(Insert(e, t), v) == WithScore([e] + t, v)
    decreases |t|
  {
    if t != [] && e.score < t[0].score {
      InsertStable(e, t[1..], v);
      WithScoreAppend([t[0]], Insert(e, t[1..]), v);
      WithScoreAppend([e], t[1..], v);
      WithScoreAppend([e], t, v);
      WithScoreAppend([t[0]], t[1..], v);
      assert t == [t[0]] + t[1..];
      if t[0].score == v {
        assert WithScore([e], v) == [] by {
          assert ([e])[1..] == [];
        }
      } else {
        assert WithScore([t[0]], v) == [] by {
          assert ([t[0]])[1..] == [];
        }
      }
    } else {
      assert Insert(e, t) == [e] + t;
    }
  }

  /**
    The sort puts the scores in descending order, loses and adds nothing, and keeps
    entries of equal score in the order they had in `scores`.
   */
  lemma {:induction false} SortDescCorrect(s: seq<Entry>)
    ensures SortedDesc(SortDesc(s))
    ensures multiset(SortDesc(s)) == multiset(s)
    ensures forall v :: WithScore(SortDesc(s), v) == WithScore(s, v)
    decreases |s|
  {
    if s != [] {
      SortDescCorrect(s[1..]);
      InsertSorted(s[0], SortDesc(s[1..]));
      InsertMultiset(s[0], SortDesc(s[1..]));
      assert s == [s[0]] + s[1..];
      forall v ensures WithScore(SortDesc(s), v) == WithScore(s, v) {
        InsertStable(s[0], SortDesc(s[1..]), v);
        WithScoreAppend([s[0]], SortDesc(s[1..]), v);
        WithScoreAppend([s[0]], s[1..], v);
      }
    }
  }

  function Min(a: int, b: int): int {
    if a <= b then a else b
  }

  /** The first three entries of the sorted list. */
  function Top3(s: seq<Entry>): seq<Entry> {
    SortDesc(s)[..Min(3, |s|)]
  }

  /**
    The result holds three entries, or all of them when there are fewer; together with
    the omitted ones it is exactly `scores`; no omitted score beats a returned one.
   */
  lemma Top3Correct(s: seq<Entry>)
    ensures var r := Top3(s); var omitted := SortDesc(s)[|r|..];
      && |r| == Min(3, |s|)
      && multiset(r) + multiset(omitted) == multiset(s)
      && SortedDesc(r)
      && (forall i, j :: 0 <= i < |r| && 0 <= j < |omitted| ==> r[i].score >= omitted[j].score)
  {
    var t := SortDesc(s);
    var r := Top3(s);
    SortDescCorrect(s);
    assert t == r + t[|r|..];
    forall i, j | 0 <= i < |r| && 0 <= j < |t[|r|..]| ensures r[i].score >= t[|r|..][j].score {
      assert r[i] == t[i] && t[|r|..][j] == t[|r| + j];
    }
  }

  /**
    The answer of `/match`: at most three clinicians, each with its own score, none of
    them beaten by a clinician left out.
   */
  lemma MatchAnswer(p: Preferences, cs: seq<Clinician>)
    ensures var scores := ScoresOf(p, cs); var r := Top3(scores);
      && |r| == Min(3, |KeysOf(cs)|)
      && (forall i :: 0 <= i < |r| ==>
            r[i].key in KeysOf(cs) && LastWith(cs, r[i].key).Some?
            && r[i].score == Score(p, LastWith(cs, r[i].key).value))
  {
    var scores := ScoresOf(p, cs);
    ScoresShape(p, cs);
    DistinctCard(scores);
    Top3Correct(scores);
    var r := Top3(scores);
    SortDescCorrect(scores);
    forall i | 0 <= i < |r|
      ensures r[i].key in KeysOf(cs) && LastWith(cs, r[i].key).Some?
      ensures r[i].score == Score(p, LastWith(cs, r[i].key).value)
    {
      assert r[i] in multiset(scores) by {
        assert r[i] == SortDesc(scores)[i];
        assert r[i] in multiset(SortDesc(scores));
      }
      var j :| 0 <= j < |scores| && scores[j] == r[i];
      assert r[i].key in Keys(scores);
      DistinctLookup(scores, j);
      ScoresLookup(p, cs, r[i].key);
    }
  }

  lemma {:induction false} DistinctLookup(m: seq<Entry>, j: nat)
    requires DistinctKeys(m) && j < |m|
    ensures Lookup(m, m[j].key) == Some(m[j].score)
    decreases j
  {
    if j > 0 {
      assert DistinctKeys(m[1..]) by {
        forall a, b | 0 <= a < b < |m[1..]| ensures m[1..][a].key != m[1..][b].key {
          assert m[1..][a] == m[a + 1] && m[1..][b] == m[b + 1];
        }
      }
      assert m[0].key != m[j].key;
      DistinctLookup(m[1..], j - 1);
    }
  }

  lemma {:induction false} DistinctCard(m: seq<Entry>)
    requires DistinctKeys(m)
    ensures |Keys(m)| == |m|
    decreases |m|
  {
    if m != [] {
      assert DistinctKeys(m[1..]) by {
        forall a, b | 0 <= a < b < |m[1..]| ensures m[1..][a].key != m[1..][b].key {
          assert m[1..][a] == m[a + 1] && m[1..][b] == m[b + 1];
        }
      }
      DistinctCard(m[1..]);
      assert Keys(m) == {m[0].key} + Keys(m[1..]) by {
        forall x | x in Keys(m) ensures x in {m[0].key} + Keys(m[1..]) {
          var i :| 0 <= i < |m| && m[i].key == x;
          if i > 0 {
            assert m[1..][i - 1].key == x;
          }
        }
        forall x | x in Keys(m[1..]) ensures x in Keys(m) {
          var i :| 0 <= i < |m[1..]| && m[1..][i].key == x;
          assert m[i + 1].key == x;
        }
      }
      assert m[0].key !in Keys(m[1..]) by {
        forall i | 0 <= i < |m[1..]| ensures m[1..][i].key != m[0].key {
          assert m[1..][i] == m[i + 1];
        }
      }
    }
  }
}
