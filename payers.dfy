/**
  The payer-name to payer-code tables of the two eligibility handlers: `translate` in
  pverify/index.js and its larger copy in `/eligibility` of app/app.js. Each table is
  the list of its entries in the order the object literal writes them; a name the table
  does not hold has no code (`translate[p]` is undefined).
 */
module Payers {
  import opened Text

  type Table = seq<(string, string)>

  const PverifyTable: Table := [
    ("Aetna", "00001"),
    ("AmeriHealth (DE, NJ, PA)", "000929"),
    ("AmeriHealth Administrators", "00460"),
    ("AmeriHealth Caritas DC", "00996"),
    ("AmeriHealth Caritas Delaware", "01413"),
    ("AmeriHealth Caritas Iowa", "00997"),
    ("AmeriHealth Caritas Louisiana (LaCare)", "00998"),
    ("AmeriHealth Caritas PA", "00351"),
    ("AmeriHealth Caritas VIP Care Plus", "00999"),
    ("AmeriHealth New Jersey", "01000"),
    ("AmeriHealth Northeast Pennsylvania", "01001"),
    ("AmeriHealth Pennsylvania", "01002"),
    ("AmeriHealth VIP Care", "01003"),
    ("Blue Cross Blue Shield", "S001"),
    ("Capital Blue Cross", "00060"),
    ("Cigna", "00510"),
    ("Independence Blue Cross", "00115"),
    ("Highmark", "01136"),
    ("Magellan", "00676"),
    ("Optum", "UHG007"),
    ("United Healthcare", "00192")
  ]

  /** The entries the app's table adds after the 21 it shares with pverify/index.js. */
  const AppOnly: Table := [
    ("Trustmark", "00189"),
    ("IBC Personal Choice", "00115"),
    ("Independence Administrators", "00435"),
    ("Keystone Health Plan East", "00115"),
    ("Meritain Health", "00893"),
    ("OptumHealth Behavioral", "UHG007"),
    ("Highmark Blue Cross", "S001")
  ]

  const AppTable: Table := PverifyTable + AppOnly

  function Names(t: Table): set<string> {
    set i | 0 <= i < |t| :: t[i].0
  }

  /** The code of the first entry with the name. */
  function Lookup(t: Table, name: string): Option<string> {
    if t == [] then None
    else if t[0].0 == name then Some(t[0].1)
    else Lookup(t[1..], name)
  }

  /** A name has a code exactly when the table lists it, and the code is listed with it. */
  lemma {:induction false} LookupSpec(t: Table, name: string)
    ensures Lookup(t, name).Some? <==> name in Names(t)
    ensures Lookup(t, name).Some? ==> (name, Lookup(t, name).value) in t
    decreases |t|
  {
    if t != [] {
      LookupSpec(t[1..], name);
      assert t[0].0 in Names(t);
      assert Names(t) == {t[0].0} + Names(t[1..]) by {
        forall x | x in Names(t) ensures x in {t[0].0} + Names(t[1..]) {
          var i :| 0 <= i < |t| && t[i].0 == x;
          if i > 0 {
            assert t[1..][i - 1].0 == x;
          }
        }
        forall x | x in Names(t[1..]) ensures x in Names(t) {
          var i :| 0 <= i < |t[1..]| && t[1..][i].0 == x;
          assert t[i + 1].0 == x;
        }
      }
    }
  }

  /** `translate[p]`: an undefined `p` is looked up as the key "undefined". */
  function Translate(t: Table, p: Option<string>): Option<string> {
    Lookup(t, JsString(p))
  }

  predicate CodesNonEmpty(t: Table) {
    forall i :: 0 <= i < |t| ==> t[i].1 != ""
  }

  /** Every code of both tables is a non-empty string: `!translate[p]` means an unknown name. */
  lemma CodesTruthy(p: Option<string>)
    ensures Truthy(Translate(PverifyTable, p)) <==> JsString(p) in Names(PverifyTable)
    ensures Truthy(Translate(AppTable, p)) <==> JsString(p) in Names(AppTable)
  {
    assert CodesNonEmpty(PverifyTable);
    assert CodesNonEmpty(AppOnly);
    assert CodesNonEmpty(AppTable);
    TruthyIffListed(PverifyTable, JsString(p));
    TruthyIffListed(AppTable, JsString(p));
  }

  lemma TruthyIffListed(t: Table, name: string)
    requires CodesNonEmpty(t)
    ensures Truthy(Lookup(t, name)) <==> name in Names(t)
  {
    LookupSpec(t, name);
  }

  lemma {:induction false} LookupAppend(a: Table, b: Table, name: string)
    ensures Lookup(a, name).Some? ==> Lookup(a + b, name) == Lookup(a, name)
    ensures Lookup(a, name).None? ==> Lookup(a + b, name) == Lookup(b, name)
    decreases |a|
  {
    if a == [] {
      assert a + b == b;
    } else {
      assert (a + b)[0] == a[0] && (a + b)[1..] == a[1..] + b;
      LookupAppend(a[1..], b, name);
    }
  }

  /**
    The app's table extends the pverify one: a name pverify/index.js knows has the same
    code in app/app.js, and any other name has the code of the entries the app adds.
   */
  lemma AppTableExtends(p: Option<string>)
    ensures Translate(PverifyTable, p).Some? ==> Translate(AppTable, p) == Translate(PverifyTable, p)
    ensures Translate(PverifyTable, p).None? ==> Translate(AppTable, p) == Translate(AppOnly, p)
  {
    LookupAppend(PverifyTable, AppOnly, JsString(p));
  }

  /** A name is found at the first entry whose name shares its first letter. */
  lemma {:induction false} LookupByInitial(t: Table, i: nat, name: string)
    requires i < |t| && t[i].0 == name && name != []
    requires forall j :: 0 <= j < i ==> t[j].0 == [] || t[j].0[0] != name[0]
    ensures Lookup(t, name) == Some(t[i].1)
    decreases i
  {
    if i > 0 {
      assert t[0].0 != name;
      LookupByInitial(t[1..], i - 1, name);
    }
  }

  /** A name whose first letter begins no listed name has no code. */
  lemma {:induction false} NotListedByInitial(t: Table, name: string)
    requires name != []
    requires forall j :: 0 <= j < |t| ==> t[j].0 == [] || t[j].0[0] != name[0]
    ensures Lookup(t, name) == None
    decreases |t|
  {
    if t != [] {
      assert t[0].0 != name;
      NotListedByInitial(t[1..], name);
    }
  }

  /** Two entries as the pverify table states them. */
  lemma OptumAndAetna()
    ensures Translate(PverifyTable, Some("Optum")) == Some("UHG007")
    ensures Translate(PverifyTable, Some("Aetna")) == Some("00001")
  {
    LookupByInitial(PverifyTable, 19, "Optum");
    LookupByInitial(PverifyTable, 0, "Aetna");
  }

  /** "Trustmark" has a code only in the app's table. */
  lemma TrustmarkOnlyInApp()
    ensures Translate(PverifyTable, Some("Trustmark")) == None
    ensures Translate(AppTable, Some("Trustmark")) == Some("00189")
  {
    NotListedByInitial(PverifyTable, "Trustmark");
    LookupByInitial(AppOnly, 0, "Trustmark");
    AppTableExtends(Some("Trustmark"));
  }
}
