/**
  `/receiveNotify` in app/app.js: the SMS workflow calls it when a patient replies to
  an appointment offer. The caller authenticates with a Basic Authorization header;
  then the first patient to claim a notification gets the appointment, and every
  later claim for the same notification is answered with 208.

  The Firestore collections the handler reads and writes are maps held by
  `NotifyService`. When the handler throws without catching (a property read on a
  missing document, an update of a missing document), it sends nothing itself; the
  model names that outcome `NoResponse`. What the runtime then does with the rejected
  promise is outside the model.
 */
module Notify {
  import opened Text
  import Utf8
  import Base64

  // ---------------------------------------------------------------------------
  // Basic authentication

  /** What the credential-parsing code yields, or that it throws. */
  datatype Parsed =
    | NotBasic
    | Throws
    | Credentials(username: string, password: Option<string>)

  /**
    `authHeader.split(" ")`, the scheme check and the decoding of the credentials:
    the decoded text is split on " ", its SECOND word is split on ":", and the first
    two parts are the username and the password (undefined when there is no ":").
   */
  function ParseBasicAuth(header: Option<string>): Parsed
  {
    if !Truthy(header) then NotBasic
    else
      var parts := Split(header.value, ' ');
      if Lower(parts[0]) != "basic" then NotBasic
      else if |parts| < 2 then Throws
      else
        var decoded := Utf8.Decode(Base64.Decode(parts[1]));
        var words := Split(decoded, ' ');
        if |words| < 2 then Throws
        else
          var cp := Split(words[1], ':');
          Credentials(cp[0], if |cp| >= 2 then Some(cp[1]) else None)
  }

  datatype AuthOutcome = Authorised | Refused | Crashed

  /** The handler goes on only when both parts equal the configured credentials. */
  function Authenticate(header: Option<string>, username: string, password: string): (r: AuthOutcome)
    ensures r == Authorised <==> ParseBasicAuth(header) == Credentials(username, Some(password))
    ensures r == Crashed <==> ParseBasicAuth(header) == Throws
  {
    match ParseBasicAuth(header)
    case NotBasic => Refused
    case Throws => Crashed
    case Credentials(u, p) => if u == username && p == Some(password) then Authorised else Refused
  }

  /** Any scheme word other than "basic", in any letter case, is refused before decoding. */
  lemma SchemeChecked(header: string)
    requires header != "" && Lower(Split(header, ' ')[0]) != "basic"
    ensures forall u, p :: Authenticate(Some(header), u, p) == Refused
  {
  }

  // ---------------------------------------------------------------------------
  // The claim

  /** A `history` document: one per notification sent out. */
  datatype HistoryDoc = HistoryDoc(
    fulfilled: bool,
    patientId: Option<string>,
    isLoaded: Option<bool>,
    patientName: Option<string>,
    details: map<string, string>)  // notifyId, clinician, appt, ...: the handler's `update` leaves them as they are

  /** A `notifies` document, one per notification and patient. */
  datatype NotifyDoc = NotifyDoc(complete: bool, details: map<string, string>)

  datatype PatientDoc = PatientDoc(firstName: Option<string>, lastName: Option<string>)

  datatype WaitlistDoc = WaitlistDoc(clinician: string, patientName: string)

  datatype Db = Db(
    history: map<string, HistoryDoc>,
    notifies: map<string, NotifyDoc>,
    patients: map<string, PatientDoc>,
    waitlists: map<string, WaitlistDoc>)

  datatype Reply = Status(code: int) | NoResponse

  function NotifyKey(notifyId: string, patientId: string): string {
    notifyId + "_" + patientId
  }

  function PatientName(p: PatientDoc): string {
    JsString(p.firstName) + " " + JsString(p.lastName)
  }

  /** The `update` of the history document: the fields it names change, the rest stay. */
  function MarkFulfilled(h: HistoryDoc, patientId: string, patientName: string): HistoryDoc {
    h.(fulfilled := true, patientId := Some(patientId), isLoaded := Some(false),
       patientName := Some(patientName))
  }

  /**
    The claim once authenticated, with the two reads apart from the writes: `seen` is the
    database as the handler read the history and patient documents (app/app.js:551-569),
    `db` the database when its writes run (app/app.js:579-598). Nothing makes the two
    one transaction. In the handler's order: a fulfilled history answers 208; a missing
    patient throws before anything is written; the history update throws when the
    history is missing; the notify update throws when that document is missing, after
    the history was written; then the waitlist entry is deleted (deleting a missing one
    is no error) and the answer is 200.
   */
  function ClaimOver(seen: Db, db: Db, notifyId: string, patientId: string): (Reply, Db)
  {
    if notifyId in seen.history && seen.history[notifyId].fulfilled then (Status(208), db)
    else if patientId !in seen.patients || notifyId !in db.history then (NoResponse, db)
    else
      var name := PatientName(seen.patients[patientId]);
      var db1 := db.(history := db.history[notifyId := MarkFulfilled(db.history[notifyId], patientId, name)]);
      var key := NotifyKey(notifyId, patientId);
      if key !in db.notifies then (NoResponse, db1)
      else
        (Status(200), db1.(notifies := db.notifies[key := db.notifies[key].(complete := true)],
                           waitlists := db.waitlists - {patientId}))
  }

  /** A claim that runs alone: it reads and writes the same database. */
  function Claim(db: Db, notifyId: string, patientId: string): (Reply, Db)
  {
    ClaimOver(db, db, notifyId, patientId)
  }

  /** The whole handler: authentication first, then the claim. */
  function Receive(db: Db, header: Option<string>, username: string, password: string,
                   notifyId: string, patientId: string): (Reply, Db)
  {
    match Authenticate(header, username, password)
    case Refused => (Status(401), db)
    case Crashed => (NoResponse, db)
    case Authorised => Claim(db, notifyId, patientId)
  }

  /** Whatever the header, a request that is not authorised writes nothing. */
  lemma UnauthorisedWritesNothing(db: Db, header: Option<string>, username: string, password: string,
                                  notifyId: string, patientId: string)
    requires Authenticate(header, username, password) != Authorised
    ensures Receive(db, header, username, password, notifyId, patientId).1 == db
    ensures Receive(db, header, username, password, notifyId, patientId).0 ==
      (if Authenticate(header, username, password) == Refused then Status(401) else NoResponse)
  {
  }

  /** An already fulfilled notification is answered with 208 and nothing is written. */
  lemma FulfilledAnswers208(db: Db, notifyId: string, patientId: string)
    requires notifyId in db.history && db.history[notifyId].fulfilled
    ensures Claim(db, notifyId, patientId) == (Status(208), db)
  {
  }

  /**
    A claim succeeds exactly when the history exists unfulfilled and the patient and
    the patient's notify document exist; the new state is then the history fulfilled
    for this patient (named by the patient document, `isLoaded` reset), the notify
    complete and the waitlist entry gone, nothing else.
   */
  lemma ClaimSuccess(db: Db, notifyId: string, patientId: string)
    ensures var (reply, db') := Claim(db, notifyId, patientId);
      && (reply == Status(200) <==>
          notifyId in db.history && !db.history[notifyId].fulfilled
          && patientId in db.patients && NotifyKey(notifyId, patientId) in db.notifies)
      && (reply == Status(200) ==>
          var key := NotifyKey(notifyId, patientId);
          && db'.history.Keys == db.history.Keys
          && db'.history[notifyId].fulfilled
          && db'.history[notifyId].patientId == Some(patientId)
          && db'.history[notifyId].isLoaded == Some(false)
          && db'.history[notifyId].patientName ==
             Some(JsString(db.patients[patientId].firstName) + " " + JsString(db.patients[patientId].lastName))
          && db'.history[notifyId].details == db.history[notifyId].details
          && (forall n :: n in db.history && n != notifyId ==> db'.history[n] == db.history[n])
          && db'.notifies.Keys == db.notifies.Keys
          && db'.notifies[key] == db.notifies[key].(complete := true)
          && (forall k :: k in db.notifies && k != key ==> db'.notifies[k] == db.notifies[k])
          && db'.waitlists == db.waitlists - {patientId}
          && db'.patients == db.patients)
  {
  }

  /**
    A claim that is not answered 200 leaves notifies, waitlists and patients as they
    were; the history changes only when the notify document alone was missing.
   */
  lemma FailedClaimWrites(db: Db, notifyId: string, patientId: string)
    ensures var (reply, db') := Claim(db, notifyId, patientId);
      reply != Status(200) ==>
        && db'.notifies == db.notifies && db'.waitlists == db.waitlists && db'.patients == db.patients
        && (db'.history != db.history ==>
              reply == NoResponse && patientId in db.patients && notifyId in db.history
              && NotifyKey(notifyId, patientId) !in db.notifies)
  {
  }

  /** Once a claim has written the history, every later claim of that notification gets 208. */
  lemma {:induction false} SecondClaimRejected(db: Db, notifyId: string, first: string, second: string)
    requires Claim(db, notifyId, first).1.history != db.history
    ensures var db' := Claim(db, notifyId, first).1;
      Claim(db', notifyId, second) == (Status(208), db')
  {
    var db' := Claim(db, notifyId, first).1;
    assert db'.history[notifyId].fulfilled;
    FulfilledAnswers208(db', notifyId, second);
  }

  /**
    Two claims of the same notification that both read the database before either
    writes both succeed: each patient is answered 200 and taken off the waitlist, and the
    history ends up naming the second. First-come-first-served holds only for claims
    that do not overlap (SecondClaimRejected).
   */
  lemma OverlappingClaimsBothSucceed(db: Db, notifyId: string, first: string, second: string)
    requires notifyId in db.history && !db.history[notifyId].fulfilled
    requires first in db.patients && second in db.patients
    requires NotifyKey(notifyId, first) in db.notifies && NotifyKey(notifyId, second) in db.notifies
    ensures var (r1, db1) := ClaimOver(db, db, notifyId, first);
      var (r2, db2) := ClaimOver(db, db1, notifyId, second);
      && r1 == Status(200) && r2 == Status(200)
      && db2.history[notifyId].fulfilled && db2.history[notifyId].patientId == Some(second)
      && first !in db2.waitlists && second !in db2.waitlists
      && db2.notifies[NotifyKey(notifyId, first)].complete
      && db2.notifies[NotifyKey(notifyId, second)].complete
  {
  }

  /** The Firestore collections `/receiveNotify` touches, updated in place. */
  class NotifyService {
    const username: string
    const password: string
    var history: map<string, HistoryDoc>
    var notifies: map<string, NotifyDoc>
    var patients: map<string, PatientDoc>
    var waitlists: map<string, WaitlistDoc>

    function State(): Db
      reads this
    {
      Db(history, notifies, patients, waitlists)
    }

    constructor (username: string, password: string, db: Db)
      ensures this.username == username && this.password == password && State() == db
    {
      this.username := username;
      this.password := password;
      history := db.history;
      notifies := db.notifies;
      patients := db.patients;
      waitlists := db.waitlists;
    }

    method ReceiveNotify(authorization: Option<string>, notifyId: string, patientId: string)
      returns (reply: Reply)
      modifies this
      ensures (reply, State()) ==
        Receive(old(State()), authorization, username, password, notifyId, patientId)
    {
      var auth := Authenticate(authorization, username, password);
      if auth == Refused {
        return Status(401);
      }
      if auth == Crashed {
        return NoResponse;
      }
      if notifyId in history && history[notifyId].fulfilled {
        return Status(208);
      }
      if patientId !in patients || notifyId !in history {
        return NoResponse;
      }
      var name := PatientName(patients[patientId]);
      history := history[notifyId := MarkFulfilled(history[notifyId], patientId, name)];
      var key := NotifyKey(notifyId, patientId);
      if key !in notifies {
        return NoResponse;
      }
      notifies := notifies[key := notifies[key].(complete := true)];
      waitlists := waitlists - {patientId};
      reply := Status(200);
    }
  }
}
