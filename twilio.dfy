/**
  twilio/function.js: the serverless function the SMS workflow runs when a patient
  replies. It forwards the reply to `/receiveNotify` with a Basic Authorization header
  and reports the outcome to the workflow through `callback`.

  The POST is an input: either it rejects (a network error, or a status outside
  200-299, which axios turns into a rejection by default) or it resolves with a status.
 */
module Twilio {
  import opened Text
  import Utf8
  import Base64
  import Notify

  /** The fields of the incoming event the function forwards. */
  datatype Event = Event(tn: Option<string>, notifyId: Option<string>, patientId: Option<string>)

  datatype Post = Post(authorization: string, body: Event)

  datatype PostResult = Rejected | Resolved(status: int)

  /** One invocation of `callback(error, result)`. */
  datatype Callback = Error(message: string) | Success(result: string)

  /**
    `"Basic " + Buffer.from("Basic " + username + ":" + password).toString('base64')`:
    the scheme word appears outside the encoded payload and again inside it.
   */
  function AuthHeader(username: string, password: string): string {
    "Basic " + Base64.Encode(Utf8.Encode("Basic " + username + ":" + password))
  }

  /** axios rejects a response whose status is outside 200-299. */
  predicate Throws(r: PostResult) {
    r.Rejected? || !(200 <= r.status < 300)
  }

  /**
    The callbacks, in the order they are invoked. When the POST throws, `catch`
    calls back "already fulfilled" and `finally` then calls back "failed" because `r`
    was never assigned; a status of 208 or 200 gets one callback; any other 2xx gets none.
   */
  function Callbacks(r: PostResult): seq<Callback> {
    if Throws(r) then [Error("already fulfilled"), Error("failed")]
    else if r.status == 208 then [Error("already fulfilled")]
    else if r.status == 200 then [Success("success")]
    else []
  }

  /** The handler: the request it sends and the callbacks it then makes. */
  function Handler(username: string, password: string, event: Event, result: PostResult): (Post, seq<Callback>)
  {
    (Post(AuthHeader(username, password), event), Callbacks(result))
  }

  /**
    The forwarded body carries the event's three fields unchanged, whatever the outcome,
    under the header "Basic " + base64("Basic " + username + ":" + password).
   */
  lemma ForwardsEvent(username: string, password: string, event: Event, result: PostResult)
    ensures var post := Handler(username, password, event, result).0;
      && post.body.tn == event.tn && post.body.notifyId == event.notifyId
      && post.body.patientId == event.patientId
      && post.authorization == "Basic " + Base64.Encode(Utf8.Encode("Basic " + username + ":" + password))
      && Handler(username, password, event, result).1 == Callbacks(result)
  {
  }

  /** How each outcome is reported: at most two callbacks, the second only after a throw. */
  lemma CallbackOutcomes(r: PostResult)
    ensures |Callbacks(r)| <= 2
    ensures Callbacks(r) == [Success("success")] <==> r == Resolved(200)
    ensures |Callbacks(r)| == 2 <==> Throws(r)
    ensures Throws(r) ==> Callbacks(r) == [Error("already fulfilled"), Error("failed")]
    ensures r == Resolved(208) ==> Callbacks(r) == [Error("already fulfilled")]
    ensures Callbacks(r) == [] <==> (r.Resolved? && 200 <= r.status < 300 && r.status != 200 && r.status != 208)
  {
  }

  predicate Clean(s: string) {
    ' ' !in s && ':' !in s
  }

  /** The header splits into the scheme word "Basic" and the encoded payload. */
  lemma HeaderParts(username: string, password: string)
    ensures var enc := Base64.Encode(Utf8.Encode("Basic " + username + ":" + password));
      Split(AuthHeader(username, password), ' ') == ["Basic", enc]
  {
    var enc := Base64.Encode(Utf8.Encode("Basic " + username + ":" + password));
    Base64.EncodeHasNoSpace(Utf8.Encode("Basic " + username + ":" + password));
    assert AuthHeader(username, password) == "Basic" + [' '] + enc;
    SplitAtFirst("Basic", enc, ' ');
    SplitNoSeparator(enc, ' ');
  }

  /**
    The credentials `/receiveNotify` reads out of the header this function builds:
    the second space-separated word of the decoded payload, split on ":".
   */
  lemma ParseOfHeader(username: string, password: string)
    ensures var t := username + ":" + password;
      var w := Split(t, ' ')[0];
      var cp := Split(w, ':');
      Notify.ParseBasicAuth(Some(AuthHeader(username, password)))
        == Notify.Credentials(cp[0], if |cp| >= 2 then Some(cp[1]) else None)
  {
    var t := username + ":" + password;
    var payload := "Basic " + username + ":" + password;
    var enc := Base64.Encode(Utf8.Encode(payload));
    var parts := Split(AuthHeader(username, password), ' ');
    HeaderParts(username, password);
    assert parts == ["Basic", enc];
    assert Lower(parts[0]) == "basic" by {
      assert Lower("Basic") == "basic";
    }
    var decoded := Utf8.Decode(Base64.Decode(parts[1]));
    assert decoded == payload by {
      Base64.EncodeStringRoundTrip(payload);
    }
    var words := Split(decoded, ' ');
    assert words == ["Basic"] + Split(t, ' ') by {
      assert payload == "Basic" + [' '] + t;
      SplitAtFirst("Basic", t, ' ');
    }
    assert |words| >= 2 && words[1] == Split(t, ' ')[0];
  }

  /**
    The Basic-auth round trip: `/receiveNotify` recovers exactly the username and the
    password this function encoded if and only if neither contains a space or a colon.
   */
  lemma {:induction false} RoundTrip(username: string, password: string)
    ensures Notify.ParseBasicAuth(Some(AuthHeader(username, password)))
              == Notify.Credentials(username, Some(password))
            <==> Clean(username) && Clean(password)
  {
    ParseOfHeader(username, password);
    var t := username + ":" + password;
    var w := Split(t, ' ')[0];
    var cp := Split(w, ':');
    if ' ' in username {
      var i :| 0 <= i < |username| && username[i] == ' ';
      assert t[i] == ' ';
      SplitFirstShort(t, ' ', i);
      SplitFirstPrefix(w, ':');
    } else {
      assert t == (username + ":") + password;
      SplitFreePrefix(username + ":", password, ' ');
      var pw := Split(password, ' ')[0];
      assert w == username + ":" + pw;
      if ':' in username {
        var i :| 0 <= i < |username| && username[i] == ':';
        assert w[i] == ':';
        SplitFirstShort(w, ':', i);
      } else {
        SplitAtFirst(username, pw, ':');
        assert cp == [username] + Split(pw, ':');
        if ' ' in password {
          var k :| 0 <= k < |password| && password[k] == ' ';
          SplitFirstShort(password, ' ', k);
          SplitFirstPrefix(pw, ':');
        } else {
          SplitNoSeparator(password, ' ');
          assert pw == password;
          if ':' in password {
            var k :| 0 <= k < |password| && password[k] == ':';
            SplitFirstShort(password, ':', k);
          } else {
            SplitNoSeparator(password, ':');
          }
        }
      }
    }
  }

  /**
    End to end: with the same clean credentials configured on both sides, the claim the
    function forwards is authenticated and decided by the first-come-first-served rule,
    and a claim of a fulfilled notification is reported as "already fulfilled".
   */
  lemma ForwardedClaim(db: Notify.Db, username: string, password: string, notifyId: string, patientId: string)
    requires Clean(username) && Clean(password)
    ensures var header := Some(AuthHeader(username, password));
      Notify.Receive(db, header, username, password, notifyId, patientId)
        == Notify.Claim(db, notifyId, patientId)
    ensures notifyId in db.history && db.history[notifyId].fulfilled ==>
      var reply := Notify.Receive(db, Some(AuthHeader(username, password)), username, password, notifyId, patientId).0;
      Callbacks(Resolved(reply.code)) == [Error("already fulfilled")]
  {
    RoundTrip(username, password);
  }
}
