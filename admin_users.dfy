/**
  The two admin endpoints of app/app.js that reshape user accounts: `GET /admin/users`,
  which lists the enabled accounts with their secrets stripped, and
  `POST /admin/users/:uid`, which changes an account's email, display name, role and
  picture under the role-change rule.

  The authentication accounts are a map from uid to record; whether the caller holds a
  header and is a verified admin is an input.
 */
module AdminUsers {
  import opened Text

  // ---------------------------------------------------------------------------
  // `GET /admin/users`: the user-list sanitiser

  /** A property of `user.toJSON()` other than the custom claims. */
  datatype Field = Str(s: string) | Bool(b: bool) | Structured  // arrays and objects

  function FieldTruthy(f: Field): bool {
    match f
    case Str(s) => s != ""
    case Bool(b) => b
    case Structured => true
  }

  /** `user.toJSON()`: its properties, and the custom claims object when there is one. */
  datatype UserJson = UserJson(props: map<string, Field>, customClaims: Option<map<string, string>>)

  const Removed: set<string> :=
    {"disabled", "emailVerified", "passwordHash", "passwordSalt", "providerData", "tokensValidAfterTime"}

  const DefaultImage: string := "https://storage.googleapis.com/brightside-375502-clinicians/unknown.jpeg"

  predicate Disabled(u: UserJson) {
    "disabled" in u.props && FieldTruthy(u.props["disabled"])
  }

  predicate HasImage(claims: map<string, string>) {
    "img_url" in claims && claims["img_url"] != ""
  }

  /** The listed form of an enabled user that has custom claims. */
  function Clean(u: UserJson): (r: UserJson)
    requires u.customClaims.Some?
    ensures r.customClaims.Some? && HasImage(r.customClaims.value)
    ensures r.props.Keys == u.props.Keys - Removed
    ensures forall k :: k in r.props ==> r.props[k] == u.props[k]
  {
    var claims := u.customClaims.value;
    UserJson(u.props - Removed,
             Some(if HasImage(claims) then claims else claims["img_url" := DefaultImage]))
  }

  /** What the loop does with one user. */
  datatype Step = Skip | Keep(user: UserJson) | Throw

  /**
    A disabled user is skipped; an enabled user without custom claims makes the
    assignment of `img_url` throw; any other is kept, cleaned.
   */
  function SanitiseOne(u: UserJson): Step {
    if Disabled(u) then Skip
    else if u.customClaims.None? then Throw
    else Keep(Clean(u))
  }

  /**
    The outcome of the callback: the list it sends, or `NoResponse` when the callback
    threw. The promise is not awaited and has no `.catch`, so the handler sends nothing;
    what the runtime then does with the rejection is outside the model.
   */
  datatype Listing = Listed(users: seq<UserJson>) | NoResponse

  /** The list after the loop has seen the given users, in order. */
  function Sanitise(records: seq<UserJson>): Listing
    decreases |records|
  {
    if records == [] then Listed([])
    else
      match Sanitise(records[..|records| - 1])
      case NoResponse => NoResponse
      case Listed(vs) =>
        match SanitiseOne(records[|records| - 1])
        case Skip => Listed(vs)
        case Throw => NoResponse
        case Keep(v) => Listed(vs + [v])
  }

  /** The `forEach` over the listed users, pushing onto `users`. */
  method ListUsers(records: seq<UserJson>) returns (result: Listing)
    ensures result == Sanitise(records)
  {
    var users: seq<UserJson> := [];
    for i := 0 to |records|
      invariant Sanitise(records[..i]) == Listed(users)
    {
      assert records[..i + 1][..i] == records[..i];
      var u := records[i];
      if Disabled(u) {
        continue;
      }
      if u.customClaims.None? {
        assert Sanitise(records[..i + 1]) == NoResponse;
        NoResponseStays(records, i + 1);
        return NoResponse;
      }
      users := users + [Clean(u)];
    }
    assert records[..|records|] == records;
    result := Listed(users);
  }

  lemma {:induction false} NoResponseStays(records: seq<UserJson>, i: nat)
    requires i <= |records| && Sanitise(records[..i]) == NoResponse
    ensures Sanitise(records) == NoResponse
    decreases |records| - i
  {
    if i < |records| {
      assert records[..i + 1][..i] == records[..i];
      NoResponseStays(records, i + 1);
    } else {
      assert records[..i] == records;
    }
  }

  /** The enabled users, in order. */
  function Enabled(records: seq<UserJson>): (r: seq<UserJson>)
    ensures forall k :: 0 <= k < |r| ==> !Disabled(r[k])
    decreases |records|
  {
    if records == [] then []
    else
      var last := records[|records| - 1];
      Enabled(records[..|records| - 1]) + (if Disabled(last) then [] else [last])
  }

  function CleanAll(us: seq<UserJson>): (r: seq<UserJson>)
    requires forall k :: 0 <= k < |us| ==> us[k].customClaims.Some?
    ensures |r| == |us| && forall k :: 0 <= k < |us| ==> r[k] == Clean(us[k])
  {
    if us == [] then [] else [Clean(us[0])] + CleanAll(us[1..])
  }

  predicate AllHaveClaims(us: seq<UserJson>) {
    forall k :: 0 <= k < |us| ==> us[k].customClaims.Some?
  }

  /**
    The list is sent exactly when every enabled user has custom claims, and it is then
    the enabled users, in order, each cleaned.
   */
  lemma {:induction false} SanitiseIsCleanEnabled(records: seq<UserJson>)
    ensures Sanitise(records).Listed? <==> AllHaveClaims(Enabled(records))
    ensures Sanitise(records).Listed? ==> Sanitise(records).users == CleanAll(Enabled(records))
    decreases |records|
  {
    if records != [] {
      var front := records[..|records| - 1];
      var last := records[|records| - 1];
      SanitiseIsCleanEnabled(front);
      var e := Enabled(front);
      if Disabled(last) {
        assert Enabled(records) == e + [] == e;
        assert Sanitise(records) == Sanitise(front);
      } else {
        assert Enabled(records) == e + [last];
        AllHaveClaimsSnoc(e, last);
        if AllHaveClaims(e + [last]) {
          assert CleanAll(e + [last]) == CleanAll(e) + [Clean(last)];
        }
      }
    }
  }

  lemma AllHaveClaimsSnoc(e: seq<UserJson>, x: UserJson)
    ensures AllHaveClaims(e + [x]) <==> AllHaveClaims(e) && x.customClaims.Some?
  {
    if AllHaveClaims(e + [x]) {
      assert (e + [x])[|e|] == x;
      forall k | 0 <= k < |e| ensures e[k].customClaims.Some? {
        assert (e + [x])[k] == e[k];
      }
    }
    if AllHaveClaims(e) && x.customClaims.Some? {
      forall k | 0 <= k < |e + [x]| ensures (e + [x])[k].customClaims.Some? {
        if k < |e| {
          assert (e + [x])[k] == e[k];
        }
      }
    }
  }

  /** No listed user carries a removed field, and every one has a picture. */
  lemma ListedUsersClean(records: seq<UserJson>)
    requires Sanitise(records).Listed?
    ensures var vs := Sanitise(records).users;
      forall k :: 0 <= k < |vs| ==>
        && (forall f :: f in Removed ==> f !in vs[k].props)
        && vs[k].customClaims.Some? && HasImage(vs[k].customClaims.value)
  {
    SanitiseIsCleanEnabled(records);
  }

  /** A picture already set is kept; a missing or empty one becomes the default. */
  lemma CleanImage(u: UserJson)
    requires u.customClaims.Some?
    ensures var before := u.customClaims.value; var after := Clean(u).customClaims.value;
      && after["img_url"] == (if HasImage(before) then before["img_url"] else DefaultImage)
      && (forall k :: k in before && k != "img_url" ==> k in after && after[k] == before[k])
  {
  }

  // ---------------------------------------------------------------------------
  // `POST /admin/users/:uid`: the role update

  /** An authentication account: what `updateUser` and `setCustomUserClaims` change. */
  datatype Account = Account(email: string, displayName: string, claims: Option<map<string, string>>)

  /** The caller: no Authorization header, a caller that is not a verified admin, or an admin. */
  datatype Caller = NoHeader | NotAdmin | Admin

  datatype UpdateBody = UpdateBody(email: Option<string>, displayName: Option<string>,
                                   role: Option<string>, imgUrl: Option<string>)

  /**
    The role-change rule: a clinician stays a clinician, staff and admin stay within
    staff and admin; an account with any other role, or none, may get any role.
   */
  predicate RoleChangeAllowed(current: Option<string>, requested: string) {
    && !(current == Some("clinician") && requested != "clinician")
    && !((current == Some("staff") || current == Some("admin")) && requested != "admin" && requested != "staff")
  }

  function RoleOf(claims: map<string, string>): Option<string> {
    if "role" in claims then Some(claims["role"]) else None
  }

  /** The claims after a permitted change: the new role, and the picture only when one is sent. */
  function NewClaims(claims: map<string, string>, role: string, imgUrl: Option<string>): map<string, string> {
    var c := claims["role" := role];
    if Truthy(imgUrl) then c["img_url" := imgUrl.value] else c
  }

  datatype Outcome = Outcome(status: int, accounts: map<string, Account>, revoked: set<string>)

  /**
    The handler, in its order: 403 without a header; 400 for a missing email, display
    name or role; 403 for a caller that is not an admin; then the email and display name
    are written (500 if the account does not exist); then 500 if the account has no
    claims, 400 if the rule forbids the change, and otherwise the new claims are set,
    the refresh tokens revoked and the answer is 200.
   */
  function Update(accounts: map<string, Account>, revoked: set<string>, caller: Caller,
                  uid: string, body: UpdateBody): Outcome
  {
    if caller == NoHeader then Outcome(403, accounts, revoked)
    else if !Truthy(body.email) || !Truthy(body.displayName) || !Truthy(body.role) then
      Outcome(400, accounts, revoked)
    else if caller == NotAdmin then Outcome(403, accounts, revoked)
    else if uid !in accounts then Outcome(500, accounts, revoked)
    else
      var renamed := accounts[uid := accounts[uid].(email := body.email.value,
                                                    displayName := body.displayName.value)];
      var claims := accounts[uid].claims;
      if claims.None? then Outcome(500, renamed, revoked)
      else if !RoleChangeAllowed(RoleOf(claims.value), body.role.value) then Outcome(400, renamed, revoked)
      else
        Outcome(200,
                renamed[uid := renamed[uid].(claims := Some(NewClaims(claims.value, body.role.value, body.imgUrl)))],
                revoked + {uid})
  }

  /** Only the target account ever changes. */
  lemma UpdateTouchesOnlyTarget(accounts: map<string, Account>, revoked: set<string>, caller: Caller,
                                uid: string, body: UpdateBody)
    ensures var o := Update(accounts, revoked, caller, uid, body);
      && o.accounts.Keys == accounts.Keys
      && (forall u :: u in accounts && u != uid ==> o.accounts[u] == accounts[u])
      && o.revoked - {uid} == revoked - {uid}
  {
  }

  /** A clinician can only be set to clinician; staff and admin only to admin or staff. */
  lemma RoleRule(accounts: map<string, Account>, revoked: set<string>, caller: Caller,
                 uid: string, body: UpdateBody)
    requires uid in accounts && accounts[uid].claims.Some?
    requires Update(accounts, revoked, caller, uid, body).status == 200
    ensures var before := RoleOf(accounts[uid].claims.value);
      && (before == Some("clinician") ==> body.role == Some("clinician"))
      && (before == Some("staff") || before == Some("admin") ==>
            body.role == Some("admin") || body.role == Some("staff"))
  {
  }

  /**
    The update succeeds exactly when an admin sends a complete body for an existing
    account with claims and the rule allows the change; the account then has the new
    email, display name and role, a new picture only when one was sent, and its
    refresh tokens are revoked.
   */
  lemma UpdateSuccess(accounts: map<string, Account>, revoked: set<string>, caller: Caller,
                      uid: string, body: UpdateBody)
    ensures var o := Update(accounts, revoked, caller, uid, body);
      && (o.status == 200 <==>
            caller == Admin && Truthy(body.email) && Truthy(body.displayName) && Truthy(body.role)
            && uid in accounts && accounts[uid].claims.Some?
            && RoleChangeAllowed(RoleOf(accounts[uid].claims.value), body.role.value))
      && (o.status == 200 ==>
            var before := accounts[uid].claims.value;
            var after := o.accounts[uid].claims.value;
            && o.accounts[uid].email == body.email.value
            && o.accounts[uid].displayName == body.displayName.value
            && RoleOf(after) == body.role
            && ("img_url" in after <==> "img_url" in before || Truthy(body.imgUrl))
            && (!Truthy(body.imgUrl) && "img_url" in before ==> after["img_url"] == before["img_url"])
            && (Truthy(body.imgUrl) ==> after["img_url"] == body.imgUrl.value)
            && (forall k :: k in before && k != "role" && k != "img_url" ==> k in after && after[k] == before[k])
            && uid in o.revoked)
  {
  }

  /**
    A change the rule forbids is answered 400 with the claims as they were, but the
    email and display name already written.
   */
  lemma RejectedChangeKeepsClaims(accounts: map<string, Account>, revoked: set<string>,
                                  uid: string, body: UpdateBody)
    requires Truthy(body.email) && Truthy(body.displayName) && Truthy(body.role)
    requires uid in accounts && accounts[uid].claims.Some?
    requires !RoleChangeAllowed(RoleOf(accounts[uid].claims.value), body.role.value)
    ensures var o := Update(accounts, revoked, Admin, uid, body);
      && o.status == 400
      && o.accounts[uid].claims == accounts[uid].claims
      && o.accounts[uid].email == body.email.value
      && o.accounts[uid].displayName == body.displayName.value
      && o.revoked == revoked
  {
  }

  /** An incomplete body is refused before anything is written, whoever calls. */
  lemma IncompleteBodyWritesNothing(accounts: map<string, Account>, revoked: set<string>, caller: Caller,
                                    uid: string, body: UpdateBody)
    requires !Truthy(body.email) || !Truthy(body.displayName) || !Truthy(body.role)
    ensures var o := Update(accounts, revoked, caller, uid, body);
      o.accounts == accounts && o.revoked == revoked
      && o.status == (if caller == NoHeader then 403 else 400)
  {
  }

  /**
    A caller that is not an admin is refused before anything is written: 403, or 400
    when a signed-in non-admin sends an incomplete body.
   */
  lemma NonAdminWritesNothing(accounts: map<string, Account>, revoked: set<string>, caller: Caller,
                              uid: string, body: UpdateBody)
    requires caller != Admin
    ensures var o := Update(accounts, revoked, caller, uid, body);
      && o.accounts == accounts && o.revoked == revoked
      && o.status == (if caller == NotAdmin && (!Truthy(body.email) || !Truthy(body.displayName) || !Truthy(body.role))
                      then 400 else 403)
  {
  }

  /** The authentication accounts, updated in place by the handler. */
  class Directory {
    var accounts: map<string, Account>
    var revoked: set<string>

    constructor (accounts: map<string, Account>)
      ensures this.accounts == accounts && revoked == {}
    {
      this.accounts := accounts;
      revoked := {};
    }

    method UpdateUser(caller: Caller, uid: string, body: UpdateBody) returns (status: int)
      modifies this
      ensures Outcome(status, accounts, revoked) == Update(old(accounts), old(revoked), caller, uid, body)
    {
      if caller == NoHeader {
        return 403;
      }
      if !Truthy(body.email) || !Truthy(body.displayName) || !Truthy(body.role) {
        return 400;
      }
      if caller == NotAdmin {
        return 403;
      }
      if uid !in accounts {
        return 500;
      }
      accounts := accounts[uid := accounts[uid].(email := body.email.value,
                                                 displayName := body.displayName.value)];
      var claims := accounts[uid].claims;
      if claims.None? {
        return 500;
      }
      var current := RoleOf(claims.value);
      if current == Some("clinician") && current != body.role {
        return 400;
      }
      if (current == Some("staff") || current == Some("admin"))
         && body.role != Some("admin") && body.role != Some("staff") {
        return 400;
      }
      var c := claims.value["role" := body.role.value];
      if Truthy(body.imgUrl) {
        c := c["img_url" := body.imgUrl.value];
      }
      accounts := accounts[uid := accounts[uid].(claims := Some(c))];
      revoked := revoked + {uid};
      status := 200;
    }
  }
}
