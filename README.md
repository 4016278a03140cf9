# Brightside clinic backend: a verified model of its decision logic

The backend serves a counselling practice. It matches patients with clinicians, gates
access to patients' documents, runs a first-come-first-served waitlist for freed
appointment slots (a patient claims a slot by SMS, through a Twilio function), checks
insurance eligibility with pVerify, and lets administrators manage user accounts. This
project models the decision logic of those handlers. The database, the authentication
service, pVerify, Twilio and the clock become inputs to the model or maps it updates.

Modules, one per file:

- `Text` (text.dfy): the JavaScript string operations the handlers use. This covers
  `split`/`join` on one character, ASCII case mapping, truthiness of an optional string,
  and `"" + x` of a possibly undefined value.
- `Normalise` (normalise.dfy): `capitalizeWords`, and the phone-number normalisation of
  `/addUser`.
- `Matching` (matching.dfy): the `/match` scorer. A loop scores each clinician into an
  insertion-ordered `scores` object, which is then sorted stably in descending order and
  cut to the top three.
- `Access` (access.dfy): the CORS origin whitelist, and the `/document` access decision.
- `Utf8` (utf8.dfy) and `Base64` (base64.dfy): Node's `Buffer` conversions, with full
  round trips.
- `Notify` (notify.dfy): `/receiveNotify`. It parses the Basic Authorization header,
  then applies the first-come-first-served claim to the `history`, `notifies` and
  `waitlists` collections, held by a class whose method updates them in place. The
  class runs one request after another. The claim's reads are also modelled apart from
  its writes, which shows that overlapping claims can both succeed.
- `Twilio` (twilio.dfy): the Twilio function, meaning the header it builds, the body it
  forwards and the callbacks it makes. It also holds the end-to-end round trip with
  `Notify`.
- `AdminUsers` (admin_users.dfy): the user-list sanitiser of `GET /admin/users`, as a
  loop, and the role update of `POST /admin/users/:uid`, as a class over the accounts
  and the revoked sessions.
- `Payers` (payers.dfy): the two payer-name to payer-code tables.
- `EligibilityResponse` (eligibility_response.dfy): the response both eligibility
  handlers build from a pVerify summary. It includes the operator-precedence quirk of
  the benefit fields, and the one chain that is not optional and throws.
- `Eligibility` (eligibility.dfy): the pverify function with its module-level two-week
  cache (a class whose method deletes and inserts entries), and the uncached
  `/eligibility` handler of the app.

## Model

| member | source | states |
|---|---|---|
| Text.Split | app/app.js:41 | `split` on one character always yields at least one word |
| Text.JoinSplit | app/app.js:41-49 | joining the split words with the same character gives back the string |
| Text.SplitJoin | app/app.js:41-49 | splitting words that hold no separator gives back the same words |
| Text.SplitWordsFree | app/app.js:41 | no word of a split contains the separator |
| Text.SplitAtFirst | app/app.js:531 | a string cut at its first separator splits into that prefix followed by the split of the rest |
| Text.SplitFirstPrefix | app/app.js:253 | the first word of a split is a prefix of the string, and a proper one when the separator occurs |
| Text.UpperChar | app/app.js:44 | `toUpperCase` on one character changes it exactly when it is a lower-case ASCII letter, and then to the matching upper-case letter |
| Text.LowerChar | app/app.js:532 | `toLowerCase` on one character changes it exactly when it is an upper-case ASCII letter, and then to the matching lower-case letter |
| Text.Lower | app/app.js:532 | `toLowerCase` keeps the length and maps every character by itself |
| Text.Digits | app/app.js:315 | `replace(/\D/g, "")` keeps only digits, is no longer than its input, leaves an all-digit string alone, keeps a single digit and drops a single non-digit |
| Text.DigitsAppend | app/app.js:315 | removing non-digits distributes over concatenation, so together with the one-character case every digit is kept, in order |
| Normalise.CapWord | app/app.js:43-46 | a capitalised word has the same length, its first character upper-cased and the rest unchanged |
| Normalise.CapAll | app/app.js:43-47 | `words.map` keeps the number of words and capitalises each one |
| Normalise.CapitalizeWordsCharwise | app/app.js:40-50 | split-map-join equals one pass over the characters that upper-cases each character at the start or after a space |
| Normalise.CapitalizeWordsChars | app/app.js:40-50 | the result has the input's length; a character changes only at position 0 or after a space, and only to upper case |
| Normalise.CapitalizeWordsWords | app/app.js:40-50 | the words of the result are the input's words, empty ones included, each capitalised, and there are as many of them |
| Normalise.CapitalizeWordsIdempotent | app/app.js:40-50 | capitalising twice is capitalising once |
| Normalise.NormaliseTn | app/app.js:315-322 | the result is "+1" followed by at most ten digits |
| Normalise.NormaliseTnDigits | app/app.js:315-322 | the digits kept are all digits when there are at most ten; otherwise they are ten digits after a leading '1' is dropped, or the first ten when there is no leading '1' |
| Normalise.NormaliseTnFixpoint | app/app.js:315-322 | normalising an output again returns it unchanged exactly when it has ten digits |
| Normalise.CapitalizeWords | app/app.js:40-50 | models `capitalizeWords` as split on " ", capitalise each word, join with " "; its meaning is the four lemmas below |
| Normalise.AddUserTn | app/app.js:310-322 | a missing or empty `tn` is rejected with 500; any other `tn` yields NormaliseTn of it, which is "+1" followed by at most ten digits |
| Matching.Points | app/app.js:140-163 | at most six points: one each for ethnicity, gender, interface and day, and the time point twice |
| Matching.Round | app/app.js:165 | `Math.round(s / 6 * 100)` is the integer nearest to 100·s/6 |
| Matching.Score | app/app.js:147-166 | a score is one of 0, 17, 33, 50, 67, 83, 100; it is 0 on an interface mismatch and positive otherwise |
| Matching.TimeWorthTwoPoints | app/app.js:157-163 | losing the time match costs two points |
| Matching.InterfaceMismatchZero | app/app.js:147-152 | an interface mismatch scores 0, whatever the other criteria |
| Matching.RoundIncreasing | app/app.js:165 | more points give a strictly higher percentage |
| Matching.PutLookup | app/app.js:137-166 | assigning `scores[k]` sets k and leaves every other key as it was |
| Matching.PutShape | app/app.js:137-166 | assigning keeps keys distinct, adds k to the keys, and grows the object only for a new key |
| Matching.ScoresLookup | app/app.js:139-166 | every clinician's key maps to the score of the last clinician with that key, and no other key is present |
| Matching.ScoresShape | app/app.js:139-166 | the scores object has one entry per distinct clinician key, each a valid score |
| Matching.Tally | app/app.js:140-163 | the loop body reports a mismatch exactly when the interface criterion fails, and otherwise counts the points |
| Matching.ScoresOf | app/app.js:137-166 | models the `scores` object the loop builds, as one assignment per clinician in order; its meaning is ScoresLookup and ScoresShape |
| Matching.ScoreAll | app/app.js:137-166 | the loop over the clinicians builds exactly Matching.ScoresOf, mismatches included with score 0 |
| Matching.Insert | app/app.js:218 | inserting into the sorted prefix grows it by one |
| Matching.InsertMultiset | app/app.js:218 | insertion adds exactly the entry |
| Matching.InsertSorted | app/app.js:218 | insertion keeps a descending order |
| Matching.InsertStable | app/app.js:218 | insertion keeps the relative order of entries with equal scores |
| Matching.SortDesc | app/app.js:217-218 | models `sort((a, b) => b[1] - a[1])` as insertion sort; keeps the length, and SortDescCorrect gives its meaning |
| Matching.SortDescCorrect | app/app.js:217-218 | the sort is descending, a permutation, and stable |
| Matching.Top3 | app/app.js:216-220 | models the first three entries of the sorted scores; Top3Correct gives its meaning |
| Matching.Top3Correct | app/app.js:216-220 | at most three entries, sorted, which together with the omitted ones make up all scores; each returned score is at least every omitted score |
| Matching.MatchAnswer | app/app.js:135-220 | the answer has min(3, number of distinct clinicians) entries, each scored as its clinician's score |
| Matching.DistinctCard | app/app.js:216-217 | an object with distinct keys has as many entries as keys |
| Access.CheckOrigin | app/app.js:53-66 | models the `origin` callback; CorsAllowsExactly gives its meaning |
| Access.CorsAllowsExactly | app/app.js:53-66 | a request is allowed exactly when it has no origin, an empty one, or one of the three whitelisted origins; otherwise it is blocked with "Blocked by CORS policy" |
| Access.DocumentAccess | app/app.js:253-273 | models the access decision of `/document`: a crash without a path or claims, admin and staff granted, anyone else by assignment; its meaning is the two lemmas below |
| Access.AdminStaffReadAll | app/app.js:256-260 | admin and staff may read every file |
| Access.ClinicianReadsAssignedOnly | app/app.js:253-273 | anyone else reads a file in a patient's folder exactly when `patientId_clinicianId` is an assignment |
| Access.PatientOfShape | app/app.js:253 | the patient id is a '/'-free prefix of the path, and is the whole path when the path has no '/' |
| Utf8.EncodeChar | twilio/function.js:12 | a character encodes to one to four bytes |
| Utf8.DecodeOneEncoded | app/app.js:538-539 | decoding the bytes of one encoded character gives that character back and consumes exactly its bytes |
| Utf8.DecodeEncode | app/app.js:538-539 | decoding the UTF-8 encoding of a string gives the string back |
| Base64.Encode | twilio/function.js:12 | the encoding is padded to a multiple of four characters |
| Base64.EncodeHasNoSpace | twilio/function.js:12-19 | an encoding never contains a space, so it survives the split on " " |
| Base64.GroupRoundTrip | app/app.js:538 | decoding an encoded group of three bytes gives the three bytes back |
| Base64.DecodeEncode | app/app.js:538 | decoding an encoding gives the bytes back, for any length |
| Base64.EncodeStringRoundTrip | app/app.js:538-539 | decoding the base64 of a string's UTF-8 bytes gives back the string |
| Notify.ParseBasicAuth | app/app.js:524-541 | models the header parse: no header or another scheme is refused; a header or decoded text without a second word throws; otherwise the second word of the decoded text is split on ":"; Twilio.RoundTrip gives its meaning |
| Notify.Authenticate | app/app.js:524-547 | a request is authorised exactly when the parsed credentials equal the configured ones, and crashes exactly when parsing throws |
| Notify.SchemeChecked | app/app.js:531-536 | a scheme word other than "basic", in any letter case, is refused |
| Notify.UnauthorisedWritesNothing | app/app.js:524-547 | an unauthorised request writes nothing; it is answered 401, or gets no answer when parsing threw |
| Notify.FulfilledAnswers208 | app/app.js:572-576 | a fulfilled notification is answered 208 and nothing is written |
| Notify.ClaimSuccess | app/app.js:551-598 | a claim succeeds exactly when the history record exists unfulfilled, and the patient and the notify record exist. On success the history record is fulfilled with this patient, `isLoaded` false and `patientName` the patient's first and last name joined by a space; only the notify record `NotifyId_patientId` is completed, only the patient's waitlist entry is removed, and nothing else changes |
| Notify.FailedClaimWrites | app/app.js:578-598 | a failed claim touches no notify, waitlist or patient record; history changes only when the notify record is missing after the history update |
| Notify.ClaimOver | app/app.js:551-598 | models the claim with its reads (history and patient) taken from one database state and its writes applied to another; the lemmas about Notify.Claim and OverlappingClaimsBothSucceed give its meaning |
| Notify.Claim | app/app.js:551-598 | models a claim that runs alone, reading and writing the same state; ClaimSuccess, FailedClaimWrites and FulfilledAnswers208 give its meaning |
| Notify.Receive | app/app.js:524-598 | models the whole handler: authentication, then the claim; UnauthorisedWritesNothing and Twilio.ForwardedClaim give its meaning |
| Notify.SecondClaimRejected | app/app.js:571-598 | after a claim that marked the history, any later claim of the same notification is answered 208 and writes nothing |
| Notify.OverlappingClaimsBothSucceed | app/app.js:551-598 | two claims of one notification that both read before either writes are both answered 200. Both patients leave the waitlist, both notify records are completed, and the history names the second patient |
| Notify.NotifyService.ReceiveNotify | app/app.js:524-598 | the handler answers and updates the stored collections as the functional model says |
| Twilio.AuthHeader | twilio/function.js:12-19 | models the header "Basic " + base64("Basic " + username + ":" + password); HeaderParts, ParseOfHeader and RoundTrip give its meaning |
| Twilio.Callbacks | twilio/function.js:22-33 | models the callbacks of `catch` and `finally` in order; CallbackOutcomes gives its meaning |
| Twilio.Handler | twilio/function.js:5-33 | models the request sent and the callbacks made; ForwardsEvent gives its meaning |
| Twilio.ForwardsEvent | twilio/function.js:12-21 | the forwarded body carries `tn`, `NotifyId` and `patientId` unchanged, under the header "Basic " + base64("Basic " + username + ":" + password) |
| Twilio.CallbackOutcomes | twilio/function.js:22-33 | 200 gives only "success"; 208 gives only "already fulfilled"; a throw gives two callbacks, "already fulfilled" then "failed"; another 2xx status gives none |
| Twilio.ParseOfHeader | twilio/function.js:12-19 | the server's parse of the built header reaches the second word of the decoded payload, "username:password" up to its first space |
| Twilio.RoundTrip | app/app.js:531-541 | parsing the header the function builds recovers exactly (username, password) if and only if neither contains a space or a colon |
| Twilio.ForwardedClaim | twilio/function.js:12-33 | with the same clean credentials on both sides a forwarded claim is decided by the claim rule alone, and a fulfilled notification reports "already fulfilled" |
| AdminUsers.Clean | app/app.js:1009-1019 | the secret fields are removed, every other field is kept, and the claims always carry an image |
| AdminUsers.SanitiseOne | app/app.js:1007-1019 | models one `forEach` step: skip a disabled user, throw on a user without custom claims, otherwise keep the cleaned record |
| AdminUsers.Sanitise | app/app.js:1006-1022 | models the listing: the kept users in order, or no response once a step throws; SanitiseIsCleanEnabled gives its meaning |
| AdminUsers.ListUsers | app/app.js:1006-1021 | the loop builds exactly AdminUsers.Sanitise |
| AdminUsers.NoResponseStays | app/app.js:1016-1017 | once a user without custom claims throws, the listing is never sent |
| AdminUsers.Enabled | app/app.js:1008 | no disabled user is listed |
| AdminUsers.CleanAll | app/app.js:1006-1021 | each listed user is the cleaned record |
| AdminUsers.SanitiseIsCleanEnabled | app/app.js:1006-1022 | the list is sent exactly when every enabled user has custom claims, and it is then the enabled users, cleaned, in order |
| AdminUsers.ListedUsersClean | app/app.js:1008-1020 | no listed user is disabled, none carries a secret field, and each has an image |
| AdminUsers.CleanImage | app/app.js:1016-1018 | a truthy `img_url` is kept and a missing one becomes the default picture; the other claims are unchanged |
| AdminUsers.Update | app/app.js:1108-1180 | models the role update in the handler's order; its meaning is the six lemmas below |
| AdminUsers.UpdateTouchesOnlyTarget | app/app.js:1108-1180 | no account other than the uid changes, and only the uid's sessions may be revoked |
| AdminUsers.RoleRule | app/app.js:1151-1163 | a clinician can only be set to clinician, and staff or admin only to admin or staff |
| AdminUsers.UpdateSuccess | app/app.js:1117-1174 | 200 exactly when the caller is admin, the body is complete, the user has claims and the rule allows the role. The user then gets the new email, name and role; `img_url` is replaced only when one is supplied; other claims are kept and the sessions are revoked |
| AdminUsers.RejectedChangeKeepsClaims | app/app.js:1143-1163 | a forbidden role change answers 400 and keeps the claims, but the email and name were already updated |
| AdminUsers.IncompleteBodyWritesNothing | app/app.js:1110-1120 | a body without email, name or role writes nothing; it is answered 403 without a header and 400 otherwise |
| AdminUsers.NonAdminWritesNothing | app/app.js:1110-1140 | a caller without a header or without the admin role writes nothing; it is answered 403, or 400 when a signed-in non-admin sends an incomplete body |
| AdminUsers.Directory.UpdateUser | app/app.js:1108-1180 | the handler updates the accounts and revoked sessions as the functional model says |
| Payers.LookupSpec | pverify/index.js:26-48 | a name has a code exactly when the table lists it, with that code |
| Payers.CodesTruthy | pverify/index.js:69 | for each of the two tables, `!translate[p]` holds exactly when that table does not list the name |
| Payers.LookupAppend | app/app.js:623-652 | looking up in a table followed by more entries finds the first table's code, or else the added entries' code |
| Payers.AppTableExtends | app/app.js:623-652 | the app's table gives every name pverify knows the same code, and adds codes only for the seven extra names |
| Payers.OptumAndAetna | pverify/index.js:27-46 | "Optum" maps to "UHG007" and "Aetna" to "00001" |
| Payers.TrustmarkOnlyInApp | app/app.js:645 | "Trustmark" has code "00189" in the app and none in pverify |
| EligibilityResponse.ValueOrNotes | pverify/index.js:115-122 | models `V ? V : "" + " " + N ? N : ""` as JavaScript parses it; NotesQuirk gives its meaning |
| EligibilityResponse.NotesQuirk | pverify/index.js:115-122 | without a truthy value a benefit field is its notes as they are, possibly undefined; the trailing `""` is never chosen |
| EligibilityResponse.Shape | pverify/index.js:110-123 | models the response literal of both handlers; ShapeThrowsExactly, AllDefaults and SummaryValuesWin give its meaning |
| EligibilityResponse.ShapeThrowsExactly | pverify/index.js:118 | building the response throws exactly when a summary lacks `DemographicInfo` or its `Subscriber` |
| EligibilityResponse.AllDefaults | pverify/index.js:110-123 | with no summary every field takes its default: "Failed", "N/A", the requested member id, payer and name |
| EligibilityResponse.SummaryValuesWin | pverify/index.js:110-123 | for every field, with or without a summary: a truthy summary value is sent as it is, and otherwise the field's default ("Failed", "N/A", the requested member id, payer or name, or a benefit's notes). The displayed text fields are never empty, and the payer code is the caller's |
| Eligibility.Handle | pverify/index.js:51-136 | models one call of the pverify function on its cache: hit, eviction, token, payer, summary, insertion; HitOnlyIfFresh, MissTouchesOnlyKey, MissOutcome and the lemmas after them give its meaning |
| Eligibility.EligibilityService.Eligibility | pverify/index.js:4-136 | one call answers, calls pVerify and changes the cache as the functional model says |
| Eligibility.HitOnlyIfFresh | pverify/index.js:51-56 | pVerify is not called exactly when the key is present with a ttl later than now; the cached data is then sent and the cache is unchanged |
| Eligibility.MissTouchesOnlyKey | pverify/index.js:57-136 | on a miss only the request's key changes; it holds an entry afterwards exactly when the answer is 200, with the sent response and a ttl of 14 days after the clock reading taken once pVerify has answered; every other answer is 500 `{status: "Failed"}` |
| Eligibility.MissOutcome | pverify/index.js:57-136 | on a miss the answer is 200 exactly when the token was obtained, the payer is known, the summary resolved and the response could be built. It then carries that response, cached with a ttl of the second clock reading plus 14 days. A failed token request or a rejected summary is answered 500 `{status: "Failed"}` and caches nothing |
| Eligibility.EmptySummaryCached | pverify/index.js:110-126 | a summary that resolves with a body of JSON `null` is answered 200 with status "Failed" and the requested member id, and that response is cached |
| Eligibility.UnknownPayerNoInsert | pverify/index.js:69-75 | an unknown payer answers 500 after the token request, and the cache only loses the stale key |
| Eligibility.KnownPayerAsksSummary | pverify/index.js:77-106 | a known payer's summary is requested with its code and the requested member and subscriber |
| Eligibility.HitWithinTwoWeeks | pverify/index.js:51-126 | a request repeated to the same instance within 14 days of the moment a successful fetch was stored is served from the cache without calling pVerify; from then on pVerify is called again |
| Eligibility.AppEligibility | app/app.js:615-814 | models the app's uncached handler; AppOutcome, AppAgreesOnMiss and AppUnknownPayer400 give its meaning |
| Eligibility.AppOutcome | app/app.js:615-814 | the app answers 200 exactly when the token was obtained, its table knows the payer, the summary resolved and the response could be built, and then sends that response with the payer's code. A failed token request is 500, and so is a rejected summary for a known payer; only 200 sends a response body |
| Eligibility.AppAgreesOnMiss | app/app.js:615-814 | for a payer pverify knows, the app makes the same calls and answers the same status; a response differs only by `payerCode` |
| Eligibility.AppUnknownPayer400 | app/app.js:670-733 | the app answers 400 exactly when the token was obtained and its table lacks the payer; a sent response carries the payer's code |
| Eligibility.TrustmarkServedByAppOnly | app/app.js:645-676 | on any cache miss a Trustmark member is turned away by pverify with 500 after the token request, the stale key dropped, but looked up with code "00189" by the app |

## Left out

- Firestore, Cloud Storage, Firebase Auth, pVerify and the Cloud Function calls are not
  modelled as services. Their results are inputs, such as a history map, the assignment
  ids, the accounts, `tokenOk`, the summary reply or the POST result. The writes are
  updates of maps.
- NoResponse: an exception a handler does not catch is modelled as the handler sending
  nothing (`NoResponse` in Notify and AdminUsers, `Crashed` in Notify.Authenticate).
  What the runtime does next is not modelled. app/app.js registers no
  `unhandledRejection` handler. Under Express 4 the rejected promise is unhandled, and
  Node 15 or later then ends the process, together with every request in flight on it.
  Under Express 5 the router answers 500 instead. The listing's `.then` callback
  (app/app.js:1004-1021) has no `.catch`, so its throw is unhandled under either.
- Express routing, OPTIONS preflight answers, response headers, logging, `api.listen`,
  and the file download of `/document` are left out.
- The token checks of `POST /admin/users/:uid` (app/app.js:1110-1140) are one `Caller`
  input: no header, not an admin, or admin. Their `split(" ").length === 0` test can
  never hold and has no counterpart. The token checks of `GET /admin/users`
  (app/app.js:977-998) are not modelled at all: AdminUsers.Sanitise and ListUsers start
  from the records the service lists.
- `/sendNotify`, `/clinicians`, `/admin/numPatients`, `DELETE /admin/users/:uid`, the
  rest of `/addUser` and `/match`'s database reads are left out. They are I/O without
  decision logic of their own. functions/index.js is not part of this model.
- Case mapping covers ASCII letters only. JavaScript's full Unicode `toUpperCase` and
  `toLowerCase` are not modelled.
- Utf8.DecodeEncode and Base64.DecodeEncode: decoding is exact on well-formed input,
  which is all the round trip needs. Malformed bytes decode to U+FFFD and the rest of the
  input, and base64 text is decoded leniently (characters outside the alphabet skipped,
  decoding stopped at `=`). Node's exact replacement rules for malformed input are not
  modelled.
- Matching.Round: `Math.round` on the floating-point quotient is modelled as the exact
  integer nearest to 100·s/6. This agrees for the seven possible values of s, and no
  ties occur.
- Matching: a JavaScript object lists integer-like keys before the others. The model
  keeps the `scores` object in insertion order, which differs only for purely numeric
  partition keys.
- Matching: the day criterion follows the code, which compares the preference with
  "Either". The comments list "No Preference / Next Available" as a day option, and such
  a preference matches only clinicians who list it among their days.
- Matching: preferences that are not arrays (which make `includes` or `filter` throw)
  are not modelled. Neither are a clinician's `days` or `times` that are strings (where
  `includes` becomes a substring test) or that are missing (which throws).
- Payers: names such as "constructor" that an object inherits from `Object.prototype`
  are not modelled. The tables hold only their own entries.
- Eligibility.HitWithinTwoWeeks: time is milliseconds, and `setDate(getDate() + 14)` is
  the second clock reading plus 14 days of 86400000 ms. A daylight-saving change in the
  14 days moves the real expiry by an hour.
- Eligibility.EligibilityService: the cache is module state of one running instance of
  the function. Requests that reach another instance, or arrive after a restart, find an
  empty cache. Overlapping requests to one instance are not modelled either: the class
  runs calls one after another.
- Eligibility.EmptySummaryCached: the summary body is an object or JSON `null`. Any
  other body is not modelled: an empty body (which axios gives as `""`), a string, a
  number or an array. With such a body, optional chaining does not stop, and
  `eligibility?.DemographicInfo.Subscriber` throws (pverify/index.js:118). The handler
  then answers 500 `{status: "Failed"}` and caches nothing.
- Eligibility: the token value is not modelled (only whether the request resolved), and
  neither are the dates of service sent to pVerify. Request fields that are not strings
  are not modelled.
- AdminUsers: the custom claims are a map from strings to strings. Claims that are not
  an object, and JSON values that are not strings, are not modelled.
- AdminUsers.UpdateSuccess: the "200 exactly when" assumes every call to the
  authentication service succeeds. Failures are not modelled. This covers an invalid
  email, or one another account already holds, in `updateUser` (500, nothing written).
  It also covers a failure of `getUser`, `setCustomUserClaims` or `revokeRefreshTokens`
  (500 after the earlier writes).
- Notify.SecondClaimRejected: a second claim is rejected only when it starts after the
  first has written. The source reads the history (app/app.js:551) and the patient
  (app/app.js:560) before writing (app/app.js:579-598), with no transaction. Two
  overlapping claims therefore both succeed, as Notify.OverlappingClaimsBothSucceed
  shows. The class NotifyService runs requests one after another.
- AddUserTn: `tn` is a string or missing. A truthy `tn` that is not a string makes
  `.replace` throw (app/app.js:315), so the handler sends nothing; this is not modelled.
- Twilio.ForwardedClaim: the event's `NotifyId` and `patientId` are taken to be present.
  When either is missing it is forwarded as undefined, and `.doc(undefined)` throws at
  app/app.js:553 or app/app.js:562, so the handler sends nothing; this is not modelled.
- Notify.Authenticate: the configured `USERNAME` and `PASSWORD` (app/app.js:521-522)
  are taken to be set. If `USERNAME` is unset, every request is refused, since the parsed
  username is always a string. If `PASSWORD` is unset, the source authorises a header
  whose decoded second word has no ':' and equals `USERNAME`: the parsed password is
  then undefined, like the unset value (app/app.js:543). The model does not express this.
- Twilio: the function posts to the URL of a Cloud Function, and the model takes that
  endpoint to run the `/receiveNotify` logic.
