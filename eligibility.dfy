/**
  The two eligibility handlers. pverify/index.js keeps a module-level cache of the
  responses it built, keyed by payer code and member id, each entry living two weeks;
  `/eligibility` in app/app.js asks pVerify every time, with its larger payer table, and
  adds the payer code to the response.

  The two calls to pVerify are inputs: `tokenOk` says whether the token request resolved
  (axios rejects a non-2xx answer), and `summary` is what the summary request gave. The
  clock is read twice, in milliseconds: `now` when the cache is consulted
  (pverify/index.js:52) and `stamp` when a new entry's expiry is set
  (pverify/index.js:124), after both awaited pVerify calls. The calls each handler makes
  are returned so that the lemmas can say when pVerify is asked at all.
 */
module Eligibility {
  import opened Text
  import opened Payers
  import opened EligibilityResponse

  /** `setDate(getDate() + 2 * 7)` as milliseconds. */
  const TwoWeeks: int := 1209600000

  datatype CacheEntry = CacheEntry(data: Response, ttl: int)

  type Cache = map<string, CacheEntry>

  /**
    The summary request either rejects or resolves with a body: an object, or JSON
    `null`. Bodies that are not objects are not modelled.
   */
  datatype SummaryReply = SummaryRejected | SummaryData(eligibility: Option<Summary>)

  /** A call to pVerify. */
  datatype Remote =
    | TokenRequest
    | SummaryRequest(payerCode: string, memberId: Option<string>, firstName: Option<string>,
                     lastName: Option<string>, dob: Option<string>)

  /** `{status: "Failed"}` or a built response. */
  datatype Body = Failed | Data(response: Response)

  datatype Answer = Answer(status: int, body: Body)

  datatype Result = Result(answer: Answer, calls: seq<Remote>, cache: Cache)

  /** `translate[p] + memberID`, where undefined reads "undefined". */
  function CacheKey(req: Request): string {
    JsString(Translate(PverifyTable, req.provider)) + JsString(req.memberID)
  }

  /** `Object.keys(cache).includes(cacheKey) && cache[cacheKey].ttl > new Date()` */
  predicate Fresh(cache: Cache, key: string, now: int) {
    key in cache && cache[key].ttl > now
  }

  function SummaryCall(code: string, req: Request): Remote {
    SummaryRequest(code, req.memberID, req.fname, req.lname, req.dob)
  }

  /**
    The pverify handler: a fresh entry is sent as it is; otherwise the entry is deleted,
    a token is fetched, an unknown payer answers 500, and a summary that rejects or whose
    response cannot be built answers 500; a built response is cached for two weeks from `stamp` and sent.
   */
  function Handle(cache: Cache, req: Request, now: int, stamp: int, tokenOk: bool, summary: SummaryReply): Result {
    var key := CacheKey(req);
    if Fresh(cache, key, now) then Result(Answer(200, Data(cache[key].data)), [], cache)
    else
      var evicted := cache - {key};
      var code := Translate(PverifyTable, req.provider);
      if !tokenOk then Result(Answer(500, Failed), [TokenRequest], evicted)
      else if !Truthy(code) then Result(Answer(500, Failed), [TokenRequest], evicted)
      else
        var calls := [TokenRequest, SummaryCall(code.value, req)];
        if summary.SummaryRejected? then Result(Answer(500, Failed), calls, evicted)
        else match Shape(summary.eligibility, req, None)
          case Throws => Result(Answer(500, Failed), calls, evicted)
          case Built(r) => Result(Answer(200, Data(r)), calls, evicted[key := CacheEntry(r, stamp + TwoWeeks)])
  }

  /** The module-level `cache` of pverify/index.js and its HTTP function. */
  class EligibilityService {
    var cache: Cache

    constructor()
      ensures cache == map[]
    {
      cache := map[];
    }

    method Eligibility(req: Request, now: int, stamp: int, tokenOk: bool, summary: SummaryReply)
      returns (answer: Answer, calls: seq<Remote>)
      modifies this
      ensures Result(answer, calls, cache) == Handle(old(cache), req, now, stamp, tokenOk, summary)
    {
      var key := CacheKey(req);
      if key in cache && cache[key].ttl > now {
        return Answer(200, Data(cache[key].data)), [];
      } else {
        cache := cache - {key};
      }
      calls := [TokenRequest];
      if !tokenOk {
        return Answer(500, Failed), calls;
      }
      var code := Translate(PverifyTable, req.provider);
      if !Truthy(code) {
        return Answer(500, Failed), calls;
      }
      calls := calls + [SummaryCall(code.value, req)];
      if summary.SummaryRejected? {
        return Answer(500, Failed), calls;
      }
      var shaped := Shape(summary.eligibility, req, None);
      if shaped.Throws? {
        return Answer(500, Failed), calls;
      }
      cache := cache[key := CacheEntry(shaped.response, stamp + TwoWeeks)];
      answer := Answer(200, Data(shaped.response));
    }
  }

  /**
    pVerify is not called at all exactly when the entry under the request's key is
    fresh, and then the cached response is sent and the cache stays as it was.
   */
  lemma HitOnlyIfFresh(cache: Cache, req: Request, now: int, stamp: int, tokenOk: bool, summary: SummaryReply)
    ensures var r := Handle(cache, req, now, stamp, tokenOk, summary);
      (r.calls == [] <==> Fresh(cache, CacheKey(req), now))
      && (r.calls == [] ==> r.answer == Answer(200, Data(cache[CacheKey(req)].data)) && r.cache == cache)
  {
  }

  /**
    On a miss only the request's own key changes: every other entry is kept, and the key
    holds an entry afterwards exactly when the answer is 200; that entry is the response
    sent, valid for two weeks from `stamp`, the clock reading after the pVerify calls.
    MissOutcome says when the answer is 200.
   */
  lemma MissTouchesOnlyKey(cache: Cache, req: Request, now: int, stamp: int, tokenOk: bool, summary: SummaryReply)
    requires !Fresh(cache, CacheKey(req), now)
    ensures var r := Handle(cache, req, now, stamp, tokenOk, summary); var key := CacheKey(req);
      && (forall k :: k != key ==> (k in r.cache <==> k in cache))
      && (forall k :: k != key && k in cache ==> r.cache[k] == cache[k])
      && (key in r.cache <==> r.answer.status == 200)
      && (key in r.cache ==> r.answer.body == Data(r.cache[key].data) && r.cache[key].ttl == stamp + TwoWeeks)
      && (r.answer.status == 200 || r.answer == Answer(500, Failed))
  {
  }

  /** A payer the table does not know answers 500 after the token request and caches nothing. */
  lemma UnknownPayerNoInsert(cache: Cache, req: Request, now: int, stamp: int, summary: SummaryReply)
    requires !Fresh(cache, CacheKey(req), now)
    requires JsString(req.provider) !in Names(PverifyTable)
    ensures Handle(cache, req, now, stamp, true, summary) ==
      Result(Answer(500, Failed), [TokenRequest], cache - {CacheKey(req)})
  {
    CodesTruthy(req.provider);
  }

  /** A known payer is asked for the summary with its code and the requested subscriber. */
  lemma KnownPayerAsksSummary(cache: Cache, req: Request, now: int, stamp: int, summary: SummaryReply)
    requires !Fresh(cache, CacheKey(req), now)
    requires JsString(req.provider) in Names(PverifyTable)
    ensures var code := Translate(PverifyTable, req.provider);
      && code.Some?
      && Handle(cache, req, now, stamp, true, summary).calls ==
         [TokenRequest, SummaryRequest(code.value, req.memberID, req.fname, req.lname, req.dob)]
  {
    CodesTruthy(req.provider);
  }

  /**
    How a miss is answered: 200 exactly when the token was obtained, the payer is known,
    the summary resolved and the response could be built. The answer then carries that
    response, which is cached for two weeks from `stamp`. A failed token request or a
    rejected summary is answered 500 `{status: "Failed"}` and caches nothing.
   */
  lemma MissOutcome(cache: Cache, req: Request, now: int, stamp: int, tokenOk: bool, summary: SummaryReply)
    requires !Fresh(cache, CacheKey(req), now)
    ensures var r := Handle(cache, req, now, stamp, tokenOk, summary); var key := CacheKey(req);
      && (r.answer.status == 200 <==>
            tokenOk && JsString(req.provider) in Names(PverifyTable) && summary.SummaryData?
            && Shape(summary.eligibility, req, None).Built?)
      && (r.answer.status == 200 && summary.SummaryData? ==>
            var resp := Shape(summary.eligibility, req, None).response;
            && r.answer == Answer(200, Data(resp))
            && key in r.cache && r.cache[key] == CacheEntry(resp, stamp + TwoWeeks))
      && (!tokenOk || summary.SummaryRejected? ==> r.answer == Answer(500, Failed) && key !in r.cache)
  {
    CodesTruthy(req.provider);
  }

  /**
    A summary request that resolves with a body of JSON `null` is answered 200 with the
    status "Failed" and the requested subscriber, and that response is cached like any
    other.
   */
  lemma EmptySummaryCached(cache: Cache, req: Request, now: int, stamp: int)
    requires !Fresh(cache, CacheKey(req), now)
    requires JsString(req.provider) in Names(PverifyTable)
    ensures var r := Handle(cache, req, now, stamp, true, SummaryData(None)); var key := CacheKey(req);
      && r.answer.status == 200 && r.answer.body.Data?
      && r.answer.body.response.status == "Failed"
      && r.answer.body.response.memberId == req.memberID
      && key in r.cache && r.cache[key] == CacheEntry(r.answer.body.response, stamp + TwoWeeks)
  {
    CodesTruthy(req.provider);
    AllDefaults(req, None);
  }

  /**
    The same request, to the same running instance, within two weeks of the moment
    `stamp` a call that asked pVerify stored its 200 response, is served from the cache
    whatever pVerify would answer now; from then on it is asked again.
   */
  lemma {:induction false} HitWithinTwoWeeks(cache: Cache, req: Request, now: int, stamp: int, later: int,
                                             tokenOk: bool, summary: SummaryReply, stamp2: int,
                                             tokenOk2: bool, summary2: SummaryReply)
    requires var r := Handle(cache, req, now, stamp, tokenOk, summary); r.calls != [] && r.answer.status == 200
    ensures var r := Handle(cache, req, now, stamp, tokenOk, summary);
      var r2 := Handle(r.cache, req, later, stamp2, tokenOk2, summary2);
      && (later < stamp + TwoWeeks ==> r2 == Result(r.answer, [], r.cache))
      && (later >= stamp + TwoWeeks ==> r2.calls != [])
  {
    var r := Handle(cache, req, now, stamp, tokenOk, summary);
    HitOnlyIfFresh(cache, req, now, stamp, tokenOk, summary);
    MissTouchesOnlyKey(cache, req, now, stamp, tokenOk, summary);
    HitOnlyIfFresh(r.cache, req, later, stamp2, tokenOk2, summary2);
  }

  // ---------------------------------------------------------------------------
  // `/eligibility` of app/app.js

  datatype Exchange = Exchange(answer: Answer, calls: seq<Remote>)

  /**
    The app's handler: no cache; a token failure answers 500, a payer its table does not
    know answers 400, and the response carries `payerCode`.
   */
  function AppEligibility(req: Request, tokenOk: bool, summary: SummaryReply): Exchange {
    var code := Translate(AppTable, req.provider);
    if !tokenOk then Exchange(Answer(500, Failed), [TokenRequest])
    else if !Truthy(code) then Exchange(Answer(400, Failed), [TokenRequest])
    else
      var calls := [TokenRequest, SummaryCall(code.value, req)];
      if summary.SummaryRejected? then Exchange(Answer(500, Failed), calls)
      else match Shape(summary.eligibility, req, code)
        case Throws => Exchange(Answer(500, Failed), calls)
        case Built(r) => Exchange(Answer(200, Data(r)), calls)
  }

  /**
    For a payer pverify/index.js knows, the app on a cache miss makes the same calls and
    sends the same status, and a response that differs only by its `payerCode`.
   */
  lemma AppAgreesOnMiss(cache: Cache, req: Request, now: int, stamp: int, tokenOk: bool, summary: SummaryReply)
    requires !Fresh(cache, CacheKey(req), now)
    requires JsString(req.provider) in Names(PverifyTable)
    ensures var r := Handle(cache, req, now, stamp, tokenOk, summary);
      var a := AppEligibility(req, tokenOk, summary);
      var code := Translate(PverifyTable, req.provider);
      && a.calls == r.calls
      && a.answer.status == r.answer.status
      && (r.answer.body.Failed? <==> a.answer.body.Failed?)
      && (r.answer.body.Data? ==>
            a.answer.body.response == r.answer.body.response.(payerCode := code))
  {
    CodesTruthy(req.provider);
    AppTableExtends(req.provider);
  }

  /**
    How the app answers: 200 exactly when the token was obtained, its table knows the
    payer, the summary resolved and the response could be built, and it then carries that
    response with the payer's code. A failed token request is answered 500
    `{status: "Failed"}`, and so is a rejected summary for a payer the table knows (an
    unknown payer is answered 400 before the summary is asked for); only 200 sends a
    response body.
   */
  lemma AppOutcome(req: Request, tokenOk: bool, summary: SummaryReply)
    ensures var a := AppEligibility(req, tokenOk, summary); var code := Translate(AppTable, req.provider);
      && (a.answer.status == 200 <==>
            tokenOk && JsString(req.provider) in Names(AppTable) && summary.SummaryData?
            && Shape(summary.eligibility, req, code).Built?)
      && (a.answer.status == 200 && summary.SummaryData? ==>
            a.answer == Answer(200, Data(Shape(summary.eligibility, req, code).response)))
      && (!tokenOk ==> a.answer == Answer(500, Failed))
      && (JsString(req.provider) in Names(AppTable) && summary.SummaryRejected? ==> a.answer == Answer(500, Failed))
      && (a.answer.status != 200 ==> a.answer.body == Failed)
  {
    CodesTruthy(req.provider);
  }

  /** The app answers 400 exactly when the token was obtained and its table lacks the payer. */
  lemma AppUnknownPayer400(req: Request, tokenOk: bool, summary: SummaryReply)
    ensures AppEligibility(req, tokenOk, summary).answer.status == 400 <==>
      tokenOk && JsString(req.provider) !in Names(AppTable)
    ensures AppEligibility(req, tokenOk, summary).answer.status == 200 ==>
      AppEligibility(req, tokenOk, summary).answer.body.response.payerCode == Translate(AppTable, req.provider)
  {
    CodesTruthy(req.provider);
  }

  /**
    Trustmark members are turned away by pverify/index.js on every miss, whatever the
    cache holds for other keys, but looked up by the app.
   */
  lemma TrustmarkServedByAppOnly(cache: Cache, req: Request, now: int, stamp: int, summary: SummaryReply)
    requires req.provider == Some("Trustmark")
    requires !Fresh(cache, CacheKey(req), now)
    ensures Handle(cache, req, now, stamp, true, summary) ==
      Result(Answer(500, Failed), [TokenRequest], cache - {CacheKey(req)})
    ensures AppEligibility(req, true, summary).calls ==
      [TokenRequest, SummaryRequest("00189", req.memberID, req.fname, req.lname, req.dob)]
  {
    TrustmarkOnlyInApp();
  }
}
