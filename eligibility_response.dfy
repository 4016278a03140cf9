/**
  The response both eligibility handlers build from an eligibility summary
  (pverify/index.js and `/eligibility` in app/app.js): each field is taken from the
  summary when the value there is truthy, and otherwise defaulted.

  Every read is an optional chain (`eligibility?.A?.B`), which yields undefined as soon
  as a link is missing, except the subscriber's name: `eligibility?.DemographicInfo
  .Subscriber.FullName` throws when the summary is present but `DemographicInfo` or its
  `Subscriber` is missing. An undefined field is left out of the JSON sent; the model
  writes it as `None`.
 */
module EligibilityResponse {
  import opened Text

  /** The request fields the handlers read. */
  datatype Request = Request(fname: Option<string>, lname: Option<string>, dob: Option<string>,
                             provider: Option<string>, memberID: Option<string>)

  /** A benefit amount: `{Value, Notes}`. */
  datatype Benefit = Benefit(value: Option<string>, notes: Option<string>)

  datatype PlanCoverage = PlanCoverage(status: Option<string>, planName: Option<string>, groupName: Option<string>)

  datatype MentalHealth = MentalHealth(coPayInNet: Option<Benefit>, coInsInNet: Option<Benefit>)

  datatype Misc = Misc(memberId: Option<string>)

  datatype Subscriber = Subscriber(fullName: Option<string>)

  datatype Demographic = Demographic(subscriber: Option<Subscriber>)

  /** `HBPC_Deductible_OOP_Summary` */
  datatype Deductibles = Deductibles(
    individualInNet: Option<Benefit>,
    individualRemainingInNet: Option<Benefit>,
    familyInNet: Option<Benefit>,
    familyRemainingInNet: Option<Benefit>)

  /** The parts of the eligibility summary the response reads. */
  datatype Summary = Summary(
    planCoverage: Option<PlanCoverage>,
    mentalHealth: Option<MentalHealth>,
    misc: Option<Misc>,
    payerName: Option<string>,
    demographic: Option<Demographic>,
    deductibles: Option<Deductibles>)

  /** The response; `payerCode` is only sent by the app's handler. */
  datatype Response = Response(
    status: string,
    payerCode: Option<string>,
    planName: string,
    groupName: string,
    copay: string,
    coInsuranceInNet: Option<string>,
    memberId: Option<string>,
    provider: Option<string>,
    subscriber: string,
    indivDeductibleInNet: Option<string>,
    indivDeductibleInNetRemaining: Option<string>,
    famDeductibleInNet: Option<string>,
    famDeductibleInNetRemaining: Option<string>)

  datatype Shaped = Built(response: Response) | Throws

  /** `x ? x : d` for a default that is a string. */
  function OrElse(x: Option<string>, d: string): string {
    if Truthy(x) then x.value else d
  }

  /** `x ? x : d` for a default that may itself be undefined. */
  function OrElseMaybe(x: Option<string>, d: Option<string>): Option<string> {
    if Truthy(x) then x else d
  }

  function ValueOf(b: Option<Benefit>): Option<string> {
    if b.Some? then b.value.value else None
  }

  function NotesOf(b: Option<Benefit>): Option<string> {
    if b.Some? then b.value.notes else None
  }

  /**
    `V ? V : "" + " " + N ? N : ""` as JavaScript parses it: the conditional binds
    loosest, so it reads `V ? V : (("" + " " + N) ? N : "")`, and the middle condition
    is the concatenated string.
   */
  function ValueOrNotes(b: Option<Benefit>): Option<string> {
    var v := ValueOf(b);
    var n := NotesOf(b);
    if Truthy(v) then v
    else if Truthy(Some("" + " " + JsString(n))) then n
    else Some("")
  }

  /**
    The concatenation is never empty, so the trailing `: ""` is dead: without a value
    the field is the notes as they are, undefined when there are none.
   */
  lemma NotesQuirk(b: Option<Benefit>)
    ensures ValueOrNotes(b) == if Truthy(ValueOf(b)) then ValueOf(b) else NotesOf(b)
  {
    assert ("" + " " + JsString(NotesOf(b)))[0] == ' ';
  }

  function Plan(e: Option<Summary>): Option<PlanCoverage> {
    if e.Some? then e.value.planCoverage else None
  }

  /** `eligibility?.PlanCoverageSummary?.Status` */
  function StatusOf(e: Option<Summary>): Option<string> {
    if Plan(e).Some? then Plan(e).value.status else None
  }

  function PlanNameOf(e: Option<Summary>): Option<string> {
    if Plan(e).Some? then Plan(e).value.planName else None
  }

  function GroupNameOf(e: Option<Summary>): Option<string> {
    if Plan(e).Some? then Plan(e).value.groupName else None
  }

  function Mental(e: Option<Summary>): Option<MentalHealth> {
    if e.Some? then e.value.mentalHealth else None
  }

  function CoPayOf(e: Option<Summary>): Option<Benefit> {
    if Mental(e).Some? then Mental(e).value.coPayInNet else None
  }

  function CoInsOf(e: Option<Summary>): Option<Benefit> {
    if Mental(e).Some? then Mental(e).value.coInsInNet else None
  }

  function MemberIdOf(e: Option<Summary>): Option<string> {
    if e.Some? && e.value.misc.Some? then e.value.misc.value.memberId else None
  }

  function PayerNameOf(e: Option<Summary>): Option<string> {
    if e.Some? then e.value.payerName else None
  }

  function Deductible(e: Option<Summary>): Option<Deductibles> {
    if e.Some? then e.value.deductibles else None
  }

  /** `eligibility?.HBPC_Deductible_OOP_Summary?.IndividualDeductibleInNet` */
  function IndivInNetOf(e: Option<Summary>): Option<Benefit> {
    if Deductible(e).Some? then Deductible(e).value.individualInNet else None
  }

  function IndivRemainingOf(e: Option<Summary>): Option<Benefit> {
    if Deductible(e).Some? then Deductible(e).value.individualRemainingInNet else None
  }

  function FamInNetOf(e: Option<Summary>): Option<Benefit> {
    if Deductible(e).Some? then Deductible(e).value.familyInNet else None
  }

  function FamRemainingOf(e: Option<Summary>): Option<Benefit> {
    if Deductible(e).Some? then Deductible(e).value.familyRemainingInNet else None
  }

  /** The non-optional chain to the subscriber's name throws on a missing link. */
  predicate SubscriberThrows(e: Option<Summary>) {
    e.Some? && (e.value.demographic.None? || e.value.demographic.value.subscriber.None?)
  }

  function FullName(e: Option<Summary>): Option<string>
    requires !SubscriberThrows(e)
  {
    if e.None? then None else e.value.demographic.value.subscriber.value.fullName
  }

  /** The response object literal of both handlers; `payerCode` is None for pverify/index.js. */
  function Shape(e: Option<Summary>, req: Request, payerCode: Option<string>): Shaped
  {
    if SubscriberThrows(e) then Throws
    else
      Built(Response(
        status := OrElse(StatusOf(e), "Failed"),
        payerCode := payerCode,
        planName := OrElse(PlanNameOf(e), "N/A"),
        groupName := OrElse(GroupNameOf(e), "N/A"),
        copay := OrElse(ValueOf(CoPayOf(e)), "N/A"),
        coInsuranceInNet := ValueOrNotes(CoInsOf(e)),
        memberId := OrElseMaybe(MemberIdOf(e), req.memberID),
        provider := OrElseMaybe(PayerNameOf(e), req.provider),
        subscriber := OrElse(FullName(e), JsString(req.fname) + " " + JsString(req.lname)),
        indivDeductibleInNet := ValueOrNotes(IndivInNetOf(e)),
        indivDeductibleInNetRemaining := ValueOrNotes(IndivRemainingOf(e)),
        famDeductibleInNet := ValueOrNotes(FamInNetOf(e)),
        famDeductibleInNetRemaining := ValueOrNotes(FamRemainingOf(e))))
  }

  /** Building the response throws exactly when a summary lacks the subscriber's block. */
  lemma ShapeThrowsExactly(e: Option<Summary>, req: Request, payerCode: Option<string>)
    ensures Shape(e, req, payerCode) == Throws <==>
      e.Some? && (e.value.demographic.None? || e.value.demographic.value.subscriber.None?)
  {
  }

  /**
    With nothing usable in the summary every field takes its default: status "Failed",
    "N/A" for plan, group and copay, the requested member id and payer name, the
    requested first and last name, and no benefit amounts.
   */
  lemma AllDefaults(req: Request, payerCode: Option<string>)
    ensures Shape(None, req, payerCode) == Built(Response(
      "Failed", payerCode, "N/A", "N/A", "N/A", None, req.memberID, req.provider,
      JsString(req.fname) + " " + JsString(req.lname), None, None, None, None))
  {
  }

  /** A benefit field: its truthy value, or else its notes as they are. */
  predicate BenefitSent(sent: Option<string>, b: Option<Benefit>) {
    && (Truthy(ValueOf(b)) ==> sent == ValueOf(b))
    && (!Truthy(ValueOf(b)) ==> sent == NotesOf(b))
  }

  /**
    Field by field, whether or not a summary came back: a truthy value of the summary is
    sent as it is, and a missing or falsy one is replaced by the field's default (status
    "Failed"; "N/A" for plan, group and copay; the requested member id, payer name and
    first and last name; a benefit's notes). The text fields the page shows are never
    empty, and the payer code is the caller's.
   */
  lemma SummaryValuesWin(e: Option<Summary>, req: Request, payerCode: Option<string>)
    requires Shape(e, req, payerCode).Built?
    ensures var r := Shape(e, req, payerCode).response;
      && r.status != "" && r.planName != "" && r.groupName != "" && r.copay != "" && r.subscriber != ""
      && (Truthy(StatusOf(e)) ==> r.status == StatusOf(e).value)
      && (!Truthy(StatusOf(e)) ==> r.status == "Failed")
      && (Truthy(PlanNameOf(e)) ==> r.planName == PlanNameOf(e).value)
      && (!Truthy(PlanNameOf(e)) ==> r.planName == "N/A")
      && (Truthy(GroupNameOf(e)) ==> r.groupName == GroupNameOf(e).value)
      && (!Truthy(GroupNameOf(e)) ==> r.groupName == "N/A")
      && (Truthy(ValueOf(CoPayOf(e))) ==> r.copay == ValueOf(CoPayOf(e)).value)
      && (!Truthy(ValueOf(CoPayOf(e))) ==> r.copay == "N/A")
      && (Truthy(MemberIdOf(e)) ==> r.memberId == MemberIdOf(e))
      && (!Truthy(MemberIdOf(e)) ==> r.memberId == req.memberID)
      && (Truthy(PayerNameOf(e)) ==> r.provider == PayerNameOf(e))
      && (!Truthy(PayerNameOf(e)) ==> r.provider == req.provider)
      && (Truthy(FullName(e)) ==> r.subscriber == FullName(e).value)
      && (!Truthy(FullName(e)) ==> r.subscriber == JsString(req.fname) + " " + JsString(req.lname))
      && BenefitSent(r.coInsuranceInNet, CoInsOf(e))
      && BenefitSent(r.indivDeductibleInNet, IndivInNetOf(e))
      && BenefitSent(r.indivDeductibleInNetRemaining, IndivRemainingOf(e))
      && BenefitSent(r.famDeductibleInNet, FamInNetOf(e))
      && BenefitSent(r.famDeductibleInNetRemaining, FamRemainingOf(e))
      && r.payerCode == payerCode
  {
    var r := Shape(e, req, payerCode).response;
    assert (JsString(req.fname) + " " + JsString(req.lname))[|JsString(req.fname)|] == ' ';
    NotesQuirk(CoInsOf(e));
    NotesQuirk(IndivInNetOf(e));
    NotesQuirk(IndivRemainingOf(e));
    NotesQuirk(FamInNetOf(e));
    NotesQuirk(FamRemainingOf(e));
  }
}
