/**
  Two access checks of app/app.js: the CORS origin callback every route goes through,
  and the decision of `/document` on whether the signed-in user may download a file of
  the patients' document bucket.
 */
module Access {
  import opened Text

  // ---------------------------------------------------------------------------
  // CORS

  const Whitelist: seq<string> := [
    "https://patient.brightsidecounseling.org",
    "https://portal.brightsidecounseling.org",
    "http://localhost:4200"
  ]

  datatype CorsDecision = Allow | Blocked(message: string)

  /**
    The `origin` callback: a request without an Origin header (or an empty one) is
    allowed; otherwise the origin must be one of the whitelist.
   */
  function CheckOrigin(origin: Option<string>): CorsDecision {
    if !Truthy(origin) then Allow
    else if origin.value in Whitelist then Allow
    else Blocked("Blocked by CORS policy")
  }

  /** Exactly three origins are admitted besides requests that carry none. */
  lemma CorsAllowsExactly(origin: Option<string>)
    ensures CheckOrigin(origin) == Allow <==>
      || origin == None || origin == Some("")
      || origin == Some("https://patient.brightsidecounseling.org")
      || origin == Some("https://portal.brightsidecounseling.org")
      || origin == Some("http://localhost:4200")
    ensures CheckOrigin(origin) != Allow ==> CheckOrigin(origin) == Blocked("Blocked by CORS policy")
  {
  }

  // ---------------------------------------------------------------------------
  // `/document`

  /** The custom claims of the signed-in user that the check reads. */
  datatype Claims = Claims(role: Option<string>, clinicianId: Option<string>)

  datatype DocAccess = Granted | Denied | Crashed

  /** The patient a file belongs to: the first segment of its path. */
  function PatientOf(filePath: string): string {
    Split(filePath, '/')[0]
  }

  /** The id of the `assignedClinicians` document linking a patient to a clinician. */
  function AssignmentKey(patientId: string, clinicianId: Option<string>): string {
    patientId + "_" + JsString(clinicianId)
  }

  predicate AdminOrStaff(c: Claims) {
    c.role == Some("admin") || c.role == Some("staff")
  }

  /**
    The decision once the token is verified: a missing `filePath` or missing custom claims
    throw (the handler then answers 500); admin and staff may read every file; anyone
    else needs an assignment of the file's patient to their `clinicianId`.
   */
  function DocumentAccess(filePath: Option<string>, claims: Option<Claims>, assignments: set<string>): DocAccess {
    if filePath.None? || claims.None? then Crashed
    else if AdminOrStaff(claims.value) then Granted
    else if AssignmentKey(PatientOf(filePath.value), claims.value.clinicianId) in assignments then Granted
    else Denied
  }

  /** Admin and staff may read any file. */
  lemma AdminStaffReadAll(filePath: string, claims: Claims, assignments: set<string>)
    requires AdminOrStaff(claims)
    ensures DocumentAccess(Some(filePath), Some(claims), assignments) == Granted
  {
  }

  /**
    A clinician reads a file under a patient's folder exactly when that patient is
    assigned to them; a clinician without a `clinicianId` is looked up as "undefined".
   */
  lemma {:induction false} ClinicianReadsAssignedOnly(patientId: string, rest: string, claims: Claims, assignments: set<string>)
    requires '/' !in patientId && !AdminOrStaff(claims)
    ensures DocumentAccess(Some(patientId + "/" + rest), Some(claims), assignments) == Granted
      <==> patientId + "_" + JsString(claims.clinicianId) in assignments
  {
    assert patientId + "/" + rest == patientId + ['/'] + rest;
    SplitAtFirst(patientId, rest, '/');
  }

  /** The patient id never contains '/', and it is the whole path when there is no '/'. */
  lemma PatientOfShape(filePath: string)
    ensures '/' !in PatientOf(filePath)
    ensures |PatientOf(filePath)| <= |filePath| && PatientOf(filePath) == filePath[..|PatientOf(filePath)|]
    ensures '/' !in filePath ==> PatientOf(filePath) == filePath
  {
    SplitWordsFree(filePath, '/');
    SplitFirstPrefix(filePath, '/');
    if '/' !in filePath {
      SplitNoSeparator(filePath, '/');
    }
  }
}
