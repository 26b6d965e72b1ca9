/**
 * The recruitment serializers: the session-code prefix check, the session date check that
 * stops at the first problem, the different-roles check, and the composite submission that
 * writes an application and its three child records.
 */
module RecruitmentSerializers {
  import opened Common
  import opened Text
  import opened Formats
  import opened RecruitmentModel

  const MsgUniSession := "University session must start with 'FA' (Fall) or 'SP' (Spring)"

  /** `validate_uni_session`: only the prefix is checked here. */
  function ValidateUniSession(value: string): (r: Result<string, string>)
    ensures r.Ok? <==> StartsWith(value, "FA") || StartsWith(value, "SP")
    ensures r.Ok? ==> r.value == value
    ensures r.Err? ==> r.error == MsgUniSession
  {
    if StartsWith(value, "FA") || StartsWith(value, "SP") then Ok(value) else Err(MsgUniSession)
  }

  /** Every code the session table accepts passes the prefix check. */
  lemma SessionCodePassesPrefixCheck(code: string)
    requires IsSessionCode(code)
    ensures ValidateUniSession(code).Ok?
  {
    assert code[..2] == "FA" || code[..2] == "SP";
  }

  /** The prefix check is weaker than the table's format: it lets through codes the table refuses. */
  lemma PrefixCheckWeakerThanTable()
    ensures ValidateUniSession("FA2024").Ok? && !SessionCodeFieldValid("FA2024")
  {
    assert StartsWith("FA2024", "FA");
  }

  /** Whether `data[later] < data[earlier]`, both keys being present. */
  predicate KeyBefore(data: map<string, int>, later: string, earlier: string)
  {
    later in data && earlier in data && data[later] < data[earlier]
  }

  /**
   * `RecruitmentSessionSerializer.validate`: three comparisons over the keys `start_date`,
   * `end_date`, `interview_date` and `result_date`; the first broken one is raised alone.
   */
  function ValidateSessionDates(data: map<string, int>): (r: Result<map<string, int>, (string, string)>)
    ensures r.Ok? <==> !KeyBefore(data, "end_date", "start_date") && !KeyBefore(data, "interview_date", "end_date")
                       && !KeyBefore(data, "result_date", "interview_date")
    ensures r.Ok? ==> r.value == data
    ensures r.Err? && r.error.0 == "end_date" <==> KeyBefore(data, "end_date", "start_date")
    ensures r.Err? && r.error.0 == "interview_date" <==>
              !KeyBefore(data, "end_date", "start_date") && KeyBefore(data, "interview_date", "end_date")
    ensures r.Err? ==> r.error.0 in {"end_date", "interview_date", "result_date"}
  {
    if KeyBefore(data, "end_date", "start_date") then
      Err(("end_date", "End date must be after start date"))
    else if KeyBefore(data, "interview_date", "end_date") then
      Err(("interview_date", "Interview date must be after application end date"))
    else if KeyBefore(data, "result_date", "interview_date") then
      Err(("result_date", "Result date must be after interview date"))
    else
      Ok(data)
  }

  /**
   * The serializer reads key names the session table does not have: a payload that uses the
   * table's own field names passes, however its dates are ordered.
   */
  lemma SessionDatesIgnoreModelFields(data: map<string, int>)
    requires data.Keys <= DateFields + {"uni_session"}
    ensures ValidateSessionDates(data).Ok?
  {
    assert "start_date" !in data && "end_date" !in data && "interview_date" !in data;
  }

  /** Where the table's `clean` reports every broken step, the serializer reports only the first. */
  lemma SerializerStopsAtFirstBreak()
    ensures ValidateSessionDates(map["start_date" := 5, "end_date" := 4, "interview_date" := 3]).Err?
    ensures ValidateSessionDates(map["start_date" := 5, "end_date" := 4, "interview_date" := 3]).error.0 == "end_date"
  {
    assert KeyBefore(map["start_date" := 5, "end_date" := 4, "interview_date" := 3], "end_date", "start_date");
  }

  const MsgSameRole := "Secondary role must be different from preferred role"

  /** `RolePreferencesSerializer.validate`: a given, non-empty secondary role must differ from the preferred one. */
  function ValidateRoles(preferred: Option<string>, secondary: Option<string>): (r: Result<(), (string, string)>)
    ensures r.Err? ==> r.error == ("secondary_role", MsgSameRole)
  {
    if secondary.Some? && secondary.value != "" && preferred == secondary then Err(("secondary_role", MsgSameRole))
    else Ok(())
  }

  /** The role check fails exactly for a repeated role; an absent secondary role always passes. */
  lemma ValidateRolesExact(preferred: Option<string>, secondary: Option<string>)
    ensures secondary.None? ==> ValidateRoles(preferred, secondary).Ok?
    ensures forall p, s :: p != s ==> ValidateRoles(Some(p), Some(s)).Ok?
    ensures forall p :: p != "" ==> ValidateRoles(Some(p), Some(p)).Err?
  {
  }

  /** The serializer is stricter than the table: the table stores a repeated role, the serializer refuses it. */
  lemma SerializerStricterThanTable(r: Role)
    ensures RolePreferencesFieldsValid(RoleValue(r), RoleValue(r))
    ensures ValidateRoles(Some(RoleValue(r)), Some(RoleValue(r))).Err?
  {
    ModelAllowsEqualRoles(r);
  }

  /**
   * A submission request. `status` is what the client sent for the read-only `status`
   * field; it is never read.
   */
  datatype SubmissionRequest = SubmissionRequest(
    session: nat,
    status: Option<string>,
    personal: PersonalData,
    academic: AcademicData,
    preferences: PreferenceData)

  // ---------------------------------------------------------------- nested field checks

  const MsgBlank := "This field may not be blank."
  const MsgInvalidEmail := "Enter a valid email address."
  const MsgPhone := "Enter a valid Pakistani number in the format +92XXXXXXXXXX."
  const NameMaxLength: nat := 50
  const EmailMaxLength: nat := 254
  const RegNoMaxLength: nat := 20

  function MsgTooLong(n: nat): string
  {
    "Ensure this field has no more than " + NatToString(n) + " characters."
  }

  function MsgNotAChoice(v: string): string
  {
    "\"" + v + "\" is not a valid choice."
  }

  /** A required text column: blank once trimmed is refused, then the length of the trimmed text. */
  function TextError(v: string, maxLength: nat): (e: Option<string>)
    ensures e.None? <==> Trim(v) != "" && |Trim(v)| <= maxLength
    ensures e == Some(MsgBlank) <==> Trim(v) == ""
  {
    if Trim(v) == "" then Some(MsgBlank)
    else if |Trim(v)| > maxLength then Some(MsgTooLong(maxLength))
    else None
  }

  /** The email column: not blank, an address (the first validator), then at most 254 characters. */
  function EmailError(v: string): (e: Option<string>)
    ensures e.None? <==> Trim(v) != "" && IsEmail(Trim(v)) && |Trim(v)| <= EmailMaxLength
    ensures e == Some(MsgInvalidEmail) <==> Trim(v) != "" && !IsEmail(Trim(v))
  {
    if Trim(v) == "" then Some(MsgBlank)
    else if !IsEmail(Trim(v)) then Some(MsgInvalidEmail)
    else if |Trim(v)| > EmailMaxLength then Some(MsgTooLong(EmailMaxLength))
    else None
  }

  /** The phone column: not blank, then the `+92` pattern on the trimmed text. */
  function PhoneError(v: string): (e: Option<string>)
    ensures e.None? <==> IsPkPhone(Trim(v))
  {
    PersonalPhoneExact(Trim(v));
    if Trim(v) == "" then Some(MsgBlank)
    else if !PersonalPhoneValid(Trim(v)) then Some(MsgPhone)
    else None
  }

  /** A choice column: the value must be one of the choices exactly, with no trimming. */
  function ChoiceError(v: string, isChoice: bool): (e: Option<string>)
    ensures e.None? <==> isChoice
    ensures e.Some? ==> e.value == MsgNotAChoice(v)
  {
    if isChoice then None else Some(MsgNotAChoice(v))
  }

  /** The applicant's personal group, column by column in table order. */
  function PersonalError(p: PersonalData): (e: Option<string>)
    ensures e.None? <==>
              Trim(p.firstName) != "" && |Trim(p.firstName)| <= NameMaxLength
              && Trim(p.lastName) != "" && |Trim(p.lastName)| <= NameMaxLength
              && Trim(p.email) != "" && IsEmail(Trim(p.email)) && |Trim(p.email)| <= EmailMaxLength
              && IsPkPhone(Trim(p.phone))
  {
    if TextError(p.firstName, NameMaxLength).Some? then TextError(p.firstName, NameMaxLength)
    else if TextError(p.lastName, NameMaxLength).Some? then TextError(p.lastName, NameMaxLength)
    else if EmailError(p.email).Some? then EmailError(p.email)
    else PhoneError(p.phone)
  }

  /** The academic group: the registration number and the programme choice. */
  function AcademicError(a: AcademicData): (e: Option<string>)
    ensures e.None? <==> Trim(a.regNo) != "" && |Trim(a.regNo)| <= RegNoMaxLength && IsProgramChoice(a.program)
  {
    if TextError(a.regNo, RegNoMaxLength).Some? then TextError(a.regNo, RegNoMaxLength)
    else ChoiceError(a.program, IsProgramChoice(a.program))
  }

  /**
   * The preferences group: both role columns must be choices (an absent secondary role is not
   * checked) and the purpose must not be blank; only then does the different-roles check run.
   */
  function PreferencesError(p: PreferenceData): (e: Option<string>)
    ensures e.None? <==>
              IsRoleChoice(p.preferred) && (p.secondary.Some? ==> IsRoleChoice(p.secondary.value))
              && Trim(p.purpose) != "" && ValidateRoles(Some(p.preferred), p.secondary).Ok?
    ensures (e.Some? && IsRoleChoice(p.preferred) && (p.secondary.Some? ==> IsRoleChoice(p.secondary.value))
             && Trim(p.purpose) != "") ==> e == Some(ValidateRoles(Some(p.preferred), p.secondary).error.1)
  {
    if !IsRoleChoice(p.preferred) then ChoiceError(p.preferred, false)
    else if p.secondary.Some? && !IsRoleChoice(p.secondary.value) then ChoiceError(p.secondary.value, false)
    else if Trim(p.purpose) == "" then Some(MsgBlank)
    else
      var roles := ValidateRoles(Some(p.preferred), p.secondary);
      if roles.Err? then Some(roles.error.1) else None
  }

  /** The request as validated: every text column trimmed, choices and numbers untouched. */
  function Cleaned(req: SubmissionRequest): (c: SubmissionRequest)
    ensures c.session == req.session
    ensures c.personal == PersonalData(Trim(req.personal.firstName), Trim(req.personal.lastName),
                                       Trim(req.personal.email), Trim(req.personal.phone))
    ensures c.academic == req.academic.(regNo := Trim(req.academic.regNo))
    ensures c.preferences == req.preferences.(purpose := Trim(req.preferences.purpose))
  {
    req.(personal := PersonalData(Trim(req.personal.firstName), Trim(req.personal.lastName),
                                  Trim(req.personal.email), Trim(req.personal.phone)),
         academic := req.academic.(regNo := Trim(req.academic.regNo)),
         preferences := req.preferences.(purpose := Trim(req.preferences.purpose)))
  }

  /** The literal status `create` writes. */
  const SubmittedStatus := "Under Review"

  /** `to_representation`: the application, its session id and its three nested groups. */
  datatype Representation = Representation(
    id: nat, session: nat, status: string,
    personal: PersonalData, academic: AcademicData, preferences: PreferenceData)

  function Represent(db: ApplicationTables, id: nat): (r: Representation)
    reads db
    requires id in db.applications && id in db.personal && id in db.academic && id in db.preferences
    ensures r.id == id && r.session == db.applications[id].session
  {
    Representation(id, db.applications[id].session, db.applications[id].status,
                   db.personal[id], db.academic[id], db.preferences[id])
  }

  /**
   * `RecruitmentApplicationSubmissionSerializer.create`: the parent application first, with
   * status "Under Review", then one personal, one academic and one preferences row, each
   * keyed by the parent's id; `now` is the clock reading stamped as the submission time.
   * Nothing else in the tables changes.
   */
  method CreateSubmission(db: ApplicationTables, req: SubmissionRequest, now: int) returns (id: nat)
    requires db.Valid()
    modifies db
    ensures db.Valid()
    ensures id !in old(db.applications) && id !in old(db.personal)
    ensures id !in old(db.academic) && id !in old(db.preferences)
    ensures db.applications == old(db.applications)[id := Application(req.session, SubmittedStatus, now)]
    ensures db.personal == old(db.personal)[id := req.personal]
    ensures db.academic == old(db.academic)[id := req.academic]
    ensures db.preferences == old(db.preferences)[id := req.preferences]
    ensures Represent(db, id) ==
      Representation(id, req.session, SubmittedStatus, req.personal, req.academic, req.preferences)
  {
    id := db.nextId;
    db.applications := db.applications[id := Application(req.session, SubmittedStatus, now)];
    db.nextId := db.nextId + 1;
    db.personal := db.personal[id := req.personal];
    db.academic := db.academic[id := req.academic];
    db.preferences := db.preferences[id := req.preferences];
  }

  datatype SubmitOutcome =
    | Created(rep: Representation)
    | Invalid(field: string, message: string)

  /** The first refusal in field order: the session reference, then each nested group's first message. */
  function SubmissionError(sessions: set<nat>, req: SubmissionRequest): (e: Option<(string, string)>)
    ensures e.None? <==> req.session in sessions && PersonalError(req.personal).None?
                         && AcademicError(req.academic).None? && PreferencesError(req.preferences).None?
    ensures e.Some? && req.session !in sessions ==> e.value.0 == "recruitment_session"
  {
    if req.session !in sessions then Some(("recruitment_session", "Invalid pk - object does not exist."))
    else if PersonalError(req.personal).Some? then Some(("personal_info", PersonalError(req.personal).value))
    else if AcademicError(req.academic).Some? then Some(("academic_info", AcademicError(req.academic).value))
    else if PreferencesError(req.preferences).Some? then Some(("role_preferences", PreferencesError(req.preferences).value))
    else None
  }

  /**
   * The submit endpoint: the session reference and each nested group's columns are checked,
   * the roles last, then `create` runs on the trimmed values. A refused submission writes nothing.
   */
  method Submit(db: ApplicationTables, sessions: set<nat>, req: SubmissionRequest, now: int) returns (out: SubmitOutcome)
    requires db.Valid()
    modifies db
    ensures db.Valid()
    ensures out.Invalid? <==> SubmissionError(sessions, req).Some?
    ensures out.Invalid? ==> (out.field, out.message) == SubmissionError(sessions, req).value
    ensures out.Invalid? ==> db.applications == old(db.applications) && db.personal == old(db.personal)
                             && db.academic == old(db.academic) && db.preferences == old(db.preferences)
    ensures out.Created? ==>
              var c := Cleaned(req);
              out.rep == Representation(out.rep.id, req.session, SubmittedStatus, c.personal, c.academic, c.preferences)
              && out.rep.id !in old(db.applications)
              && db.applications == old(db.applications)[out.rep.id := Application(req.session, SubmittedStatus, now)]
              && db.personal == old(db.personal)[out.rep.id := c.personal]
              && db.academic == old(db.academic)[out.rep.id := c.academic]
              && db.preferences == old(db.preferences)[out.rep.id := c.preferences]
  {
    var e := SubmissionError(sessions, req);
    if e.Some? {
      return Invalid(e.value.0, e.value.1);
    }
    var id := CreateSubmission(db, Cleaned(req), now);
    out := Created(Represent(db, id));
  }

  /**
   * Every row an accepted submission stores passes its table's own column checks: names of at
   * most 50 characters, an email address, a `+92` phone, a programme and roles among the choices,
   * and two different roles.
   */
  lemma AcceptedRowsPassColumns(sessions: set<nat>, req: SubmissionRequest)
    requires SubmissionError(sessions, req).None?
    ensures var c := Cleaned(req);
            |c.personal.firstName| <= NameMaxLength && |c.personal.lastName| <= NameMaxLength
            && IsEmail(c.personal.email) && PersonalPhoneValid(c.personal.phone)
            && |c.academic.regNo| <= RegNoMaxLength && IsProgramChoice(c.academic.program)
            && (c.preferences.secondary.Some? ==>
                  RolePreferencesFieldsValid(c.preferences.preferred, c.preferences.secondary.value)
                  && c.preferences.preferred != c.preferences.secondary.value)
  {
    var c := Cleaned(req);
    assert PersonalError(req.personal).None? && AcademicError(req.academic).None?;
    PersonalPhoneExact(Trim(req.personal.phone));
    AcceptedRolesDiffer(req.preferences);
  }

  lemma AcceptedRolesDiffer(p: PreferenceData)
    requires PreferencesError(p).None?
    ensures p.secondary.Some? ==>
              RolePreferencesFieldsValid(p.preferred, p.secondary.value) && p.preferred != p.secondary.value
  {
    if p.secondary.Some? {
      var r :| RoleValue(r) == p.secondary.value;
      assert p.secondary.value != "" by {
        match r
        case CodeHub =>
        case GraphicsMedia =>
        case SocialMediaMarketing =>
        case RegistrationDecor =>
        case EventsLogistics =>
      }
    }
  }

  /** The pattern is matched after trimming: a well-formed phone with surrounding white space passes. */
  lemma PaddedPhoneAccepted(phone: string)
    requires IsPkPhone(phone)
    ensures PhoneError(" " + phone + "\n").None?
  {
    var t := phone;
    assert !IsSpace(t[0]) && !IsSpace(t[|t| - 1]);
    var s := " " + t + "\n";
    assert s[1..] == t + "\n";
    assert TrimStart(t + "\n") == t + "\n";
    assert (t + "\n")[..|t|] == t;
    assert TrimEnd(t + "\n") == t;
  }

  /** The stored status is not one of the status choices: it is a label, not a value. */
  lemma SubmittedStatusIsNotAChoice()
    ensures !IsStatusChoice(SubmittedStatus)
    ensures SubmittedStatus == StatusLabel(UnderReview) && SubmittedStatus != DefaultStatus()
  {
    StatusChoices(SubmittedStatus);
  }
}
