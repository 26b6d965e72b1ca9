/**
 * The recruitment tables: choice enumerations, the recruitment session with its code format
 * and its four-step date chain, the application with its default status, and the
 * personal-information phone format.
 */
module RecruitmentModel {
  import opened Common
  import opened Text
  import opened Formats

  datatype ApplicationStatus = UnderReview | Accepted | Rejected | Interviews

  /** The stored value of a status. */
  function StatusValue(st: ApplicationStatus): string
  {
    match st
    case UnderReview => "UNDER_REVIEW"
    case Accepted => "ACCEPTED"
    case Rejected => "REJECTED"
    case Interviews => "INTERVIEWS"
  }

  /** The human-readable label of a status. */
  function StatusLabel(st: ApplicationStatus): string
  {
    match st
    case UnderReview => "Under Review"
    case Accepted => "Accepted"
    case Rejected => "Rejected"
    case Interviews => "Interviews"
  }

  /** A string the `status` column accepts as one of its choices. */
  predicate IsStatusChoice(v: string)
  {
    exists st :: StatusValue(st) == v
  }

  lemma StatusChoices(v: string)
    ensures IsStatusChoice(v) <==> v == "UNDER_REVIEW" || v == "ACCEPTED" || v == "REJECTED" || v == "INTERVIEWS"
  {
    if v == "UNDER_REVIEW" { assert StatusValue(UnderReview) == v; }
    if v == "ACCEPTED" { assert StatusValue(Accepted) == v; }
    if v == "REJECTED" { assert StatusValue(Rejected) == v; }
    if v == "INTERVIEWS" { assert StatusValue(Interviews) == v; }
  }

  /** Distinct statuses are stored as distinct values. */
  lemma StatusValueInjective(a: ApplicationStatus, b: ApplicationStatus)
    ensures StatusValue(a) == StatusValue(b) <==> a == b
  {
  }

  /** The status a new application gets when none is given. */
  function DefaultStatus(): (v: string)
    ensures IsStatusChoice(v) && v == "UNDER_REVIEW"
  {
    assert StatusValue(UnderReview) == "UNDER_REVIEW";
    StatusValue(UnderReview)
  }

  datatype Program = BSCS | BSSE | BSAI

  function ProgramValue(p: Program): string
  {
    match p
    case BSCS => "BSCS"
    case BSSE => "BSSE"
    case BSAI => "BSAI"
  }

  predicate IsProgramChoice(v: string)
  {
    exists p :: ProgramValue(p) == v
  }

  lemma ProgramChoices(v: string)
    ensures IsProgramChoice(v) <==> v == "BSCS" || v == "BSSE" || v == "BSAI"
  {
    if v == "BSCS" { assert ProgramValue(BSCS) == v; }
    if v == "BSSE" { assert ProgramValue(BSSE) == v; }
    if v == "BSAI" { assert ProgramValue(BSAI) == v; }
  }

  datatype Role = CodeHub | GraphicsMedia | SocialMediaMarketing | RegistrationDecor | EventsLogistics

  function RoleValue(r: Role): string
  {
    match r
    case CodeHub => "CODEHUB"
    case GraphicsMedia => "GRAPHICS_MEDIA"
    case SocialMediaMarketing => "SOCIAL_MEDIA_MARKETING"
    case RegistrationDecor => "REGISTRATION_DECOR"
    case EventsLogistics => "EVENTS_LOGISTICS"
  }

  predicate IsRoleChoice(v: string)
  {
    exists r :: RoleValue(r) == v
  }

  // ---------------------------------------------------------------- sessions

  /** The exact text matched by `(FA|SP)\d{2}`. */
  predicate IsSessionCode(code: string)
  {
    |code| == 4 && (code[..2] == "FA" || code[..2] == "SP") && IsDigit(code[2]) && IsDigit(code[3])
  }

  const SessionCodeMaxLength: nat := 4

  /** What the `uni_session` column accepts: its regex validator and its maximum length. */
  predicate SessionCodeFieldValid(code: string)
  {
    |code| <= SessionCodeMaxLength && AnchoredSearch(IsSessionCode, code)
  }

  /** The column accepts exactly the four-character codes: the length bound rules out a trailing newline. */
  lemma SessionCodeFieldExact(code: string)
    ensures SessionCodeFieldValid(code) <==> IsSessionCode(code)
  {
  }

  /** A session's five dates, as day numbers; a date that was not given is `None`. */
  datatype Session = Session(
    code: string,
    applicationStart: Option<int>,
    applicationEnd: Option<int>,
    interviewStart: Option<int>,
    interviewEnd: Option<int>,
    resultDate: Option<int>)

  const MsgApplicationEnd := "Application end date cannot be before application start date."
  const MsgInterviewStart := "Interview start date must be on or after application end date."
  const MsgInterviewEnd := "Interview end date cannot be before interview start date."
  const MsgResultDate := "Result date must be on or after interview end date."

  /** Both dates are present and `later` falls strictly before `earlier`. */
  predicate Precedes(later: Option<int>, earlier: Option<int>)
  {
    later.Some? && earlier.Some? && later.value < earlier.value
  }

  /** The fields that name one step of the date chain each. */
  const ChainFields: set<string> := {"application_end", "interview_start", "interview_end", "result_date"}

  /** Whether the step of the chain that `field` names is broken in `s`. */
  predicate StepBroken(s: Session, field: string)
  {
    match field
    case "application_end" => Precedes(s.applicationEnd, s.applicationStart)
    case "interview_start" => Precedes(s.interviewStart, s.applicationEnd)
    case "interview_end" => Precedes(s.interviewEnd, s.interviewStart)
    case "result_date" => Precedes(s.resultDate, s.interviewEnd)
    case _ => false
  }

  function StepMessage(field: string): string
  {
    match field
    case "application_end" => MsgApplicationEnd
    case "interview_start" => MsgInterviewStart
    case "interview_end" => MsgInterviewEnd
    case _ => MsgResultDate
  }

  /** Every broken step, each under its own field with its own message. */
  function ChainErrors(s: Session): map<string, string>
  {
    map f | f in ChainFields && StepBroken(s, f) :: StepMessage(f)
  }

  /** `m` with the step that `field` names recorded when it is broken in `s`. */
  function RecordStep(m: map<string, string>, s: Session, field: string): map<string, string>
  {
    if StepBroken(s, field) then m[field := StepMessage(field)] else m
  }

  /** The broken steps recorded one after the other, in the chain's order, give every broken step. */
  lemma ChainErrorsInOrder(s: Session)
    ensures ChainErrors(s) == RecordStep(RecordStep(RecordStep(RecordStep(map[], s, "application_end"),
                                s, "interview_start"), s, "interview_end"), s, "result_date")
  {
    var m := RecordStep(RecordStep(RecordStep(RecordStep(map[], s, "application_end"),
               s, "interview_start"), s, "interview_end"), s, "result_date");
    forall f
      ensures f in m <==> f in ChainErrors(s)
      ensures f in m ==> m[f] == ChainErrors(s)[f]
    {
    }
  }

  /** `RecruitmentSession.clean`: collects the broken steps one comparison at a time. */
  method Clean(s: Session) returns (errors: map<string, string>)
    ensures errors == ChainErrors(s)
  {
    ChainErrorsInOrder(s);
    errors := map[];
    if s.applicationEnd.Some? && s.applicationStart.Some? {
      if s.applicationEnd.value < s.applicationStart.value {
        errors := errors["application_end" := MsgApplicationEnd];
      }
    }
    if s.interviewStart.Some? && s.applicationEnd.Some? {
      if s.interviewStart.value < s.applicationEnd.value {
        errors := errors["interview_start" := MsgInterviewStart];
      }
    }
    if s.interviewEnd.Some? && s.interviewStart.Some? {
      if s.interviewEnd.value < s.interviewStart.value {
        errors := errors["interview_end" := MsgInterviewEnd];
      }
    }
    if s.resultDate.Some? && s.interviewEnd.Some? {
      if s.resultDate.value < s.interviewEnd.value {
        errors := errors["result_date" := MsgResultDate];
      }
    }
  }

  /** With all five dates given, `clean` passes exactly when the dates never go backwards. */
  lemma CleanPassesIffOrdered(s: Session)
    requires s.applicationStart.Some? && s.applicationEnd.Some? && s.interviewStart.Some?
    requires s.interviewEnd.Some? && s.resultDate.Some?
    ensures ChainErrors(s) == map[] <==>
      s.applicationStart.value <= s.applicationEnd.value <= s.interviewStart.value
      <= s.interviewEnd.value <= s.resultDate.value
  {
    if ChainErrors(s) == map[] {
      assert "application_end" !in ChainErrors(s);
      assert "interview_start" !in ChainErrors(s);
      assert "interview_end" !in ChainErrors(s);
      assert "result_date" !in ChainErrors(s);
    }
  }

  /** Every broken step is reported at once: a session with all four steps broken gets four errors. */
  lemma CleanReportsAllSteps()
    ensures ChainErrors(Session("FA24", Some(5), Some(4), Some(3), Some(2), Some(1))).Keys == ChainFields
  {
    var s := Session("FA24", Some(5), Some(4), Some(3), Some(2), Some(1));
    assert StepBroken(s, "application_end") && StepBroken(s, "interview_start");
    assert StepBroken(s, "interview_end") && StepBroken(s, "result_date");
  }

  /** Equal neighbouring dates are not an error: only a strict "before" is. */
  lemma CleanAcceptsEqualDates(code: string, d: int)
    ensures ChainErrors(Session(code, Some(d), Some(d), Some(d), Some(d), Some(d))) == map[]
  {
    var s := Session(code, Some(d), Some(d), Some(d), Some(d), Some(d));
    assert forall f :: !StepBroken(s, f);
  }

  /** A step is skipped when either of its dates is missing, whatever the other dates are. */
  lemma CleanSkipsMissingDates(s: Session)
    ensures s.applicationStart.None? || s.applicationEnd.None? ==> "application_end" !in ChainErrors(s)
    ensures s.applicationEnd.None? || s.interviewStart.None? ==> "interview_start" !in ChainErrors(s)
    ensures s.interviewStart.None? || s.interviewEnd.None? ==> "interview_end" !in ChainErrors(s)
    ensures s.interviewEnd.None? || s.resultDate.None? ==> "result_date" !in ChainErrors(s)
    ensures s.applicationEnd.None? && s.interviewEnd.None? ==> ChainErrors(s) == map[]
  {
  }

  /** A fully dated session that passes `clean` has its application window before its result. */
  lemma CleanSessionSpansResult(s: Session)
    requires s.applicationStart.Some? && s.applicationEnd.Some? && s.interviewStart.Some?
    requires s.interviewEnd.Some? && s.resultDate.Some?
    requires ChainErrors(s) == map[]
    ensures s.applicationStart.value <= s.applicationEnd.value <= s.resultDate.value
  {
    CleanPassesIffOrdered(s);
  }

  /** The date fields of the table; each is a required column. */
  const DateFields: set<string> := {"application_start", "application_end", "interview_start", "interview_end", "result_date"}

  /** Field-level errors of `full_clean`: a bad code, or a date column left empty. */
  function FieldErrors(s: Session): (keys: set<string>)
    ensures "uni_session" in keys <==> !IsSessionCode(s.code)
    ensures keys <= DateFields + {"uni_session"}
  {
    SessionCodeFieldExact(s.code);
    (if SessionCodeFieldValid(s.code) then {} else {"uni_session"})
    + (if s.applicationStart.None? then {"application_start"} else {})
    + (if s.applicationEnd.None? then {"application_end"} else {})
    + (if s.interviewStart.None? then {"interview_start"} else {})
    + (if s.interviewEnd.None? then {"interview_end"} else {})
    + (if s.resultDate.None? then {"result_date"} else {})
  }

  /** A row that the table holds: a valid code, all five dates, and an unbroken chain. */
  predicate StoredSessionValid(s: Session)
  {
    IsSessionCode(s.code) && s.applicationStart.Some? && s.applicationEnd.Some? && s.interviewStart.Some?
    && s.interviewEnd.Some? && s.resultDate.Some? && ChainErrors(s) == map[]
  }

  /** The `RecruitmentSession` table; `save` runs `full_clean` before writing. */
  class SessionTable {
    var rows: map<nat, Session>
    var nextId: nat

    ghost predicate Valid()
      reads this
    {
      (forall id :: id in rows ==> id < nextId && StoredSessionValid(rows[id]))
      && (forall a, b :: a in rows && b in rows && a != b ==> rows[a].code != rows[b].code)
    }

    constructor ()
      ensures Valid() && rows == map[]
    {
      rows := map[];
      nextId := 0;
    }

    /** Another row, not the one being saved, already uses the code. */
    predicate CodeTaken(code: string, pk: Option<nat>)
      reads this
    {
      exists other :: other in rows && Some(other) != pk && rows[other].code == code
    }

    /** The fields `full_clean` reports: field validators, `clean`, and the uniqueness of the code. */
    function FullCleanErrors(s: Session, pk: Option<nat>): (keys: set<string>)
      reads this
      ensures keys == {} ==> StoredSessionValid(s) && !CodeTaken(s.code, pk)
      ensures StoredSessionValid(s) && !CodeTaken(s.code, pk) ==> keys == {}
    {
      var fieldErrors := FieldErrors(s);
      fieldErrors + ChainErrors(s).Keys
      + (if "uni_session" !in fieldErrors && CodeTaken(s.code, pk) then {"uni_session"} else {})
    }

    /**
     * `RecruitmentSession.save`: `full_clean` first, so a session that breaks the chain,
     * lacks a date or reuses a code is never written. `pk` is the primary key of the row
     * being saved, or `None` for a new one.
     */
    method Save(s: Session, pk: Option<nat>) returns (r: Result<nat, set<string>>)
      requires Valid()
      modifies this
      ensures Valid()
      ensures r.Err? <==> old(FullCleanErrors(s, pk)) != {}
      ensures r.Err? ==> r.error == old(FullCleanErrors(s, pk)) && rows == old(rows)
      ensures r.Ok? ==> StoredSessionValid(s) && rows == old(rows)[r.value := s]
      ensures r.Ok? && pk.Some? ==> r.value == pk.value
      ensures r.Ok? && pk.None? ==> r.value !in old(rows)
    {
      var errors := FullCleanErrors(s, pk);
      if errors != {} {
        return Err(errors);
      }
      var id := if pk.Some? then pk.value else nextId;
      rows := rows[id := s];
      nextId := if id + 1 > nextId then id + 1 else nextId;
      r := Ok(id);
    }
  }

  // ---------------------------------------------------------------- applications

  /**
   * A row of the applications table; its `session` is the id of its recruitment session and
   * `submittedAt` the time it was created.
   */
  datatype Application = Application(session: nat, status: string, submittedAt: int)

  datatype PersonalData = PersonalData(firstName: string, lastName: string, email: string, phone: string)

  datatype AcademicData = AcademicData(
    regNo: string, semester: int, program: string, skills: seq<string>, coursework: seq<string>)

  datatype PreferenceData = PreferenceData(preferred: string, secondary: Option<string>, purpose: string)

  /**
   * The application table and its three one-to-one child tables. A child row's primary key
   * is its application's id, so an application has at most one child of each kind.
   */
  class ApplicationTables {
    var applications: map<nat, Application>
    var personal: map<nat, PersonalData>
    var academic: map<nat, AcademicData>
    var preferences: map<nat, PreferenceData>
    var nextId: nat

    ghost predicate Valid()
      reads this
    {
      (forall id :: id in applications ==> id < nextId)
      && personal.Keys <= applications.Keys
      && academic.Keys <= applications.Keys
      && preferences.Keys <= applications.Keys
    }

    constructor ()
      ensures Valid()
      ensures applications == map[] && personal == map[] && academic == map[] && preferences == map[]
    {
      applications := map[];
      personal := map[];
      academic := map[];
      preferences := map[];
      nextId := 0;
    }
  }

  /** `PersonalInfo.phone_number`: the regex `^\+92[0-9]{10}$` and a maximum length of 13. */
  predicate PersonalPhoneValid(phone: string)
  {
    |phone| <= 13 && AnchoredSearch(IsPkPhone, phone)
  }

  lemma PersonalPhoneExact(phone: string)
    ensures PersonalPhoneValid(phone) <==> IsPkPhone(phone)
  {
  }

  /** The role columns validate each value on its own: both must be choices, equal or not. */
  predicate RolePreferencesFieldsValid(preferred: string, secondary: string)
  {
    IsRoleChoice(preferred) && IsRoleChoice(secondary)
  }

  /** The table itself accepts the same role twice; only the serializer forbids it. */
  lemma ModelAllowsEqualRoles(r: Role)
    ensures RolePreferencesFieldsValid(RoleValue(r), RoleValue(r))
  {
  }
}
