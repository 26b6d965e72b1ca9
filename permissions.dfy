/**
 * The permission classes. Python's `and` / `or` return one of their operands, so an
 * expression such as `role == LEAD or ADMIN` yields either `True` or the string `'ADMIN'`;
 * the framework then only asks whether the value is truthy.
 */
module Permissions {
  import opened Common
  import opened Text

  const Admin := "ADMIN"
  const Lead := "LEAD"
  const Student := "STUDENT"
  const Treasurer := "TREASURER"

  /** A Python value as these expressions produce it: a boolean or a string. */
  datatype PyValue = PBool(b: bool) | PStr(s: string)

  predicate Truthy(v: PyValue)
  {
    match v
    case PBool(b) => b
    case PStr(s) => s != ""
  }

  /** Python `a or b`: `a` when truthy, otherwise `b`. */
  function Or(a: PyValue, b: PyValue): (r: PyValue)
    ensures Truthy(r) <==> Truthy(a) || Truthy(b)
  {
    if Truthy(a) then a else b
  }

  /** Python `a and b`: `a` when falsy, otherwise `b`. */
  function And(a: PyValue, b: PyValue): (r: PyValue)
    ensures Truthy(r) <==> Truthy(a) && Truthy(b)
  {
    if Truthy(a) then b else a
  }

  /** The student row behind a user, as far as the permissions read it. */
  datatype StudentInfo = StudentInfo(club: string, title: Option<string>)

  /** The requesting user: anonymous, or signed in with a role and perhaps a student row. */
  datatype Caller = Anonymous | SignedIn(role: string, student: Option<StudentInfo>)

  /** The outcome of a permission check: allowed, denied, refused with a message, or an exception. */
  datatype Decision = Allow | Deny | Forbidden(message: string) | Fault

  function Decide(v: PyValue): (d: Decision)
    ensures d == Allow <==> Truthy(v)
    ensures d == Deny <==> !Truthy(v)
  {
    if Truthy(v) then Allow else Deny
  }

  /** `IsLead`: signed in with role `LEAD`. */
  predicate IsLead(c: Caller)
  {
    c.SignedIn? && c.role == Lead
  }

  /** `IsAdmin`: signed in with role `ADMIN`. */
  predicate IsAdmin(c: Caller)
  {
    c.SignedIn? && c.role == Admin
  }

  lemma LeadAndAdminDisjoint(c: Caller)
    ensures !(IsLead(c) && IsAdmin(c))
    ensures !IsLead(Anonymous) && !IsAdmin(Anonymous)
  {
  }

  /** `SAFE_METHODS` of the framework. */
  const SafeMethods: set<string> := {"GET", "HEAD", "OPTIONS"}

  /** `IsAdminOrReadOnly`: a read is open to everyone; a write needs a signed-in admin. */
  predicate IsAdminOrReadOnly(method_: string, c: Caller)
  {
    method_ in SafeMethods || IsAdmin(c)
  }

  lemma AdminOrReadOnlyExact(method_: string, c: Caller)
    ensures method_ in SafeMethods ==> IsAdminOrReadOnly(method_, c)
    ensures method_ !in SafeMethods ==> (IsAdminOrReadOnly(method_, c) <==> c.SignedIn? && c.role == Admin)
    ensures !IsAdminOrReadOnly("POST", Anonymous) && !IsAdminOrReadOnly("DELETE", SignedIn(Lead, None))
  {
  }

  /** `role == LEAD or ADMIN` exactly as written: `True`, or the non-empty string `'ADMIN'`. */
  function RoleIsLeadOrAdmin(role: string): (v: PyValue)
    ensures role == Lead ==> v == PBool(true)
    ensures role != Lead ==> v == PStr(Admin)
  {
    Or(PBool(role == Lead), PStr(Admin))
  }

  /** `IsLeadOrAdmin.has_permission` as written. */
  function IsLeadOrAdminAsWritten(c: Caller): PyValue
  {
    And(PBool(c.SignedIn?), if c.SignedIn? then RoleIsLeadOrAdmin(c.role) else PBool(false))
  }

  /** The test grants every signed-in caller, whatever the role, and nobody else. */
  lemma IsLeadOrAdminOnlyChecksSignIn(c: Caller)
    ensures Truthy(IsLeadOrAdminAsWritten(c)) <==> c.SignedIn?
    ensures Truthy(IsLeadOrAdminAsWritten(SignedIn(Student, None)))
  {
  }

  /** The check the class name promises: a signed-in lead or admin. */
  predicate IsLeadOrAdmin(c: Caller)
  {
    c.SignedIn? && (c.role == Lead || c.role == Admin)
  }

  lemma IsLeadOrAdminExact(c: Caller)
    ensures IsLeadOrAdmin(c) <==> IsLead(c) || IsAdmin(c)
    ensures !IsLeadOrAdmin(SignedIn(Student, None))
    ensures IsLeadOrAdmin(c) ==> Truthy(IsLeadOrAdminAsWritten(c))
  {
  }

  /** `is_staff(role)` as written. */
  function IsStaffAsWritten(role: string): (v: PyValue)
  {
    RoleIsLeadOrAdmin(role)
  }

  lemma IsStaffAlwaysTruthy(role: string)
    ensures Truthy(IsStaffAsWritten(role))
    ensures IsStaffAsWritten(Student) == PStr(Admin)
  {
  }

  /** `is_staff(role)` as its name promises. */
  predicate IsStaff(role: string)
  {
    role == Lead || role == Admin
  }

  lemma IsStaffExact(role: string)
    ensures IsStaff(role) <==> role in {Lead, Admin}
    ensures !IsStaff(Student) && !IsStaff("")
  {
  }

  /**
   * `IsTreasurer`: an anonymous caller is denied; a signed-in caller without a student row or
   * without a title raises; otherwise the upper-cased title must be `TREASURER`.
   */
  function IsTreasurer(c: Caller): (d: Decision)
    ensures !d.Forbidden?
  {
    if !c.SignedIn? then Deny
    else if c.student.None? || c.student.value.title.None? then Fault
    else if Upper(c.student.value.title.value) == Treasurer then Allow
    else Deny
  }

  /** The treasurer test ignores letter case, and refuses any other title. */
  lemma TreasurerExact(c: Caller)
    ensures IsTreasurer(c) == Allow <==>
              c.SignedIn? && c.student.Some? && c.student.value.title.Some?
              && Upper(c.student.value.title.value) == Treasurer
    ensures IsTreasurer(SignedIn(Student, Some(StudentInfo("codehub", Some("treasurer"))))) == Allow
    ensures IsTreasurer(SignedIn(Admin, None)) == Fault
  {
    assert Upper("treasurer") == Treasurer;
  }

  const MsgOtherClub := "Registering users of another club is not allowed."

  /**
   * `SignUpPermission`: only a signed-in lead is examined; their student row and the request's
   * `club` are read (either missing raises), and a different club is refused. Everyone else passes.
   */
  function SignUp(c: Caller, data: map<string, string>): (d: Decision)
    ensures d != Deny
  {
    if c.SignedIn? && Truthy(RoleIsLeadOrAdmin(c.role)) && c.role == Lead then
      if c.student.None? || "club" !in data then Fault
      else if c.student.value.club != data["club"] then Forbidden(MsgOtherClub)
      else Allow
    else Allow
  }

  /** Only a lead naming another club is refused; anonymous callers and non-leads always pass. */
  lemma SignUpExact(c: Caller, data: map<string, string>)
    ensures SignUp(c, data).Forbidden? <==>
              IsLead(c) && c.student.Some? && "club" in data && c.student.value.club != data["club"]
    ensures !IsLead(c) ==> SignUp(c, data) == Allow
    ensures SignUp(Anonymous, data) == Allow
    ensures IsLead(c) && c.student.Some? && "club" in data && c.student.value.club == data["club"] ==> SignUp(c, data) == Allow
  {
  }
}
