/**
 * The member registration form: the registration-number and phone checks made while typing,
 * the name split, the two input sanitizers, the checks made on submit with the payload they
 * produce, and the flattening of the server's nested error object into alert lines.
 */
module Regform {
  import opened Common
  import opened Text
  import opened Formats
  import J = Json

  // ---------------------------------------------------------------- formats

  /** `^[A-Z]{2}\d{2}-[A-Z]{3}-\d{3}$`, for example `AB12-ABS-000`. */
  predicate IsRegNo(s: string)
  {
    |s| == 12 && IsUpperLetter(s[0]) && IsUpperLetter(s[1]) && IsDigit(s[2]) && IsDigit(s[3]) && s[4] == '-'
    && IsUpperLetter(s[5]) && IsUpperLetter(s[6]) && IsUpperLetter(s[7]) && s[8] == '-'
    && IsDigit(s[9]) && IsDigit(s[10]) && IsDigit(s[11])
  }

  const MsgRegFormat := "Format: AB12-ABS-000 (2 letters, 2 digits, dash, 3 letters, dash, 3 digits)"
  const MsgPhoneFormat := "Phone number must be in format: +923001234567"

  /** `validateRegNo`: the message shown under the field, `""` when the value is empty or well formed. */
  function RegNoError(value: string): (e: string)
    ensures e == "" <==> value == "" || IsRegNo(value)
    ensures e != "" ==> e == MsgRegFormat
  {
    if value == "" then "" else if !IsRegNo(value) then MsgRegFormat else ""
  }

  /** `validatePhoneNumber`: the same for `^\+92[0-9]{10}$`. */
  function PhoneError(value: string): (e: string)
    ensures e == "" <==> value == "" || IsPkPhone(value)
    ensures e != "" ==> e == MsgPhoneFormat
  {
    if value == "" then "" else if !IsPkPhone(value) then MsgPhoneFormat else ""
  }

  // ---------------------------------------------------------------- the name

  /** The full name split into `first_name` and `last_name` as the form stores them. */
  function SplitName(value: string): (string, string)
  {
    var t := Trim(value);
    match IndexOf(t, ' ')
    case None => (t, "")
    case Some(i) => (t[..i], Trim(t[i + 1..]))
  }

  /**
   * The first name is the trimmed input up to its first space and holds no space; without a
   * space the last name is empty, otherwise it is the trimmed rest after that space.
   */
  lemma SplitNameExact(value: string)
    ensures ' ' !in SplitName(value).0
    ensures ' ' !in Trim(value) ==> SplitName(value) == (Trim(value), "")
    ensures ' ' in Trim(value) ==>
              exists rest :: Trim(value) == SplitName(value).0 + " " + rest && SplitName(value).1 == Trim(rest)
  {
    var t := Trim(value);
    var r := IndexOf(t, ' ');
    if r.Some? {
      var i := r.value;
      assert t == t[..i] + " " + t[i + 1..];
    }
  }

  // ---------------------------------------------------------------- sanitizers

  predicate RegChar(c: char)
  {
    IsUpperLetter(c) || IsDigit(c) || c == '-'
  }

  /** The characters of `s` that satisfy `p`, in order (`replace(/[^...]/g, '')`). */
  function Keep(s: string, p: char -> bool): (r: string)
    ensures |r| <= |s|
    ensures forall i :: 0 <= i < |r| ==> p(r[i])
    ensures (forall i :: 0 <= i < |s| ==> p(s[i])) ==> r == s
  {
    if s == [] then []
    else
      assert forall i :: 0 <= i < |s[1..]| ==> s[1..][i] == s[i + 1];
      (if p(s[0]) then [s[0]] else []) + Keep(s[1..], p)
  }

  /** The registration input: upper-cased, reduced to `[A-Z0-9-]`, cut to 12 characters. */
  function SanitizeReg(value: string): string
  {
    var kept := Keep(Upper(value), RegChar);
    if |kept| <= 12 then kept else kept[..12]
  }

  /**
   * The result is at most 12 characters from `[A-Z0-9-]`; sanitizing again changes nothing,
   * and a well-formed number, or the same number typed in lower case, comes out unchanged.
   */
  lemma SanitizeRegExact(value: string)
    ensures |SanitizeReg(value)| <= 12
    ensures forall i :: 0 <= i < |SanitizeReg(value)| ==> RegChar(SanitizeReg(value)[i])
    ensures SanitizeReg(SanitizeReg(value)) == SanitizeReg(value)
    ensures IsRegNo(Upper(value)) ==> SanitizeReg(value) == Upper(value)
  {
    var r := SanitizeReg(value);
    assert Upper(r) == r;
  }

  predicate PhoneChar(c: char)
  {
    IsDigit(c) || c == '+'
  }

  /**
   * The phone input: only digits and `+` are kept; when a `+` is present the result is `+`
   * followed by the digits after the first `+`.
   */
  function SanitizePhone(value: string): string
  {
    var s := Keep(value, PhoneChar);
    match IndexOf(s, '+')
    case None => s
    case Some(i) => "+" + Keep(s[i + 1..], IsDigit)
  }

  /**
   * A sanitized phone number holds digits only, except for at most one `+` and only in
   * front; sanitizing it again changes nothing, and a well-formed number is kept as it is.
   */
  lemma SanitizePhoneExact(value: string)
    ensures forall i :: 0 <= i < |SanitizePhone(value)| ==>
              IsDigit(SanitizePhone(value)[i]) || (i == 0 && SanitizePhone(value)[i] == '+')
    ensures SanitizePhone(SanitizePhone(value)) == SanitizePhone(value)
    ensures IsPkPhone(value) ==> SanitizePhone(value) == value
  {
    SanitizePhoneShape(value);
    SanitizePhoneKeepsPk(value);
  }

  lemma SanitizePhoneShape(value: string)
    ensures forall i :: 0 <= i < |SanitizePhone(value)| ==>
              IsDigit(SanitizePhone(value)[i]) || (i == 0 && SanitizePhone(value)[i] == '+')
    ensures SanitizePhone(SanitizePhone(value)) == SanitizePhone(value)
  {
    var r := SanitizePhone(value);
    var s := Keep(value, PhoneChar);
    var k := Keep(r, PhoneChar);
    assert k == r;
    match IndexOf(s, '+')
    case None => {
      assert forall i :: 0 <= i < |r| ==> IsDigit(r[i]);
    }
    case Some(i) => {
      var d := Keep(s[i + 1..], IsDigit);
      assert r == "+" + d;
      assert r[1..] == d;
      assert IndexOf(r, '+') == Some(0);
    }
  }

  lemma SanitizePhoneKeepsPk(value: string)
    ensures IsPkPhone(value) ==> SanitizePhone(value) == value
  {
    if IsPkPhone(value) {
      PkPhoneParts(value);
      PlusDigitsKept(value);
    }
  }

  lemma PkPhoneParts(value: string)
    requires IsPkPhone(value)
    ensures |value| > 0 && value[0] == '+' && forall i :: 1 <= i < |value| ==> IsDigit(value[i])
  {
    assert value[..3] == "+92";
    assert value[0] == value[..3][0];
    forall i | 1 <= i < |value|
      ensures IsDigit(value[i])
    {
      if i < 3 {
        assert value[i] == value[..3][i];
      } else {
        assert value[i] == value[3..][i - 3];
      }
    }
  }

  /** A `+` followed by digits only is kept as it is. */
  lemma PlusDigitsKept(value: string)
    requires |value| > 0 && value[0] == '+' && forall i :: 1 <= i < |value| ==> IsDigit(value[i])
    ensures SanitizePhone(value) == value
  {
    assert forall i :: 0 <= i < |value| ==> PhoneChar(value[i]);
    assert Keep(value, PhoneChar) == value;
    assert IndexOf(value, '+') == Some(0);
    assert forall i :: 0 <= i < |value[1..]| ==> IsDigit(value[1..][i]);
    assert Keep(value[1..], IsDigit) == value[1..];
    assert value == "+" + value[1..];
  }

  // ---------------------------------------------------------------- title and submit

  /** The title after a choice in the drop-down: `NULL` and `custom` clear it; `custom` opens free text. */
  function TitleSelect(value: string): (r: (string, bool))
    ensures r.1 <==> value == "custom"
    ensures r.0 == (if value == "NULL" || value == "custom" then "" else value)
  {
    if value == "NULL" then ("", false)
    else if value == "custom" then ("", true)
    else (value, false)
  }

  /** The free-text title is upper-cased as it is typed. */
  function TitleInput(value: string): (t: string)
    ensures |t| == |value| && forall i :: 0 <= i < |t| ==> !IsLowerLetter(t[i])
  {
    Upper(value)
  }

  const ExecTitles: seq<string> := ["PRESIDENT", "VICE PRESIDENT", "SECRETARY", "TREASURER"]

  const AlertReg := "Invalid Registration Number format.\nPlease use: AB12-ABS-000\n(2 letters, 2 digits, dash, 3 letters, dash, 3 digits)"
  const AlertPhone := "Invalid Phone Number format.\nPlease use: +923001234567"
  const AlertClub := "Club selection is required for non-executive members."

  /** The form fields the submit reads. */
  datatype Form = Form(rollNo: string, phone: string, club: string, title: string)

  /** `handleSubmit` before the request: the first failed check's alert, or the form to send. */
  function Submit(f: Form): Result<Form, string>
  {
    if !IsRegNo(f.rollNo) then Err(AlertReg)
    else if !IsPkPhone(f.phone) then Err(AlertPhone)
    else if f.club == "" && f.title !in ExecTitles then Err(AlertClub)
    else Ok(f.(title := if f.title == "" then "NULL" else f.title))
  }

  /**
   * The form is sent exactly when the registration number and the phone are well formed (an
   * empty value no longer passes) and a club is chosen or the title is an executive one; the
   * empty title is sent as `NULL`, and nothing else is changed.
   */
  lemma SubmitExact(f: Form)
    ensures Submit(f).Ok? <==> IsRegNo(f.rollNo) && IsPkPhone(f.phone) && (f.club != "" || f.title in ExecTitles)
    ensures Submit(f).Ok? ==> Submit(f).value.title == (if f.title == "" then "NULL" else f.title)
                              && Submit(f).value.(title := f.title) == f
    ensures Submit(f).Err? && !IsRegNo(f.rollNo) ==> Submit(f).error == AlertReg
    ensures !IsRegNo("") && !IsPkPhone("")
  {
  }

  /** The form after a successful registration: emptied, with a lead's own club kept. */
  function Reset(isLead: bool, currentClub: string): (f: Form)
    ensures f.rollNo == "" && f.phone == "" && f.title == ""
    ensures f.club == (if isLead then currentClub else "")
  {
    Form("", "", if isLead then currentClub else "", "")
  }

  /** A freshly reset form cannot be submitted again: the empty registration number is refused first. */
  lemma ResetNotSubmittable(isLead: bool, currentClub: string)
    ensures Submit(Reset(isLead, currentClub)) == Err(AlertReg)
  {
  }

  // ---------------------------------------------------------------- the browser's checks

  /**
   * The whole page as the browser sees it when Register is pressed: the inputs the submit does
   * not read, whether the club drop-down is disabled (a lead's own club), and whether a request
   * is still in flight.
   */
  datatype Page = Page(fullName: string, username: string, email: string, password: string,
                       form: Form, isLead: bool, loading: bool)

  /** What pressing Register does: nothing, an alert from the handler, or the signup request. */
  datatype Outcome = Blocked | Alerted(msg: string) | Sent(payload: Form)

  /**
   * Constraint validation and the disabled button: every `required` input is non-empty, the
   * `type="email"` input holds an address once surrounding white space is stripped, the club
   * drop-down is required unless the title is an executive one (a disabled drop-down is not
   * checked), and the button is disabled while loading or while either field shows its message.
   */
  predicate BrowserAccepts(p: Page)
  {
    p.fullName != "" && p.form.rollNo != "" && p.username != "" && IsHtmlEmail(Trim(p.email))
    && p.password != "" && p.form.phone != ""
    && (p.isLead || p.form.club != "" || p.form.title in ExecTitles)
    && !p.loading && RegNoError(p.form.rollNo) == "" && PhoneError(p.form.phone) == ""
  }

  /** Register pressed: the browser's checks first, then `handleSubmit`. */
  function Press(p: Page): (o: Outcome)
    ensures o.Sent? <==> BrowserAccepts(p) && Submit(p.form).Ok?
    ensures o.Sent? ==> o.payload == Submit(p.form).value
    ensures o.Alerted? ==> BrowserAccepts(p) && o.msg == Submit(p.form).error
  {
    if !BrowserAccepts(p) then Blocked
    else match Submit(p.form)
      case Ok(f) => Sent(f)
      case Err(m) => Alerted(m)
  }

  /**
   * Through the browser the handler's registration-number and phone alerts can never show: a
   * non-empty value with no message under the field is well formed. The only alert left is the
   * club one, and only for a lead whose own club is empty and whose title is not an executive one.
   */
  lemma PressAlertsOnlyClub(p: Page)
    ensures Press(p).Alerted? <==>
              BrowserAccepts(p) && p.isLead && p.form.club == "" && p.form.title !in ExecTitles
    ensures Press(p).Alerted? ==> Press(p).msg == AlertClub
  {
  }

  /** A freshly reset page is blocked by the browser: the registration number is required. */
  lemma ResetPageBlocked(p: Page, currentClub: string)
    ensures Press(p.(form := Reset(p.isLead, currentClub))) == Blocked
  {
  }

  // ---------------------------------------------------------------- error flattening

  /** `Object.entries` of an object or array. */
  function Entries(j: J.Json): seq<(string, J.Json)>
  {
    match j
    case JObj(members) => members
    case JArr(items) => seq(|items|, i requires 0 <= i < |items| => (J.IntToString(i), items[i]))
    case _ => []
  }

  function JoinPath(prefix: string, field: string): string
  {
    if prefix != "" then prefix + "." + field else field
  }

  /** `extractErrors(obj, prefix)` from entry `i` of object `obj` on: one line per message, depth first. */
  function ExtractFrom(obj: J.Json, i: nat, prefix: string): seq<string>
    requires obj.JObj?
    decreases obj, |obj.members| - i
  {
    if i >= |obj.members| then []
    else
      assert obj.members[i] in obj.members;
      ExtractValue(JoinPath(prefix, obj.members[i].0), obj.members[i].1) + ExtractFrom(obj, i + 1, prefix)
  }

  /** The lines one entry contributes: each array element, a nested object's lines, or a truthy value. */
  function ExtractValue(path: string, v: J.Json): seq<string>
    decreases v
  {
    match v
    case JArr(items) => seq(|items|, i requires 0 <= i < |items| => path + ": " + J.Display(items[i]))
    case JObj(_) => ExtractFrom(v, 0, path)
    case _ => if J.Truthy(v) then [path + ": " + J.Display(v)] else []
  }

  /** The number of messages in an error value: array elements, nested messages, or one truthy value. */
  function Leaves(v: J.Json): nat
    decreases v
  {
    match v
    case JArr(items) => |items|
    case JObj(_) => LeavesFrom(v, 0)
    case _ => if J.Truthy(v) then 1 else 0
  }

  function LeavesFrom(obj: J.Json, i: nat): nat
    requires obj.JObj?
    decreases obj, |obj.members| - i
  {
    if i >= |obj.members| then 0
    else
      assert obj.members[i] in obj.members;
      Leaves(obj.members[i].1) + LeavesFrom(obj, i + 1)
  }

  /** Flattening yields one line per message, and every line begins with its field path. */
  lemma {:induction false} ExtractFromExact(obj: J.Json, i: nat, prefix: string)
    requires obj.JObj?
    ensures |ExtractFrom(obj, i, prefix)| == LeavesFrom(obj, i)
    ensures prefix != "" ==> forall l :: l in ExtractFrom(obj, i, prefix) ==> StartsWith(l, prefix + ".")
    decreases obj, |obj.members| - i
  {
    if i < |obj.members| {
      assert obj.members[i] in obj.members;
      var p := JoinPath(prefix, obj.members[i].0);
      ExtractValueExact(p, obj.members[i].1);
      ExtractFromExact(obj, i + 1, prefix);
      if prefix != "" {
        forall l | l in ExtractValue(p, obj.members[i].1) ensures StartsWith(l, prefix + ".") {
          assert StartsWith(l, p);
          assert p == (prefix + ".") + obj.members[i].0;
          assert l[..|prefix + "."|] == p[..|prefix + "."|];
        }
      }
    }
  }

  lemma {:induction false} ExtractValueExact(path: string, v: J.Json)
    ensures |ExtractValue(path, v)| == Leaves(v)
    ensures forall l :: l in ExtractValue(path, v) ==> StartsWith(l, path)
    decreases v
  {
    match v
    case JObj(_) => {
      ExtractFromExact(v, 0, path);
      if path == "" {
        assert forall l :: StartsWith(l, path);
      }
    }
    case _ => {
    }
  }

  const MsgSignupFailed := "Registration failed. Please try again."

  /** The failed signup's outcome: its `message`, its `error`, and its `data` already serialised, if any. */
  datatype SignupFailure = SignupFailure(message: J.Json, error: J.Json, data: Option<string>)

  /** The alert lines after a failed signup. */
  function AlertLines(r: SignupFailure): (lines: seq<string>)
    ensures lines != []
  {
    var fromMessage :=
      if !J.Truthy(r.message) then []
      else if r.message.JStr? then [r.message.s]
      else if r.message.JObj? || r.message.JArr? then ExtractFrom(J.JObj(Entries(r.message)), 0, "")
      else [];
    if fromMessage != [] then fromMessage
    else if J.Truthy(r.error) then [J.Display(r.error)]
    else if r.data.Some? then [r.data.value]
    else [MsgSignupFailed]
  }

  /**
   * An object message gives one line per leaf message when it has any; otherwise the error,
   * the data or the fixed text stands alone.
   */
  lemma AlertLinesExact(r: SignupFailure)
    ensures r.message.JObj? && Leaves(r.message) > 0 ==>
              AlertLines(r) == ExtractFrom(r.message, 0, "") && |AlertLines(r)| == Leaves(r.message)
    ensures r.message.JObj? && Leaves(r.message) == 0 ==> |AlertLines(r)| == 1
    ensures !J.Truthy(r.message) && !J.Truthy(r.error) && r.data.None? ==> AlertLines(r) == [MsgSignupFailed]
  {
    if r.message.JObj? {
      ExtractFromExact(r.message, 0, "");
    }
  }
}
