/**
 * The public recruitment application form: its fields, the progress bar over the required
 * ones, the browser's own checks of the marked inputs, and a submit that goes ahead only once
 * the applicant has confirmed the information.
 */
module RecruitmentForm {
  import opened Text
  import opened Seqs
  import opened Formats

  /** The named inputs of the form. */
  datatype Field =
    | FirstName | LastName | Email | PhoneNumber | RegNumber | Semester | Program | Skills
    | Coursework | PreferredRole | SecondaryRole | WhyJoin | Experience | Availability | Linkedin

  /** The fields the progress bar counts, in the order the page lists them. */
  const Required: seq<Field> :=
    [FirstName, LastName, Email, PhoneNumber, RegNumber, Semester, Program, Skills, PreferredRole, WhyJoin, Availability]

  /** The fields the progress bar ignores. */
  predicate Optional(f: Field)
  {
    f == Coursework || f == SecondaryRole || f == Experience || f == Linkedin
  }

  /** The form data: the text of every field. */
  datatype FormData = FormData(firstName: string, lastName: string, email: string, phoneNumber: string,
                               regNumber: string, semester: string, program: string, skills: string,
                               coursework: string, preferredRole: string, secondaryRole: string,
                               whyJoin: string, experience: string, availability: string, linkedin: string)

  /** `formData[f]`. */
  function Get(form: FormData, f: Field): string
  {
    match f
    case FirstName => form.firstName
    case LastName => form.lastName
    case Email => form.email
    case PhoneNumber => form.phoneNumber
    case RegNumber => form.regNumber
    case Semester => form.semester
    case Program => form.program
    case Skills => form.skills
    case Coursework => form.coursework
    case PreferredRole => form.preferredRole
    case SecondaryRole => form.secondaryRole
    case WhyJoin => form.whyJoin
    case Experience => form.experience
    case Availability => form.availability
    case Linkedin => form.linkedin
  }

  /** The initial form: every field empty. */
  const Initial := FormData("", "", "", "", "", "", "", "", "", "", "", "", "", "", "")

  /** `handleChange`: `{ ...formData, [name]: value }`. */
  function Change(form: FormData, f: Field, v: string): FormData
  {
    match f
    case FirstName => form.(firstName := v)
    case LastName => form.(lastName := v)
    case Email => form.(email := v)
    case PhoneNumber => form.(phoneNumber := v)
    case RegNumber => form.(regNumber := v)
    case Semester => form.(semester := v)
    case Program => form.(program := v)
    case Skills => form.(skills := v)
    case Coursework => form.(coursework := v)
    case PreferredRole => form.(preferredRole := v)
    case SecondaryRole => form.(secondaryRole := v)
    case WhyJoin => form.(whyJoin := v)
    case Experience => form.(experience := v)
    case Availability => form.(availability := v)
    case Linkedin => form.(linkedin := v)
  }

  /** After a change the named field holds the typed text and every other field is as it was. */
  lemma ChangeExact(form: FormData, f: Field, v: string, g: Field)
    ensures Get(Change(form, f, v), g) == if g == f then v else Get(form, g)
  {
  }

  /** `formData[field].trim() !== ''`. */
  function Filled(form: FormData): Field -> bool
  {
    (f: Field) => Trim(Get(form, f)) != ""
  }

  /** The progress bar's width: the share of required fields filled, as a percentage. */
  function Progress(form: FormData): (p: real)
  {
    (Count(Required, Filled(form)) as real / |Required| as real) * 100.0
  }

  /** Every field is either counted or optional. */
  lemma RequiredExact(f: Field)
    ensures f in Required <==> !Optional(f)
  {
  }

  /** Each counted field is listed once. */
  lemma RequiredDistinct()
    ensures forall i, j :: 0 <= i < j < |Required| ==> Required[i] != Required[j]
  {
  }

  /** The progress lies between 0 and 100. */
  lemma ProgressRange(form: FormData)
    ensures 0.0 <= Progress(form) <= 100.0
  {
    var c := Count(Required, Filled(form)) as real;
    assert 0.0 <= c <= 11.0;
  }

  /** A property holds of every required field exactly when it holds at every position of the list. */
  lemma RequiredIndexed(p: Field -> bool)
    ensures (forall f :: f in Required ==> p(f)) <==> (forall i :: 0 <= i < |Required| ==> p(Required[i]))
  {
    if forall i :: 0 <= i < |Required| ==> p(Required[i]) {
      forall f | f in Required
        ensures p(f)
      {
        var i :| 0 <= i < |Required| && Required[i] == f;
      }
    }
  }

  /** `field => formData[field].trim() === ''`. */
  function Blank(form: FormData): Field -> bool
  {
    (f: Field) => Trim(Get(form, f)) == ""
  }

  /** The progress is 100 exactly when every required field is filled. */
  lemma ProgressFull(form: FormData)
    ensures Progress(form) == 100.0 <==> forall f :: f in Required ==> Trim(Get(form, f)) != ""
  {
    var c := Count(Required, Filled(form));
    CountExtremes(Required, Filled(form));
    RequiredIndexed(Filled(form));
    assert Progress(form) == c as real * 100.0 / 11.0;
  }

  /** The progress is 0 exactly when no required field is filled. */
  lemma ProgressEmpty(form: FormData)
    ensures Progress(form) == 0.0 <==> forall f :: f in Required ==> Trim(Get(form, f)) == ""
  {
    var c := Count(Required, Filled(form));
    CountExtremes(Required, Filled(form));
    RequiredIndexed(Blank(form));
    assert Progress(form) == c as real * 100.0 / 11.0;
  }

  /** A form whose fields are all empty shows no progress. */
  lemma BlankProgress(form: FormData)
    requires forall f :: Get(form, f) == ""
    ensures Progress(form) == 0.0
  {
    ProgressEmpty(form);
  }

  /** Typing in an optional field never moves the progress bar. */
  lemma OptionalIgnored(form: FormData, f: Field, v: string)
    requires Optional(f)
    ensures Progress(Change(form, f, v)) == Progress(form)
  {
    forall i | 0 <= i < |Required|
      ensures Filled(Change(form, f, v))(Required[i]) == Filled(form)(Required[i])
    {
      RequiredExact(f);
      ChangeExact(form, f, v, Required[i]);
    }
    CountExt(Required, Filled(Change(form, f, v)), Filled(form));
  }

  /** One change moves the progress bar by at most one required field's share. */
  lemma ChangeMovesOneStep(form: FormData, f: Field, v: string)
    ensures var before := Count(Required, Filled(form));
            var after := Count(Required, Filled(Change(form, f, v)));
            before - 1 <= after <= before + 1
  {
    forall i | 0 <= i < |Required| && Required[i] != f
      ensures Filled(Change(form, f, v))(Required[i]) == Filled(form)(Required[i])
    {
      ChangeExact(form, f, v, Required[i]);
    }
    RequiredDistinct();
    CountOneApart(Required, Filled(Change(form, f, v)), Filled(form), f);
  }

  /**
   * The page's state. The progress bar's width is kept equal to `Progress(form)` by an
   * effect that runs after every change of the form, so it is not stored separately.
   */
  class Page {
    var form: FormData
    var confirmed: bool

    constructor ()
      ensures form == Initial && !confirmed
    {
      form := Initial;
      confirmed := false;
    }

    /** `handleChange`: the progress bar then shows the new form's progress, within 0 to 100. */
    method ChangeField(f: Field, v: string)
      modifies this
      ensures form == Change(old(form), f, v) && confirmed == old(confirmed)
      ensures 0.0 <= Progress(form) <= 100.0
    {
      form := Change(form, f, v);
      ProgressRange(form);
    }

    /** The confirmation checkbox. */
    method Confirm(checked: bool)
      modifies this
      ensures confirmed == checked && form == old(form)
    {
      confirmed := checked;
    }

    /**
     * `handleSubmit`: without the confirmation it only warns and stays on the page;
     * with it, it moves on to the submitted page. Nothing is sent to the server.
     */
    method HandleSubmit() returns (navigates: bool)
      ensures navigates <==> confirmed
    {
      if !confirmed {
        return false;
      }
      navigates := true;
    }

    /**
     * Pressing the submit button: the browser first checks the marked inputs and blocks the
     * submission when one fails; only then does `handleSubmit` run. Whether a non-empty
     * LinkedIn text parses as an absolute URL is the browser's answer `linkedinIsUrl`.
     */
    method Submit(linkedinIsUrl: bool) returns (r: SubmitOutcome)
      ensures r == (if BrowserAccepts(form, confirmed, linkedinIsUrl) then Navigated else Blocked)
    {
      if !BrowserAccepts(form, confirmed, linkedinIsUrl) {
        return Blocked;
      }
      var navigates := HandleSubmit();
      r := if navigates then Navigated else Warned;
    }
  }

  /** What pressing the submit button leads to. */
  datatype SubmitOutcome = Blocked | Warned | Navigated

  /**
   * The browser's constraint validation: every `required` input has a value, the e-mail input
   * holds a valid address, a non-empty LinkedIn input holds a URL, and the required
   * confirmation box is ticked. The e-mail and URL inputs read their text without surrounding
   * whitespace.
   */
  predicate BrowserAccepts(form: FormData, confirmed: bool, linkedinIsUrl: bool)
  {
    (forall f :: f in Required && f != Email ==> Get(form, f) != "")
    && IsHtmlEmail(Trim(form.email))
    && (Trim(form.linkedin) != "" ==> linkedinIsUrl)
    && confirmed
  }

  /**
   * The confirmation warning can never show: the browser blocks an unticked box first, and a
   * submission it lets through has every required field filled.
   */
  lemma WarningUnreachable(form: FormData, confirmed: bool, linkedinIsUrl: bool, f: Field)
    requires BrowserAccepts(form, confirmed, linkedinIsUrl)
    ensures confirmed
    ensures f in Required ==> Get(form, f) != ""
  {
    if f == Email {
      var t := Trim(form.email);
      HtmlEmailNonEmpty(t);
      assert |t| <= |TrimStart(form.email)| <= |form.email|;
    }
  }

  /**
   * A submission the browser lets through, with no required field starting with whitespace,
   * shows a full progress bar.
   */
  lemma AcceptedFormIsComplete(form: FormData, confirmed: bool, linkedinIsUrl: bool)
    requires BrowserAccepts(form, confirmed, linkedinIsUrl)
    requires forall f :: f in Required ==> !IsSpace(Get(form, f)[0])
    ensures Progress(form) == 100.0
  {
    forall f | f in Required
      ensures Trim(Get(form, f)) != ""
    {
      WarningUnreachable(form, confirmed, linkedinIsUrl, f);
      TrimEmpty(Get(form, f));
    }
    ProgressFull(form);
  }

  /** The page opens with an empty bar. */
  lemma InitialProgress(form: FormData)
    requires form == Initial
    ensures Progress(form) == 0.0
  {
    BlankProgress(form);
  }
}
