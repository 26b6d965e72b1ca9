/**
 * The bill creation page: the checks made before a bill is sent, the reading of the server's
 * field errors, and the form data the submit sends.
 */
module CreateBillPage {
  import opened Common
  import opened Text
  import J = Json
  import Bills

  /** The text fields of the form, as typed. */
  datatype BillForm = BillForm(description: string, amount: string, date: string)

  const EmptyForm := BillForm("", "", "")

  /** A selected file: its size in bytes and its MIME type. */
  datatype ImageFile = ImageFile(size: nat, mime: string)

  /** The errors object: a message per form field and a general one, each possibly absent. */
  datatype Errors<T> = Errors(description: Option<T>, amount: Option<T>, date: Option<T>, image: Option<T>, general: Option<T>)
  {
    /** `Object.keys(errors).length === 0`. */
    predicate IsEmpty()
    {
      description.None? && amount.None? && date.None? && image.None? && general.None?
    }
  }

  /** `{}`. */
  const NoErrors: Errors<J.Json> := Errors(None, None, None, None, None)

  const MsgDescriptionRequired := "Description is required"
  const MsgDescriptionLong := "Description cannot exceed 200 characters"
  const MsgAmountRequired := "Amount is required"
  const MsgAmountNaN := "Amount must be a valid number"
  const MsgAmountNegative := "Amount must be a positive number (MinValueValidator)"
  const MsgAmountMax := "Amount cannot exceed 99,999,999.99"
  const MsgDateRequired := "Date is required"
  const MsgDateInvalid := "Invalid date format"
  const MsgImageSize := "Image size must be less than 5MB"
  const MsgImageType := "File must be a valid image"
  const MsgNetwork := "Network error. Please check your connection and try again."
  const MsgUnexpected := "An unexpected error occurred"

  const MaxDescription := 200
  const MaxAmount: real := 99999999.99
  const MaxImageBytes := 5 * 1024 * 1024

  // ---------------------------------------------------------------- amounts

  /** What `parseFloat` gives: a number, or `NaN`. */
  datatype Parsed = NotANumber | Number(value: real)

  /**
   * `parseFloat` on plain decimals: leading whitespace, an optional sign, digits with an
   * optional fraction; whatever follows the longest such prefix is ignored.
   */
  function ParseFloat(s: string): Parsed
  {
    var t := TrimStart(s);
    if |t| > 0 && t[0] == '-' then Negate(ParseUnsigned(t[1..]))
    else if |t| > 0 && t[0] == '+' then ParseUnsigned(t[1..])
    else ParseUnsigned(t)
  }

  function Negate(p: Parsed): Parsed
  {
    if p.Number? then Number(-p.value) else p
  }

  /** Digits with an optional fraction at the start of `u`; `NaN` when there is not one digit. */
  function ParseUnsigned(u: string): Parsed
  {
    var whole := LeadingDigits(u);
    var rest := u[|whole|..];
    var fraction := if |rest| > 0 && rest[0] == '.' then LeadingDigits(rest[1..]) else "";
    if whole == "" && fraction == "" then NotANumber
    else Number(DecimalValue(whole, fraction))
  }

  /** The value of `whole.fraction`. */
  function DecimalValue(whole: string, fraction: string): real
    requires AllDigits(whole) && AllDigits(fraction)
  {
    DigitsValue(whole) as real + DigitsValue(fraction) as real / Bills.Pow10(|fraction|) as real
  }

  /** A plain `whole.cents` amount parses to its value. */
  lemma ParseCents(s: string, whole: string, cents: string)
    requires whole != "" && AllDigits(whole) && |cents| == 2 && AllDigits(cents) && s == whole + "." + cents
    ensures ParseFloat(s) == Number(DigitsValue(whole) as real + DigitsValue(cents) as real / 100.0)
  {
    CentsStart(s, whole, cents);
    UnsignedCents(s, whole, cents);
  }

  lemma CentsStart(s: string, whole: string, cents: string)
    requires whole != "" && AllDigits(whole) && |cents| == 2 && AllDigits(cents) && s == whole + "." + cents
    ensures ParseFloat(s) == ParseUnsigned(s)
  {
    assert s[0] == whole[0];
    assert TrimStart(s) == s;
  }

  lemma UnsignedCents(s: string, whole: string, cents: string)
    requires whole != "" && AllDigits(whole) && |cents| == 2 && AllDigits(cents) && s == whole + "." + cents
    ensures ParseUnsigned(s) == Number(DigitsValue(whole) as real + DigitsValue(cents) as real / 100.0)
  {
    var tail := "." + cents;
    assert s == whole + tail;
    LeadingDigitsStop(whole, tail);
    assert s[|whole|..] == tail;
    assert tail[1..] == cents;
    assert LeadingDigits(cents) == cents;
    assert Bills.Pow10(|cents|) == 100;
  }

  /** The amount passes the page's checks: given, a number, not negative, at most the bound. */
  predicate AmountAccepted(a: string)
  {
    a != "" && ParseFloat(a).Number? && 0.0 <= ParseFloat(a).value <= MaxAmount
  }

  /**
   * For an amount typed with two decimal places, the page accepts it exactly when the bill
   * record accepts the decimal the server reads from it.
   */
  lemma AmountAgreesWithRecord(whole: string, cents: string)
    requires whole != "" && AllDigits(whole) && |cents| == 2 && AllDigits(cents)
    ensures AmountAccepted(whole + "." + cents) <==> Bills.AmountOk(Bills.Decimal(false, DigitsValue(whole + cents), -2))
  {
    ParseCents(whole + "." + cents, whole, cents);
    var coefficient := DigitsValue(whole + cents);
    DigitsAppendTwo(whole, cents);
    var d := Bills.Decimal(false, coefficient, -2);
    Pow10Ten();
    if coefficient > 0 {
      Bills.AmountExact(d);
      assert Bills.Cents(d) == coefficient;
    } else {
      Bills.ZeroAmountExact(d);
    }
  }

  lemma Pow10Ten()
    ensures Bills.Pow10(10) == 10000000000
  {
    assert Bills.Pow10(2) == 100;
    Bills.Pow10Add(2, 2);
    Bills.Pow10Add(4, 4);
    Bills.Pow10Add(8, 2);
  }

  /** Two more digits multiply the value by a hundred and add theirs. */
  lemma DigitsAppendTwo(whole: string, cents: string)
    requires AllDigits(whole) && |cents| == 2 && AllDigits(cents)
    ensures DigitsValue(whole + cents) == DigitsValue(whole) * 100 + DigitsValue(cents)
  {
    var s := whole + cents;
    var s1 := whole + cents[..1];
    assert s[..|s| - 1] == s1;
    assert s1[..|s1| - 1] == whole;
    assert cents[..1][..0] == [];
    assert cents[..1] == [cents[0]];
    assert DigitsValue(cents[..1]) == DigitValue(cents[0]);
    assert DigitsValue(cents) == DigitValue(cents[0]) * 10 + DigitValue(cents[1]) by {
      assert cents[..|cents| - 1] == cents[..1];
    }
  }

  // ---------------------------------------------------------------- validation

  /** The description check, on the trimmed text. */
  function DescriptionError(description: string): (r: Option<string>)
    ensures r.None? <==> Trim(description) != "" && Bills.DescriptionOk(Trim(description))
    ensures r == Some(MsgDescriptionRequired) <==> Trim(description) == ""
  {
    var trimmed := Trim(description);
    if trimmed == "" then Some(MsgDescriptionRequired)
    else if |trimmed| > MaxDescription then Some(MsgDescriptionLong)
    else None
  }

  /** The amount check: the first of required, a number, not negative, at most the bound that fails. */
  function AmountError(amount: string): (r: Option<string>)
    ensures r.None? <==> AmountAccepted(amount)
    ensures r == Some(MsgAmountRequired) <==> amount == ""
    ensures r == Some(MsgAmountNaN) <==> amount != "" && ParseFloat(amount).NotANumber?
  {
    if amount == "" then Some(MsgAmountRequired)
    else
      var parsed := ParseFloat(amount);
      if parsed.NotANumber? then Some(MsgAmountNaN)
      else if parsed.value < 0.0 then Some(MsgAmountNegative)
      else if parsed.value > MaxAmount then Some(MsgAmountMax)
      else None
  }

  /** The date check, with the browser's date parsing as a parameter. */
  function DateError(date: string, dateParses: string -> bool): (r: Option<string>)
    ensures r.None? <==> date != "" && dateParses(date)
    ensures r == Some(MsgDateRequired) <==> date == ""
  {
    if date == "" then Some(MsgDateRequired)
    else if !dateParses(date) then Some(MsgDateInvalid)
    else None
  }

  /** The image check: the type check runs last, so its message wins over the size's. */
  function ImageError(image: Option<ImageFile>): (r: Option<string>)
    ensures r.None? <==> image.None? || (image.value.size <= MaxImageBytes && StartsWith(image.value.mime, "image/"))
    ensures r == Some(MsgImageType) <==> image.Some? && !StartsWith(image.value.mime, "image/")
  {
    match image
    case None => None
    case Some(file) =>
      var afterSize := if file.size > MaxImageBytes then Some(MsgImageSize) else None;
      if !StartsWith(file.mime, "image/") then Some(MsgImageType) else afterSize
  }

  /** `validateForm`: the errors recorded field by field; the form passes when none is. */
  function ValidateForm(form: BillForm, image: Option<ImageFile>, dateParses: string -> bool): Errors<string>
  {
    Errors(DescriptionError(form.description), AmountError(form.amount), DateError(form.date, dateParses), ImageError(image), None)
  }

  /** The form passes exactly when all four field checks pass; validation never sets a general message. */
  lemma ValidateFormExact(form: BillForm, image: Option<ImageFile>, dateParses: string -> bool)
    ensures ValidateForm(form, image, dateParses).general.None?
    ensures ValidateForm(form, image, dateParses).IsEmpty() <==>
              Trim(form.description) != "" && Bills.DescriptionOk(Trim(form.description))
              && AmountAccepted(form.amount)
              && form.date != "" && dateParses(form.date)
              && (image.None? || (image.value.size <= MaxImageBytes && StartsWith(image.value.mime, "image/")))
  {
  }

  /**
   * A form that passes sends what the bill record accepts: a description it allows, and,
   * for an amount typed with two decimal places, an amount it allows.
   */
  lemma PassingFormAgreesWithRecord(form: BillForm, image: Option<ImageFile>, dateParses: string -> bool, whole: string, cents: string)
    requires ValidateForm(form, image, dateParses).IsEmpty()
    requires whole != "" && AllDigits(whole) && |cents| == 2 && AllDigits(cents) && form.amount == whole + "." + cents
    ensures Bills.DescriptionOk(Trim(form.description))
    ensures Bills.AmountOk(Bills.Decimal(false, DigitsValue(whole + cents), -2))
  {
    ValidateFormExact(form, image, dateParses);
    AmountAgreesWithRecord(whole, cents);
  }

  // ---------------------------------------------------------------- server errors

  /** `Array.isArray(v) ? v[0] : v`. */
  function FirstIfArray(v: J.Json): (r: J.Json)
    ensures !v.JArr? ==> r == v
    ensures v.JArr? && v.items != [] ==> r == v.items[0]
    ensures v.JArr? && v.items == [] ==> r == J.JUndefined
  {
    match v
    case JArr(items) => if items == [] then J.JUndefined else items[0]
    case _ => v
  }

  /** `if (errorData.key) backendErrors.key = first(errorData.key)`: the message a field key gives, if any. */
  function Copied(members: seq<(string, J.Json)>, key: string): (r: Option<J.Json>)
    ensures r.Some? <==> J.Truthy(J.Get(members, key))
    ensures r.Some? ==> r.value == FirstIfArray(J.Get(members, key))
  {
    var v := J.Get(members, key);
    if J.Truthy(v) then Some(FirstIfArray(v)) else None
  }

  /**
   * `parseBackendErrors`: on an object body, each field key with a truthy value gives its
   * message (the first one of a list), and the general message is `non_field_errors` when
   * truthy, else `detail` when truthy; any other body gives no errors.
   */
  function ParseBackendErrors(data: J.Json): (r: Errors<J.Json>)
    ensures !data.JObj? ==> r.IsEmpty()
    ensures data.JObj? ==> r.description == Copied(data.members, "description") && r.amount == Copied(data.members, "amount")
                           && r.date == Copied(data.members, "date") && r.image == Copied(data.members, "image")
    ensures data.JObj? && J.Truthy(J.Get(data.members, "non_field_errors")) ==>
              r.general == Some(FirstIfArray(J.Get(data.members, "non_field_errors")))
    ensures data.JObj? && !J.Truthy(J.Get(data.members, "non_field_errors")) ==>
              r.general == if J.Truthy(J.Get(data.members, "detail")) then Some(J.Get(data.members, "detail")) else None
  {
    if !data.JObj? then NoErrors
    else
      var members := data.members;
      var fields := Errors(Copied(members, "description"), Copied(members, "amount"), Copied(members, "date"), Copied(members, "image"), None);
      var withDetail := if J.Truthy(J.Get(members, "detail")) then fields.(general := Some(J.Get(members, "detail"))) else fields;
      if J.Truthy(J.Get(members, "non_field_errors")) then withDetail.(general := Copied(members, "non_field_errors"))
      else withDetail
  }

  /**
   * A field's recorded message is falsy only when the server sent an empty list (or a list
   * whose first message is itself falsy) for it.
   */
  lemma FalsyMessageFromList(members: seq<(string, J.Json)>, key: string)
    requires Copied(members, key).Some? && !J.Truthy(Copied(members, key).value)
    ensures J.Get(members, key).JArr?
    ensures J.Get(members, key).items == [] || !J.Truthy(J.Get(members, key).items[0])
  {
  }

  /** A Django REST Framework validation body `{key: [message, ...]}` shows its first message under that key. */
  lemma ValidationBodyShown(key: string, message: string, more: seq<J.Json>)
    requires key in ["description", "amount", "date", "image"]
    requires message != ""
    ensures var r := ParseBackendErrors(J.JObj([(key, J.JArr([J.JStr(message)] + more))]));
            r.general.None?
            && (key == "description" ==> r.description == Some(J.JStr(message)))
            && (key == "amount" ==> r.amount == Some(J.JStr(message)))
            && (key == "date" ==> r.date == Some(J.JStr(message)))
            && (key == "image" ==> r.image == Some(J.JStr(message)))
  {
  }

  // ---------------------------------------------------------------- submit

  /** A form data value: text, or the selected file. */
  datatype Entry = Text(text: string) | File(file: ImageFile)

  /** The form data of the submit: the trimmed description, the amount and date as typed, and the image when one is selected. */
  function Entries(form: BillForm, image: Option<ImageFile>): (fd: seq<(string, Entry)>)
    ensures |fd| == if image.Some? then 4 else 3
    ensures fd[..3] == [("description", Text(Trim(form.description))), ("amount", Text(form.amount)), ("date", Text(form.date))]
    ensures image.Some? ==> fd[3] == ("image", File(image.value))
  {
    [("description", Text(Trim(form.description))), ("amount", Text(form.amount)), ("date", Text(form.date))]
    + (if image.Some? then [("image", File(image.value))] else [])
  }

  /** How the request ends: accepted, refused with a response body, with no response, or failing before it is sent. */
  datatype Outcome = Accepted | Refused(data: J.Json) | NoResponse | Broken(message: string)

  /** Validation messages as the page stores them. */
  function AsJson(e: Errors<string>): (r: Errors<J.Json>)
    ensures r.IsEmpty() <==> e.IsEmpty()
  {
    Errors(Wrap(e.description), Wrap(e.amount), Wrap(e.date), Wrap(e.image), Wrap(e.general))
  }

  function Wrap(m: Option<string>): (r: Option<J.Json>)
    ensures r.None? <==> m.None?
    ensures m.Some? ==> r == Some(J.JStr(m.value))
  {
    if m.Some? then Some(J.JStr(m.value)) else None
  }

  /** `errors.image` truthy: `{ ...errors, image: "" }`; otherwise the errors as they are. */
  function BlankImage(e: Errors<J.Json>): (r: Errors<J.Json>)
    ensures r.description == e.description && r.amount == e.amount && r.date == e.date && r.general == e.general
    ensures r.image.Some? ==> !J.Truthy(r.image.value) || r.image == e.image
    ensures r.image.None? <==> e.image.None?
  {
    if e.image.Some? && J.Truthy(e.image.value) then e.(image := Some(J.JStr(""))) else e
  }

  /** The page's state. */
  class Page {
    var form: BillForm
    var image: Option<ImageFile>
    var hasPreview: bool
    var errors: Errors<J.Json>
    var submitting: bool

    /** A selected file always has its preview, and only then. */
    ghost predicate Valid()
      reads this
    {
      image.Some? <==> hasPreview
    }

    constructor ()
      ensures Valid() && form == EmptyForm && image == None && errors == NoErrors && !submitting
    {
      form := EmptyForm;
      image := None;
      hasPreview := false;
      errors := NoErrors;
      submitting := false;
    }

    /** `removeImage`: no file, no preview, and an image error is blanked. */
    method RemoveImage()
      modifies this
      ensures Valid() && image == None
      ensures form == old(form) && submitting == old(submitting)
      ensures errors == BlankImage(old(errors))
    {
      image := None;
      hasPreview := false;
      errors := BlankImage(errors);
    }

    /** `handleImageChange`: a chosen file replaces the old one and blanks an image error; choosing none removes it. */
    method ImageChange(file: Option<ImageFile>)
      modifies this
      ensures Valid() && image == file
      ensures form == old(form) && submitting == old(submitting)
      ensures errors == BlankImage(old(errors))
    {
      if file.Some? {
        image := file;
        hasPreview := true;
        errors := BlankImage(errors);
      } else {
        RemoveImage();
      }
    }

    /**
     * `handleSubmit`, given the browser's date parsing and how the request ends. A form that
     * fails a check sends nothing and shows its errors. Otherwise it sends the form data; a
     * success clears the form and the image, and a failure keeps them and shows the server's
     * errors, a network error or the failure's message. Submitting is over either way.
     *
     * On success the errors shown are those `removeImage` computes from the errors of the
     * render the submit started in, since the handler reads the state it was created with.
     */
    method Submit(dateParses: string -> bool, outcome: Outcome) returns (sent: Option<seq<(string, Entry)>>)
      requires Valid()
      modifies this
      ensures Valid()
      ensures sent.None? <==> !ValidateForm(old(form), old(image), dateParses).IsEmpty()
      ensures sent.None? ==> form == old(form) && image == old(image) && submitting == old(submitting)
                             && errors == AsJson(ValidateForm(old(form), old(image), dateParses))
      ensures sent.Some? ==> sent.value == Entries(old(form), old(image)) && !submitting
      ensures sent.Some? ==> Settled(outcome, old(form), old(image), old(errors))
    {
      var rendered, form0, image0 := errors, form, image;
      var passed := Check(dateParses);
      if !passed {
        sent := None;
        return;
      }
      submitting := true;
      sent := Some(Entries(form0, image0));
      Send(outcome, rendered);
    }

    /** `setErrors({})` then `validateForm()`: the errors become the validation's, and whether there are none. */
    method Check(dateParses: string -> bool) returns (passed: bool)
      modifies this
      ensures passed <==> ValidateForm(old(form), old(image), dateParses).IsEmpty()
      ensures errors == AsJson(ValidateForm(old(form), old(image), dateParses))
      ensures form == old(form) && image == old(image) && hasPreview == old(hasPreview) && submitting == old(submitting)
    {
      var found := ValidateForm(form, image, dateParses);
      errors := AsJson(found);
      passed := found.IsEmpty();
    }

    /**
     * The page once the request has ended: a success clears the form and the image, and a
     * failure keeps them and shows the server's errors, a network error or the failure's
     * message. On success the errors shown are those `removeImage` computes from the errors
     * of the render the submit started in, since the handler reads the state it was created
     * with.
     */
    ghost predicate Settled(outcome: Outcome, form0: BillForm, image0: Option<ImageFile>, rendered: Errors<J.Json>)
      reads this
    {
      && (outcome.Accepted? ==>
            form == EmptyForm && image == None
            && errors == if rendered.image.Some? && J.Truthy(rendered.image.value) then BlankImage(rendered) else NoErrors)
      && (!outcome.Accepted? ==> form == form0 && image == image0)
      && (outcome.Refused? && J.Truthy(outcome.data) ==> errors == ParseBackendErrors(outcome.data))
      && (outcome.NoResponse? || (outcome.Refused? && !J.Truthy(outcome.data)) ==>
            errors == NoErrors.(general := Some(J.JStr(MsgNetwork))))
      && (outcome.Broken? ==> errors == NoErrors.(general := Some(J.JStr(OrElse(Some(outcome.message), MsgUnexpected)))))
    }

    /** The `try`/`catch`/`finally` of the submit, after a passing validation left no errors. */
    method Send(outcome: Outcome, rendered: Errors<J.Json>)
      requires Valid() && errors == NoErrors
      modifies this
      ensures Valid() && !submitting
      ensures Settled(outcome, old(form), old(image), rendered)
    {
      submitting := false;
      match outcome {
        case Accepted =>
          form := EmptyForm;
          image := None;
          hasPreview := false;
          if rendered.image.Some? && J.Truthy(rendered.image.value) {
            errors := BlankImage(rendered);
          }
        case Refused(data) =>
          if J.Truthy(data) {
            errors := ParseBackendErrors(data);
          } else {
            errors := NoErrors.(general := Some(J.JStr(MsgNetwork)));
          }
        case NoResponse =>
          errors := NoErrors.(general := Some(J.JStr(MsgNetwork)));
        case Broken(message) =>
          errors := NoErrors.(general := Some(J.JStr(OrElse(Some(message), MsgUnexpected))));
      }
    }
  }
}
