/**
 * The detailed event serializer: the title and agenda validators, the validated data it keeps
 * (read-only `id` and `images` never reach it), the date and time defaults applied on create,
 * and the attribute-by-attribute update.
 */
module EventsSerializers {
  import opened Common
  import opened Text
  import J = Json

  // ---------------------------------------------------------------- title

  const MsgTitleEmpty := "Title cannot be empty."

  /** `validate_title`: an empty or whitespace-only title is refused; any other is stripped. */
  function ValidateTitle(value: string): (r: Result<string, string>)
    ensures r.Err? ==> r.error == MsgTitleEmpty
  {
    if value == "" || Trim(value) == "" then Err(MsgTitleEmpty) else Ok(Trim(value))
  }

  /**
   * Exactly the titles with a non-whitespace character pass; the accepted title is the
   * stripped input, and it passes again unchanged.
   */
  lemma ValidateTitleExact(value: string)
    ensures ValidateTitle(value).Ok? <==> exists i :: 0 <= i < |value| && !IsSpace(value[i])
    ensures ValidateTitle(value).Ok? ==> ValidateTitle(value).value == Trim(value)
    ensures ValidateTitle(value).Ok? ==> ValidateTitle(ValidateTitle(value).value) == ValidateTitle(value)
  {
    TrimEmpty(value);
    TrimIdempotent(value);
  }

  // ---------------------------------------------------------------- agenda

  const MsgAgendaNotList := "Agenda must be a list of objects with 'time' and 'purpose' fields."
  const MsgItemNotObject := "Each agenda item must be an object."
  const MsgItemMissingKeys := "Each agenda item must include both 'time' and 'purpose' fields."

  /** A well-formed agenda item: an object with both a `time` and a `purpose` member. */
  predicate AgendaItemOk(item: J.Json)
  {
    item.JObj? && J.HasKey(item.members, "time") && J.HasKey(item.members, "purpose")
  }

  /** The error one agenda item raises, if any. */
  function AgendaItemError(item: J.Json): (e: Option<string>)
    ensures e.None? <==> AgendaItemOk(item)
    ensures e.Some? ==> e.value == (if item.JObj? then MsgItemMissingKeys else MsgItemNotObject)
  {
    if !item.JObj? then Some(MsgItemNotObject)
    else if !J.HasKey(item.members, "time") || !J.HasKey(item.members, "purpose") then Some(MsgItemMissingKeys)
    else None
  }

  /** The error of the first ill-formed item, scanning from the front. */
  function FirstAgendaError(items: seq<J.Json>): Option<string>
  {
    if items == [] then None
    else if AgendaItemError(items[0]).Some? then AgendaItemError(items[0])
    else FirstAgendaError(items[1..])
  }

  /** `validate_agenda`: `null` passes, anything but a list fails, and so does the first bad item. */
  function ValidateAgenda(value: J.Json): Result<J.Json, string>
  {
    if value.JNull? then Ok(value)
    else if !value.JArr? then Err(MsgAgendaNotList)
    else match FirstAgendaError(value.items)
      case None => Ok(value)
      case Some(e) => Err(e)
  }

  /** The first error is reported exactly when some item is ill-formed, and it is that item's error. */
  lemma FirstAgendaErrorExact(items: seq<J.Json>)
    ensures FirstAgendaError(items).None? <==> forall i :: 0 <= i < |items| ==> AgendaItemOk(items[i])
    ensures FirstAgendaError(items).Some? ==>
              exists i :: 0 <= i < |items| && !AgendaItemOk(items[i])
                          && FirstAgendaError(items) == AgendaItemError(items[i])
                          && forall j :: 0 <= j < i ==> AgendaItemOk(items[j])
  {
    FirstAgendaErrorNone(items);
    FirstAgendaErrorWitness(items);
  }

  lemma {:induction false} FirstAgendaErrorNone(items: seq<J.Json>)
    ensures FirstAgendaError(items).None? <==> forall i :: 0 <= i < |items| ==> AgendaItemOk(items[i])
  {
    if items != [] {
      FirstAgendaErrorNone(items[1..]);
      assert forall i :: 1 <= i < |items| ==> items[1..][i - 1] == items[i];
    }
  }

  lemma {:induction false} FirstAgendaErrorWitness(items: seq<J.Json>)
    ensures FirstAgendaError(items).Some? ==>
              exists i :: 0 <= i < |items| && !AgendaItemOk(items[i])
                          && FirstAgendaError(items) == AgendaItemError(items[i])
                          && forall j :: 0 <= j < i ==> AgendaItemOk(items[j])
  {
    if items != [] && FirstAgendaError(items).Some? {
      if AgendaItemError(items[0]).Some? {
        assert !AgendaItemOk(items[0]) && FirstAgendaError(items) == AgendaItemError(items[0]);
      } else {
        var rest := items[1..];
        FirstAgendaErrorWitness(rest);
        var k :| 0 <= k < |rest| && !AgendaItemOk(rest[k])
                 && FirstAgendaError(rest) == AgendaItemError(rest[k])
                 && forall j :: 0 <= j < k ==> AgendaItemOk(rest[j]);
        assert FirstAgendaError(items) == FirstAgendaError(rest);
        OkPrefixShift(items, k);
        assert items[k + 1] == rest[k];
      }
    }
  }

  /** Well-formed items before position `k` of the tail, behind a well-formed head, stay well-formed. */
  lemma OkPrefixShift(items: seq<J.Json>, k: nat)
    requires k + 1 < |items| && AgendaItemOk(items[0])
    requires forall j :: 0 <= j < k ==> AgendaItemOk(items[1..][j])
    ensures forall j :: 0 <= j < k + 1 ==> AgendaItemOk(items[j])
  {
    forall j | 1 <= j < k + 1 ensures AgendaItemOk(items[j]) {
      assert items[j] == items[1..][j - 1];
    }
  }

  /** A valid agenda is `null` or a list of well-formed items, and it is returned unchanged. */
  lemma ValidateAgendaExact(value: J.Json)
    ensures ValidateAgenda(value).Ok? <==>
              value.JNull? || (value.JArr? && forall i :: 0 <= i < |value.items| ==> AgendaItemOk(value.items[i]))
    ensures ValidateAgenda(value).Ok? ==> ValidateAgenda(value).value == value
    ensures !value.JNull? && !value.JArr? ==> ValidateAgenda(value) == Err(MsgAgendaNotList)
  {
    if value.JArr? {
      FirstAgendaErrorExact(value.items);
    }
  }

  /** The loop of `validate_agenda`, raising at the first bad item. */
  method CheckAgenda(value: J.Json) returns (r: Result<J.Json, string>)
    ensures r == ValidateAgenda(value)
  {
    if value.JNull? {
      return Ok(value);
    }
    if !value.JArr? {
      return Err(MsgAgendaNotList);
    }
    var items := value.items;
    var i := 0;
    while i < |items|
      invariant 0 <= i <= |items|
      invariant FirstAgendaError(items) == FirstAgendaError(items[i..])
    {
      assert items[i..][1..] == items[i + 1..];
      var e := AgendaItemError(items[i]);
      if e.Some? {
        return Err(e.value);
      }
      i := i + 1;
    }
    r := Ok(value);
  }

  // ---------------------------------------------------------------- validated data

  /** The writable columns of an event; `id` and `images` are read-only and absent here. */
  datatype Column = EventType | Title | Description | Content | Date | Time | Location | Agenda | TotalSeats

  const Columns: set<Column> := {EventType, Title, Description, Content, Date, Time, Location, Agenda, TotalSeats}

  lemma InColumns(c: Column)
    ensures c in Columns
  {
    match c
    case EventType =>
    case Title =>
    case Description =>
    case Content =>
    case Date =>
    case Time =>
    case Location =>
    case Agenda =>
    case TotalSeats =>
  }

  /** The request key a column is read from: the event type arrives as `event_type_id`. */
  function InputName(c: Column): string
  {
    match c
    case EventType => "event_type_id"
    case Title => "title"
    case Description => "description"
    case Content => "content"
    case Date => "date"
    case Time => "time"
    case Location => "location"
    case Agenda => "agenda"
    case TotalSeats => "total_seats"
  }

  lemma InputNamesDistinct(c: Column, d: Column)
    ensures InputName(c) == InputName(d) ==> c == d
    ensures InputName(c) != "id" && InputName(c) != "images" && InputName(c) != "event_type"
  {
  }

  /** The columns the request supplies, keyed by column. */
  function Supplied(input: map<string, J.Json>): (d: map<Column, J.Json>)
    ensures forall c :: c in d <==> InputName(c) in input
  {
    map c | c in Columns && InputName(c) in input :: input[InputName(c)]
  }

  const TitleMaxLength := 100

  /**
   * The text a character field reads from a JSON value: a string as sent and a number as
   * `str()` spells it; `null`, booleans, lists and objects are refused.
   */
  function CharText(j: J.Json): (r: Option<string>)
    ensures r.Some? <==> j.JStr? || j.JNum?
    ensures j.JStr? ==> r == Some(j.s)
    ensures j.JNum? ==> r == Some(J.IntToString(j.n))
  {
    match j
    case JStr(s) => Some(s)
    case JNum(n) => Some(J.IntToString(n))
    case _ => None
  }

  /**
   * A title the field accepts: its text, stripped, is not blank, at most 100 characters long
   * (`CharField(max_length=100)` on the model) and passes `validate_title`.
   */
  predicate TitleOk(j: J.Json)
  {
    CharText(j).Some? && ValidateTitle(CharText(j).value).Ok? && |Trim(CharText(j).value)| <= TitleMaxLength
  }

  /** A content the field accepts: the `TextField` reads a string or a number and refuses blank text. */
  predicate ContentOk(j: J.Json)
  {
    CharText(j).Some? && Trim(CharText(j).value) != ""
  }

  /** The title is refused: a sent title fails its checks, or a create leaves it out. */
  predicate TitleRefused(input: map<string, J.Json>, partial: bool)
  {
    if "title" in input then !TitleOk(input["title"]) else !partial
  }

  /** The content is refused: a sent content is blank or not text, or a create leaves it out. */
  predicate ContentRefused(input: map<string, J.Json>, partial: bool)
  {
    if "content" in input then !ContentOk(input["content"]) else !partial
  }

  /** The agenda is refused: a sent agenda fails `validate_agenda`. */
  predicate AgendaRefused(input: map<string, J.Json>)
  {
    "agenda" in input && ValidateAgenda(input["agenda"]).Err?
  }

  /**
   * The columns a request is refused on: the title and the content (both required on create)
   * and the agenda.
   */
  function Errors(input: map<string, J.Json>, partial: bool): (errs: set<Column>)
    ensures errs <= {Title, Content, Agenda}
    ensures Title in errs <==> TitleRefused(input, partial)
    ensures Content in errs <==> ContentRefused(input, partial)
    ensures Agenda in errs <==> AgendaRefused(input)
  {
    Flagged(Title, TitleRefused(input, partial)) + Flagged(Content, ContentRefused(input, partial))
    + Flagged(Agenda, AgendaRefused(input))
  }

  /** The column alone when `refused`, otherwise nothing. */
  function Flagged(c: Column, refused: bool): (r: set<Column>)
    ensures r <= {c} && (c in r <==> refused)
  {
    if refused then {c} else {}
  }

  /** A number is a title as `str()` spells it, as long as that spelling fits the column. */
  lemma NumberTitleAccepted(n: nat)
    requires |NatToString(n)| <= TitleMaxLength
    ensures TitleOk(J.JNum(n)) && ValidateTitle(CharText(J.JNum(n)).value) == Ok(NatToString(n))
  {
    var t := NatToString(n);
    assert !IsSpace(t[0]) && !IsSpace(t[|t| - 1]);
    TrimUnchanged(t);
  }

  /** A title longer than 100 characters, with no whitespace at either end, is refused. */
  lemma LongTitleRefused(t: string)
    requires |t| > TitleMaxLength && !IsSpace(t[0]) && !IsSpace(t[|t| - 1])
    ensures !TitleOk(J.JStr(t))
  {
    TrimUnchanged(t);
  }

  /** The data with column `c`, when it holds a string or a number, replaced by its stripped text. */
  function Stripped(d: map<Column, J.Json>, c: Column): (r: map<Column, J.Json>)
    ensures r.Keys == d.Keys
    ensures forall e :: e in d && e != c ==> r[e] == d[e]
    ensures c in d && CharText(d[c]).Some? ==> r[c] == J.JStr(Trim(CharText(d[c]).value))
    ensures c in d && CharText(d[c]).None? ==> r[c] == d[c]
  {
    if c in d && CharText(d[c]).Some? then d[c := J.JStr(Trim(CharText(d[c]).value))] else d
  }

  /** The validated data: the supplied columns, with the title and the content as stripped text. */
  function Validated(input: map<string, J.Json>): map<Column, J.Json>
  {
    Stripped(Stripped(Supplied(input), Title), Content)
  }

  /**
   * The validated data holds exactly the supplied writable columns with their values (the title
   * and the content as stripped text); keys outside them, `id` and `images` included, change nothing.
   */
  lemma ValidatedExact(input: map<string, J.Json>, c: Column)
    ensures c in Validated(input) <==> InputName(c) in input
    ensures c in Validated(input) && c != Title && c != Content ==> Validated(input)[c] == input[InputName(c)]
    ensures c in Validated(input) && (c == Title || c == Content) && CharText(input[InputName(c)]).Some? ==>
              Validated(input)[c] == J.JStr(Trim(CharText(input[InputName(c)]).value))
    ensures Validated(input - {"id", "images"}) == Validated(input)
  {
    ValidatedColumn(input, c);
    ValidatedIgnoresReadOnly(input);
  }

  lemma ValidatedColumn(input: map<string, J.Json>, c: Column)
    ensures c in Validated(input) <==> InputName(c) in input
    ensures c in Validated(input) && c != Title && c != Content ==> Validated(input)[c] == input[InputName(c)]
    ensures c in Validated(input) && (c == Title || c == Content) && CharText(input[InputName(c)]).Some? ==>
              Validated(input)[c] == J.JStr(Trim(CharText(input[InputName(c)]).value))
  {
    SuppliedAt(input, c);
    SuppliedAt(input, Title);
    SuppliedAt(input, Content);
  }

  lemma SuppliedAt(input: map<string, J.Json>, c: Column)
    ensures c in Supplied(input) <==> InputName(c) in input
    ensures c in Supplied(input) ==> Supplied(input)[c] == input[InputName(c)]
  {
    InColumns(c);
  }

  lemma ValidatedIgnoresReadOnly(input: map<string, J.Json>)
    ensures Validated(input - {"id", "images"}) == Validated(input)
  {
    var trimmed := input - {"id", "images"};
    assert forall d :: InputName(d) in trimmed <==> InputName(d) in input by {
      forall d ensures InputName(d) in trimmed <==> InputName(d) in input {
        InputNamesDistinct(d, d);
      }
    }
    assert Supplied(trimmed) == Supplied(input);
  }

  /**
   * Without errors, a validated title is the one `validate_title` returns, a create always has a
   * title and a non-blank content, and a sent agenda is kept as sent.
   */
  lemma ValidatedTitle(input: map<string, J.Json>, partial: bool)
    requires Errors(input, partial) == {}
    ensures "title" in input ==> Title in Validated(input)
                                 && Validated(input)[Title] == J.JStr(ValidateTitle(CharText(input["title"]).value).value)
                                 && |ValidateTitle(CharText(input["title"]).value).value| <= TitleMaxLength
    ensures !partial ==> "title" in input && "content" in input
    ensures "content" in input ==> Content in Validated(input) && Validated(input)[Content].JStr?
                                   && Validated(input)[Content].s != ""
    ensures "agenda" in input ==> ValidateAgenda(input["agenda"]) == Ok(input["agenda"])
  {
    if "title" in input {
      ValidatedColumn(input, Title);
    }
    if "content" in input {
      ValidatedColumn(input, Content);
    }
    if "agenda" in input {
      ValidateAgendaExact(input["agenda"]);
    }
  }

  // ---------------------------------------------------------------- storage

  /** The data `create` stores: a missing or `null` date or time becomes today's date or the time now. */
  function WithDefaults(data: map<Column, J.Json>, today: string, now: string): map<Column, J.Json>
  {
    var d := if Date !in data || data[Date].JNull? then data[Date := J.JStr(today)] else data;
    if Time !in d || d[Time].JNull? then d[Time := J.JStr(now)] else d
  }

  /** The defaults fill only the date and the time, and keep every value supplied. */
  lemma WithDefaultsExact(data: map<Column, J.Json>, today: string, now: string, c: Column)
    ensures var r := WithDefaults(data, today, now);
            && (c in r <==> c in data || c == Date || c == Time)
            && (c == Date ==> r[c] == (if Date in data && !data[Date].JNull? then data[Date] else J.JStr(today)))
            && (c == Time ==> r[c] == (if Time in data && !data[Time].JNull? then data[Time] else J.JStr(now)))
            && (c in data && c != Date && c != Time ==> r[c] == data[c])
            && !r[Date].JNull? && !r[Time].JNull?
  {
  }

  /** The event rows, each a map of its columns, with the identity counter. */
  class EventStore {
    var rows: map<nat, map<Column, J.Json>>
    var next: nat

    ghost predicate Valid()
      reads this
    {
      forall k :: k in rows ==> k < next
    }

    constructor ()
      ensures Valid() && rows == map[]
    {
      rows := map[];
      next := 0;
    }

    /** `create`: fills the date and time defaults into the validated data, then inserts the row. */
    method Create(data: map<Column, J.Json>, today: string, now: string) returns (id: nat)
      requires Valid()
      modifies this
      ensures Valid()
      ensures id == old(next) && id !in old(rows)
      ensures rows == old(rows)[id := WithDefaults(data, today, now)]
    {
      var d := data;
      if Date !in d || d[Date].JNull? {
        d := d[Date := J.JStr(today)];
      }
      if Time !in d || d[Time].JNull? {
        d := d[Time := J.JStr(now)];
      }
      id := next;
      rows := rows[id := d];
      next := next + 1;
    }

    /** `update`: assigns every validated attribute in turn, then saves the row. */
    method Update(id: nat, items: seq<(Column, J.Json)>)
      requires Valid() && id in rows
      modifies this
      ensures Valid() && next == old(next)
      ensures rows == old(rows)[id := Assign(old(rows[id]), items)]
    {
      var row := rows[id];
      var i := 0;
      while i < |items|
        invariant 0 <= i <= |items|
        invariant row == Assign(old(rows[id]), items[..i])
      {
        assert items[..i + 1][..i] == items[..i];
        row := row[items[i].0 := items[i].1];
        i := i + 1;
      }
      assert items[..|items|] == items;
      rows := rows[id := row];
    }
  }

  /** A row after the assignments `items`, in order. */
  function Assign(row: map<Column, J.Json>, items: seq<(Column, J.Json)>): map<Column, J.Json>
  {
    if items == [] then row
    else Assign(row, items[..|items| - 1])[items[|items| - 1].0 := items[|items| - 1].1]
  }

  /** The value last assigned to `c` among `items`, if any. */
  function LastAssigned(items: seq<(Column, J.Json)>, c: Column): Option<J.Json>
  {
    if items == [] then None
    else if items[|items| - 1].0 == c then Some(items[|items| - 1].1)
    else LastAssigned(items[..|items| - 1], c)
  }

  /** After `update` a column holds the value last assigned to it; unassigned columns keep theirs. */
  lemma {:induction false} AssignExact(row: map<Column, J.Json>, items: seq<(Column, J.Json)>, c: Column)
    ensures c in Assign(row, items) <==> c in row || LastAssigned(items, c).Some?
    ensures LastAssigned(items, c).Some? ==> Assign(row, items)[c] == LastAssigned(items, c).value
    ensures LastAssigned(items, c).None? && c in row ==> Assign(row, items)[c] == row[c]
  {
    if items != [] {
      AssignExact(row, items[..|items| - 1], c);
    }
  }
}
