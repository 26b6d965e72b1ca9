/**
 * The meeting-details form of the attendance page: the time fields accept only what can still
 * grow into `HH:MM`, the AM/PM selects forward their choice under the matching field name, and
 * the other fields pass their text through.
 */
module AttendanceForm {
  import opened Common
  import opened Text
  import MarkAttendance

  /** The named fields of the meeting details. */
  datatype Field = StartTimeValue | StartTimeModifier | EndTimeValue | EndTimeModifier | Venue | Highlights | Agenda

  /** The `name` each field's input carries. */
  function FieldName(f: Field): string
  {
    match f
    case StartTimeValue => "startTimeValue"
    case StartTimeModifier => "startTimeModifier"
    case EndTimeValue => "endTimeValue"
    case EndTimeModifier => "endTimeModifier"
    case Venue => "venue"
    case Highlights => "highlights"
    case Agenda => "agenda"
  }

  /** Different fields carry different names, so a change reaches exactly one field. */
  lemma FieldNameInjective(f: Field, g: Field)
    ensures FieldName(f) == FieldName(g) ==> f == g
  {
  }

  function Get(d: MarkAttendance.Details, f: Field): string
  {
    match f
    case StartTimeValue => d.startValue
    case StartTimeModifier => d.startModifier
    case EndTimeValue => d.endValue
    case EndTimeModifier => d.endModifier
    case Venue => d.venue
    case Highlights => d.highlights
    case Agenda => d.agenda
  }

  /** The page's `handleDetailChange`: the named field takes the value and no other field changes. */
  function SetDetail(d: MarkAttendance.Details, f: Field, v: string): (r: MarkAttendance.Details)
    ensures Get(r, f) == v
    ensures forall g :: g != f ==> Get(r, g) == Get(d, g)
  {
    match f
    case StartTimeValue => d.(startValue := v)
    case StartTimeModifier => d.(startModifier := v)
    case EndTimeValue => d.(endValue := v)
    case EndTimeModifier => d.(endModifier := v)
    case Venue => d.(venue := v)
    case Highlights => d.(highlights := v)
    case Agenda => d.(agenda := v)
  }

  // ---------------------------------------------------------------- time values

  /**
   * `^\d{0,2}:?\d{0,2}$` read as written: the value splits into at most two digits, an
   * optional colon and at most two digits.
   */
  ghost predicate MatchesPartialTime(v: string)
  {
    exists i: nat, j: nat :: i <= j <= |v| && PartialTimeSplit(v, i, j)
  }

  /** `v[..i]` are the hours, `v[i..j]` the colon if any, `v[j..]` the minutes. */
  predicate PartialTimeSplit(v: string, i: nat, j: nat)
    requires i <= j <= |v|
  {
    i <= 2 && |v| - j <= 2 && AllDigits(v[..i]) && AllDigits(v[j..]) && (j == i || (j == i + 1 && v[i] == ':'))
  }

  /** The test the time fields apply, decided at the first colon. */
  function AcceptsTime(v: string): bool
  {
    match IndexOf(v, ':')
    case None => AllDigits(v) && |v| <= 4
    case Some(c) => c <= 2 && AllDigits(v[..c]) && |v| - c - 1 <= 2 && AllDigits(v[c + 1..])
  }

  /** The test agrees with the pattern on every value. */
  lemma AcceptsTimeExact(v: string)
    ensures AcceptsTime(v) <==> MatchesPartialTime(v)
  {
    match IndexOf(v, ':')
    case None =>
      if AcceptsTime(v) {
        var i := if |v| < 2 then |v| else 2;
        assert PartialTimeSplit(v, i, i);
      }
      if MatchesPartialTime(v) {
        var i: nat, j: nat :| i <= j <= |v| && PartialTimeSplit(v, i, j);
        assert j == i;
        assert v == v[..i] + v[j..];
      }
    case Some(c) =>
      if AcceptsTime(v) {
        assert PartialTimeSplit(v, c, c + 1);
      }
      if MatchesPartialTime(v) {
        var i: nat, j: nat :| i <= j <= |v| && PartialTimeSplit(v, i, j);
        if c < i {
          assert v[..i][c] == ':';
        } else if c == i {
          assert j == i + 1;
        }
      }
  }

  /**
   * Every accepted value can be typed one keystroke at a time, since each of its prefixes is
   * accepted too; no accepted value is longer than `HH:MM`.
   */
  lemma AcceptsTimePrefix(v: string, k: nat)
    requires AcceptsTime(v) && k <= |v|
    ensures AcceptsTime(v[..k])
    ensures |v| <= 5
  {
    AcceptsTimeExact(v);
    var i: nat, j: nat :| i <= j <= |v| && PartialTimeSplit(v, i, j);
    var i', j' := if i < k then i else k, if j < k then j else k;
    var w := v[..k];
    assert w[..i'] == v[..i'];
    assert w[j'..] == v[j'..k];
    assert PartialTimeSplit(w, i', j');
    AcceptsTimeExact(w);
  }

  /** Every time the submit accepts can be entered in a time field. */
  lemma ClockAccepted(v: string)
    requires MarkAttendance.IsClock(v)
    ensures AcceptsTime(v)
  {
    var c := |v| - 3;
    assert PartialTimeSplit(v, c, c + 1);
    AcceptsTimeExact(v);
  }

  /** The two time fields. */
  datatype TimeType = StartTime | EndTime

  function TimeTypeText(t: TimeType): string
  {
    match t
    case StartTime => "startTime"
    case EndTime => "endTime"
  }

  function ValueField(t: TimeType): Field
  {
    match t
    case StartTime => StartTimeValue
    case EndTime => EndTimeValue
  }

  function ModifierField(t: TimeType): Field
  {
    match t
    case StartTime => StartTimeModifier
    case EndTime => EndTimeModifier
  }

  /** `handleTimeValueChange`: the value is passed on only when empty or accepted. */
  function TimeValueChange(d: MarkAttendance.Details, t: TimeType, v: string): (r: MarkAttendance.Details)
  {
    if v == "" || AcceptsTime(v) then SetDetail(d, ValueField(t), v) else d
  }

  /**
   * An accepted value lands in its own time field and nowhere else; a rejected keystroke
   * leaves every field as it was.
   */
  lemma TimeValueChangeExact(d: MarkAttendance.Details, t: TimeType, v: string)
    ensures MatchesPartialTime(v) ==>
              Get(TimeValueChange(d, t, v), ValueField(t)) == v
              && forall g :: g != ValueField(t) ==> Get(TimeValueChange(d, t, v), g) == Get(d, g)
    ensures !MatchesPartialTime(v) ==> TimeValueChange(d, t, v) == d
  {
    AcceptsTimeExact(v);
    if v == "" {
      assert PartialTimeSplit(v, 0, 0);
    }
  }

  // ---------------------------------------------------------------- modifiers

  /** The two options of each modifier select. */
  datatype Modifier = AM | PM

  function ModifierText(m: Modifier): string
  {
    match m
    case AM => "AM"
    case PM => "PM"
  }

  /** `handleTimeModifierChange`: the choice is forwarded under the name `<timeType>Modifier`. */
  function ModifierChange(d: MarkAttendance.Details, t: TimeType, m: Modifier): (r: MarkAttendance.Details)
  {
    SetDetail(d, ModifierField(t), ModifierText(m))
  }

  /** The forwarded name is the name of that time's modifier field, so the choice lands there alone. */
  lemma ModifierForwarded(d: MarkAttendance.Details, t: TimeType, m: Modifier)
    ensures FieldName(ModifierField(t)) == TimeTypeText(t) + "Modifier"
    ensures Get(ModifierChange(d, t, m), ModifierField(t)) == ModifierText(m)
    ensures forall g :: g != ModifierField(t) ==> Get(ModifierChange(d, t, m), g) == Get(d, g)
  {
  }

  /** The free-text fields. */
  datatype TextField = VenueText | HighlightsText | AgendaText

  function TextTarget(f: TextField): Field
  {
    match f
    case VenueText => Venue
    case HighlightsText => Highlights
    case AgendaText => Agenda
  }

  /** One user action on the form. */
  datatype Action = TypeTime(t: TimeType, v: string) | PickModifier(t: TimeType, m: Modifier) | TypeText(f: TextField, v: string)

  function Apply(d: MarkAttendance.Details, a: Action): MarkAttendance.Details
  {
    match a
    case TypeTime(t, v) => TimeValueChange(d, t, v)
    case PickModifier(t, m) => ModifierChange(d, t, m)
    case TypeText(f, v) => SetDetail(d, TextTarget(f), v)
  }

  function ApplyAll(d: MarkAttendance.Details, actions: seq<Action>): MarkAttendance.Details
    decreases |actions|
  {
    if actions == [] then d else ApplyAll(Apply(d, actions[0]), actions[1..])
  }

  /** Both modifiers are `AM` or `PM` and both time values are empty or accepted. */
  predicate WellFormed(d: MarkAttendance.Details)
  {
    && (d.startModifier == "AM" || d.startModifier == "PM")
    && (d.endModifier == "AM" || d.endModifier == "PM")
    && (d.startValue == "" || AcceptsTime(d.startValue))
    && (d.endValue == "" || AcceptsTime(d.endValue))
  }

  /**
   * From the page's initial details, whatever the user does, the modifiers stay `AM` or `PM`
   * and the time fields hold only accepted text.
   */
  lemma {:induction false} ActionsKeepWellFormed(d: MarkAttendance.Details, actions: seq<Action>)
    requires WellFormed(d)
    ensures WellFormed(ApplyAll(d, actions))
    decreases |actions|
  {
    if actions != [] {
      ApplyKeepsWellFormed(d, actions[0]);
      ActionsKeepWellFormed(Apply(d, actions[0]), actions[1..]);
    }
  }

  /** One action keeps the modifiers and the time fields well formed. */
  lemma ApplyKeepsWellFormed(d: MarkAttendance.Details, a: Action)
    requires WellFormed(d)
    ensures WellFormed(Apply(d, a))
  {
    match a
    case TypeTime(t, v) =>
      if v == "" || AcceptsTime(v) {
        match t {
          case StartTime => assert Apply(d, a) == d.(startValue := v);
          case EndTime => assert Apply(d, a) == d.(endValue := v);
        }
      } else {
        assert Apply(d, a) == d;
      }
    case PickModifier(t, m) =>
      match t {
        case StartTime => assert Apply(d, a) == d.(startModifier := ModifierText(m));
        case EndTime => assert Apply(d, a) == d.(endModifier := ModifierText(m));
      }
    case TypeText(f, v) =>
      match f {
        case VenueText => assert Apply(d, a) == d.(venue := v);
        case HighlightsText => assert Apply(d, a) == d.(highlights := v);
        case AgendaText => assert Apply(d, a) == d.(agenda := v);
      }
  }

  lemma InitialWellFormed()
    ensures WellFormed(MarkAttendance.InitialDetails)
  {
    ClockAccepted("2:00");
    ClockAccepted("3:00");
  }

  /**
   * Whatever the user does, a start time that passes the submit's check converts for the
   * server to its 24-hour hour, its minutes and zero seconds.
   */
  lemma SubmittedStartConverts(actions: seq<Action>)
    requires MarkAttendance.IsClock(ApplyAll(MarkAttendance.InitialDetails, actions).startValue)
    ensures var d := ApplyAll(MarkAttendance.InitialDetails, actions);
            MarkAttendance.To24Hour(d.startValue + " " + d.startModifier) != ""
  {
    InitialWellFormed();
    ActionsKeepWellFormed(MarkAttendance.InitialDetails, actions);
    var d := ApplyAll(MarkAttendance.InitialDetails, actions);
    MarkAttendance.ClockConverts(d.startValue, d.startModifier);
  }
}
