/**
 * The attendance-marking page: every student starts unmarked, a mark changes one student,
 * the 12-hour meeting times are converted for the server, the submit checks, and the
 * counts shown beside the form.
 */
module MarkAttendance {
  import opened Common
  import opened Text
  import opened Seqs
  import EventsListPage

  // ---------------------------------------------------------------- times

  /** `^(\d{1,2}):(\d{2})\s*([AP]M)$` with case ignored: hours, minutes and modifier. */
  function MatchTime(s: string): (r: Option<(string, string, string)>)
    ensures r.Some? ==> 1 <= |r.value.0| <= 2 && AllDigits(r.value.0) && |r.value.1| == 2 && AllDigits(r.value.1)
    ensures r.Some? ==> Upper(r.value.2) == "AM" || Upper(r.value.2) == "PM"
  {
    var i := if |s| >= 2 && s[1] == ':' then 1 else 2;
    if |s| < i + 5 || !AllDigits(s[..i]) || s[i] != ':' || !AllDigits(s[i + 1..i + 3]) then None
    else
      var rest := s[i + 3..];
      var mod := rest[|rest| - 2..];
      if (forall k :: 0 <= k < |rest| - 2 ==> IsSpace(rest[k])) && (Upper(mod) == "AM" || Upper(mod) == "PM")
      then Some((s[..i], s[i + 1..i + 3], mod))
      else None
  }

  /** The hour after the modifier: PM below 12 adds twelve and 12 AM is zero. */
  function ModifiedHour(h: nat, pm: bool): nat
  {
    if pm && h < 12 then h + 12 else if !pm && h == 12 then 0 else h
  }

  /** `to24Hour`: `HH:MM:00`, or `""` for an empty or unmatched time. */
  function To24Hour(s: string): string
  {
    if s == "" then ""
    else
      match MatchTime(s)
      case None => ""
      case Some((hs, mm, mod)) =>
        PadStart(NatToString(ModifiedHour(DigitsValue(hs), Upper(mod) == "PM")), 2, '0') + ":" + mm + ":00"
  }

  /** `^\d{1,2}:\d{2}$`, the check the submit makes on each time value. */
  predicate IsClock(v: string)
  {
    (|v| == 4 && IsDigit(v[0]) && v[1] == ':' && IsDigit(v[2]) && IsDigit(v[3]))
    || (|v| == 5 && IsDigit(v[0]) && IsDigit(v[1]) && v[2] == ':' && IsDigit(v[3]) && IsDigit(v[4]))
  }

  /** The hours of a clock value. */
  function ClockHours(v: string): (h: nat)
    requires IsClock(v)
    ensures h < 100
  {
    if |v| == 4 then DigitValue(v[0]) else DigitValue(v[0]) * 10 + DigitValue(v[1])
  }

  /**
   * A clock value that passes the submit check, joined with `AM` or `PM`, always converts:
   * to its modified hour in two digits, its minutes, and zero seconds.
   */
  lemma ClockConverts(v: string, mod: string)
    requires IsClock(v) && (mod == "AM" || mod == "PM")
    ensures To24Hour(v + " " + mod) ==
            EventsListPage.TwoDigits(ModifiedHour(ClockHours(v), mod == "PM")) + ":" + v[|v| - 2..] + ":00"
  {
    MatchClock(v, mod);
    ClockDigits(v);
    assert Upper(mod) == mod;
    To24HourMatched(v + " " + mod, v[..|v| - 3], v[|v| - 2..], mod);
  }

  /** A matched time converts to its modified hour in two digits, its minutes, and zero seconds. */
  lemma To24HourMatched(s: string, hs: string, mm: string, mod: string)
    requires s != "" && MatchTime(s) == Some((hs, mm, mod))
    ensures To24Hour(s) == EventsListPage.TwoDigits(ModifiedHour(DigitsValue(hs), Upper(mod) == "PM")) + ":" + mm + ":00"
  {
  }

  /** The pattern splits a clock value and its modifier at the colon and the space. */
  lemma MatchClock(v: string, mod: string)
    requires IsClock(v) && (mod == "AM" || mod == "PM")
    ensures MatchTime(v + " " + mod) == Some((v[..|v| - 3], v[|v| - 2..], mod))
  {
    var s := v + " " + mod;
    var i := |v| - 3;
    assert s[..|v|] == v;
    assert s[..i] == v[..i] by { assert s[..i] == s[..|v|][..i]; }
    assert s[i + 1..i + 3] == v[i + 1..] by { assert s[i + 1..i + 3] == s[..|v|][i + 1..]; }
    assert s[i + 3..] == " " + mod;
    assert Upper(mod) == mod;
    assert forall k :: 0 <= k < |" " + mod| - 2 ==> IsSpace((" " + mod)[k]);
    assert (" " + mod)[1..] == mod;
    assert s[i] == ':' && (s[1] == ':' <==> i == 1);
    assert AllDigits(s[..i]) && AllDigits(s[i + 1..i + 3]);
  }

  /** The digits before the colon read as the clock's hours. */
  lemma ClockDigits(v: string)
    requires IsClock(v)
    ensures DigitsValue(v[..|v| - 3]) == ClockHours(v)
  {
    assert v[..1][..0] == [];
    assert DigitsValue(v[..1]) == DigitValue(v[0]);
    if |v| == 5 {
      assert v[..2][..1] == v[..1];
      assert DigitsValue(v[..2]) == DigitsValue(v[..1]) * 10 + DigitValue(v[1]);
    }
  }

  /** For hours 1 to 12 the modified hour is the 24-hour hour. */
  lemma ModifiedHourIsHour24(h: nat, pm: bool)
    requires 1 <= h <= 12
    ensures ModifiedHour(h, pm) == EventsListPage.Hour24(h, pm)
  {
  }

  /**
   * The attendance page and the events list read a 12-hour time `h:mm AM` or `h:mm PM` alike:
   * this page's value is the events list's `HH:MM` followed by `:00`.
   */
  lemma AgreesWithEventsList(h: nat, mm: string, pm: bool)
    requires 1 <= h <= 12 && |mm| == 2 && AllDigits(mm)
    ensures var t := NatToString(h) + ":" + mm + " " + (if pm then "PM" else "AM");
            To24Hour(t) == EventsListPage.ConvertTo24Hour(t) + ":00"
  {
    var v := NatToString(h) + ":" + mm;
    var mod := if pm then "PM" else "AM";
    assert NatToString(h) + ":" + mm + " " + mod == v + " " + mod;
    TwelveHourClock(h, mm);
    EventsListPage.ConvertTo24HourTwelve(h, mm, pm);
    AgreesOnClock(v, mod, h, mm, pm);
  }

  lemma AgreesOnClock(v: string, mod: string, h: nat, mm: string, pm: bool)
    requires 1 <= h <= 12 && mod == (if pm then "PM" else "AM")
    requires IsClock(v) && ClockHours(v) == h && v[|v| - 2..] == mm
    requires EventsListPage.ConvertTo24Hour(v + " " + mod) == EventsListPage.TwoDigits(EventsListPage.Hour24(h, pm)) + ":" + mm
    ensures To24Hour(v + " " + mod) == EventsListPage.ConvertTo24Hour(v + " " + mod) + ":00"
  {
    ClockConverts(v, mod);
    ModifiedHourIsHour24(h, pm);
  }

  /** An hour from 1 to 12 and two minute digits make a clock value with that hour. */
  lemma TwelveHourClock(h: nat, mm: string)
    requires 1 <= h <= 12 && |mm| == 2 && AllDigits(mm)
    ensures var v := NatToString(h) + ":" + mm;
            IsClock(v) && ClockHours(v) == h && v[|v| - 2..] == mm
  {
    var v := NatToString(h) + ":" + mm;
    if h >= 10 {
      assert NatToString(h / 10) == [DigitChar(h / 10)];
    }
    assert IsClock(v);
    assert ClockHours(v) == h by {
      var hs := NatToString(h);
      if h >= 10 {
        assert hs == [DigitChar(h / 10)] + [DigitChar(h % 10)];
      } else {
        assert hs == [DigitChar(h)];
      }
    }
    assert v[|v| - 2..] == mm;
  }

  /** An empty or malformed time gives `""`. */
  lemma To24HourEmpty(s: string)
    ensures s == "" || MatchTime(s).None? ==> To24Hour(s) == ""
  {
  }

  // ---------------------------------------------------------------- attendance

  /** The marks: user id to its status, `None` while unmarked. */
  type Marks = map<nat, Option<string>>

  /** The marks once the students arrive: one unmarked entry per student id. */
  function Initial(studentIds: seq<nat>): (m: Marks)
    ensures m.Keys == set i | i in studentIds
    ensures forall k :: k in m ==> m[k] == None
  {
    map k | k in studentIds :: None
  }

  /** `handleAttendanceChange`: only that user's entry changes. */
  function Mark(m: Marks, userId: nat, status: string): (r: Marks)
    ensures r.Keys == m.Keys + {userId}
    ensures r[userId] == Some(status)
    ensures forall k :: k in m && k != userId ==> r[k] == m[k]
  {
    m[userId := Some(status)]
  }

  /** The meeting details of the form. */
  datatype Details = Details(startValue: string, startModifier: string, endValue: string, endModifier: string,
                             venue: string, highlights: string, agenda: string)

  const InitialDetails := Details("2:00", "PM", "3:00", "PM", "", "", "")

  /** What the submit sends. */
  datatype Submission = Submission(date: string, startTime: string, endTime: string, venue: string,
                                   agenda: string, highlights: string, attendance: map<nat, string>)

  const MsgUnmarked := "Please mark attendance for all students."
  const MsgDetails := "Please fill in all meeting details."
  const MsgTimeFormat := "Start Time and End Time must be in HH:MM format (e.g., 2:00)."

  predicate AllMarked(m: Marks)
  {
    forall k :: k in m ==> m[k].Some?
  }

  /** `handleSubmit` up to the request: the first failed check's alert, or the submission. */
  function Submit(d: Details, m: Marks, date: string): Result<Submission, string>
  {
    if !AllMarked(m) then Err(MsgUnmarked)
    else if d.venue == "" || d.highlights == "" || d.agenda == "" then Err(MsgDetails)
    else if !IsClock(d.startValue) || !IsClock(d.endValue) then Err(MsgTimeFormat)
    else Ok(Submission(date, To24Hour(d.startValue + " " + d.startModifier), To24Hour(d.endValue + " " + d.endModifier),
                       d.venue, d.agenda, d.highlights, map k | k in m :: m[k].value))
  }

  /**
   * The submit goes ahead iff every student is marked, the three texts are filled and both
   * times pass the check; it then carries one entry per student with its mark, and the
   * details unchanged.
   */
  lemma SubmitExact(d: Details, m: Marks, date: string)
    ensures Submit(d, m, date).Ok? <==>
              AllMarked(m) && d.venue != "" && d.highlights != "" && d.agenda != "" && IsClock(d.startValue) && IsClock(d.endValue)
    ensures Submit(d, m, date).Ok? ==>
              var sub := Submit(d, m, date).value;
              && sub.attendance.Keys == m.Keys
              && (forall k :: k in m ==> m[k] == Some(sub.attendance[k]))
              && sub.venue == d.venue && sub.agenda == d.agenda && sub.highlights == d.highlights && sub.date == date
    ensures !AllMarked(m) ==> Submit(d, m, date) == Err(MsgUnmarked)
  {
  }

  /** A freshly loaded class with at least one student cannot be submitted before marking. */
  lemma InitialBlocksSubmit(studentIds: seq<nat>, d: Details, date: string)
    requires studentIds != []
    ensures Submit(d, Initial(studentIds), date) == Err(MsgUnmarked)
  {
    assert studentIds[0] in Initial(studentIds);
  }

  // ---------------------------------------------------------------- counts

  function CountOf(m: Marks, status: string): nat
  {
    |set k | k in m && m[k] == Some(status)|
  }

  /** The counts beside the form. */
  datatype Counts = Counts(total: nat, present: nat, absent: nat, leave: nat)

  function CountsOf(m: Marks): (c: Counts)
    ensures c.total == |m.Keys|
  {
    Counts(|m.Keys|, CountOf(m, "PRESENT"), CountOf(m, "ABSENT"), CountOf(m, "LEAVE"))
  }

  /** The three counts never exceed the total, and fill it once everyone is marked with one of them. */
  lemma CountsBound(m: Marks)
    ensures CountsOf(m).present + CountsOf(m).absent + CountsOf(m).leave <= CountsOf(m).total
    ensures (forall k :: k in m ==> m[k] in {Some("PRESENT"), Some("ABSENT"), Some("LEAVE")}) ==>
              CountsOf(m).present + CountsOf(m).absent + CountsOf(m).leave == CountsOf(m).total
  {
    var p := set k | k in m && m[k] == Some("PRESENT");
    var a := set k | k in m && m[k] == Some("ABSENT");
    var l := set k | k in m && m[k] == Some("LEAVE");
    assert p * a == {} && (p + a) * l == {};
    assert |p + a + l| == |p| + |a| + |l|;
    SubsetCard(p + a + l, m.Keys);
    if forall k :: k in m ==> m[k] in {Some("PRESENT"), Some("ABSENT"), Some("LEAVE")} {
      assert m.Keys == p + a + l;
    }
  }
}
