/**
 * Meetings and their attendance: the create endpoint that saves the meeting before the
 * attendance is validated, the club-scoped attendance list, and the data behind the minutes
 * document (the records shown, the table rows, the status summary, the heading and the
 * download file name).
 */
module Meetings {
  import opened Common
  import opened Text
  import opened Seqs
  import opened Formats
  import opened Accounts
  import J = Json

  // ---------------------------------------------------------------- entities

  const Present := "PRESENT"
  const Absent := "ABSENT"
  const Leave := "LEAVE"

  /** `AttendanceStatus`: the three choices of an attendance record. */
  predicate IsAttendanceStatus(s: string)
  {
    s == Present || s == Absent || s == Leave
  }

  /** A stored meeting; the date is kept as its ISO text, times as minutes after midnight. */
  datatype Meeting = Meeting(date: string, start: nat, end: nat, venue: string,
                             agenda: Option<string>, highlights: Option<string>)

  /** A stored attendance record: meeting id, user id and status. */
  datatype AttendanceRow = AttendanceRow(meeting: nat, user: nat, status: string)

  /** The meeting and attendance tables with their identity counters. */
  class MeetingDb {
    var meetings: map<nat, Meeting>
    var records: map<nat, AttendanceRow>
    var nextMeeting: nat
    var nextRecord: nat

    /** Ids stay below their counters, every record names a stored meeting and a valid status. */
    ghost predicate Valid()
      reads this
    {
      (forall m :: m in meetings ==> m < nextMeeting)
      && (forall r :: r in records ==> r < nextRecord && records[r].meeting in meetings
                                       && IsAttendanceStatus(records[r].status))
    }

    constructor ()
      ensures Valid() && meetings == map[] && records == map[]
    {
      meetings := map[];
      records := map[];
      nextMeeting := 0;
      nextRecord := 0;
    }

    /** `meeting_serializer.save()`: the meeting gets the next id. */
    method InsertMeeting(m: Meeting) returns (id: nat)
      requires Valid()
      modifies this
      ensures Valid()
      ensures id == old(nextMeeting) && id !in old(meetings)
      ensures meetings == old(meetings)[id := m] && records == old(records)
      ensures nextRecord == old(nextRecord)
    {
      id := nextMeeting;
      meetings := meetings[id := m];
      nextMeeting := nextMeeting + 1;
    }

    /** `attendance_serializer.save()`: one record per validated entry, in order. */
    method InsertRecords(rows: seq<AttendanceRow>)
      requires Valid()
      requires forall i :: 0 <= i < |rows| ==> rows[i].meeting in meetings && IsAttendanceStatus(rows[i].status)
      modifies this
      ensures Valid()
      ensures meetings == old(meetings)
      ensures records == Appended(old(records), old(nextRecord), rows)
    {
      var i := 0;
      while i < |rows|
        invariant 0 <= i <= |rows|
        invariant Valid() && meetings == old(meetings)
        invariant nextRecord == old(nextRecord) + i
        invariant records == Appended(old(records), old(nextRecord), rows[..i])
      {
        assert rows[..i + 1][..i] == rows[..i];
        records := records[nextRecord := rows[i]];
        nextRecord := nextRecord + 1;
        i := i + 1;
      }
      assert rows[..|rows|] == rows;
    }
  }

  // ---------------------------------------------------------------- creating a meeting

  /** The meeting part of a create request; a missing key is `None`. */
  datatype MeetingInput = MeetingInput(date: Option<string>, start: Option<nat>, end: Option<nat>,
                                       venue: Option<string>, agenda: Option<string>,
                                       highlights: Option<string>)

  /** The venue field: required, trimmed, not blank and at most 50 characters. */
  predicate VenueValid(venue: Option<string>)
  {
    venue.Some? && Trim(venue.value) != "" && |Trim(venue.value)| <= 50
  }

  /**
   * The fields `MeetingSerializer` rejects: both times are declared explicitly and so are
   * required, the venue is a required bounded text; the date has a default and the two texts
   * may be left out.
   */
  function MeetingErrors(m: MeetingInput): (errs: set<string>)
    ensures errs <= {"start_time", "end_time", "venue"}
    ensures "venue" in errs <==> !VenueValid(m.venue)
    ensures errs == {} <==> m.start.Some? && m.end.Some? && VenueValid(m.venue)
  {
    (if m.start.None? then {"start_time"} else {})
    + (if m.end.None? then {"end_time"} else {})
    + (if VenueValid(m.venue) then {} else {"venue"})
  }

  /** A nullable text field: a null stays null, a text is stored trimmed. */
  function TrimmedOption(t: Option<string>): (r: Option<string>)
    ensures r.None? <==> t.None?
    ensures t.Some? ==> r.value == Trim(t.value)
  {
    match t
    case None => None
    case Some(s) => Some(Trim(s))
  }

  /**
   * The meeting the serializer saves: the date defaults to `today`; the venue, the agenda and
   * the highlights are text fields and so are stored trimmed.
   */
  function BuildMeeting(m: MeetingInput, today: string): (r: Meeting)
    requires MeetingErrors(m) == {}
    ensures |r.venue| <= 50 && r.venue != "" && r.venue == Trim(m.venue.value)
    ensures r.date == GetOr(m.date, today)
    ensures r.start == m.start.value && r.end == m.end.value
    ensures r.agenda == TrimmedOption(m.agenda) && r.highlights == TrimmedOption(m.highlights)
  {
    Meeting(GetOr(m.date, today), m.start.value, m.end.value, Trim(m.venue.value),
            TrimmedOption(m.agenda), TrimmedOption(m.highlights))
  }

  /** One attendance entry of the request: a parsed JSON object. */
  type Entry = map<string, J.Json>

  /**
   * The key a primary-key field looks up: a number as it is, a text as `int()` reads it;
   * a boolean, a null or a structure names no row.
   */
  function PkOf(j: J.Json): (r: Option<int>)
    ensures j.JNum? ==> r == Some(j.n)
    ensures j.JStr? ==> r == PyInt(j.s)
    ensures !j.JNum? && !j.JStr? ==> r.None?
  {
    match j
    case JNum(n) => Some(n)
    case JStr(s) => PyInt(s)
    case _ => None
  }

  /** The value under `key` names a stored row. */
  predicate HasId(e: Entry, key: string, ids: set<nat>)
  {
    key in e && PkOf(e[key]).Some? && PkOf(e[key]).value >= 0 && PkOf(e[key]).value as nat in ids
  }

  /** The id a valid reference names. */
  function IdOf(e: Entry, key: string, ids: set<nat>): (id: nat)
    requires HasId(e, key, ids)
    ensures id in ids && Some(id as int) == PkOf(e[key])
  {
    PkOf(e[key]).value as nat
  }

  /** A stored id sent as its decimal text names the same row as the number. */
  lemma TextIdAccepted(e: Entry, key: string, ids: set<nat>, id: nat)
    requires id in ids && key in e && e[key] == J.JStr(NatToString(id))
    ensures HasId(e, key, ids) && IdOf(e, key, ids) == id
  {
    PyIntRoundTrip(id);
  }

  /**
   * What `MeetingAttendanceSerializer` (all model fields) accepts: a `meeting` naming a stored
   * meeting, a `user` naming a stored user, and a `status` among the three choices.
   */
  predicate EntryValid(e: Entry, meetings: set<nat>, users: set<nat>)
  {
    HasId(e, "meeting", meetings) && HasId(e, "user", users)
    && "status" in e && e["status"].JStr? && IsAttendanceStatus(e["status"].s)
  }

  predicate AllValid(entries: seq<Entry>, meetings: set<nat>, users: set<nat>)
  {
    forall i :: 0 <= i < |entries| ==> EntryValid(entries[i], meetings, users)
  }

  /** The record an accepted entry becomes. */
  function RowOf(e: Entry, meetings: set<nat>, users: set<nat>): (r: AttendanceRow)
    requires EntryValid(e, meetings, users)
    ensures r.meeting in meetings && r.user in users && IsAttendanceStatus(r.status)
  {
    AttendanceRow(IdOf(e, "meeting", meetings), IdOf(e, "user", users), e["status"].s)
  }

  function RowsOf(entries: seq<Entry>, meetings: set<nat>, users: set<nat>): (rows: seq<AttendanceRow>)
    requires AllValid(entries, meetings, users)
    ensures |rows| == |entries|
    ensures forall i :: 0 <= i < |rows| ==> rows[i] == RowOf(entries[i], meetings, users)
  {
    seq(|entries|, i requires 0 <= i < |entries| => RowOf(entries[i], meetings, users))
  }

  /** Every entry with `key` set to the new meeting's id. */
  function TagAll(entries: seq<Entry>, key: string, id: nat): (r: seq<Entry>)
    ensures |r| == |entries|
    ensures forall i :: 0 <= i < |r| ==> r[i] == entries[i][key := J.JNum(id)]
  {
    seq(|entries|, i requires 0 <= i < |entries| => entries[i][key := J.JNum(id)])
  }

  /** The loop that writes the meeting id into every entry under `key`. */
  method TagEntries(entries: seq<Entry>, key: string, id: nat) returns (tagged: seq<Entry>)
    ensures tagged == TagAll(entries, key, id)
  {
    tagged := [];
    var i := 0;
    while i < |entries|
      invariant 0 <= i <= |entries|
      invariant |tagged| == i
      invariant forall j :: 0 <= j < i ==> tagged[j] == entries[j][key := J.JNum(id)]
    {
      tagged := tagged + [entries[i][key := J.JNum(id)]];
      i := i + 1;
    }
  }

  /** A create response: 201, or 400 whose message holds these error keys. */
  datatype CreateOutcome = Created | Rejected(errorKeys: set<string>)

  /**
   * `MeetingCreateView.post` with the id written under `key`. Without `attendance` nothing is
   * stored; an invalid meeting stores nothing; a valid meeting is stored first, and the
   * attendance is then stored only when every tagged entry is valid. Otherwise the 400
   * carries the meeting's errors, which are empty, and the meeting stays stored.
   */
  method CreateWith(db: MeetingDb, users: set<nat>, attendance: Option<seq<Entry>>, m: MeetingInput,
                    today: string, key: string) returns (r: CreateOutcome)
    requires db.Valid()
    modifies db
    ensures db.Valid()
    ensures attendance.None? ==>
              r == Rejected({"attendance"}) && db.meetings == old(db.meetings) && db.records == old(db.records)
    ensures attendance.Some? && MeetingErrors(m) != {} ==>
              r == Rejected(MeetingErrors(m)) && db.meetings == old(db.meetings) && db.records == old(db.records)
    ensures attendance.Some? && MeetingErrors(m) == {} ==>
              var id := old(db.nextMeeting);
              var tagged := TagAll(attendance.value, key, id);
              && id !in old(db.meetings)
              && db.meetings == old(db.meetings)[id := BuildMeeting(m, today)]
              && (r == Created <==> AllValid(tagged, db.meetings.Keys, users))
              && (r == Created ==>
                    db.records == Appended(old(db.records), old(db.nextRecord), RowsOf(tagged, db.meetings.Keys, users)))
              && (r != Created ==> r == Rejected({}) && db.records == old(db.records))
  {
    if attendance.None? {
      return Rejected({"attendance"});
    }
    var errs := MeetingErrors(m);
    if errs != {} {
      return Rejected(errs);
    }
    var id := db.InsertMeeting(BuildMeeting(m, today));
    var tagged := TagEntries(attendance.value, key, id);
    if AllValid(tagged, db.meetings.Keys, users) {
      db.InsertRecords(RowsOf(tagged, db.meetings.Keys, users));
      r := Created;
    } else {
      r := Rejected({});
    }
  }

  /** The key the view writes the meeting id under. */
  const TagAsWritten := "meeting.py"
  /** The key the attendance serializer reads the meeting from. */
  const TagIntended := "meeting"

  /** `MeetingCreateView.post` as written: the id goes under `'meeting.py'`. */
  method CreateMeetingAsWritten(db: MeetingDb, users: set<nat>, attendance: Option<seq<Entry>>,
                                m: MeetingInput, today: string) returns (r: CreateOutcome)
    requires db.Valid()
    modifies db
    ensures db.Valid()
    ensures attendance.Some? && MeetingErrors(m) == {} && attendance.value != []
            && (forall i :: 0 <= i < |attendance.value| ==> "meeting" !in attendance.value[i]) ==>
              r == Rejected({}) && db.records == old(db.records)
              && db.meetings == old(db.meetings)[old(db.nextMeeting) := BuildMeeting(m, today)]
  {
    r := CreateWith(db, users, attendance, m, today, TagAsWritten);
    if attendance.Some? && MeetingErrors(m) == {} && attendance.value != []
       && (forall i :: 0 <= i < |attendance.value| ==> "meeting" !in attendance.value[i]) {
      AsWrittenTagRejects(attendance.value, old(db.nextMeeting), db.meetings.Keys, users);
    }
  }

  /** `MeetingCreateView.post` with the id under `'meeting'`, the field the serializer reads. */
  method CreateMeeting(db: MeetingDb, users: set<nat>, attendance: Option<seq<Entry>>,
                       m: MeetingInput, today: string) returns (r: CreateOutcome)
    requires db.Valid()
    modifies db
    ensures db.Valid()
    ensures attendance.Some? && MeetingErrors(m) == {} && EntriesWellFormed(attendance.value, users) ==>
              && r == Created
              && db.meetings == old(db.meetings)[old(db.nextMeeting) := BuildMeeting(m, today)]
              && NewRecordsFor(old(db.records), old(db.nextRecord), attendance.value, old(db.nextMeeting), db.records)
  {
    ghost var id, records, next := db.nextMeeting, db.records, db.nextRecord;
    r := CreateWith(db, users, attendance, m, today, TagIntended);
    if attendance.Some? && MeetingErrors(m) == {} && EntriesWellFormed(attendance.value, users) {
      IntendedTagAccepts(attendance.value, id, db.meetings.Keys, users);
      NewRecords(records, next, attendance.value, id, db.meetings.Keys, users);
    }
  }

  /**
   * `after` is `before` plus one record per entry, numbered from `next` on, each for meeting `id`
   * with the entry's user and status.
   */
  ghost predicate NewRecordsFor(before: map<nat, AttendanceRow>, next: nat, entries: seq<Entry>, id: nat,
                                after: map<nat, AttendanceRow>)
  {
    && (forall k :: k in after <==> k in before || next <= k < next + |entries|)
    && (forall k :: k in before ==> after[k] == before[k])
    && (forall k :: next <= k < next + |entries| ==>
          && after[k].meeting == id
          && "user" in entries[k - next] && PkOf(entries[k - next]["user"]) == Some(after[k].user as int)
          && "status" in entries[k - next] && entries[k - next]["status"] == J.JStr(after[k].status))
  }

  /** The records added for well-formed entries: one per entry, after the old ones, all for meeting `id`. */
  lemma NewRecords(records: map<nat, AttendanceRow>, next: nat, entries: seq<Entry>, id: nat,
                   meetings: set<nat>, users: set<nat>)
    requires forall k :: k in records ==> k < next
    requires id in meetings && EntriesWellFormed(entries, users)
    requires AllValid(TagAll(entries, TagIntended, id), meetings, users)
    ensures NewRecordsFor(records, next, entries, id,
                          Appended(records, next, RowsOf(TagAll(entries, TagIntended, id), meetings, users)))
  {
    var tagged := TagAll(entries, TagIntended, id);
    var rows := RowsOf(tagged, meetings, users);
    var added := Appended(records, next, rows);
    AppendedContents(records, next, rows);
    forall k | next <= k < next + |entries|
      ensures added[k].meeting == id
      ensures "user" in entries[k - next] && PkOf(entries[k - next]["user"]) == Some(added[k].user as int)
      ensures "status" in entries[k - next] && entries[k - next]["status"] == J.JStr(added[k].status)
    {
      var i := k - next;
      assert added[next + i] == rows[i];
      TaggedRow(entries[i], tagged[i], id, meetings, users);
    }
  }

  /** The record of one entry tagged with the meeting id carries that id and the entry's user and status. */
  lemma TaggedRow(e: Entry, t: Entry, id: nat, meetings: set<nat>, users: set<nat>)
    requires t == e[TagIntended := J.JNum(id)] && EntryValid(t, meetings, users)
    requires "status" in e && e["status"].JStr?
    ensures RowOf(t, meetings, users).meeting == id
    ensures "user" in e && PkOf(e["user"]) == Some(RowOf(t, meetings, users).user as int)
    ensures e["status"] == J.JStr(RowOf(t, meetings, users).status)
  {
    assert t["user"] == e["user"] && t["status"] == e["status"] && t["meeting"] == J.JNum(id);
  }

  /** Entries as the attendance page sends them: a known user and a valid status each. */
  predicate EntriesWellFormed(entries: seq<Entry>, users: set<nat>)
  {
    forall i :: 0 <= i < |entries| ==>
      HasId(entries[i], "user", users) && "status" in entries[i] && entries[i]["status"].JStr?
      && IsAttendanceStatus(entries[i]["status"].s)
  }

  /**
   * Under `'meeting.py'` the id is never read: entries without their own `meeting` all fail,
   * so any non-empty attendance of that kind is refused.
   */
  lemma AsWrittenTagRejects(entries: seq<Entry>, id: nat, meetings: set<nat>, users: set<nat>)
    requires entries != [] && forall i :: 0 <= i < |entries| ==> "meeting" !in entries[i]
    ensures !AllValid(TagAll(entries, TagAsWritten, id), meetings, users)
  {
    var tagged := TagAll(entries, TagAsWritten, id);
    assert "meeting" !in tagged[0] by {
      assert tagged[0] == entries[0][TagAsWritten := J.JNum(id)];
      assert TagAsWritten != "meeting";
    }
  }

  /** Under `'meeting'` every well-formed entry is accepted and recorded for the new meeting. */
  lemma IntendedTagAccepts(entries: seq<Entry>, id: nat, meetings: set<nat>, users: set<nat>)
    requires id in meetings && EntriesWellFormed(entries, users)
    ensures AllValid(TagAll(entries, TagIntended, id), meetings, users)
    ensures forall i :: 0 <= i < |entries| ==>
              RowsOf(TagAll(entries, TagIntended, id), meetings, users)[i].meeting == id
  {
    var tagged := TagAll(entries, TagIntended, id);
    forall i | 0 <= i < |entries|
      ensures EntryValid(tagged[i], meetings, users)
    {
      assert tagged[i]["meeting"] == J.JNum(id);
      assert tagged[i]["user"] == entries[i]["user"];
      assert tagged[i]["status"] == entries[i]["status"];
    }
  }

  // ---------------------------------------------------------------- the attendance list

  /** The user has a student row in `club` (the `user__student__club` join). */
  predicate InClub(students: map<nat, StudentRow>, uid: nat, club: string)
  {
    exists s :: s in students && students[s].user == uid && students[s].club == club
  }

  /** A list of record ids, or the server error of a lead without a student row. */
  datatype RecordListing = Records(ids: set<nat>) | RecordsFault

  /** `MeetingAttendanceListView.get_queryset`. */
  function AttendanceList(users: map<nat, User>, students: map<nat, StudentRow>,
                          records: map<nat, AttendanceRow>, caller: nat): (r: RecordListing)
    requires caller in users && OneStudentPerUser(students)
    ensures r.RecordsFault? <==> users[caller].role == RoleLead && StudentIn(students, caller).None?
    ensures r.Records? ==> r.ids <= records.Keys
  {
    if users[caller].role == RoleLead then
      match StudentIn(students, caller)
      case None => RecordsFault
      case Some(own) => Records(set k | k in records && InClub(students, records[k].user, students[own].club))
    else Records(records.Keys)
  }

  /** A lead sees exactly the records of users in their own club; anyone else sees every record. */
  lemma AttendanceListScope(users: map<nat, User>, students: map<nat, StudentRow>,
                            records: map<nat, AttendanceRow>, caller: nat, own: nat, k: nat)
    requires caller in users && OneStudentPerUser(students)
    requires own in students && students[own].user == caller
    ensures users[caller].role == RoleLead ==>
              AttendanceList(users, students, records, caller).Records?
              && (k in AttendanceList(users, students, records, caller).ids
                  <==> k in records && InClub(students, records[k].user, students[own].club))
    ensures users[caller].role != RoleLead ==> AttendanceList(users, students, records, caller) == Records(records.Keys)
  {
    assert StudentIn(students, caller) == Some(own);
  }

  // ---------------------------------------------------------------- the minutes document

  const MsgMeetingNotFound := "Meeting not found"

  /** `MeetingPDFView.get_meeting`. */
  function GetMeeting(meetings: map<nat, Meeting>, pk: nat): (r: Result<Meeting, string>)
    ensures r.Ok? <==> pk in meetings
    ensures r.Ok? ==> r.value == meetings[pk]
    ensures r.Err? ==> r.error == MsgMeetingNotFound
  {
    if pk in meetings then Ok(meetings[pk]) else Err(MsgMeetingNotFound)
  }

  /**
   * `MeetingPDFView.get_attendance`: the records of this meeting, in table order; a lead with a
   * student row keeps those of their club, an admin keeps all, and anyone else gets none.
   */
  function MinutesRecords(users: map<nat, User>, students: map<nat, StudentRow>, caller: nat,
                          meeting: nat, table: seq<AttendanceRow>): (r: seq<AttendanceRow>)
    requires caller in users && OneStudentPerUser(students)
    ensures forall i :: 0 <= i < |r| ==> r[i].meeting == meeting
  {
    var qs := Filter(table, (x: AttendanceRow) => x.meeting == meeting);
    if users[caller].role == RoleLead && StudentIn(students, caller).Some? then
      var club := students[StudentIn(students, caller).value].club;
      FilterKeeps(qs, (x: AttendanceRow) => InClub(students, x.user, club), (x: AttendanceRow) => x.meeting == meeting);
      Filter(qs, (x: AttendanceRow) => InClub(students, x.user, club))
    else if users[caller].role == RoleAdmin then qs
    else []
  }

  /** Filtering a list whose elements all satisfy `q` leaves a list whose elements satisfy `q`. */
  lemma FilterKeeps<T>(s: seq<T>, p: T -> bool, q: T -> bool)
    requires forall i :: 0 <= i < |s| ==> q(s[i])
    ensures forall i :: 0 <= i < |Filter(s, p)| ==> q(Filter(s, p)[i])
  {
    forall i | 0 <= i < |Filter(s, p)|
      ensures q(Filter(s, p)[i])
    {
      FilterMembership(s, p, Filter(s, p)[i]);
    }
  }

  /** Which records the minutes show, for each kind of caller. */
  lemma MinutesRecordsScope(users: map<nat, User>, students: map<nat, StudentRow>, caller: nat,
                            meeting: nat, table: seq<AttendanceRow>, x: AttendanceRow)
    requires caller in users && OneStudentPerUser(students)
    ensures users[caller].role == RoleLead && StudentIn(students, caller).Some? ==>
              (x in MinutesRecords(users, students, caller, meeting, table)
               <==> x in table && x.meeting == meeting
                    && InClub(students, x.user, students[StudentIn(students, caller).value].club))
    ensures users[caller].role == RoleAdmin ==>
              (x in MinutesRecords(users, students, caller, meeting, table) <==> x in table && x.meeting == meeting)
    ensures users[caller].role != RoleAdmin && (users[caller].role != RoleLead || StudentIn(students, caller).None?) ==>
              MinutesRecords(users, students, caller, meeting, table) == []
  {
    var isMeeting := (y: AttendanceRow) => y.meeting == meeting;
    var qs := Filter(table, isMeeting);
    FilterMembership(table, isMeeting, x);
    if users[caller].role == RoleLead && StudentIn(students, caller).Some? {
      var club := students[StudentIn(students, caller).value].club;
      FilterMembership(qs, (y: AttendanceRow) => InClub(students, y.user, club), x);
    }
  }

  /** One row of the attendance table: name, roll number and status. */
  datatype PdfRow = PdfRow(name: string, rollNo: string, status: string)

  const Header := PdfRow("Name", "Roll No", "Status")
  const MsgNoRecords := "No attendance records found."

  /** `get_full_name()`: first and last name joined by a space, then stripped. */
  function FullName(u: User): string
  {
    Trim(u.firstName + " " + u.lastName)
  }

  /** The table row of a record; a user without a student row shows the roll number `N/A`. */
  function RowFor(users: map<nat, User>, students: map<nat, StudentRow>, rec: AttendanceRow): (r: PdfRow)
    requires rec.user in users && OneStudentPerUser(students)
  {
    match StudentIn(students, rec.user)
    case Some(s) => PdfRow(FullName(users[rec.user]), students[s].rollNo, rec.status)
    case None => PdfRow(FullName(users[rec.user]), "N/A", rec.status)
  }

  /** The records all name stored users (the foreign key). */
  predicate UsersKnown(users: map<nat, User>, records: seq<AttendanceRow>)
  {
    forall i :: 0 <= i < |records| ==> records[i].user in users
  }

  /**
   * `attendance_section`: the header followed by one row per record, in order; the table is
   * replaced by the no-records message exactly when only the header was built.
   */
  method AttendanceSection(users: map<nat, User>, students: map<nat, StudentRow>, records: seq<AttendanceRow>)
    returns (rows: seq<PdfRow>, noRecords: bool)
    requires UsersKnown(users, records) && OneStudentPerUser(students)
    ensures |rows| == |records| + 1 && rows[0] == Header
    ensures forall i :: 0 <= i < |records| ==> rows[i + 1] == RowFor(users, students, records[i])
    ensures forall i :: 0 <= i < |records| ==> rows[i + 1].status == records[i].status
    ensures noRecords <==> records == []
  {
    rows := [Header];
    var i := 0;
    while i < |records|
      invariant 0 <= i <= |records|
      invariant |rows| == i + 1 && rows[0] == Header
      invariant forall j :: 0 <= j < i ==> rows[j + 1] == RowFor(users, students, records[j])
    {
      rows := rows + [RowFor(users, students, records[i])];
      i := i + 1;
    }
    noRecords := |rows| == 1;
  }

  /** The roll number column: the student's own, or `N/A` for a user without a student row. */
  lemma RowForRollNo(users: map<nat, User>, students: map<nat, StudentRow>, rec: AttendanceRow, s: nat)
    requires rec.user in users && OneStudentPerUser(students)
    ensures (forall t :: t in students ==> students[t].user != rec.user) ==> RowFor(users, students, rec).rollNo == "N/A"
    ensures s in students && students[s].user == rec.user ==> RowFor(users, students, rec).rollNo == students[s].rollNo
    ensures RowFor(users, students, rec).status == rec.status
  {
  }

  /** The counts of `summary_section`. */
  datatype Summary = Summary(present: nat, absent: nat, leave: nat, total: nat)

  function SummaryOf(records: seq<AttendanceRow>): (s: Summary)
    ensures s.total == |records|
    ensures s.present + s.absent + s.leave <= s.total
    ensures (forall i :: 0 <= i < |records| ==> IsAttendanceStatus(records[i].status))
            ==> s.present + s.absent + s.leave == s.total
  {
    var p := (x: AttendanceRow) => x.status == Present;
    var a := (x: AttendanceRow) => x.status == Absent;
    var l := (x: AttendanceRow) => x.status == Leave;
    CountDisjoint3(records, p, a, l);
    Summary(Count(records, p), Count(records, a), Count(records, l), |records|)
  }

  predicate IsLetter(c: char)
  {
    IsUpperLetter(c) || IsLowerLetter(c)
  }

  /** Python's `str.title()` on ASCII: a letter after a non-letter is upper-cased, any other letter lower-cased. */
  function TitleCase(s: string): (r: string)
    ensures |r| == |s|
    ensures forall i :: 0 <= i < |s| && !IsLetter(s[i]) ==> r[i] == s[i]
    ensures forall i :: 0 <= i < |s| && IsLetter(s[i]) && (i == 0 || !IsLetter(s[i - 1])) ==> IsUpperLetter(r[i])
    ensures forall i :: 0 < i < |s| && IsLetter(s[i]) && IsLetter(s[i - 1]) ==> IsLowerLetter(r[i])
  {
    seq(|s|, i requires 0 <= i < |s| =>
      if !IsLetter(s[i]) then s[i]
      else if i == 0 || !IsLetter(s[i - 1]) then UpperChar(s[i])
      else LowerChar(s[i]))
  }

  const MinutesSuffix := " Meeting Minutes"

  /** `club_heading`: underscores become spaces and every word is capitalised. */
  function ClubHeading(club: string): (r: string)
  {
    TitleCase(ReplaceChar(club, '_', ' ')) + MinutesSuffix
  }

  /**
   * The heading keeps the slug's length; at each position of the slug an underscore has become
   * a space and a letter starting a word is a capital.
   */
  lemma ClubHeadingShape(club: string, i: nat)
    requires i < |club|
    ensures |ClubHeading(club)| == |club| + |MinutesSuffix|
    ensures ClubHeading(club)[i] != '_'
    ensures club[i] == '_' ==> ClubHeading(club)[i] == ' '
    ensures IsLetter(club[i]) && (i == 0 || club[i - 1] == '_') ==> IsUpperLetter(ClubHeading(club)[i])
  {
    var spaced := ReplaceChar(club, '_', ' ');
    assert ClubHeading(club)[i] == TitleCase(spaced)[i];
    assert i > 0 && club[i - 1] == '_' ==> spaced[i - 1] == ' ';
  }

  /** `build_response`: the download name carries the meeting date. */
  function MinutesFilename(date: string): (f: string)
    ensures StartsWith(f, "acm_meeting_minutes_") && |f| == |date| + 24
  {
    "acm_meeting_minutes_" + date + ".pdf"
  }

  /** Different dates give different file names. */
  lemma MinutesFilenameInjective(a: string, b: string)
    ensures MinutesFilename(a) == MinutesFilename(b) ==> a == b
  {
    if MinutesFilename(a) == MinutesFilename(b) {
      assert a == MinutesFilename(a)[20..|MinutesFilename(a)| - 4];
      assert b == MinutesFilename(b)[20..|MinutesFilename(b)| - 4];
    }
  }

  /** The data of the minutes document. */
  datatype Minutes = Minutes(heading: Option<string>, meeting: Meeting, rows: seq<PdfRow>,
                             summary: Summary, filename: string)

  datatype MinutesOutcome = MinutesReady(minutes: Minutes) | MeetingNotFound | MinutesFault

  /** The table rows `attendance_section` builds. */
  function SectionRows(users: map<nat, User>, students: map<nat, StudentRow>, records: seq<AttendanceRow>): seq<PdfRow>
    requires UsersKnown(users, records) && OneStudentPerUser(students)
  {
    [Header] + seq(|records|, i requires 0 <= i < |records| => RowFor(users, students, records[i]))
  }

  /**
   * `MeetingPDFView.get`: the meeting, the records the caller may see, the club heading for
   * anyone but an admin (which fails without a student row), the rows, the summary and the
   * file name.
   */
  function MeetingMinutes(users: map<nat, User>, students: map<nat, StudentRow>, caller: nat,
                          meetings: map<nat, Meeting>, pk: nat, table: seq<AttendanceRow>): MinutesOutcome
    requires caller in users && OneStudentPerUser(students) && UsersKnown(users, table)
  {
    match GetMeeting(meetings, pk)
    case Err(_) => MeetingNotFound
    case Ok(meeting) =>
      var recs := MinutesRecords(users, students, caller, pk, table);
      SubsequenceUsersKnown(users, students, caller, pk, table);
      if users[caller].role != RoleAdmin && StudentIn(students, caller).None? then MinutesFault
      else
        var heading := if users[caller].role == RoleAdmin then None
                       else Some(ClubHeading(students[StudentIn(students, caller).value].club));
        MinutesReady(Minutes(heading, meeting, SectionRows(users, students, recs), SummaryOf(recs),
                             MinutesFilename(meeting.date)))
  }

  /** The records shown are drawn from the table, so they name stored users too. */
  lemma SubsequenceUsersKnown(users: map<nat, User>, students: map<nat, StudentRow>, caller: nat,
                              meeting: nat, table: seq<AttendanceRow>)
    requires caller in users && OneStudentPerUser(students) && UsersKnown(users, table)
    ensures UsersKnown(users, MinutesRecords(users, students, caller, meeting, table))
  {
    var recs := MinutesRecords(users, students, caller, meeting, table);
    forall i | 0 <= i < |recs|
      ensures recs[i].user in users
    {
      MinutesRecordsScope(users, students, caller, meeting, table, recs[i]);
    }
  }

  /**
   * The minutes are missing exactly for an unknown meeting, fail exactly for a non-admin without
   * a student row, and otherwise show the caller's records of this meeting; a plain student
   * gets an empty table under their club's heading.
   */
  lemma MeetingMinutesExact(users: map<nat, User>, students: map<nat, StudentRow>, caller: nat,
                            meetings: map<nat, Meeting>, pk: nat, table: seq<AttendanceRow>)
    requires caller in users && OneStudentPerUser(students) && UsersKnown(users, table)
    ensures MeetingMinutes(users, students, caller, meetings, pk, table) == MeetingNotFound <==> pk !in meetings
    ensures MeetingMinutes(users, students, caller, meetings, pk, table) == MinutesFault
            <==> pk in meetings && users[caller].role != RoleAdmin && StudentIn(students, caller).None?
    ensures MeetingMinutes(users, students, caller, meetings, pk, table).MinutesReady? ==>
              var m := MeetingMinutes(users, students, caller, meetings, pk, table).minutes;
              && m.meeting == meetings[pk]
              && m.filename == MinutesFilename(meetings[pk].date)
              && (m.heading.None? <==> users[caller].role == RoleAdmin)
              && m.summary.total + 1 == |m.rows|
    ensures pk in meetings && users[caller].role == RoleStudent && StudentIn(students, caller).Some? ==>
              MeetingMinutes(users, students, caller, meetings, pk, table).MinutesReady?
              && MeetingMinutes(users, students, caller, meetings, pk, table).minutes.rows == [Header]
  {
    SubsequenceUsersKnown(users, students, caller, pk, table);
    if pk in meetings && users[caller].role == RoleStudent && StudentIn(students, caller).Some? {
      MinutesRecordsScope(users, students, caller, pk, table, AttendanceRow(0, 0, ""));
    }
  }
}
