/**
 * The attendance editor of a meeting: loading the meeting's records, editing one record's
 * status, the rows shown per student, and the request that saves a record.
 */
module EditAttendance {
  import opened Common
  import opened Seqs
  import opened Text
  import EventsListPage

  /** One attendance record as the server lists it. */
  datatype Record = Record(id: nat, meeting: nat, user: nat, status: string)

  /** `a.meeting === parseInt(meetingId)`, with the route's id as text. */
  function OfMeeting(meetingId: string): Record -> bool
  {
    (a: Record) => EventsListPage.ParseInt(meetingId) == EventsListPage.N(a.meeting)
  }

  /** What a load keeps of the server's list. */
  function Loaded(listed: seq<Record>, meetingId: string): (r: seq<Record>)
  {
    Filter(listed, OfMeeting(meetingId))
  }

  /**
   * For a numeric id the editor holds exactly the listed records of that meeting, in the
   * server's order; for an id that does not start with a digit it holds nothing.
   */
  lemma LoadedExact(listed: seq<Record>, meetingId: string, m: nat)
    requires EventsListPage.ParseInt(meetingId) == EventsListPage.N(m)
    ensures forall a :: a in Loaded(listed, meetingId) <==> a in listed && a.meeting == m
    ensures IsSubsequence(Loaded(listed, meetingId), listed)
  {
    forall a
      ensures a in Loaded(listed, meetingId) <==> a in listed && a.meeting == m
    {
      FilterMembership(listed, OfMeeting(meetingId), a);
    }
    FilterIsSubsequence(listed, OfMeeting(meetingId));
  }

  lemma LoadedNaN(listed: seq<Record>, meetingId: string)
    requires EventsListPage.ParseInt(meetingId) == EventsListPage.NaN
    ensures Loaded(listed, meetingId) == []
  {
    if Loaded(listed, meetingId) != [] {
      FilterMembership(listed, OfMeeting(meetingId), Loaded(listed, meetingId)[0]);
    }
  }

  /** The status select of a row: the record with that id takes the status; nothing else changes. */
  function SetStatus(attendance: seq<Record>, id: nat, status: string): (r: seq<Record>)
    ensures |r| == |attendance|
    ensures forall i :: 0 <= i < |r| ==> r[i].id == attendance[i].id && r[i].meeting == attendance[i].meeting
                                         && r[i].user == attendance[i].user
    ensures forall i :: 0 <= i < |r| ==> r[i].status == if attendance[i].id == id then status else attendance[i].status
  {
    seq(|attendance|, i requires 0 <= i < |attendance| =>
      if attendance[i].id == id then attendance[i].(status := status) else attendance[i])
  }

  /**
   * A status edit keeps the editor holding only this meeting's records, a second edit of the
   * same record overrides the first, and edits of two different records do not interfere.
   */
  lemma SetStatusLaws(attendance: seq<Record>, m: nat, id: nat, id2: nat, s: string, t: string)
    ensures (forall a :: a in attendance ==> a.meeting == m) ==> forall a :: a in SetStatus(attendance, id, s) ==> a.meeting == m
    ensures SetStatus(SetStatus(attendance, id, s), id, t) == SetStatus(attendance, id, t)
    ensures id != id2 ==> SetStatus(SetStatus(attendance, id, s), id2, t) == SetStatus(SetStatus(attendance, id2, t), id, s)
  {
    if forall a :: a in attendance ==> a.meeting == m {
      forall a | a in SetStatus(attendance, id, s)
        ensures a.meeting == m
      {
        var i :| 0 <= i < |SetStatus(attendance, id, s)| && SetStatus(attendance, id, s)[i] == a;
        assert attendance[i] in attendance;
      }
    }
  }

  /** `a => a.user === id`: how a student's record is found. */
  function ByUser(user: nat): Record -> bool
  {
    (a: Record) => a.user == user
  }

  /** A student has a row exactly when some record is about it. */
  predicate HasRecord(attendance: seq<Record>, user: nat)
  {
    FindFirst(attendance, ByUser(user)).Some?
  }

  /** The rows: per student in order, its first record; a student without one renders nothing. */
  function Rows(students: seq<nat>, attendance: seq<Record>): (rows: seq<Record>)
    ensures |rows| == Count(students, (u: nat) => HasRecord(attendance, u))
    ensures forall r :: r in rows ==> r in attendance
  {
    if students == [] then []
    else
      var rest := Rows(students[1..], attendance);
      match FindFirst(attendance, ByUser(students[0]))
      case Some(r) => [r] + rest
      case None => rest
  }

  /** Every row is the record of one of the students. */
  lemma {:induction false} RowsAboutStudents(students: seq<nat>, attendance: seq<Record>)
    ensures forall r :: r in Rows(students, attendance) ==> r.user in students
  {
    if students != [] {
      RowsAboutStudents(students[1..], attendance);
    }
  }

  /** `handleUpdateAttendance`: the record is sent unchanged to its own address. */
  datatype Request = Put(url: string, body: Record)

  function SaveRequest(meetingId: string, r: Record): (req: Request)
    ensures req.body == r
  {
    Put("/meetings/" + meetingId + "/attendance/" + NatToString(r.id), r)
  }

  /** Saves of different records go to different addresses. */
  lemma SaveRequestDistinct(meetingId: string, r: Record, r2: Record)
    requires r.id != r2.id
    ensures SaveRequest(meetingId, r).url != SaveRequest(meetingId, r2).url
  {
    var prefix := "/meetings/" + meetingId + "/attendance/";
    assert SaveRequest(meetingId, r).url == prefix + NatToString(r.id);
    assert SaveRequest(meetingId, r2).url == prefix + NatToString(r2.id);
    NatToStringInjective(r.id, r2.id);
    if prefix + NatToString(r.id) == prefix + NatToString(r2.id) {
      assert NatToString(r.id) == (prefix + NatToString(r.id))[|prefix|..];
    }
  }

  const MsgFetchFailed := "Failed to fetch attendance"

  /** The editor's state. */
  class Editor {
    var attendance: seq<Record>
    var loading: bool
    var error: Option<string>

    constructor ()
      ensures attendance == [] && !loading && error == None
    {
      attendance := [];
      loading := false;
      error := None;
    }

    /**
     * `fetchAttendance`, given the server's answer: the list filtered to this meeting, or the
     * server's detail (the default message when it has none); loading ends either way.
     */
    method Fetch(meetingId: string, answer: Result<seq<Record>, Option<string>>)
      modifies this
      ensures !loading
      ensures answer.Ok? ==> attendance == Loaded(answer.value, meetingId) && error == old(error)
      ensures answer.Err? ==> attendance == old(attendance)
                              && error == Some(OrElse(answer.error, MsgFetchFailed))
    {
      loading := true;
      match answer {
        case Ok(listed) =>
          attendance := Loaded(listed, meetingId);
        case Err(detail) =>
          error := Some(OrElse(detail, MsgFetchFailed));
      }
      loading := false;
    }

    /** The status select's change handler. */
    method ChangeStatus(id: nat, status: string)
      modifies this
      ensures attendance == SetStatus(old(attendance), id, status)
      ensures loading == old(loading) && error == old(error)
    {
      attendance := SetStatus(attendance, id, status);
    }
  }
}
