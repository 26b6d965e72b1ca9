/**
 * The attendance store shared by the meeting pages: the list of meetings and of students, a
 * loading flag and the last error, updated as each request to the server answers.
 */
module AttendanceStore {
  import opened Common
  import opened Text
  import opened Seqs

  /** A meeting as the server returns it. */
  datatype Meeting = Meeting(id: nat, date: string, startTime: string, endTime: string,
                             venue: string, agenda: string, highlights: string)

  /** A student as the server lists it. */
  datatype Student = Student(id: nat, user: nat, rollNo: string)

  const MsgFetchMeetings := "Failed to fetch meetings"
  const MsgCreateMeeting := "Failed to create meeting"
  const MsgUpdateMeeting := "Failed to update meeting"
  const MsgDeleteMeeting := "Failed to delete meeting"
  const MsgFetchStudents := "Failed to fetch students"

  /** `m.id === id`. */
  function WithId(id: nat): Meeting -> bool
  {
    (m: Meeting) => m.id == id
  }

  /** `m.id !== id`. */
  function WithoutId(id: nat): Meeting -> bool
  {
    (m: Meeting) => m.id != id
  }

  /** The list after an update: every entry with that id becomes the server's answer. */
  function Updated(meetings: seq<Meeting>, id: nat, m: Meeting): (r: seq<Meeting>)
  {
    ReplaceWhere(meetings, WithId(id), m)
  }

  /**
   * An update keeps the length and the order; entries with other ids stay as they were and
   * entries with that id become the answer. When the answer keeps the id, the ids are kept
   * position by position, and updating again with the same answer changes nothing.
   */
  lemma UpdatedExact(meetings: seq<Meeting>, id: nat, m: Meeting)
    ensures |Updated(meetings, id, m)| == |meetings|
    ensures forall i :: 0 <= i < |meetings| && meetings[i].id != id ==> Updated(meetings, id, m)[i] == meetings[i]
    ensures forall i :: 0 <= i < |meetings| && meetings[i].id == id ==> Updated(meetings, id, m)[i] == m
    ensures m.id == id ==> forall i :: 0 <= i < |meetings| ==> Updated(meetings, id, m)[i].id == meetings[i].id
    ensures m.id == id ==> Updated(Updated(meetings, id, m), id, m) == Updated(meetings, id, m)
  {
  }

  /** The list after a delete. */
  function Removed(meetings: seq<Meeting>, id: nat): (r: seq<Meeting>)
  {
    Filter(meetings, WithoutId(id))
  }

  /** A delete removes exactly the entries with that id and keeps the others in order. */
  lemma RemovedExact(meetings: seq<Meeting>, id: nat)
    ensures forall m :: m in Removed(meetings, id) <==> m in meetings && m.id != id
    ensures IsSubsequence(Removed(meetings, id), meetings)
    ensures |Removed(meetings, id)| == |meetings| - Count(meetings, WithId(id))
  {
    forall m
      ensures m in Removed(meetings, id) <==> m in meetings && m.id != id
    {
      FilterMembership(meetings, WithoutId(id), m);
    }
    FilterIsSubsequence(meetings, WithoutId(id));
    CountComplement(meetings, id);
  }

  /** Every entry either has the id or not, so the two counts add up to the length. */
  lemma {:induction false} CountComplement(meetings: seq<Meeting>, id: nat)
    ensures Count(meetings, WithId(id)) + Count(meetings, WithoutId(id)) == |meetings|
  {
    if meetings != [] {
      CountComplement(meetings[1..], id);
    }
  }

  /** The store's state. */
  class Store {
    var meetings: seq<Meeting>
    var students: seq<Student>
    var loading: bool
    var error: Option<string>

    constructor ()
      ensures meetings == [] && students == [] && !loading && error == None
    {
      meetings := [];
      students := [];
      loading := false;
      error := None;
    }

    /** `fetchMeetings`: the answer replaces the list, or the error is set; loading ends either way. */
    method FetchMeetings(answer: Result<seq<Meeting>, Option<string>>)
      modifies this
      ensures !loading && students == old(students)
      ensures answer.Ok? ==> meetings == answer.value && error == None
      ensures answer.Err? ==> meetings == old(meetings) && error == Some(OrElse(answer.error, MsgFetchMeetings))
    {
      loading, error := true, None;
      match answer {
        case Ok(list) =>
          meetings, loading := list, false;
        case Err(message) =>
          error, loading := Some(OrElse(message, MsgFetchMeetings)), false;
      }
    }

    /**
     * `createMeeting`: the created meeting is appended at the end and returned; a failure sets
     * the error, leaves the list and is passed on to the caller.
     */
    method CreateMeeting(answer: Result<Meeting, Option<string>>) returns (r: Result<Meeting, Option<string>>)
      modifies this
      ensures r == answer
      ensures !loading && students == old(students)
      ensures answer.Ok? ==> meetings == old(meetings) + [answer.value] && error == None
      ensures answer.Err? ==> meetings == old(meetings) && error == Some(OrElse(answer.error, MsgCreateMeeting))
    {
      loading, error := true, None;
      match answer {
        case Ok(created) =>
          meetings, loading := meetings + [created], false;
        case Err(message) =>
          error, loading := Some(OrElse(message, MsgCreateMeeting)), false;
      }
      r := answer;
    }

    /** `updateMeeting`: the entries with that id become the server's answer. */
    method UpdateMeeting(id: nat, answer: Result<Meeting, Option<string>>) returns (r: Result<Meeting, Option<string>>)
      modifies this
      ensures r == answer
      ensures !loading && students == old(students)
      ensures answer.Ok? ==> meetings == Updated(old(meetings), id, answer.value) && error == None
      ensures answer.Err? ==> meetings == old(meetings) && error == Some(OrElse(answer.error, MsgUpdateMeeting))
    {
      loading, error := true, None;
      match answer {
        case Ok(saved) =>
          meetings, loading := Updated(meetings, id, saved), false;
        case Err(message) =>
          error, loading := Some(OrElse(message, MsgUpdateMeeting)), false;
      }
      r := answer;
    }

    /** `deleteMeeting`: the entries with that id leave the list. */
    method DeleteMeeting(id: nat, answer: Result<(), Option<string>>) returns (r: Result<(), Option<string>>)
      modifies this
      ensures r == answer
      ensures !loading && students == old(students)
      ensures answer.Ok? ==> meetings == Removed(old(meetings), id) && error == None
      ensures answer.Err? ==> meetings == old(meetings) && error == Some(OrElse(answer.error, MsgDeleteMeeting))
    {
      loading, error := true, None;
      match answer {
        case Ok(_) =>
          meetings, loading := Removed(meetings, id), false;
        case Err(message) =>
          error, loading := Some(OrElse(message, MsgDeleteMeeting)), false;
      }
      r := answer;
    }

    /** `fetchStudents`: the answer replaces the students, or the error is set. */
    method FetchStudents(answer: Result<seq<Student>, Option<string>>)
      modifies this
      ensures !loading && meetings == old(meetings)
      ensures answer.Ok? ==> students == answer.value && error == None
      ensures answer.Err? ==> students == old(students) && error == Some(OrElse(answer.error, MsgFetchStudents))
    {
      loading, error := true, None;
      match answer {
        case Ok(list) =>
          students, loading := list, false;
        case Err(message) =>
          error, loading := Some(OrElse(message, MsgFetchStudents)), false;
      }
    }
  }

  /** A created meeting with a new id can be found by it, and deleting it restores the list. */
  lemma CreateThenDelete(meetings: seq<Meeting>, created: Meeting)
    requires forall m :: m in meetings ==> m.id != created.id
    ensures Removed(meetings + [created], created.id) == meetings
  {
    FilterAppend(meetings, [created], WithoutId(created.id));
    FilterAll(meetings, WithoutId(created.id));
  }
}
