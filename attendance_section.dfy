/**
 * The attendance section of a meeting's page: the counts and percentage over the meeting's
 * attendance records, and the status shown beside each student.
 */
module AttendanceSection {
  import opened Common
  import opened Text
  import opened Seqs
  import AttendanceChart

  /** One attendance record: the user it is about and its status text. */
  datatype Record = Record(user: nat, status: string)

  /** What the section shows above the list. */
  datatype Summary = Summary(total: nat, present: nat, absent: nat, leave: nat, percentage: nat)

  function Summarize(records: seq<Record>): (s: Summary)
    ensures s.total == |records|
    ensures s.present == Count(records, (a: Record) => a.status == "PRESENT")
    ensures s.absent == Count(records, (a: Record) => a.status == "ABSENT")
    ensures s.leave == Count(records, (a: Record) => a.status == "LEAVE")
    ensures s.percentage == AttendanceChart.Percentage(s.present, s.total)
  {
    var present := Count(records, (a: Record) => a.status == "PRESENT");
    Summary(|records|, present, Count(records, (a: Record) => a.status == "ABSENT"),
            Count(records, (a: Record) => a.status == "LEAVE"), AttendanceChart.Percentage(present, |records|))
  }

  /**
   * The three counts never exceed the total and fill it when every record carries one of the
   * three statuses; the percentage lies in 0..100 and is 0 for a meeting with no records.
   */
  lemma SummaryBounds(records: seq<Record>)
    ensures var s := Summarize(records);
            && s.present + s.absent + s.leave <= s.total
            && 0 <= s.percentage <= 100
            && (records == [] ==> s.percentage == 0)
    ensures (forall i :: 0 <= i < |records| ==> records[i].status in ["PRESENT", "ABSENT", "LEAVE"]) ==>
              var s := Summarize(records); s.present + s.absent + s.leave == s.total
  {
    var s := Summarize(records);
    CountDisjoint3(records, (a: Record) => a.status == "PRESENT", (a: Record) => a.status == "ABSENT",
                   (a: Record) => a.status == "LEAVE");
    AttendanceChart.PercentageRange(s.present, s.present, s.total);
  }

  /** `a => a.user === id`: the test the section finds a student's record by. */
  function ByUser(user: nat): Record -> bool
  {
    (a: Record) => a.user == user
  }

  const NoRecord := "N/A"

  /** The status text beside a student: its record's status lower-cased, or `"N/A"`. */
  function StatusShown(records: seq<Record>, user: nat): string
  {
    match FindFirst(records, ByUser(user))
    case Some(r) => Lower(r.status)
    case None => NoRecord
  }

  /**
   * A student shows `"N/A"` exactly when no record is about it; otherwise it shows the
   * lower-cased status of the first record about it.
   */
  lemma StatusShownExact(records: seq<Record>, user: nat)
    ensures StatusShown(records, user) == NoRecord <==> forall i :: 0 <= i < |records| ==> records[i].user != user
    ensures forall i :: 0 <= i < |records| && records[i].user == user && (forall j :: 0 <= j < i ==> records[j].user != user) ==>
              StatusShown(records, user) == Lower(records[i].status)
  {
    if FindFirst(records, ByUser(user)).Some? {
      var shown := Lower(FindFirst(records, ByUser(user)).value.status);
      if |shown| == |NoRecord| {
        assert !IsUpperLetter(shown[0]) && IsUpperLetter(NoRecord[0]);
      }
    }
    forall i | 0 <= i < |records| && records[i].user == user && (forall j :: 0 <= j < i ==> records[j].user != user)
      ensures StatusShown(records, user) == Lower(records[i].status)
    {
      FindFirstAt(records, ByUser(user), i);
    }
  }

  /** The status column: one entry per student, in the students' order. */
  function StatusColumn(records: seq<Record>, students: seq<nat>): (col: seq<string>)
    ensures |col| == |students|
    ensures forall k :: 0 <= k < |students| ==> col[k] == StatusShown(records, students[k])
  {
    seq(|students|, k requires 0 <= k < |students| => StatusShown(records, students[k]))
  }
}
