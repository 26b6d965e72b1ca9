/**
 * The meeting editor: times are shown as `HH:MM` and sent back as `HH:MM:00`, the rest of
 * the meeting is sent as it stands, and the saving flag is lowered however the request ends.
 */
module EditMeeting {
  import opened AttendanceStore

  /** `formatForBackend`: a five-character time gains `:00`; any other text is sent as it is. */
  function FormatForBackend(t: string): (r: string)
    ensures |t| == 5 ==> r == t + ":00" && |r| == 8
    ensures |t| != 5 ==> r == t
  {
    if t != "" && |t| == 5 then t + ":00" else t
  }

  /** `formatTime` of the page that loads the meeting: `timeStr.slice(0, 5)`, or `""`. */
  function Shown(t: string): (r: string)
    ensures |r| <= 5 && |r| <= |t| && r == t[..|r|]
    ensures |t| >= 5 ==> |r| == 5
  {
    if t == "" then "" else if |t| <= 5 then t else t[..5]
  }

  /**
   * Loading and saving invert each other on the server's `HH:MM:SS` times with zero seconds,
   * and on any 8-character time they keep the hours and minutes and zero the seconds; saving
   * never changes what is shown and saving twice is saving once.
   */
  lemma FormatRoundTrip(t: string)
    ensures |t| == 8 ==> FormatForBackend(Shown(t)) == t[..5] + ":00"
    ensures |t| == 8 && t[5..] == ":00" ==> FormatForBackend(Shown(t)) == t
    ensures Shown(FormatForBackend(t)) == Shown(t)
    ensures FormatForBackend(FormatForBackend(t)) == FormatForBackend(t)
  {
    if |t| == 8 && t[5..] == ":00" {
      assert t == t[..5] + t[5..];
    }
    if |t| == 5 {
      assert (t + ":00")[..5] == t;
    }
  }

  /** The meeting as the editor holds it: both times shortened for display. */
  function ForEditing(m: Meeting): Meeting
  {
    m.(startTime := Shown(m.startTime), endTime := Shown(m.endTime))
  }

  /** The request body: the meeting with only its two times formatted. */
  function Payload(m: Meeting): (p: Meeting)
    ensures p.id == m.id && p.date == m.date && p.venue == m.venue && p.agenda == m.agenda && p.highlights == m.highlights
  {
    m.(startTime := FormatForBackend(m.startTime), endTime := FormatForBackend(m.endTime))
  }

  /** A meeting saved without edits is sent back exactly as the server gave it, when its times have zero seconds. */
  lemma UneditedRoundTrip(m: Meeting)
    requires |m.startTime| == 8 && m.startTime[5..] == ":00"
    requires |m.endTime| == 8 && m.endTime[5..] == ":00"
    ensures Payload(ForEditing(m)) == m
  {
    FormatRoundTrip(m.startTime);
    FormatRoundTrip(m.endTime);
  }

  /** The editor's own state. */
  class Editor {
    var saving: bool

    constructor ()
      ensures !saving
    {
      saving := false;
    }

    /**
     * `handleUpdateMeeting`, given whether the request succeeds: the payload it sends, and
     * whether the editor closes; saving is over either way.
     */
    method Update(m: Meeting, succeeds: bool) returns (sent: Meeting, closes: bool)
      modifies this
      ensures sent == Payload(m)
      ensures closes == succeeds
      ensures !saving
    {
      saving := true;
      sent := Payload(m);
      closes := succeeds;
      saving := false;
    }
  }
}
