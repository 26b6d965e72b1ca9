/**
 * The member tracking page: the student list with a badge per role, and the view and edit
 * dialogs that share one selected member.
 */
module TrackMembersPage {
  import opened Common
  import opened Text
  import J = Json

  const RoleStudent := "role-student"
  const RoleLead := "role-lead"
  const RoleOther := "role-other"
  const MsgFetchFailed := "Failed to fetch members"

  /** `role?.toLowerCase() || "other"`: a missing or empty role reads as "other". */
  function RoleText(role: Option<string>): string
  {
    if role.Some? && role.value != "" then Lower(role.value) else "other"
  }

  /** `getRoleClass`: a role mentioning "student" wins over one mentioning "lead". */
  function RoleClass(role: Option<string>): (c: string)
    ensures c == RoleStudent || c == RoleLead || c == RoleOther
  {
    var roleLower := RoleText(role);
    if Contains(roleLower, "student") then RoleStudent
    else if Contains(roleLower, "lead") then RoleLead
    else RoleOther
  }

  /** The fallback "other" mentions neither word. */
  lemma OtherMentionsNothing()
    ensures !Contains("other", "student") && !Contains("other", "lead")
  {
    var s := "other";
    forall i | 0 <= i <= |s|
      ensures !StartsWith(s[i..], "lead")
    {
      if i < 2 {
        assert s[i..][..4][0] != 'l';
      }
    }
  }

  /**
   * A missing or empty role gets the "other" badge; otherwise the lower-cased role decides:
   * "student" anywhere gives the student badge even when "lead" also appears, "lead" without
   * "student" the lead badge, and anything else the "other" badge.
   */
  lemma RoleClassExact(role: Option<string>)
    ensures role.None? || role == Some("") ==> RoleClass(role) == RoleOther
    ensures role.Some? && role.value != "" ==>
              (RoleClass(role) == RoleStudent <==> Contains(Lower(role.value), "student"))
    ensures role.Some? && role.value != "" ==>
              (RoleClass(role) == RoleLead <==>
                 !Contains(Lower(role.value), "student") && Contains(Lower(role.value), "lead"))
  {
    OtherMentionsNothing();
  }

  /** The badge ignores letter case. */
  lemma RoleClassIgnoresCase(role: string)
    ensures RoleClass(Some(Lower(role))) == RoleClass(Some(role))
  {
    LowerIdempotent(role);
  }

  /** `err.response?.data?.detail || "Failed to fetch members"`. */
  function FetchError(response: Option<J.Json>): (e: J.Json)
    ensures J.Truthy(e)
  {
    var detail := if response.Some? && response.value.JObj? then J.Get(response.value.members, "detail") else J.JUndefined;
    if J.Truthy(detail) then detail else J.JStr(MsgFetchFailed)
  }

  /** The server's `detail` is shown when it has one, the default message otherwise. */
  lemma FetchErrorExact(response: Option<J.Json>)
    ensures response.None? ==> FetchError(response) == J.JStr(MsgFetchFailed)
    ensures response.Some? && response.value.JObj? && J.Truthy(J.Get(response.value.members, "detail")) ==>
              FetchError(response) == J.Get(response.value.members, "detail")
  {
  }

  /** What the page shows. */
  datatype Screen = Loading | Failed(message: J.Json) | NoMembers | Table(rows: seq<J.Json>)

  /** The page's state. */
  class Page {
    var members: seq<J.Json>
    var loading: bool
    var error: J.Json
    var viewOpen: bool
    var editOpen: bool
    var selected: Option<J.Json>

    constructor ()
      ensures members == [] && loading && error == J.JNull
      ensures !viewOpen && !editOpen && selected == None
    {
      members := [];
      loading := true;
      error := J.JNull;
      viewOpen, editOpen := false, false;
      selected := None;
    }

    /** The render: the loading message first, then the error, then the empty list, then the table. */
    function Shown(): (s: Screen)
      reads this
      ensures s == Loading <==> loading
      ensures s.Failed? <==> !loading && J.Truthy(error)
      ensures s == NoMembers <==> !loading && !J.Truthy(error) && members == []
      ensures s.Table? ==> s.rows == members && members != []
    {
      if loading then Loading
      else if J.Truthy(error) then Failed(error)
      else if |members| == 0 then NoMembers
      else Table(members)
    }

    /** `fetchMembers`, given the server's answer: the list, or the error; loading ends either way. */
    method FetchMembers(answer: Result<seq<J.Json>, Option<J.Json>>)
      modifies this
      ensures !loading
      ensures answer.Ok? ==> members == answer.value && error == J.JNull
      ensures answer.Err? ==> members == old(members) && error == FetchError(answer.error)
      ensures viewOpen == old(viewOpen) && editOpen == old(editOpen) && selected == old(selected)
    {
      loading, error := true, J.JNull;
      match answer {
        case Ok(data) => members := data;
        case Err(response) => error := FetchError(response);
      }
      loading := false;
    }

    /** `handleView`. */
    method View(member: J.Json)
      modifies this
      ensures selected == Some(member) && viewOpen && editOpen == old(editOpen)
      ensures members == old(members) && loading == old(loading) && error == old(error)
    {
      selected, viewOpen := Some(member), true;
    }

    /** `handleEdit`. */
    method Edit(member: J.Json)
      modifies this
      ensures selected == Some(member) && editOpen && viewOpen == old(viewOpen)
      ensures members == old(members) && loading == old(loading) && error == old(error)
    {
      selected, editOpen := Some(member), true;
    }

    /** `handleCloseModals`: both dialogs close and nobody stays selected. */
    method CloseModals()
      modifies this
      ensures !viewOpen && !editOpen && selected == None
      ensures members == old(members) && loading == old(loading) && error == old(error)
    {
      viewOpen, editOpen, selected := false, false, None;
    }

    /** `handleSaveSuccess`: the list is fetched again and the dialogs close. */
    method SaveSuccess(answer: Result<seq<J.Json>, Option<J.Json>>)
      modifies this
      ensures !viewOpen && !editOpen && selected == None && !loading
      ensures answer.Ok? ==> members == answer.value && error == J.JNull
      ensures answer.Err? ==> members == old(members) && error == FetchError(answer.error)
    {
      FetchMembers(answer);
      CloseModals();
    }
  }
}
