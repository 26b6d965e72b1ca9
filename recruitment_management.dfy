/**
 * The recruitment management page: status spelling normalisation and labels, the summary
 * counts, the role drop-down, the client-side filters and the export request's parameters.
 * A missing or `null` text field of an application is modelled as `""`, which every use
 * here treats the same way (`|| ""`, `if (!s)`).
 */
module RecruitmentManagement {
  import opened Common
  import opened Text
  import opened Seqs

  // ---------------------------------------------------------------- normalizeStatus

  /** A character of the pattern `[\s-]`. */
  predicate IsSep(c: char)
  {
    IsSpace(c) || c == '-'
  }

  /** Drops the leading run of separators. */
  function DropSeps(s: string): (r: string)
    ensures |r| <= |s| && r == s[|s| - |r|..]
    ensures r == [] || !IsSep(r[0])
  {
    if s != [] && IsSep(s[0]) then DropSeps(s[1..]) else s
  }

  /** `.replace(/[\s-]+/g, "_")`: every maximal run of separators becomes one `_`. */
  function CollapseSeps(s: string): string
    decreases |s|
  {
    if s == [] then []
    else if IsSep(s[0]) then "_" + CollapseSeps(DropSeps(s))
    else [s[0]] + CollapseSeps(s[1..])
  }

  /** The collapsed text has no separator left, and each other character comes from the input. */
  lemma {:induction false} CollapseSepsChars(s: string)
    ensures forall i :: 0 <= i < |CollapseSeps(s)| ==> !IsSep(CollapseSeps(s)[i])
    ensures forall i :: 0 <= i < |CollapseSeps(s)| ==> CollapseSeps(s)[i] == '_' || CollapseSeps(s)[i] in s
    decreases |s|
  {
    if s != [] {
      if IsSep(s[0]) {
        var d := DropSeps(s);
        CollapseSepsChars(d);
        assert forall c :: c in d ==> c in s;
      } else {
        CollapseSepsChars(s[1..]);
        assert forall c :: c in s[1..] ==> c in s;
      }
    }
  }

  /** A text without separators is left alone. */
  lemma {:induction false} CollapseNoSeps(s: string)
    requires forall i :: 0 <= i < |s| ==> !IsSep(s[i])
    ensures CollapseSeps(s) == s
  {
    if s != [] {
      assert forall i :: 0 <= i < |s[1..]| ==> s[1..][i] == s[i + 1];
      CollapseNoSeps(s[1..]);
    }
  }

  /** `normalizeStatus`: `""` for an empty value, else trimmed, upper-cased, separator runs to `_`. */
  function NormalizeStatus(s: string): string
  {
    if s == "" then "" else CollapseSeps(Upper(Trim(s)))
  }

  lemma UpperUnchanged(s: string)
    requires forall i :: 0 <= i < |s| ==> !IsLowerLetter(s[i])
    ensures Upper(s) == s
  {
  }

  /** A normalised status has no whitespace, hyphen or lower-case letter, and normalising it again changes nothing. */
  lemma NormalizeStatusIdempotent(s: string)
    ensures forall i :: 0 <= i < |NormalizeStatus(s)| ==> !IsSep(NormalizeStatus(s)[i]) && !IsLowerLetter(NormalizeStatus(s)[i])
    ensures NormalizeStatus(NormalizeStatus(s)) == NormalizeStatus(s)
  {
    var r := NormalizeStatus(s);
    if s != "" {
      var u := Upper(Trim(s));
      CollapseSepsChars(u);
      assert forall i :: 0 <= i < |r| ==> r[i] == '_' || r[i] in u;
      assert forall i :: 0 <= i < |r| ==> !IsLowerLetter(r[i]);
      if r != "" {
        TrimUnchanged(r);
        UpperUnchanged(r);
        CollapseNoSeps(r);
      }
    }
  }

  const UnderReview := "UNDER_REVIEW"
  const Accepted := "ACCEPTED"
  const Rejected := "REJECTED"
  const Interviews := "INTERVIEWS"

  /** `uiStatus`: the label of a known status, else the raw value, else `"Unknown"`. */
  function UiStatus(api: string): string
  {
    var n := NormalizeStatus(api);
    if n == UnderReview then "Under Review"
    else if n == Accepted then "Accepted"
    else if n == Rejected then "Rejected"
    else if n == Interviews then "Interviews"
    else if api != "" then api
    else "Unknown"
  }

  /** `getStatusClass`: a CSS class per label, `""` for anything else. */
  function StatusClass(text: string): string
  {
    if text == "Under Review" then "status-under-review"
    else if text == "Accepted" then "status-accepted"
    else if text == "Rejected" then "status-rejected"
    else if text == "Interviews" then "status-interviews"
    else ""
  }

  predicate Known(n: string)
  {
    n == UnderReview || n == Accepted || n == Rejected || n == Interviews
  }

  predicate NoSeps(s: string)
  {
    forall i :: 0 <= i < |s| ==> !IsSep(s[i])
  }

  lemma UpperNoSeps(s: string)
    requires NoSeps(s)
    ensures NoSeps(Upper(s))
  {
  }

  /** Collapsing leaves a separator-free prefix alone. */
  lemma {:induction false} CollapsePrefix(a: string, b: string)
    requires NoSeps(a)
    ensures CollapseSeps(a + b) == a + CollapseSeps(b)
  {
    if a != [] {
      assert a + b == [a[0]] + (a[1..] + b);
      assert NoSeps(a[1..]) by {
        assert forall i :: 0 <= i < |a[1..]| ==> a[1..][i] == a[i + 1];
      }
      CollapsePrefix(a[1..], b);
      CollapseCons(a[0], a[1..] + b);
      assert [a[0]] + (a[1..] + CollapseSeps(b)) == a + CollapseSeps(b);
    } else {
      assert a + b == b;
    }
  }

  lemma CollapseCons(c: char, t: string)
    requires !IsSep(c)
    ensures CollapseSeps([c] + t) == [c] + CollapseSeps(t)
  {
    assert ([c] + t)[1..] == t;
  }

  lemma UpperJoin(x: string, y: string)
    ensures Upper(x + " " + y) == Upper(x) + (" " + Upper(y))
  {
    var s := x + " " + y;
    var r := Upper(x) + (" " + Upper(y));
    assert |Upper(s)| == |r|;
    forall i | 0 <= i < |s|
      ensures Upper(s)[i] == r[i]
    {
      if i < |x| {
        assert s[i] == x[i];
      } else if i > |x| {
        assert s[i] == y[i - |x| - 1];
      }
    }
  }

  /** Two words joined by one space normalise to the upper-cased words joined by `_`. */
  lemma NormalizeTwoWords(x: string, y: string)
    requires x != [] && y != [] && NoSeps(x) && NoSeps(y)
    ensures NormalizeStatus(x + " " + y) == Upper(x) + "_" + Upper(y)
  {
    TwoWordsTrimmed(x, y);
    UpperJoin(x, y);
    TwoWordsCollapse(x, y);
    Assemble(x + " " + y, Upper(x), Upper(y));
  }

  lemma TwoWordsTrimmed(x: string, y: string)
    requires x != [] && y != [] && NoSeps(x) && NoSeps(y)
    ensures Trim(x + " " + y) == x + " " + y
  {
    var s := x + " " + y;
    assert s[0] == x[0] && s[|s| - 1] == y[|y| - 1];
    TrimUnchanged(s);
  }

  lemma TwoWordsCollapse(x: string, y: string)
    requires NoSeps(x) && NoSeps(y)
    ensures CollapseSeps(Upper(x) + (" " + Upper(y))) == Upper(x) + ("_" + Upper(y))
  {
    UpperNoSeps(x);
    UpperNoSeps(y);
    CollapsePrefix(Upper(x), " " + Upper(y));
    CollapseLeadingSpace(Upper(y));
  }

  lemma Assemble(s: string, ux: string, uy: string)
    requires s != "" && Trim(s) == s && Upper(s) == ux + (" " + uy)
    requires CollapseSeps(ux + (" " + uy)) == ux + ("_" + uy)
    ensures NormalizeStatus(s) == ux + "_" + uy
  {
    assert ux + ("_" + uy) == ux + "_" + uy;
  }

  lemma CollapseLeadingSpace(u: string)
    requires NoSeps(u)
    ensures CollapseSeps(" " + u) == "_" + u
  {
    var s := " " + u;
    assert s[0] == ' ' && s[1..] == u;
    assert DropSeps(u) == u by {
      if u != [] { assert !IsSep(u[0]); }
    }
    assert DropSeps(s) == u;
    CollapseNoSeps(u);
    assert CollapseSeps(s) == "_" + CollapseSeps(u);
  }

  /** A text without whitespace or hyphens at all is only upper-cased. */
  lemma NormalizeOneWord(s: string)
    requires s != [] && NoSeps(s)
    ensures NormalizeStatus(s) == Upper(s)
  {
    TrimUnchanged(s);
    UpperNoSeps(s);
    CollapseNoSeps(Upper(s));
  }

  lemma UnderReviewNormalizes(s: string)
    requires s == "Under Review"
    ensures NormalizeStatus(s) == UnderReview
  {
    var x, y := "Under", "Review";
    assert s == x + " " + y;
    UpperUnderReview(x, y);
    NormalizeTwoWords(x, y);
  }

  lemma UpperUnderReview(x: string, y: string)
    requires x == "Under" && y == "Review"
    ensures NoSeps(x) && NoSeps(y) && Upper(x) + "_" + Upper(y) == UnderReview
  {
  }

  /** The stored value `UNDER_REVIEW` is already normal and shows as "Under Review". */
  lemma UnderReviewShown(s: string)
    requires s == UnderReview
    ensures UiStatus(s) == "Under Review"
  {
    assert NoSeps(s) && forall i :: 0 <= i < |s| ==> !IsLowerLetter(s[i]);
    UnderReviewFixed(s);
  }

  lemma UnderReviewFixed(s: string)
    requires s != [] && NoSeps(s) && forall i :: 0 <= i < |s| ==> !IsLowerLetter(s[i])
    ensures NormalizeStatus(s) == s
  {
    NormalizeOneWord(s);
    UpperUnchanged(s);
  }

  lemma AcceptedNormalizes(s: string)
    requires s == "Accepted"
    ensures NormalizeStatus(s) == Accepted
  {
    NormalizeOneWord(s);
    UpperAccepted(s);
  }

  lemma UpperAccepted(s: string)
    requires s == "Accepted"
    ensures Upper(s) == Accepted
  {
  }

  lemma RejectedNormalizes(s: string)
    requires s == "Rejected"
    ensures NormalizeStatus(s) == Rejected
  {
    NormalizeOneWord(s);
    UpperRejected(s);
  }

  lemma UpperRejected(s: string)
    requires s == "Rejected"
    ensures Upper(s) == Rejected
  {
  }

  lemma InterviewsNormalizes(s: string)
    requires s == "Interviews"
    ensures NormalizeStatus(s) == Interviews
  {
    NormalizeOneWord(s);
    UpperInterviews(s);
  }

  lemma UpperInterviews(s: string)
    requires s == "Interviews"
    ensures Upper(s) == Interviews
  {
  }

  /** Each of the four labels normalises back to its status. */
  lemma LabelNormalizes(s: string)
    requires s == "Under Review" || s == "Accepted" || s == "Rejected" || s == "Interviews"
    ensures Known(NormalizeStatus(s))
  {
    if s == "Under Review" {
      UnderReviewNormalizes(s);
    } else if s == "Accepted" {
      AcceptedNormalizes(s);
    } else if s == "Rejected" {
      RejectedNormalizes(s);
    } else {
      InterviewsNormalizes(s);
    }
  }

  /** An unknown status keeps its raw text, or shows `Unknown`, and gets no badge class. */
  lemma UiStatusUnknown(api: string)
    requires !Known(NormalizeStatus(api))
    ensures UiStatus(api) == (if api != "" then api else "Unknown")
    ensures StatusClass(UiStatus(api)) == ""
  {
    if api == "Under Review" || api == "Accepted" || api == "Rejected" || api == "Interviews" {
      LabelNormalizes(api);
    }
  }

  /**
   * A status gets a coloured badge exactly when it normalises to one of the four known
   * statuses, whatever its spelling; anything else keeps its raw text, or shows `Unknown`.
   */
  lemma UiStatusExact(api: string)
    ensures StatusClass(UiStatus(api)) != "" <==> Known(NormalizeStatus(api))
    ensures !Known(NormalizeStatus(api)) ==> UiStatus(api) == (if api != "" then api else "Unknown")
    ensures Known(NormalizeStatus(api)) ==> UiStatus(api) == UiStatus(NormalizeStatus(api))
  {
    if Known(NormalizeStatus(api)) {
      UiStatusKnown(api);
    } else {
      UiStatusUnknown(api);
    }
  }

  /** A status that normalises to a known one shows that one's label and gets its badge. */
  lemma UiStatusKnown(api: string)
    requires Known(NormalizeStatus(api))
    ensures StatusClass(UiStatus(api)) != ""
    ensures UiStatus(api) == UiStatus(NormalizeStatus(api))
  {
    var n := NormalizeStatus(api);
    assert NormalizeStatus(n) == n by { NormalizeStatusIdempotent(api); }
  }

  // ---------------------------------------------------------------- applications

  /** The fields of an application the page reads. */
  datatype App = App(status: string, firstName: string, lastName: string, email: string,
                     regNo: string, role: string)

  /** The summary cards. */
  datatype Stats = Stats(total: nat, underReview: nat, interviews: nat, accepted: nat)

  /** The `stats` memo: the list length and the number of applications in three statuses. */
  function StatsOf(statuses: seq<string>): (r: Stats)
    ensures r.total == |statuses|
    ensures r.underReview + r.interviews + r.accepted <= r.total
    ensures r.underReview == Count(statuses, s => NormalizeStatus(s) == UnderReview)
    ensures r.interviews == Count(statuses, s => NormalizeStatus(s) == Interviews)
    ensures r.accepted == Count(statuses, s => NormalizeStatus(s) == Accepted)
  {
    CountDisjoint3(statuses, s => NormalizeStatus(s) == UnderReview, s => NormalizeStatus(s) == Interviews,
                   s => NormalizeStatus(s) == Accepted);
    Stats(|statuses|, Count(statuses, s => NormalizeStatus(s) == UnderReview),
          Count(statuses, s => NormalizeStatus(s) == Interviews), Count(statuses, s => NormalizeStatus(s) == Accepted))
  }

  /** The distinct non-empty preferred roles, in order of first occurrence. */
  function DistinctRoles(apps: seq<App>): seq<string>
  {
    if apps == [] then []
    else
      var d := DistinctRoles(apps[..|apps| - 1]);
      var role := apps[|apps| - 1].role;
      if role != "" && role !in d then d + [role] else d
  }

  /**
   * The role options are exactly the non-empty roles, each once, and a role comes before
   * another whenever it first appears before any occurrence of the other.
   */
  lemma {:induction false} DistinctRolesExact(apps: seq<App>)
    ensures forall x :: x in DistinctRoles(apps) <==> x != "" && exists k :: 0 <= k < |apps| && apps[k].role == x
    ensures forall i, j :: 0 <= i < j < |DistinctRoles(apps)| ==> DistinctRoles(apps)[i] != DistinctRoles(apps)[j]
    ensures forall i, j, k :: 0 <= i < j < |DistinctRoles(apps)| && 0 <= k < |apps| && apps[k].role == DistinctRoles(apps)[j]
              ==> exists l :: 0 <= l < k && apps[l].role == DistinctRoles(apps)[i]
  {
    DistinctRolesMembers(apps);
    DistinctRolesUnique(apps);
    if apps != [] {
      var init := apps[..|apps| - 1];
      var d := DistinctRoles(init);
      var r := DistinctRoles(apps);
      var n := |apps| - 1;
      DistinctRolesExact(init);
      forall i, j, k | 0 <= i < j < |r| && 0 <= k < |apps| && apps[k].role == r[j]
        ensures exists l :: 0 <= l < k && apps[l].role == r[i]
      {
        assert r[i] == d[i];
        if k < n {
          assert init[k].role == r[j];
          if j < |d| {
            assert d[j] == r[j];
            var l :| 0 <= l < k && init[l].role == d[i];
            assert apps[l].role == r[i];
          } else {
            assert false;
          }
        } else {
          assert d[i] in d;
          var k0 :| 0 <= k0 < n && init[k0].role == r[i];
          assert apps[k0].role == r[i];
        }
      }
    }
  }

  lemma {:induction false} DistinctRolesMembers(apps: seq<App>)
    ensures forall x :: x in DistinctRoles(apps) <==> x != "" && exists k :: 0 <= k < |apps| && apps[k].role == x
  {
    if apps != [] {
      var init := apps[..|apps| - 1];
      var d := DistinctRoles(init);
      var r := DistinctRoles(apps);
      var n := |apps| - 1;
      DistinctRolesMembers(init);
      assert forall k :: 0 <= k < n ==> init[k] == apps[k];
      forall x
        ensures x in r <==> x != "" && exists k :: 0 <= k < |apps| && apps[k].role == x
      {
        if x != "" && x !in d {
          forall k | 0 <= k < n
            ensures apps[k].role != x
          {
            assert init[k] == apps[k];
          }
        }
      }
    }
  }

  lemma {:induction false} DistinctRolesUnique(apps: seq<App>)
    ensures forall i, j :: 0 <= i < j < |DistinctRoles(apps)| ==> DistinctRoles(apps)[i] != DistinctRoles(apps)[j]
  {
    if apps != [] {
      DistinctRolesUnique(apps[..|apps| - 1]);
    }
  }

  /** The `roleOptions` memo: a set filled in one pass, read back in insertion order. */
  method RoleOptions(apps: seq<App>) returns (opts: seq<string>)
    ensures opts == DistinctRoles(apps)
  {
    var seen: set<string> := {};
    opts := [];
    var i := 0;
    while i < |apps|
      invariant 0 <= i <= |apps|
      invariant opts == DistinctRoles(apps[..i])
      invariant forall x :: x in seen <==> x in opts
    {
      assert apps[..i + 1][..i] == apps[..i];
      var role := apps[i].role;
      if role != "" && role !in seen {
        seen := seen + {role};
        opts := opts + [role];
      }
      i := i + 1;
    }
    assert apps[..|apps|] == apps;
  }

  /** The search text matched against an application: its name, email, reg no and role, lower-cased. */
  predicate SearchMatches(a: App, q: string)
  {
    Contains(Trim(Lower(a.firstName + " " + a.lastName)), q)
    || Contains(Lower(a.email), q) || Contains(Lower(a.regNo), q) || Contains(Lower(a.role), q)
  }

  predicate StatusKeeps(a: App, statusFilter: string)
  {
    statusFilter == "" || NormalizeStatus(a.status) == statusFilter
  }

  predicate RoleKeeps(a: App, roleFilter: string)
  {
    roleFilter == "" || a.role == roleFilter
  }

  predicate SearchKeeps(a: App, q: string)
  {
    q == "" || SearchMatches(a, q)
  }

  /** The status stage: with a filter set, the applications whose normalised status equals it. */
  function ByStatus(apps: seq<App>, statusFilter: string): seq<App>
  {
    if statusFilter != "" then Filter(apps, (a: App) => NormalizeStatus(a.status) == statusFilter) else apps
  }

  /** The role stage: with a filter set, the applications whose preferred role equals it exactly. */
  function ByRole(apps: seq<App>, roleFilter: string): seq<App>
  {
    if roleFilter != "" then Filter(apps, (a: App) => a.role == roleFilter) else apps
  }

  /** The search stage: an empty query returns the list as it is. */
  function BySearch(apps: seq<App>, q: string): seq<App>
  {
    if q == "" then apps else Filter(apps, (a: App) => SearchMatches(a, q))
  }

  /** The `filteredApplications` memo: the status filter, the role filter, then the search. */
  function Filtered(apps: seq<App>, statusFilter: string, roleFilter: string, search: string): seq<App>
  {
    BySearch(ByRole(ByStatus(apps, statusFilter), roleFilter), Lower(Trim(search)))
  }

  /** What the three filters keep together. */
  predicate Keeps(a: App, statusFilter: string, roleFilter: string, q: string)
  {
    StatusKeeps(a, statusFilter) && RoleKeeps(a, roleFilter) && SearchKeeps(a, q)
  }

  lemma ByStatusFilter(apps: seq<App>, statusFilter: string)
    ensures ByStatus(apps, statusFilter) == Filter(apps, (a: App) => StatusKeeps(a, statusFilter))
  {
    if statusFilter != "" {
      FilterExt(apps, (a: App) => NormalizeStatus(a.status) == statusFilter, (a: App) => StatusKeeps(a, statusFilter));
    } else {
      FilterAll(apps, (a: App) => StatusKeeps(a, statusFilter));
    }
  }

  lemma ByRoleFilter(apps: seq<App>, roleFilter: string)
    ensures ByRole(apps, roleFilter) == Filter(apps, (a: App) => RoleKeeps(a, roleFilter))
  {
    if roleFilter != "" {
      FilterExt(apps, (a: App) => a.role == roleFilter, (a: App) => RoleKeeps(a, roleFilter));
    } else {
      FilterAll(apps, (a: App) => RoleKeeps(a, roleFilter));
    }
  }

  lemma BySearchFilter(apps: seq<App>, q: string)
    ensures BySearch(apps, q) == Filter(apps, (a: App) => SearchKeeps(a, q))
  {
    if q != "" {
      FilterExt(apps, (a: App) => SearchMatches(a, q), (a: App) => SearchKeeps(a, q));
    } else {
      FilterAll(apps, (a: App) => SearchKeeps(a, q));
    }
  }

  /** The visible list is one filter by all three conditions at once. */
  lemma FilteredOneFilter(apps: seq<App>, statusFilter: string, roleFilter: string, q: string)
    ensures BySearch(ByRole(ByStatus(apps, statusFilter), roleFilter), q)
            == Filter(apps, (a: App) => Keeps(a, statusFilter, roleFilter, q))
  {
    var ps := (a: App) => StatusKeeps(a, statusFilter);
    var pr := (a: App) => RoleKeeps(a, roleFilter);
    var pq := (a: App) => SearchKeeps(a, q);
    var psr := (a: App) => StatusKeeps(a, statusFilter) && RoleKeeps(a, roleFilter);
    ByStatusFilter(apps, statusFilter);
    ByRoleFilter(ByStatus(apps, statusFilter), roleFilter);
    FilterFilter(apps, ps, pr, psr);
    BySearchFilter(ByRole(ByStatus(apps, statusFilter), roleFilter), q);
    FilterFilter(apps, psr, pq, (a: App) => Keeps(a, statusFilter, roleFilter, q));
  }

  /**
   * The visible list keeps the applications' order and holds exactly those whose normalised
   * status equals the status filter, whose role equals the role filter exactly, and that
   * match the trimmed lower-cased search; an empty filter or search applies no condition.
   */
  lemma FilteredExact(apps: seq<App>, statusFilter: string, roleFilter: string, search: string)
    ensures IsSubsequence(Filtered(apps, statusFilter, roleFilter, search), apps)
    ensures forall a :: a in Filtered(apps, statusFilter, roleFilter, search)
                        <==> a in apps && Keeps(a, statusFilter, roleFilter, Lower(Trim(search)))
  {
    var q := Lower(Trim(search));
    var all := (a: App) => Keeps(a, statusFilter, roleFilter, q);
    FilteredOneFilter(apps, statusFilter, roleFilter, q);
    FilterIsSubsequence(apps, all);
    forall a ensures a in Filter(apps, all) <==> a in apps && all(a) {
      FilterMembership(apps, all, a);
    }
  }

  // ---------------------------------------------------------------- export

  const MsgNoSession := "No active session found. Can't export."

  /**
   * The query of `exportExcel`: without a session (a missing or zero id is falsy) an error and
   * no request; otherwise the session, plus the role and status filters when they are set.
   */
  function ExportParams(sessionId: Option<nat>, roleFilter: string, statusFilter: string): Result<map<string, string>, string>
  {
    if sessionId.None? || sessionId.value == 0 then Err(MsgNoSession)
    else
      var p := map["session_id" := NatToString(sessionId.value)];
      var p := if roleFilter != "" then p["preferred_role" := roleFilter] else p;
      if statusFilter != "" then Ok(p["status" := statusFilter]) else Ok(p)
  }

  lemma ExportParamsExact(sessionId: Option<nat>, roleFilter: string, statusFilter: string)
    ensures ExportParams(sessionId, roleFilter, statusFilter).Err? <==> sessionId.None? || sessionId.value == 0
    ensures ExportParams(sessionId, roleFilter, statusFilter).Ok? ==>
              var p := ExportParams(sessionId, roleFilter, statusFilter).value;
              && p.Keys == {"session_id"} + (if roleFilter != "" then {"preferred_role"} else {})
                           + (if statusFilter != "" then {"status"} else {})
              && p["session_id"] == NatToString(sessionId.value)
              && ("preferred_role" in p ==> p["preferred_role"] == roleFilter)
              && ("status" in p ==> p["status"] == statusFilter)
  {
  }
}
