/**
 * The dashboard sidebar: its title and links by role, the dropdown groups of a lead (only
 * one open at a time), which link and group are highlighted for the current address, and
 * the finance group that only a treasurer sees.
 */
module Sidebar {
  import opened Common
  import opened Text
  import opened Seqs

  const Admin := "ADMIN"
  const Lead := "LEAD"
  const Student := "STUDENT"
  const Treasurer := "TREASURER"

  /** `getDashboardTitle`. */
  function DashboardTitle(role: Option<string>): (t: string)
  {
    if role == Some(Admin) then "Admin Dashboard"
    else if role == Some(Lead) then "Lead Dashboard"
    else if role == Some(Student) then "Student Dashboard"
    else "Dashboard"
  }

  /** The three known roles have titles of their own, and every other role gets the plain one. */
  lemma DashboardTitleExact(role: Option<string>)
    ensures DashboardTitle(role) == "Dashboard" <==> role !in {Some(Admin), Some(Lead), Some(Student)}
    ensures DashboardTitle(role) == "Admin Dashboard" <==> role == Some(Admin)
    ensures DashboardTitle(role) == "Lead Dashboard" <==> role == Some(Lead)
    ensures DashboardTitle(role) == "Student Dashboard" <==> role == Some(Student)
  {
    assert "Admin Dashboard"[0] != "Dashboard"[0] && "Lead Dashboard"[0] != "Dashboard"[0];
    assert "Student Dashboard"[0] != "Dashboard"[0] && "Lead Dashboard"[0] != "Admin Dashboard"[0];
    assert "Student Dashboard"[0] != "Admin Dashboard"[0] && "Student Dashboard"[0] != "Lead Dashboard"[0];
  }

  /** `toggleDropdown`: the named dropdown closes when it is the open one, and opens otherwise. */
  function Toggle(prev: Option<string>, name: string): (r: Option<string>)
    ensures r == Some(name) <==> prev != Some(name)
    ensures r.Some? ==> r.value == name
  {
    if prev == Some(name) then None else Some(name)
  }

  /** Toggling the same dropdown twice puts back a closed sidebar or that dropdown open. */
  lemma ToggleTwice(prev: Option<string>, name: string)
    requires prev == None || prev == Some(name)
    ensures Toggle(Toggle(prev, name), name) == prev
  {
  }

  /** `isActive`: a link is highlighted on exactly its own address. */
  predicate IsActive(pathname: string, path: string)
  {
    pathname == path
  }

  /** `isGroupActive`: a group is highlighted when the address starts with one of its paths. */
  predicate IsGroupActive(pathname: string, paths: seq<string>)
  {
    exists i :: 0 <= i < |paths| && StartsWith(pathname, paths[i])
  }

  /** A highlighted link inside a group whose paths include it highlights the group too. */
  lemma ActiveLinkActivatesGroup(pathname: string, path: string, paths: seq<string>)
    requires path in paths && IsActive(pathname, path)
    ensures IsGroupActive(pathname, paths)
  {
    var i :| 0 <= i < |paths| && paths[i] == path;
    assert StartsWith(pathname, paths[i]);
  }

  /** A group is highlighted on every address below one of its paths. */
  lemma GroupActiveBelow(path: string, rest: string, paths: seq<string>)
    requires path in paths
    ensures IsGroupActive(path + rest, paths)
  {
    var i :| 0 <= i < |paths| && paths[i] == path;
    assert (path + rest)[..|path|] == path;
  }

  /** A dropdown group of the lead's navigation: its name, the paths that highlight it, and its links. */
  datatype Group = Group(name: string, paths: seq<string>, links: seq<string>)

  const AttendanceGroup := Group("attendance", ["/dashboard/mark-attendance", "/dashboard/meeting-history"],
                                 ["/dashboard/mark-attendance", "/dashboard/meeting-history"])
  const EventsGroup := Group("events", ["/dashboard/events"], ["/dashboard/events", "/dashboard/events/create"])
  const BlogsGroup := Group("blogs", ["/dashboard/myblog", "/dashboard/article", "/dashboard/blogs"],
                            ["/dashboard/myblog", "/dashboard/article", "/dashboard/blogs"])
  const MembersGroup := Group("members", ["/dashboard/members", "/dashboard/signup"],
                              ["/dashboard/members", "/dashboard/signup"])
  const FinanceGroup := Group("finance", ["/dashboard/bills"], ["/dashboard/bills", "/dashboard/bills/create"])

  /** `renderLeadNav`: four groups, and the finance group for a treasurer. */
  function LeadGroups(isTreasurer: bool): seq<Group>
  {
    [AttendanceGroup, EventsGroup, BlogsGroup, MembersGroup] + (if isTreasurer then [FinanceGroup] else [])
  }

  /** Every link of every lead group highlights its own group when it is the current address. */
  lemma LeadLinksActivateTheirGroup(isTreasurer: bool, g: Group, link: string)
    requires g in LeadGroups(isTreasurer) && link in g.links
    ensures IsGroupActive(link, g.paths)
  {
    if g == EventsGroup {
      GroupActiveBelow("/dashboard/events", if link == "/dashboard/events" then "" else "/create", g.paths);
    } else if g == FinanceGroup {
      GroupActiveBelow("/dashboard/bills", if link == "/dashboard/bills" then "" else "/create", g.paths);
    } else {
      ActiveLinkActivatesGroup(link, link, g.paths);
    }
  }

  /** The group names of the lead's navigation are all different, so one open name opens one group. */
  lemma LeadGroupNamesDistinct(isTreasurer: bool)
    ensures forall i, j :: 0 <= i < j < |LeadGroups(isTreasurer)| ==>
              LeadGroups(isTreasurer)[i].name != LeadGroups(isTreasurer)[j].name
  {
    var gs := LeadGroups(isTreasurer);
    assert gs[0].name[0] == 'a' && gs[1].name[0] == 'e' && gs[2].name[0] == 'b' && gs[3].name[0] == 'm';
    if isTreasurer {
      assert gs[4].name[0] == 'f';
    }
  }

  /** `renderAdminNav`. */
  const AdminLinks := ["/dashboard/recruitment", "/dashboard/hackathon", "/dashboard/student-week", "/dashboard/members",
                       "/dashboard/blogs", "/dashboard/events", "/dashboard/events/create", "/dashboard/signup",
                       "/dashboard/otp"]

  /** `renderStudentNav`. */
  const StudentLinks := ["/dashboard/article", "/dashboard/myblog", "/dashboard/blogs", "/dashboard/events"]

  /** The links shown to any other role. */
  const DefaultLinks := ["/dashboard/recruitment", "/dashboard/hackathon", "/dashboard/student-week"]

  /** The links inside the lead's groups, in order. */
  function LeadLinks(isTreasurer: bool): seq<string>
  {
    AttendanceGroup.links + EventsGroup.links + BlogsGroup.links + MembersGroup.links
    + (if isTreasurer then FinanceGroup.links else [])
  }

  /** `renderNavigation`: the addresses the sidebar links to, by role. */
  function Links(role: Option<string>, isTreasurer: bool): seq<string>
  {
    if role == Some(Admin) then AdminLinks
    else if role == Some(Lead) then LeadLinks(isTreasurer)
    else if role == Some(Student) then StudentLinks
    else DefaultLinks
  }

  /** An address under "/dashboard/bi": the bills pages. */
  predicate UnderBills(path: string)
  {
    |path| > 12 && path[11] == 'b' && path[12] == 'i'
  }

  /** Only a lead who is the treasurer is offered the bills, to view or to add. */
  lemma BillsOnlyForTreasurer(role: Option<string>, isTreasurer: bool)
    ensures "/dashboard/bills" in Links(role, isTreasurer) <==> role == Some(Lead) && isTreasurer
    ensures "/dashboard/bills/create" in Links(role, isTreasurer) <==> role == Some(Lead) && isTreasurer
  {
    assert UnderBills("/dashboard/bills") && UnderBills("/dashboard/bills/create");
    assert forall i :: 0 <= i < |AdminLinks| ==> !UnderBills(AdminLinks[i]);
    assert forall i :: 0 <= i < |StudentLinks| ==> !UnderBills(StudentLinks[i]);
    assert forall i :: 0 <= i < |DefaultLinks| ==> !UnderBills(DefaultLinks[i]);
    assert forall i :: 0 <= i < |LeadLinks(false)| ==> !UnderBills(LeadLinks(false)[i]);
    assert LeadLinks(true) == LeadLinks(false) + FinanceGroup.links;
  }

  /** A student profile as the student list gives it: the user's id (when a user is attached) and the title. */
  datatype StudentProfile = StudentProfile(userId: Option<int>, title: Option<string>)

  /** The student list's body: an array, or a single student that is wrapped into one. */
  datatype Payload = Many(students: seq<StudentProfile>) | One(student: StudentProfile)

  /** `Array.isArray(res.data) ? res.data : [res.data]`. */
  function Students(data: Payload): seq<StudentProfile>
  {
    match data
    case Many(students) => students
    case One(student) => [student]
  }

  /** `s => s.user && s.user.id === loggedInUserId`; an unparsable stored id matches nobody. */
  function OwnedBy(loggedInUserId: Option<int>): StudentProfile -> bool
  {
    (s: StudentProfile) => loggedInUserId.Some? && s.userId == loggedInUserId
  }

  /** `student?.title?.toUpperCase() === "TREASURER"`. */
  predicate IsTreasurer(student: Option<StudentProfile>)
  {
    student.Some? && student.value.title.Some? && Upper(student.value.title.value) == Treasurer
  }

  /** The treasurer check ignores letter case and needs a profile with a title. */
  lemma TreasurerIgnoresCase(title: string, userId: Option<int>)
    ensures IsTreasurer(Some(StudentProfile(userId, Some(title)))) <==>
            IsTreasurer(Some(StudentProfile(userId, Some(Upper(title)))))
    ensures IsTreasurer(Some(StudentProfile(userId, Some("treasurer"))))
    ensures !IsTreasurer(None) && !IsTreasurer(Some(StudentProfile(userId, None)))
  {
    UpperIdempotent(title);
    assert Upper("treasurer") == Treasurer;
  }

  /** The sidebar's state. */
  class Bar {
    const role: Option<string>
    const loggedInUserId: Option<int>
    var student: Option<StudentProfile>
    var activeDropdown: Option<string>

    constructor (role: Option<string>, loggedInUserId: Option<int>)
      ensures this.role == role && this.loggedInUserId == loggedInUserId
      ensures student == None && activeDropdown == None
    {
      this.role, this.loggedInUserId := role, loggedInUserId;
      student, activeDropdown := None, None;
    }

    /** The dropdown named `name` shows its links. */
    predicate IsOpen(name: string)
      reads this
    {
      activeDropdown == Some(name)
    }

    /**
     * `toggleDropdown`: afterwards the named dropdown is open exactly when it was closed, and
     * every other dropdown is closed, so at most one is ever open.
     */
    method ToggleDropdown(name: string)
      modifies this
      ensures activeDropdown == Toggle(old(activeDropdown), name)
      ensures IsOpen(name) <==> !old(IsOpen(name))
      ensures forall other :: other != name ==> !IsOpen(other)
      ensures student == old(student)
    {
      activeDropdown := Toggle(activeDropdown, name);
    }

    /** The profile fetch, given the list's body or a failure: the signed-in user's first profile, if found. */
    method FetchStudent(answer: Option<Payload>)
      modifies this
      ensures answer.Some? && FindFirst(Students(answer.value), OwnedBy(loggedInUserId)).Some? ==>
                student == FindFirst(Students(answer.value), OwnedBy(loggedInUserId))
      ensures answer.None? || FindFirst(Students(answer.value), OwnedBy(loggedInUserId)).None? ==>
                student == old(student)
      ensures student.Some? && student != old(student) ==> student.value.userId == loggedInUserId
      ensures activeDropdown == old(activeDropdown)
    {
      if answer.Some? {
        var found := FindFirst(Students(answer.value), OwnedBy(loggedInUserId));
        if found.Some? {
          student := found;
        }
      }
    }

    /** The finance group is offered to a lead whose profile's title is "treasurer" in any case. */
    predicate ShowsFinance()
      reads this
    {
      role == Some(Lead) && IsTreasurer(student)
    }

    /** The sidebar's links: the bills appear exactly when the finance group is offered. */
    function Navigation(): (links: seq<string>)
      reads this
      ensures "/dashboard/bills" in links <==> ShowsFinance()
    {
      BillsOnlyForTreasurer(role, IsTreasurer(student));
      Links(role, IsTreasurer(student))
    }
  }
}
