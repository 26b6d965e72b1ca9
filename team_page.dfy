/**
 * A team's page: the team title in the address picks a club, and the page lists the
 * students of that club with their designation.
 */
module TeamPage {
  import opened Common
  import opened Seqs

  /** A student as the public student list gives it. */
  datatype PublicStudent = PublicStudent(userId: nat, fullName: string, title: Option<string>,
                                         profilePic: string, club: Option<string>)

  /** A card's data on the page. */
  datatype Member = Member(id: nat, name: string, designation: string, image: string)

  /** The team titles and the club each stands for on the server. */
  const ClubMap: map<string, string> := map[
    "Code Hub" := "codehub",
    "Graphics and Media" := "graphics_and_media",
    "Social Media and Marketing" := "social_media_and_marketing",
    "Decor and Registration" := "registration_and_decor",
    "Events and Logistics" := "events_and_logistics"
  ]

  /** `clubMap[title]`, `undefined` for a title not listed. */
  function ClubOf(title: string): (club: Option<string>)
    ensures club.Some? <==> title in ClubMap
  {
    if title in ClubMap then Some(ClubMap[title]) else None
  }

  /** Different teams stand for different clubs. */
  lemma ClubMapInjective(a: string, b: string)
    requires a in ClubMap && b in ClubMap && a != b
    ensures ClubMap[a] != ClubMap[b]
  {
  }

  /** `student => student.club === backendClub`. */
  function InClub(club: Option<string>): PublicStudent -> bool
  {
    (s: PublicStudent) => club.Some? && s.club == club
  }

  /** `student.title && student.title !== "NULL" ? student.title : ""`. */
  function Designation(title: Option<string>): (d: string)
  {
    if title.Some? && title.value != "" && title.value != "NULL" then title.value else ""
  }

  /** The designation is the title unless that is missing, empty or the text `NULL`. */
  lemma DesignationExact(title: Option<string>)
    ensures Designation(title) != "NULL"
    ensures Designation(title) == "" <==> title.None? || title.value == "" || title.value == "NULL"
    ensures Designation(title) != "" ==> title == Some(Designation(title))
  {
  }

  function ToMember(s: PublicStudent): (m: Member)
    ensures m.id == s.userId && m.name == s.fullName && m.image == s.profilePic
    ensures m.designation == Designation(s.title)
  {
    Member(s.userId, s.fullName, Designation(s.title), s.profilePic)
  }

  /** The members shown for a team title: its club's students, in the server's order. */
  function Members(students: seq<PublicStudent>, title: string): (r: seq<Member>)
    ensures |r| == Count(students, InClub(ClubOf(title)))
  {
    var kept := Filter(students, InClub(ClubOf(title)));
    seq(|kept|, i requires 0 <= i < |kept| => ToMember(kept[i]))
  }

  /**
   * The page shows exactly the students whose club is the team's, each with its own id,
   * name and picture; a title that names no team shows no one.
   */
  lemma MembersExact(students: seq<PublicStudent>, title: string)
    ensures title in ClubMap ==>
              forall s :: s in students && s.club == Some(ClubMap[title]) ==> ToMember(s) in Members(students, title)
    ensures forall m :: m in Members(students, title) ==>
              exists s :: s in students && s.club == ClubOf(title) && s.club.Some? && m == ToMember(s)
    ensures title !in ClubMap ==> Members(students, title) == []
  {
    var kept := Filter(students, InClub(ClubOf(title)));
    var r := Members(students, title);
    forall s | s in students && title in ClubMap && s.club == Some(ClubMap[title])
      ensures ToMember(s) in r
    {
      FilterMembership(students, InClub(ClubOf(title)), s);
      var i :| 0 <= i < |kept| && kept[i] == s;
      assert r[i] == ToMember(s);
    }
    forall m | m in r
      ensures exists s :: s in students && s.club == ClubOf(title) && s.club.Some? && m == ToMember(s)
    {
      var i :| 0 <= i < |r| && r[i] == m;
      FilterMembership(students, InClub(ClubOf(title)), kept[i]);
    }
    if title !in ClubMap && r != [] {
      FilterMembership(students, InClub(ClubOf(title)), kept[0]);
    }
  }

  /** The page's state. */
  class Page {
    var members: seq<Member>
    var loading: bool

    constructor ()
      ensures members == [] && loading
    {
      members := [];
      loading := true;
    }

    /** `fetchMembers` for the title in the address, given the public student list or a failure. */
    method FetchMembers(title: string, answer: Option<seq<PublicStudent>>)
      modifies this
      ensures !loading
      ensures answer.Some? ==> members == Members(answer.value, title)
      ensures answer.None? ==> members == old(members)
    {
      loading := true;
      if answer.Some? {
        members := Members(answer.value, title);
      }
      loading := false;
    }
  }
}
