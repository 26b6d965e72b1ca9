/**
 * The teams section: a carousel over the five teams that wraps around at both ends, and
 * the executive members picked from the public student list by title.
 */
module TeamSection {
  import opened Common
  import opened Text
  import opened Seqs
  import TeamPage

  /** The titles of the five teams, in carousel order. */
  const TeamTitles: seq<string> :=
    ["Code Hub", "Social Media and Marketing", "Events and Logistics", "Graphics and Media", "Decor and Registration"]

  const TeamCount := 5

  /** The titles that make a student an executive member, in upper case. */
  const ExecutiveTitles: seq<string> :=
    ["PRESIDENT", "VICE PRESIDENT", "SECRETARY", "TREASURER", "DIRECTOR OPERATIONS", "COORDINATOR"]

  /** `m => m.title && executiveTitles.includes(m.title.toUpperCase())`. */
  function IsExecutive(): TeamPage.PublicStudent -> bool
  {
    (m: TeamPage.PublicStudent) => m.title.Some? && m.title.value != "" && Upper(m.title.value) in ExecutiveTitles
  }

  /** The members listed under Executive. */
  function Executives(students: seq<TeamPage.PublicStudent>): (r: seq<TeamPage.PublicStudent>)
  {
    Filter(students, IsExecutive())
  }

  /**
   * Exactly the students whose title, in upper case, is an executive title are listed,
   * in the server's order; a student without a title never is.
   */
  lemma ExecutivesExact(students: seq<TeamPage.PublicStudent>)
    ensures forall m :: m in Executives(students) <==>
              m in students && m.title.Some? && Upper(m.title.value) in ExecutiveTitles
    ensures IsSubsequence(Executives(students), students)
  {
    forall m
      ensures m in Executives(students) <==> m in students && m.title.Some? && Upper(m.title.value) in ExecutiveTitles
    {
      FilterMembership(students, IsExecutive(), m);
      if m.title.Some? && m.title.value == "" {
        assert Upper(m.title.value) == "";
      }
    }
    FilterIsSubsequence(students, IsExecutive());
  }

  /** The carousel starts on the middle team. */
  const InitialIndex := TeamCount / 2

  /** `handleNext`: the next team, back to the first after the last. */
  function NextIndex(i: nat): (j: nat)
    requires i < TeamCount
    ensures j == (i + 1) % TeamCount
  {
    if i == TeamCount - 1 then 0 else i + 1
  }

  /** `handlePrev`: the previous team, on to the last before the first. */
  function PrevIndex(i: nat): (j: nat)
    requires i < TeamCount
    ensures j == (i + TeamCount - 1) % TeamCount
  {
    if i == 0 then TeamCount - 1 else i - 1
  }

  /** Previous undoes next and next undoes previous; five steps either way come back. */
  lemma CarouselLaws(i: nat)
    requires i < TeamCount
    ensures PrevIndex(NextIndex(i)) == i && NextIndex(PrevIndex(i)) == i
    ensures NextIndex(NextIndex(NextIndex(NextIndex(NextIndex(i))))) == i
    ensures PrevIndex(PrevIndex(PrevIndex(PrevIndex(PrevIndex(i))))) == i
  {
  }

  /** The section's state: the carousel's position and the executive members. */
  class Section {
    var activeIndex: nat
    var members: seq<TeamPage.PublicStudent>
    var loading: bool

    ghost predicate Valid()
      reads this
    {
      activeIndex < TeamCount
    }

    constructor ()
      ensures Valid() && activeIndex == 2 && members == [] && loading
    {
      activeIndex := InitialIndex;
      members := [];
      loading := true;
    }

    /** `fetchMembers`, given the public student list or a failure: the executives, or no change; loading ends. */
    method FetchMembers(answer: Option<seq<TeamPage.PublicStudent>>)
      requires Valid()
      modifies this
      ensures Valid() && !loading && activeIndex == old(activeIndex)
      ensures answer.Some? ==> members == Executives(answer.value)
      ensures answer.None? ==> members == old(members)
    {
      loading := true;
      if answer.Some? {
        members := Executives(answer.value);
      }
      loading := false;
    }

    method Next()
      requires Valid()
      modifies this
      ensures Valid() && activeIndex == NextIndex(old(activeIndex)) && members == old(members)
    {
      activeIndex := NextIndex(activeIndex);
    }

    method Prev()
      requires Valid()
      modifies this
      ensures Valid() && activeIndex == PrevIndex(old(activeIndex)) && members == old(members)
    {
      activeIndex := PrevIndex(activeIndex);
    }

    /** The active card opens the page of its team, whose title names a club. */
    function OpenedTitle(): (title: string)
      requires Valid()
      reads this
      ensures title in TeamPage.ClubMap
    {
      TeamTitles[activeIndex]
    }
  }

  /** Every team of the carousel opens a page that lists a club, and different teams list different clubs. */
  lemma EveryTeamHasClub(i: nat, j: nat)
    requires i < TeamCount && j < TeamCount && i != j
    ensures TeamTitles[i] in TeamPage.ClubMap && TeamTitles[j] in TeamPage.ClubMap
    ensures TeamPage.ClubMap[TeamTitles[i]] != TeamPage.ClubMap[TeamTitles[j]]
  {
  }
}
