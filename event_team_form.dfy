/**
 * The event team registration form: the member-count field with its limits of 1 and 10, the
 * member list resized to match it, and per-member field edits.
 */
module EventTeamForm {
  import opened Text

  /** The fields of one team member. */
  datatype MemberField = Name | Registration | Semester | Department | Email | Phone

  type Member = map<MemberField, string>

  const AllFields: set<MemberField> := {Name, Registration, Semester, Department, Email, Phone}

  /** A member with every field empty. */
  function BlankMember(): (m: Member)
    ensures m.Keys == AllFields
    ensures forall f :: f in m ==> m[f] == ""
  {
    map[Name := "", Registration := "", Semester := "", Department := "", Email := "", Phone := ""]
  }

  const MinMembers := 1
  const MaxMembers := 10
  const MsgMax := "Max members 10"
  const MsgMin := "Min members 1"

  /** `resizeMembers`: blank members are added at the end, or the list is cut to `n`. */
  function Resize(members: seq<Member>, n: nat): (r: seq<Member>)
    ensures |r| == n
    ensures forall i :: 0 <= i < n && i < |members| ==> r[i] == members[i]
    ensures forall i :: |members| <= i < n ==> r[i] == BlankMember()
  {
    if n > |members| then members + seq(n - |members|, _ => BlankMember()) else members[..n]
  }

  /**
   * Resizing to the current size changes nothing; shrinking after a resize is one resize; and
   * growing then shrinking back returns the original members.
   */
  lemma ResizeLaws(members: seq<Member>, n: nat, k: nat)
    ensures Resize(members, |members|) == members
    ensures k <= n ==> Resize(Resize(members, n), k) == Resize(members, k)
    ensures |members| <= n ==> Resize(Resize(members, n), |members|) == members
  {
    assert members[..|members|] == members;
  }

  /** `handleMemberChange`: field `f` of member `i` takes `v`; nothing else changes. */
  function SetMember(members: seq<Member>, i: nat, f: MemberField, v: string): (r: seq<Member>)
    requires i < |members|
    ensures |r| == |members|
    ensures r[i] == members[i][f := v]
    ensures forall j :: 0 <= j < |members| && j != i ==> r[j] == members[j]
  {
    members[i := members[i][f := v]]
  }

  /** The state of the count field and the member list. */
  class TeamForm {
    var memberCount: nat
    var countInput: string
    var countError: string
    var members: seq<Member>

    /** The count stays within the limits and always equals the number of members. */
    ghost predicate Valid()
      reads this
    {
      MinMembers <= memberCount <= MaxMembers && |members| == memberCount
    }

    constructor ()
      ensures Valid() && memberCount == 2 && countInput == "2" && countError == ""
      ensures members == [BlankMember(), BlankMember()]
    {
      memberCount := 2;
      countInput := "2";
      countError := "";
      members := [BlankMember(), BlankMember()];
    }

    /** `handleMemberCountChange`: what the user typed into the count field. */
    method CountChange(raw: string)
      requires Valid()
      modifies this
      ensures Valid()
      ensures raw == "" ==> countInput == "" && countError == "" && memberCount == old(memberCount) && members == old(members)
      ensures raw != "" && !AllDigits(raw) ==>
                countInput == old(countInput) && countError == old(countError) && memberCount == old(memberCount) && members == old(members)
      ensures raw != "" && AllDigits(raw) && DigitsValue(raw) > MaxMembers ==>
                countError == MsgMax && countInput == NatToString(old(memberCount))
                && memberCount == old(memberCount) && members == old(members)
      ensures raw != "" && AllDigits(raw) && DigitsValue(raw) < MinMembers ==>
                countError == MsgMin && countInput == raw && memberCount == old(memberCount) && members == old(members)
      ensures raw != "" && AllDigits(raw) && MinMembers <= DigitsValue(raw) <= MaxMembers ==>
                countError == "" && countInput == raw && memberCount == DigitsValue(raw)
                && members == Resize(old(members), DigitsValue(raw))
    {
      if raw == "" {
        countInput := "";
        countError := "";
        return;
      }
      if !AllDigits(raw) {
        return;
      }
      var n := DigitsValue(raw);
      if n > MaxMembers {
        countError := MsgMax;
        countInput := NatToString(memberCount);
        return;
      }
      if n < MinMembers {
        countError := MsgMin;
        countInput := raw;
        return;
      }
      countError := "";
      countInput := raw;
      memberCount := n;
      members := Resize(members, n);
    }

    /** `handleMemberCountBlur`: leaving the count field clamps what it holds into the limits. */
    method CountBlur()
      requires Valid()
      modifies this
      ensures Valid()
      ensures countInput == NatToString(memberCount)
      ensures (old(countInput) == "" || !AllDigits(old(countInput))) ==>
                countError == "" && memberCount == old(memberCount) && members == old(members)
      ensures old(countInput) != "" && AllDigits(old(countInput)) ==>
                memberCount == Clamp(DigitsValue(old(countInput)))
                && members == Resize(old(members), memberCount)
                && countError == (if DigitsValue(old(countInput)) > MaxMembers then MsgMax
                                  else if DigitsValue(old(countInput)) < MinMembers then MsgMin else "")
    {
      var raw := countInput;
      if raw == "" || !AllDigits(raw) {
        countInput := NatToString(memberCount);
        countError := "";
        return;
      }
      var n := DigitsValue(raw);
      if n > MaxMembers {
        countError := MsgMax;
        n := MaxMembers;
      } else if n < MinMembers {
        countError := MsgMin;
        n := MinMembers;
      } else {
        countError := "";
      }
      memberCount := n;
      countInput := NatToString(n);
      members := Resize(members, n);
    }

    /** `handleMemberChange`. */
    method MemberChange(i: nat, f: MemberField, v: string)
      requires Valid() && i < |members|
      modifies this
      ensures Valid()
      ensures members == SetMember(old(members), i, f, v)
      ensures memberCount == old(memberCount) && countInput == old(countInput) && countError == old(countError)
    {
      members := SetMember(members, i, f, v);
    }
  }

  /** The count a value is clamped to on blur. */
  function Clamp(n: nat): (c: nat)
    ensures MinMembers <= c <= MaxMembers
    ensures MinMembers <= n <= MaxMembers ==> c == n
    ensures n > MaxMembers ==> c == MaxMembers
    ensures n < MinMembers ==> c == MinMembers
  {
    if n > MaxMembers then MaxMembers else if n < MinMembers then MinMembers else n
  }
}
