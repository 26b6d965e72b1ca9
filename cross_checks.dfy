/**
 * How the browser's checks line up with the server's: the registration number format, the
 * status a submitted application is stored with, and who counts as an admin or a treasurer.
 */
module CrossChecks {
  import opened Common
  import Text
  import UserSerializers
  import Regform
  import RecruitmentModel
  import RecruitmentSerializers
  import RecruitmentManagement
  import Permissions
  import BlogCard
  import Sidebar
  import Accounts
  import UserViews
  import EditMemberModal

  /** Every roll number the server accepts also passes the sign-up form's own format check. */
  lemma RollNoPassesRegForm(s: string)
    requires UserSerializers.IsRollNo(s)
    ensures Regform.IsRegNo(s)
  {
    assert Text.IsUpperLetter(s[0]) && Text.IsUpperLetter(s[1]) by {
      assert s[..2] == "FA" || s[..2] == "SP";
      assert s[0] == s[..2][0] && s[1] == s[..2][1];
    }
    assert Text.IsUpperLetter(s[6]) && Text.IsUpperLetter(s[7]) by {
      assert s[6..8] == "CS" || s[6..8] == "AI" || s[6..8] == "SE";
      assert s[6] == s[6..8][0] && s[7] == s[6..8][1];
    }
  }

  /**
   * The converse fails: the form's own example number passes the form and is refused by the
   * server, which wants a FA or SP term and a BCS, BAI or BSE programme.
   */
  lemma RegFormExampleRefused(s: string)
    requires s == "AB12-ABS-000"
    ensures Regform.IsRegNo(s) && !UserSerializers.IsRollNo(s)
  {
    assert s[..2] == "AB";
  }

  /**
   * A submitted application is stored with the label "Under Review" rather than one of the
   * status column's choices; the management page still shows it as "Under Review".
   */
  lemma SubmittedStatusOutsideChoices(submitted: string)
    requires submitted == RecruitmentSerializers.SubmittedStatus
    ensures !RecruitmentModel.IsStatusChoice(submitted)
    ensures RecruitmentManagement.UiStatus(submitted) == "Under Review"
  {
    RecruitmentModel.StatusChoices(submitted);
    RecruitmentManagement.UnderReviewNormalizes(submitted);
  }

  /** An application stored with the default status is shown as "Under Review" too. */
  lemma DefaultStatusShown(default: string)
    requires default == RecruitmentModel.DefaultStatus()
    ensures RecruitmentManagement.UiStatus(default) == "Under Review"
  {
    RecruitmentManagement.UnderReviewShown(default);
  }

  /** The blog card's delete button shows for exactly the callers the server treats as admins. */
  lemma DeleteButtonMatchesAdmin(role: string, student: Option<Permissions.StudentInfo>)
    ensures BlogCard.CanDelete(Some(role)) <==> Permissions.IsAdmin(Permissions.SignedIn(role, student))
    ensures !BlogCard.CanDelete(None) && !Permissions.IsAdmin(Permissions.Anonymous)
  {
  }

  /**
   * The sidebar offers the finance pages on the same title test the server applies to the
   * bills: a profile whose title reads "TREASURER" in any case.
   */
  lemma FinanceMatchesTreasurer(role: string, club: string, userId: Option<int>, title: string)
    ensures Sidebar.IsTreasurer(Some(Sidebar.StudentProfile(userId, Some(title)))) <==>
            Permissions.IsTreasurer(Permissions.SignedIn(role, Some(Permissions.StudentInfo(club, Some(title))))) == Permissions.Allow
  {
    Permissions.TreasurerExact(Permissions.SignedIn(role, Some(Permissions.StudentInfo(club, Some(title)))));
  }

  /**
   * The member dialog sends its user edits under `user.<field>` keys, which the server's
   * PATCH parsing never reads: those edits reach the server as nothing to change.
   */
  lemma MemberDialogUserEditsDropped(u: Accounts.User, user: seq<(string, string)>, id: nat)
    ensures UserViews.ParseItems(u, EditMemberModal.Flatten(EditMemberModal.UserRecord(user, id)))
            == UserViews.PatchData(None, None, map[])
  {
    var items := EditMemberModal.Flatten(EditMemberModal.UserRecord(user, id));
    EditMemberModal.FlattenUser(user, id);
    forall i | 0 <= i < |items|
      ensures !UserViews.ReadKey(items[i].0)
    {
      assert items[i] in items;
      var k := items[i].0;
      assert k[..5] == "user.";
      assert k[4] == '.';
    }
    UserViews.ParseIgnoresOtherKeys(u, items);
  }
}
