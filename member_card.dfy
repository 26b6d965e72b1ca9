/** A member's card on a team page: the designation shortened for the card. */
module MemberCard {
  import opened Common
  import opened Text

  const DesignationLimit := 50

  /** `shortDesc`: a missing or empty designation is passed through; a long one is shortened. */
  function ShortDesignation(designation: Option<string>): (r: Option<string>)
  {
    if designation.Some? && designation.value != "" then Some(Truncate(designation.value, DesignationLimit))
    else designation
  }

  /**
   * A missing or empty designation, and one of at most 50 characters, is shown as it is;
   * a longer one shows its first 50 characters and `...`, at most 53 characters in all.
   */
  lemma ShortDesignationExact(designation: Option<string>)
    ensures designation.None? || designation.value == "" || |designation.value| <= DesignationLimit ==>
              ShortDesignation(designation) == designation
    ensures designation.Some? && |designation.value| > DesignationLimit ==>
              ShortDesignation(designation) == Some(designation.value[..DesignationLimit] + "...")
    ensures ShortDesignation(designation).Some? ==> |ShortDesignation(designation).value| <= DesignationLimit + 3
  {
    if designation.Some? {
      TruncateLaws(designation.value, DesignationLimit);
    }
  }
}
