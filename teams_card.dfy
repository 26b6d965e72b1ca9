/** A team's card in the carousel: its description shortened for the card. */
module TeamsCard {
  import opened Text

  const DescriptionLimit := 120

  /** `shortDescription`. */
  function ShortDescription(description: string): (r: string)
  {
    Truncate(description, DescriptionLimit)
  }

  /**
   * A description of at most 120 characters is shown whole; a longer one shows its first
   * 120 characters and `...`; the card never shows more than 123 characters.
   */
  lemma ShortDescriptionExact(description: string)
    ensures |description| <= DescriptionLimit ==> ShortDescription(description) == description
    ensures |description| > DescriptionLimit ==>
              ShortDescription(description) == description[..DescriptionLimit] + "..."
    ensures |ShortDescription(description)| <= DescriptionLimit + 3
    ensures |description| > DescriptionLimit ==> ShortDescription(description)[..DescriptionLimit] == description[..DescriptionLimit]
  {
    TruncateLaws(description, DescriptionLimit);
  }
}
