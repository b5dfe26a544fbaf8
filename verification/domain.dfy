/** The entities the analysis produces and the UI renders. */
module Domain {

  /** A character extracted by the language model. `importance` is free
      text: "main", "secondary" and "minor" are intended, nothing enforces it. */
  datatype Character = Character(
    name: string,
    aliases: seq<string>,
    description: string,
    importance: string)

  /** A relationship between two characters. Neither endpoint is checked
      against the character list, and `significance` (intended 1-10) is not
      range-checked. */
  datatype Interaction = Interaction(
    character1: string,
    character2: string,
    relationship: string,
    nature: string,
    significance: real)

  /** The Tailwind class strings of the badges, one token per distinct string. */
  datatype BadgeClass =
    | GreenBadge    // green-100 background, green-800 text
    | BlueBadge     // blue-100 background, blue-800 text
    | GreyBadge     // gray-100 background, gray-800 text, gray-800 dark background
    | RedBadge      // red-100 background, red-800 text
    | YellowBadge   // yellow-100 background, yellow-800 text
    | PinkBadge     // pink-100 background, pink-800 text
    | NeutralBadge  // gray-100 background, gray-800 text, gray-400 dark background

  /** The Tailwind class strings of the character cards. */
  datatype CardClass = GreenCard | BlueCard | GreyCard

  /** The three ways every importance-based style splits its input. */
  datatype Tier = MainTier | SecondaryTier | OtherTier

  /** Reference classification: exact (case-sensitive) match on the two
      styled values, everything else (including "minor") falls through. */
  function TierOf(importance: string): Tier {
    if importance == "main" then MainTier
    else if importance == "secondary" then SecondaryTier
    else OtherTier
  }
}
