/** The importance styles of `characters/utils.ts`. */
module CharacterCards {
  import opened Domain

  /** Card style: "main" green, "secondary" blue, any other value grey. */
  function CardClasses(importance: string): (r: CardClass)
    ensures r == GreenCard <==> TierOf(importance) == MainTier
    ensures r == BlueCard <==> TierOf(importance) == SecondaryTier
    ensures r == GreyCard <==> TierOf(importance) == OtherTier
  {
    match importance
    case "main" => GreenCard
    case "secondary" => BlueCard
    case _ => GreyCard
  }

  /** Badge style, split the same three ways. */
  function ImportanceBadgeClasses(importance: string): (r: BadgeClass)
    ensures r == GreenBadge <==> TierOf(importance) == MainTier
    ensures r == BlueBadge <==> TierOf(importance) == SecondaryTier
    ensures r == GreyBadge <==> TierOf(importance) == OtherTier
  {
    match importance
    case "main" => GreenBadge
    case "secondary" => BlueBadge
    case _ => GreyBadge
  }

  /** Two importance values share a card style iff they share a badge style. */
  lemma CardMatchesBadge(a: string, b: string)
    ensures CardClasses(a) == CardClasses(b) <==> ImportanceBadgeClasses(a) == ImportanceBadgeClasses(b)
  {
  }
}
