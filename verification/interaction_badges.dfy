/** The badge classifiers of `interactions/utils.ts`. */
module InteractionBadges {
  import opened Domain
  import opened Ascii
  import GraphUtils

  /** Relationship badge, chosen by the lower-cased nature label. */
  function RelationshipBadgeClasses(nature: string): (r: BadgeClass)
    ensures r == GreenBadge <==> Lower(nature) == "allies" || Lower(nature) == "friends"
    ensures r == RedBadge <==> Lower(nature) == "enemies" || Lower(nature) == "rivals"
    ensures r == BlueBadge <==> Lower(nature) == "family"
    ensures r == PinkBadge <==> Lower(nature) == "romantic"
    ensures r == NeutralBadge <==> Lower(nature) !in GraphUtils.ColouredNatures
  {
    var natureLower := Lower(nature);
    if natureLower == "allies" || natureLower == "friends" then GreenBadge
    else if natureLower == "enemies" || natureLower == "rivals" then RedBadge
    else if natureLower == "family" then BlueBadge
    else if natureLower == "romantic" then PinkBadge
    else NeutralBadge
  }

  /** Labels equal ignoring case share a badge. */
  lemma RelationshipBadgeIgnoresCase(a: string, b: string)
    requires EqualIgnoringCase(a, b)
    ensures RelationshipBadgeClasses(a) == RelationshipBadgeClasses(b)
  {
    LowerIdentifies(a, b);
  }

  /** The badge and the graph's edge colour split the labels into the same
      five classes, so the list view and the graph agree. */
  lemma BadgeAgreesWithEdgeColor(a: string, b: string)
    ensures RelationshipBadgeClasses(a) == RelationshipBadgeClasses(b)
      <==> GraphUtils.EdgeColor(a) == GraphUtils.EdgeColor(b)
  {
  }

  /** Significance badge: at least 8 red, at least 5 yellow, else blue. */
  function SignificanceBadgeClasses(significance: real): (r: BadgeClass)
    ensures r == RedBadge <==> 8.0 <= significance
    ensures r == YellowBadge <==> 5.0 <= significance < 8.0
    ensures r == BlueBadge <==> significance < 5.0
  {
    if significance >= 8.0 then RedBadge
    else if significance >= 5.0 then YellowBadge
    else BlueBadge
  }

  /** The position of a significance badge in the order blue < yellow < red. */
  function Level(b: BadgeClass): nat {
    match b
    case RedBadge => 2
    case YellowBadge => 1
    case _ => 0
  }

  /** Banding is monotone: a more significant relationship never gets a
      lower badge. */
  lemma SignificanceMonotone(s1: real, s2: real)
    requires s1 <= s2
    ensures Level(SignificanceBadgeClasses(s1)) <= Level(SignificanceBadgeClasses(s2))
  {
  }
}
