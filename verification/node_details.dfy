/** The relationship panel of `CharacterNodeDetails.tsx`: the interactions
    of the selected character, the other party of each, and the badges. */
module NodeDetails {
  import opened Domain
  import opened Seqs
  import GraphUtils
  import CharacterCards
  import InteractionBadges

  /** The interaction has `name` as one of its endpoints. */
  function Involves(name: string): Interaction -> bool {
    (i: Interaction) => i.character1 == name || i.character2 == name
  }

  /** The interactions involving `name`: all of them, and only them, in
      their original order. */
  function CharacterInteractions(name: string, interactions: seq<Interaction>): (r: seq<Interaction>)
    ensures forall k :: 0 <= k < |r| ==> r[k].character1 == name || r[k].character2 == name
    ensures var kept := Kept(interactions, Involves(name));
      && |r| == |kept|
      && Positions(kept, |interactions|)
      && (forall k :: 0 <= k < |r| ==> r[k] == interactions[kept[k]])
      && (forall j :: 0 <= j < |interactions| ==>
            (interactions[j].character1 == name || interactions[j].character2 == name <==> j in kept))
  {
    KeptWitness(interactions, Involves(name));
    Filter(interactions, Involves(name))
  }

  /** The other party of an interaction, seen from `name`. */
  function OtherCharacter(i: Interaction, name: string): (r: string)
    ensures r == i.character1 || r == i.character2
    ensures r == name <==> i.character1 == name && i.character2 == name
    ensures Involves(name)(i) ==> multiset{name, r} == multiset{i.character1, i.character2}
  {
    if i.character1 == name then i.character2 else i.character1
  }

  /** This panel's own importance badge switch. */
  function ImportanceBadgeClass(importance: string): BadgeClass {
    match importance
    case "main" => GreenBadge
    case "secondary" => BlueBadge
    case _ => GreyBadge
  }

  /** The three copies of the importance badge agree on every value. */
  lemma ImportanceBadgesAgree(importance: string)
    ensures ImportanceBadgeClass(importance) == GraphUtils.ImportanceBadgeClass(importance)
    ensures ImportanceBadgeClass(importance) == CharacterCards.ImportanceBadgeClasses(importance)
  {
  }

  /** The inline significance badge of the panel. */
  function SignificanceBadge(significance: real): BadgeClass {
    if significance >= 8.0 then RedBadge
    else if significance >= 5.0 then YellowBadge
    else BlueBadge
  }

  /** The panel bands significance exactly like `getSignificanceBadgeClasses`. */
  lemma SignificanceBadgeAgrees(significance: real)
    ensures SignificanceBadge(significance) == InteractionBadges.SignificanceBadgeClasses(significance)
  {
  }

  /** One row of the relationship list. */
  datatype Row = Row(other: string, badge: BadgeClass, relationship: string, nature: string)

  /** The rows of the panel, one per interaction involving the character. */
  function Rows(c: Character, interactions: seq<Interaction>): (r: seq<Row>)
    ensures var mine := CharacterInteractions(c.name, interactions);
      && |r| == |mine|
      && forall k :: 0 <= k < |r| ==>
        && multiset{c.name, r[k].other} == multiset{mine[k].character1, mine[k].character2}
        && r[k].badge == InteractionBadges.SignificanceBadgeClasses(mine[k].significance)
        && r[k].relationship == mine[k].relationship && r[k].nature == mine[k].nature
  {
    var mine := CharacterInteractions(c.name, interactions);
    seq(|mine|, k requires 0 <= k < |mine| =>
      Row(OtherCharacter(mine[k], c.name), SignificanceBadge(mine[k].significance),
          mine[k].relationship, mine[k].nature))
  }
}
