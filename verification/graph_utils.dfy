/** The relationship-graph builders of `graph/utils.ts`: edge colours,
    the importance badge, node and edge construction. The force simulation
    and the circular node positions are not modelled. */
module GraphUtils {
  import opened Domain
  import opened Ascii
  import opened Seqs
  import Decimal

  const AlliedColor := "#22c55e"
  const HostileColor := "#ef4444"
  const FamilyColor := "#3b82f6"
  const RomanticColor := "#ec4899"
  const DefaultColor := "#9ca3af"

  /** The lower-cased natures that get a colour of their own. */
  const ColouredNatures: set<string> :=
    {"allies", "friends", "enemies", "rivals", "family", "romantic"}

  /** Stroke colour of an edge, chosen by the lower-cased nature label. */
  function EdgeColor(nature: string): (r: string)
    ensures r == AlliedColor <==> Lower(nature) == "allies" || Lower(nature) == "friends"
    ensures r == HostileColor <==> Lower(nature) == "enemies" || Lower(nature) == "rivals"
    ensures r == FamilyColor <==> Lower(nature) == "family"
    ensures r == RomanticColor <==> Lower(nature) == "romantic"
    ensures r == DefaultColor <==> Lower(nature) !in ColouredNatures
  {
    var n := Lower(nature);
    if n == "allies" || n == "friends" then AlliedColor
    else if n == "enemies" || n == "rivals" then HostileColor
    else if n == "family" then FamilyColor
    else if n == "romantic" then RomanticColor
    else DefaultColor
  }

  /** Labels that are equal ignoring case get the same colour; in particular
      upper- and lower-casing a label never changes its colour. */
  lemma EdgeColorIgnoresCase(a: string, b: string)
    requires EqualIgnoringCase(a, b)
    ensures EdgeColor(a) == EdgeColor(b)
    ensures EdgeColor(Upper(a)) == EdgeColor(a) == EdgeColor(Lower(a))
  {
    LowerIdentifies(a, b);
    CaseVariants(a);
    LowerIdentifies(Upper(a), a);
    LowerIdentifies(Lower(a), a);
  }

  /** Importance badge: "main" green, "secondary" blue, anything else grey. */
  function ImportanceBadgeClass(importance: string): (r: BadgeClass)
    ensures r == GreenBadge <==> TierOf(importance) == MainTier
    ensures r == BlueBadge <==> TierOf(importance) == SecondaryTier
    ensures r == GreyBadge <==> TierOf(importance) == OtherTier
  {
    match importance
    case "main" => GreenBadge
    case "secondary" => BlueBadge
    case _ => GreyBadge
  }

  /** A graph node; the position is left out. */
  datatype Node = Node(id: string, kind: string, character: Character)

  /** A graph edge with its style. */
  datatype Edge = Edge(
    id: string,
    source: string,
    target: string,
    labelText: string,
    animated: bool,
    stroke: string,
    strokeWidth: real)

  function NodeFor(c: Character): Node {
    Node(c.name, "character", c)
  }

  /** One node per character, in order, keyed by the character's name. */
  function CreateNodes(characters: seq<Character>): (r: seq<Node>)
    ensures |r| == |characters|
    ensures forall k :: 0 <= k < |r| ==>
      r[k].id == characters[k].name && r[k].kind == "character" && r[k].character == characters[k]
  {
    seq(|characters|, k requires 0 <= k < |characters| => NodeFor(characters[k]))
  }

  /** The id `edge-<n>` of an edge. */
  function EdgeId(n: nat): string {
    "edge-" + Decimal.FromNat(n)
  }

  /** Edge ids are distinct for distinct numbers. */
  lemma EdgeIdInjective(m: nat, n: nat)
    ensures EdgeId(m) == EdgeId(n) ==> m == n
  {
    if EdgeId(m) == EdgeId(n) {
      assert Decimal.FromNat(m) == EdgeId(m)[5..];
      assert Decimal.FromNat(n) == EdgeId(n)[5..];
      Decimal.Injective(m, n);
    }
  }

  /** `max(1, min(5, significance / 2))`: the width in [1, 5] closest to
      half the significance. */
  function StrokeWidth(significance: real): (w: real)
    ensures 1.0 <= w <= 5.0
    ensures 2.0 <= significance <= 10.0 ==> w == significance / 2.0
    ensures forall y: real :: 1.0 <= y <= 5.0 ==> Gap(w, significance) <= Gap(y, significance)
  {
    var half := significance / 2.0;
    var capped := if 5.0 < half then 5.0 else half;
    if 1.0 < capped then capped else 1.0
  }

  /** How far a width is from half the significance. */
  function Gap(width: real, significance: real): real {
    var half := significance / 2.0;
    if width < half then half - width else width - half
  }

  /** The edge drawn for one interaction, under the given id. */
  function EdgeFrom(i: Interaction, id: string): Edge {
    Edge(id, i.character1, i.character2, i.nature, i.significance >= 8.0,
         EdgeColor(i.nature), StrokeWidth(i.significance))
  }

  /** Both endpoints of the interaction are keys of the character map. */
  function KnownIn(characterMap: map<string, Character>): Interaction -> bool {
    (i: Interaction) => i.character1 in characterMap && i.character2 in characterMap
  }

  /** Edges for the interactions whose endpoints are both known characters,
      numbered consecutively from 0 after filtering. */
  function CreateEdges(interactions: seq<Interaction>, characterMap: map<string, Character>): (r: seq<Edge>)
    ensures var kept := Kept(interactions, KnownIn(characterMap));
      && |r| == |kept| <= |interactions|
      && Positions(kept, |interactions|)
      && forall k :: 0 <= k < |r| ==>
        var i := interactions[kept[k]];
        && r[k].id == EdgeId(k)
        && r[k].source == i.character1 && r[k].target == i.character2
        && r[k].source in characterMap && r[k].target in characterMap
        && r[k].labelText == i.nature
        && (r[k].animated <==> i.significance >= 8.0)
        && r[k].stroke == EdgeColor(i.nature)
        && 1.0 <= r[k].strokeWidth <= 5.0
  {
    KeptWitness(interactions, KnownIn(characterMap));
    var known := Filter(interactions, KnownIn(characterMap));
    seq(|known|, k requires 0 <= k < |known| => EdgeFrom(known[k], EdgeId(k)))
  }

  /** Edge k of `CreateEdges` is the edge drawn for the k-th kept
      interaction, under the id `edge-k`. */
  lemma CreateEdgesAt(interactions: seq<Interaction>, characterMap: map<string, Character>, k: nat)
    requires k < |CreateEdges(interactions, characterMap)|
    ensures var kept := Kept(interactions, KnownIn(characterMap));
      k < |kept| && kept[k] < |interactions|
      && CreateEdges(interactions, characterMap)[k] == EdgeFrom(interactions[kept[k]], EdgeId(k))
  {
    KeptWitness(interactions, KnownIn(characterMap));
  }

  /** The edge ids of `CreateEdges` are pairwise distinct. */
  lemma CreateEdgesIdsDistinct(interactions: seq<Interaction>, characterMap: map<string, Character>)
    ensures var r := CreateEdges(interactions, characterMap);
      forall a, b :: 0 <= a < b < |r| ==> r[a].id != r[b].id
  {
    var r := CreateEdges(interactions, characterMap);
    forall a, b | 0 <= a < b < |r|
      ensures r[a].id != r[b].id
    {
      EdgeIdInjective(a, b);
    }
  }
}
