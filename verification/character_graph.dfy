/** The graph set-up effect of `CharacterGraph.tsx` (the older, inline copy
    of the builders in `graph/utils.ts`): the character map, the initial
    nodes, the edges and the force-simulation links. */
module CharacterGraph {
  import opened Domain
  import opened Ascii
  import opened Seqs
  import Decimal
  import GraphUtils

  /** This file's own copy of the edge colour switch. */
  function EdgeColor(nature: string): string {
    match Lower(nature)
    case "allies" => GraphUtils.AlliedColor
    case "friends" => GraphUtils.AlliedColor
    case "enemies" => GraphUtils.HostileColor
    case "rivals" => GraphUtils.HostileColor
    case "family" => GraphUtils.FamilyColor
    case "romantic" => GraphUtils.RomanticColor
    case _ => GraphUtils.DefaultColor
  }

  /** The copy agrees with `graph/utils.ts` on every label. */
  lemma EdgeColorAgrees(nature: string)
    ensures EdgeColor(nature) == GraphUtils.EdgeColor(nature)
  {
  }

  /** Character `k` is the last one in the list with its name. */
  predicate LastWithName(characters: seq<Character>, k: nat)
    requires k < |characters|
  {
    forall j :: k < j < |characters| ==> characters[j].name != characters[k].name
  }

  /** `characters.forEach(c => characterMap.set(c.name, c))`. */
  function CharacterMap(characters: seq<Character>): map<string, Character>
    decreases |characters|
  {
    if |characters| == 0 then map[]
    else
      var n := |characters| - 1;
      CharacterMap(characters[..n])[characters[n].name := characters[n]]
  }

  /** Every character's name is a key of the character map. */
  lemma {:induction false} NamesAreKeys(characters: seq<Character>)
    ensures forall k :: 0 <= k < |characters| ==> characters[k].name in CharacterMap(characters)
    decreases |characters|
  {
    if |characters| > 0 {
      var n := |characters| - 1;
      NamesAreKeys(characters[..n]);
      assert forall k :: 0 <= k < n ==> characters[..n][k] == characters[k];
    }
  }

  /** Every key of the character map is some character's name. */
  lemma {:induction false} KeysAreNames(characters: seq<Character>, name: string)
    requires name in CharacterMap(characters)
    ensures exists k :: 0 <= k < |characters| && characters[k].name == name
    decreases |characters|
  {
    var n := |characters| - 1;
    if name != characters[n].name {
      KeysAreNames(characters[..n], name);
      var k :| 0 <= k < n && characters[..n][k].name == name;
      assert characters[k].name == name;
    }
  }

  /** A repeated name maps to the last character carrying it. */
  lemma {:induction false} LastNameWins(characters: seq<Character>, k: nat)
    requires k < |characters| && LastWithName(characters, k)
    ensures characters[k].name in CharacterMap(characters)
    ensures CharacterMap(characters)[characters[k].name] == characters[k]
    decreases |characters|
  {
    var n := |characters| - 1;
    if k < n {
      var prefix := characters[..n];
      assert prefix[k] == characters[k];
      assert LastWithName(prefix, k) by {
        forall j | k < j < n ensures prefix[j].name != prefix[k].name {
          assert prefix[j] == characters[j];
        }
      }
      LastNameWins(prefix, k);
    }
  }

  /** The initial nodes, pushed one per character in `forEach` order. */
  function InitialNodes(characters: seq<Character>): seq<GraphUtils.Node>
    decreases |characters|
  {
    if |characters| == 0 then []
    else
      var n := |characters| - 1;
      InitialNodes(characters[..n]) + [GraphUtils.Node(characters[n].name, "character", characters[n])]
  }

  /** The inline node loop builds the same nodes as `createNodes`. */
  lemma {:induction false} InitialNodesMatchUtils(characters: seq<Character>)
    ensures InitialNodes(characters) == GraphUtils.CreateNodes(characters)
    decreases |characters|
  {
    if |characters| > 0 {
      var n := |characters| - 1;
      InitialNodesMatchUtils(characters[..n]);
    }
  }

  /** The inline edge loop: an interaction with an unknown endpoint is
      skipped, and a kept one is numbered by its position in the list. */
  function InitialEdges(interactions: seq<Interaction>, characterMap: map<string, Character>): seq<GraphUtils.Edge>
    decreases |interactions|
  {
    if |interactions| == 0 then []
    else
      var n := |interactions| - 1;
      var edges := InitialEdges(interactions[..n], characterMap);
      var i := interactions[n];
      if !(i.character1 in characterMap) || !(i.character2 in characterMap) then edges
      else edges + [InlineEdge(i, GraphUtils.EdgeId(n))]
  }

  /** The edge the inline loop pushes, styled with this file's colour switch. */
  function InlineEdge(i: Interaction, id: string): GraphUtils.Edge {
    GraphUtils.Edge(id, i.character1, i.character2, i.nature, i.significance >= 8.0,
                    EdgeColor(i.nature), GraphUtils.StrokeWidth(i.significance))
  }

  /** The inline edge is the edge `graph/utils.ts` draws for the same
      interaction and id. */
  lemma InlineEdgeAgrees(i: Interaction, id: string)
    ensures InlineEdge(i, id) == GraphUtils.EdgeFrom(i, id)
  {
    EdgeColorAgrees(i.nature);
  }

  /** The k-th inline edge is built from the k-th kept interaction, under
      the id of that interaction's position in the UNFILTERED list. */
  lemma {:induction false} InitialEdgesFollowKept(interactions: seq<Interaction>, characterMap: map<string, Character>)
    ensures var kept := Kept(interactions, GraphUtils.KnownIn(characterMap));
      var r := InitialEdges(interactions, characterMap);
      && |r| == |kept|
      && forall k :: 0 <= k < |r| ==>
        kept[k] < |interactions| && r[k] == InlineEdge(interactions[kept[k]], GraphUtils.EdgeId(kept[k]))
    decreases |interactions|
  {
    if |interactions| > 0 {
      var n := |interactions| - 1;
      var prefix := interactions[..n];
      var known := GraphUtils.KnownIn(characterMap);
      InitialEdgesFollowKept(prefix, characterMap);
      KeptPositions(prefix, known);
      var kp := Kept(prefix, known);
      var ep := InitialEdges(prefix, characterMap);
      var kept := Kept(interactions, known);
      var r := InitialEdges(interactions, characterMap);
      var tail := if known(interactions[n]) then [n] else [];
      assert kept == kp + tail;
      assert r == ep + (if known(interactions[n]) then [InlineEdge(interactions[n], GraphUtils.EdgeId(n))] else []);
      forall k | 0 <= k < |r|
        ensures kept[k] < |interactions| && r[k] == InlineEdge(interactions[kept[k]], GraphUtils.EdgeId(kept[k]))
      {
        if k < |ep| {
          assert kept[k] == kp[k] && r[k] == ep[k];
          assert prefix[kp[k]] == interactions[kp[k]];
        }
      }
    }
  }

  /** The inline edges are the edges of `createEdges` with only the ids
      changed; their ids are pairwise distinct, but may skip numbers. */
  lemma InitialEdgesVersusCreateEdges(interactions: seq<Interaction>, characterMap: map<string, Character>)
    ensures var inline := InitialEdges(interactions, characterMap);
      var utils := GraphUtils.CreateEdges(interactions, characterMap);
      var kept := Kept(interactions, GraphUtils.KnownIn(characterMap));
      && |inline| == |utils|
      && (forall k :: 0 <= k < |inline| ==> inline[k] == utils[k].(id := GraphUtils.EdgeId(kept[k])))
      && (forall a, b :: 0 <= a < b < |inline| ==> inline[a].id != inline[b].id)
  {
    var inline := InitialEdges(interactions, characterMap);
    var kept := Kept(interactions, GraphUtils.KnownIn(characterMap));
    var utils := GraphUtils.CreateEdges(interactions, characterMap);
    InitialEdgesFollowKept(interactions, characterMap);
    KeptPositions(interactions, GraphUtils.KnownIn(characterMap));
    forall k | 0 <= k < |inline|
      ensures inline[k] == utils[k].(id := GraphUtils.EdgeId(kept[k]))
    {
      GraphUtils.CreateEdgesAt(interactions, characterMap, k);
      InlineEdgeAgrees(interactions[kept[k]], GraphUtils.EdgeId(kept[k]));
    }
    forall a, b | 0 <= a < b < |inline|
      ensures inline[a].id != inline[b].id
    {
      GraphUtils.EdgeIdInjective(kept[a], kept[b]);
    }
  }

  /** The two builders give identical edges exactly when the kept
      interactions are the first ones of the list, with no skipped one
      before a kept one. */
  lemma SameEdgesIffNoGaps(interactions: seq<Interaction>, characterMap: map<string, Character>)
    ensures var kept := Kept(interactions, GraphUtils.KnownIn(characterMap));
      InitialEdges(interactions, characterMap) == GraphUtils.CreateEdges(interactions, characterMap)
      <==> kept == Range(|kept|)
  {
    var inline := InitialEdges(interactions, characterMap);
    var utils := GraphUtils.CreateEdges(interactions, characterMap);
    var kept := Kept(interactions, GraphUtils.KnownIn(characterMap));
    InitialEdgesVersusCreateEdges(interactions, characterMap);
    if inline == utils {
      forall k | 0 <= k < |kept|
        ensures kept[k] == k
      {
        assert inline[k].id == utils[k].id;
        GraphUtils.EdgeIdInjective(kept[k], k);
      }
    }
    if kept == Range(|kept|) {
      assert forall k :: 0 <= k < |inline| ==> inline[k] == utils[k];
    }
  }

  /** In particular, when every endpoint is known the two builders agree. */
  lemma AllKnownSameEdges(interactions: seq<Interaction>, characterMap: map<string, Character>)
    requires forall j :: 0 <= j < |interactions| ==>
      interactions[j].character1 in characterMap && interactions[j].character2 in characterMap
    ensures InitialEdges(interactions, characterMap) == GraphUtils.CreateEdges(interactions, characterMap)
  {
    KeepAll(interactions, GraphUtils.KnownIn(characterMap));
    SameEdgesIffNoGaps(interactions, characterMap);
  }

  /** A skipped interaction in front of a kept one makes the ids differ:
      the inline copy numbers the kept edge 1, `createEdges` numbers it 0. */
  lemma SkippedInteractionShiftsId()
    ensures var m := map["Alice" := Character("Alice", [], "", "main")];
      var interactions := [Interaction("Alice", "Hatter", "", "friends", 5.0),
                           Interaction("Alice", "Alice", "", "family", 5.0)];
      && InitialEdges(interactions, m)[0].id == "edge-1"
      && GraphUtils.CreateEdges(interactions, m)[0].id == "edge-0"
  {
    var m := map["Alice" := Character("Alice", [], "", "main")];
    var skipped := Interaction("Alice", "Hatter", "", "friends", 5.0);
    var kept := Interaction("Alice", "Alice", "", "family", 5.0);
    var interactions := [skipped, kept];
    var known := GraphUtils.KnownIn(m);
    assert !known(skipped) && known(kept);
    assert interactions[..1] == [skipped];
    assert [skipped][..0] == [];
    assert Kept([skipped], known) == [];
    assert Kept(interactions, known) == [1];
    assert Decimal.FromNat(1) == "1";
    assert Decimal.FromNat(0) == "0";
  }

  /** A link of the force simulation; `strength` is significance / 10. */
  datatype Link = Link(source: string, target: string, strength: real)

  /** The force links: the known interactions, filtered again. */
  function ForceLinks(interactions: seq<Interaction>, characterMap: map<string, Character>): (r: seq<Link>)
    ensures var known := Filter(interactions, GraphUtils.KnownIn(characterMap));
      && |r| == |known|
      && forall k :: 0 <= k < |r| ==>
        r[k].source == known[k].character1 && r[k].target == known[k].character2
        && r[k].strength == known[k].significance / 10.0
  {
    var known := Filter(interactions, GraphUtils.KnownIn(characterMap));
    seq(|known|, k requires 0 <= k < |known| =>
      Link(known[k].character1, known[k].character2, known[k].significance / 10.0))
  }

  /** The links pair up with the edges: same count, same order, same endpoints. */
  lemma LinksFollowEdges(interactions: seq<Interaction>, characterMap: map<string, Character>)
    ensures var links := ForceLinks(interactions, characterMap);
      var edges := InitialEdges(interactions, characterMap);
      && |links| == |edges|
      && forall k :: 0 <= k < |links| ==>
        links[k].source == edges[k].source && links[k].target == edges[k].target
  {
  }

  /** Everything the effect hands to React Flow and the simulation. */
  datatype Graph = Graph(nodes: seq<GraphUtils.Node>, edges: seq<GraphUtils.Edge>, links: seq<Link>)

  /** The set-up effect of `Flow`, without positions and physics. */
  function InitialGraph(characters: seq<Character>, interactions: seq<Interaction>): Graph {
    var m := CharacterMap(characters);
    Graph(InitialNodes(characters), InitialEdges(interactions, m), ForceLinks(interactions, m))
  }

  /** Every known name is the id of some initial node. */
  lemma KnownNamesAreNodes(characters: seq<Character>, name: string)
    requires name in CharacterMap(characters)
    ensures exists a :: a in InitialNodes(characters) && a.id == name
  {
    KeysAreNames(characters, name);
    InitialNodesMatchUtils(characters);
    var k :| 0 <= k < |characters| && characters[k].name == name;
    assert InitialNodes(characters)[k] in InitialNodes(characters);
  }

  /** Every edge and every link joins two nodes of the graph. */
  lemma EdgesJoinNodes(characters: seq<Character>, interactions: seq<Interaction>)
    ensures var g := InitialGraph(characters, interactions);
      && (forall e :: e in g.edges ==>
            (exists a :: a in g.nodes && a.id == e.source) && (exists b :: b in g.nodes && b.id == e.target))
      && (forall l :: l in g.links ==>
            (exists a :: a in g.nodes && a.id == l.source) && (exists b :: b in g.nodes && b.id == l.target))
  {
    var g := InitialGraph(characters, interactions);
    var m := CharacterMap(characters);
    LinksFollowEdges(interactions, m);
    forall e | e in g.edges
      ensures (exists a :: a in g.nodes && a.id == e.source) && (exists b :: b in g.nodes && b.id == e.target)
    {
      var k :| 0 <= k < |g.edges| && g.edges[k] == e;
      KnownNamesAreNodes(characters, e.source);
      KnownNamesAreNodes(characters, e.target);
    }
    forall l | l in g.links
      ensures (exists a :: a in g.nodes && a.id == l.source) && (exists b :: b in g.nodes && b.id == l.target)
    {
      var k :| 0 <= k < |g.links| && g.links[k] == l;
      KnownNamesAreNodes(characters, g.edges[k].source);
      KnownNamesAreNodes(characters, g.edges[k].target);
    }
  }
}
