/** The static graph of definitions against the nesting of an expansion: the graph leaves slot content out, and with the
    links that slot content adds an acyclic graph rules every cycle out. */
module NestingGraph {
  import opened Wrappers
  import opened JsonPatch
  import opened Expansion
  import opened ExpansionMeaning
  import opened ExpansionNesting
  import opened DefinitionCycles

  // ---------------------------------------------------------------------------------------------
  // Edges.

  /** The definitions a node instantiates; the content handed to an instance is not looked into. */
  function KeysIn(node: Node): set<Key>
    decreases node, 1
  {
    match node
    case Leaf(_, _) => {}
    case Branch(_, _, children) => KeysInAll(children)
    case Instance(_, key, _, _) => {key}
    case Placeholder(_) => {}
  }

  function KeysInAll(nodes: seq<Node>): set<Key>
    decreases nodes, 0
  {
    if nodes == [] then {} else KeysIn(nodes[0]) + KeysInAll(nodes[1..])
  }

  /** The edges recorded for a template, in document order. */
  function TemplateEdges(node: Node, place: seq<nat>): seq<Edge>
    decreases node, 1
  {
    match node
    case Leaf(_, _) => []
    case Branch(_, _, children) => ChildEdges(children, place, 0)
    case Instance(_, key, _, _) => [Edge(key, place)]
    case Placeholder(_) => []
  }

  function ChildEdges(nodes: seq<Node>, place: seq<nat>, index: nat): seq<Edge>
    decreases nodes, 0
  {
    if nodes == [] then [] else TemplateEdges(nodes[0], place + [index]) + ChildEdges(nodes[1..], place, index + 1)
  }

  function DefinitionGraph(registry: map<Key, Definition>): Graph {
    map key | key in registry :: TemplateEdges(registry[key].template, [])
  }

  predicate LeadsTo(edges: seq<Edge>, key: Key) {
    exists n :: 0 <= n < |edges| && edges[n].key == key
  }

  lemma LeadsToEither(a: seq<Edge>, b: seq<Edge>, key: Key)
    ensures LeadsTo(a + b, key) <==> LeadsTo(a, key) || LeadsTo(b, key)
  {
    var whole := a + b;
    if LeadsTo(a, key) {
      var n :| 0 <= n < |a| && a[n].key == key;
      assert whole[n].key == key;
    }
    if LeadsTo(b, key) {
      var n :| 0 <= n < |b| && b[n].key == key;
      assert whole[|a| + n].key == key;
    }
  }

  /** The recorded edges lead to exactly the definitions the template instantiates. */
  lemma {:induction false} TemplateEdgesMeaning(node: Node, place: seq<nat>, key: Key)
    ensures LeadsTo(TemplateEdges(node, place), key) <==> key in KeysIn(node)
    decreases node, 1
  {
    match node
    case Branch(_, _, children) => ChildEdgesMeaning(children, place, 0, key);
    case Instance(_, other, _, _) => assert TemplateEdges(node, place)[0] == Edge(other, place);
    case Leaf(_, _) =>
    case Placeholder(_) =>
  }

  /** The node at a place of a template, found through the children on the way. */
  function At(node: Node, place: seq<nat>): Option<Node>
    decreases |place|
  {
    if place == [] then Some(node)
    else if node.Branch? && place[0] < |node.children| then At(node.children[place[0]], place[1..])
    else None
  }

  predicate InstanceAt(node: Node, place: seq<nat>, key: Key) {
    At(node, place).Some? && At(node, place).value.Instance? && At(node, place).value.key == key
  }

  /** An edge is recorded for every instance, with the place where it stands, and for nothing else. */
  lemma {:induction false} EdgesHavePlaces(node: Node, place: seq<nat>, rest: seq<nat>, key: Key)
    ensures Edge(key, place + rest) in TemplateEdges(node, place) <==> InstanceAt(node, rest, key)
    decreases node, 1
  {
    match node
    case Branch(_, _, children) =>
      ChildEdgesHavePlaces(children, place, 0, rest, key);
    case Instance(_, _, _, _) =>
      assert place + rest == place <==> rest == [];
    case _ =>
  }

  lemma {:induction false} ChildEdgesHavePlaces(nodes: seq<Node>, place: seq<nat>, index: nat, rest: seq<nat>, key: Key)
    ensures Edge(key, place + rest) in ChildEdges(nodes, place, index) <==>
            rest != [] && index <= rest[0] < index + |nodes| && InstanceAt(nodes[rest[0] - index], rest[1..], key)
    decreases nodes, 0
  {
    if nodes != [] {
      ChildEdgesHavePlaces(nodes[1..], place, index + 1, rest, key);
      if rest != [] && rest[0] == index {
        EdgesHavePlaces(nodes[0], place + [index], rest[1..], key);
        assert place + [index] + rest[1..] == place + rest;
      } else {
        EdgesElsewhere(nodes[0], place, index, rest, key);
      }
    }
  }

  lemma EdgesElsewhere(node: Node, place: seq<nat>, index: nat, rest: seq<nat>, key: Key)
    requires rest == [] || rest[0] != index
    ensures Edge(key, place + rest) !in TemplateEdges(node, place + [index])
  {
    assert !(place + [index] <= place + rest) by {
      assert (place + [index])[|place|] == index && (rest != [] ==> (place + rest)[|place|] == rest[0]);
    }
    if Edge(key, place + rest) in TemplateEdges(node, place + [index]) {
      EdgesStartThere(node, place + [index], Edge(key, place + rest));
    }
  }

  lemma {:induction false} EdgesStartThere(node: Node, place: seq<nat>, edge: Edge)
    requires edge in TemplateEdges(node, place)
    ensures place <= edge.place
    decreases node, 1
  {
    if node.Branch? {
      ChildEdgesStartThere(node.children, place, 0, edge);
    }
  }

  lemma {:induction false} ChildEdgesStartThere(nodes: seq<Node>, place: seq<nat>, index: nat, edge: Edge)
    requires edge in ChildEdges(nodes, place, index)
    ensures place <= edge.place
    decreases nodes, 0
  {
    if edge in TemplateEdges(nodes[0], place + [index]) {
      EdgesStartThere(nodes[0], place + [index], edge);
      assert place <= place + [index];
    } else {
      ChildEdgesStartThere(nodes[1..], place, index + 1, edge);
    }
  }

  lemma {:induction false} ChildEdgesMeaning(nodes: seq<Node>, place: seq<nat>, index: nat, key: Key)
    ensures LeadsTo(ChildEdges(nodes, place, index), key) <==> key in KeysInAll(nodes)
    decreases nodes, 0
  {
    if nodes != [] {
      TemplateEdgesMeaning(nodes[0], place + [index], key);
      ChildEdgesMeaning(nodes[1..], place, index + 1, key);
      LeadsToEither(TemplateEdges(nodes[0], place + [index]), ChildEdges(nodes[1..], place, index + 1), key);
    }
  }

  // ---------------------------------------------------------------------------------------------
  // Links through slot content.

  /** A host's definition and the definition of an instance handed to one of its slots, for every host in the node. */
  function Handed(node: Node): set<(Key, Key)>
    decreases node, 1
  {
    match node
    case Leaf(_, _) => {}
    case Branch(_, _, children) => HandedAll(children)
    case Instance(_, key, _, fills) => HandedFills(key, fills)
    case Placeholder(_) => {}
  }

  function HandedAll(nodes: seq<Node>): set<(Key, Key)>
    decreases nodes, 0
  {
    if nodes == [] then {} else Handed(nodes[0]) + HandedAll(nodes[1..])
  }

  function HandedFills(host: Key, fills: seq<Fill>): set<(Key, Key)>
    decreases fills, 0
  {
    if fills == [] then {}
    else (set guest | guest in KeysInAll(fills[0].nodes) :: (host, guest)) + HandedAll(fills[0].nodes) + HandedFills(host, fills[1..])
  }

  lemma {:induction false} SubstitutionKeepsKeys(node: Node, parameters: map<string, Json>)
    ensures KeysIn(SubstituteNode(node, parameters)) == KeysIn(node)
    ensures Handed(SubstituteNode(node, parameters)) == Handed(node)
    decreases node, 1
  {
    match node
    case Branch(_, _, children) => SubstitutionKeepsAllKeys(children, parameters);
    case Instance(_, key, _, fills) => SubstitutionKeepsHanded(key, fills, parameters);
    case Leaf(_, _) =>
    case Placeholder(_) =>
  }

  lemma {:induction false} SubstitutionKeepsAllKeys(nodes: seq<Node>, parameters: map<string, Json>)
    ensures KeysInAll(SubstituteNodes(nodes, parameters)) == KeysInAll(nodes)
    ensures HandedAll(SubstituteNodes(nodes, parameters)) == HandedAll(nodes)
    decreases nodes, 0
  {
    if nodes != [] {
      SubstitutionKeepsKeys(nodes[0], parameters);
      SubstitutionKeepsAllKeys(nodes[1..], parameters);
      assert SubstituteNodes(nodes, parameters)[1..] == SubstituteNodes(nodes[1..], parameters);
    }
  }

  lemma {:induction false} SubstitutionKeepsHanded(host: Key, fills: seq<Fill>, parameters: map<string, Json>)
    ensures HandedFills(host, SubstituteFills(fills, parameters)) == HandedFills(host, fills)
    decreases fills, 0
  {
    if fills != [] {
      SubstitutionKeepsAllKeys(fills[0].nodes, parameters);
      SubstitutionKeepsHanded(host, fills[1..], parameters);
      assert SubstituteFills(fills, parameters)[1..] == SubstituteFills(fills[1..], parameters);
    }
  }

  // ---------------------------------------------------------------------------------------------
  // Members, told from keys.

  lemma {:induction false} DirectMembers(node: Node, m: Node)
    requires m in Members(node, None)
    ensures m.key in KeysIn(node) && Handed(m) <= Handed(node)
    decreases node, 1
  {
    if node.Branch? {
      DirectMembersAll(node.children, m);
    }
  }

  lemma {:induction false} DirectMembersAll(nodes: seq<Node>, m: Node)
    requires m in MembersAll(nodes, None)
    ensures m.key in KeysInAll(nodes) && Handed(m) <= HandedAll(nodes)
    decreases nodes, 0
  {
    if m in Members(nodes[0], None) {
      DirectMembers(nodes[0], m);
    } else {
      DirectMembersAll(nodes[1..], m);
    }
  }

  lemma {:induction false} ContentMembers(host: Key, fills: seq<Fill>, slot: string, m: Node)
    requires m in MembersAll(FillOf(fills, slot), None)
    ensures (host, m.key) in HandedFills(host, fills) && Handed(m) <= HandedFills(host, fills)
  {
    if fills[0].slot == slot {
      DirectMembersAll(fills[0].nodes, m);
    } else {
      ContentMembers(host, fills[1..], slot, m);
    }
  }

  /** A member is the node's own or was handed in. */
  ghost predicate OwnOrHanded(m: Node, keys: set<Key>, handed: set<(Key, Key)>, host: Key, fills: seq<Fill>)
    requires m.Instance?
  {
    || (m.key in keys && Handed(m) <= handed)
    || ((host, m.key) in HandedFills(host, fills) && Handed(m) <= HandedFills(host, fills))
  }

  lemma {:induction false} MemberSources(node: Node, slots: SlotContext, host: Key, m: Node)
    requires m in Members(node, Some(slots))
    ensures OwnOrHanded(m, KeysIn(node), Handed(node), host, slots.fills)
    decreases node, 1
  {
    match node
    case Branch(_, _, children) => MemberSourcesAll(children, slots, host, m);
    case Placeholder(slot) => ContentMembers(host, slots.fills, slot, m);
    case Instance(_, _, _, _) =>
    case Leaf(_, _) =>
  }

  lemma {:induction false} MemberSourcesAll(nodes: seq<Node>, slots: SlotContext, host: Key, m: Node)
    requires m in MembersAll(nodes, Some(slots))
    ensures OwnOrHanded(m, KeysInAll(nodes), HandedAll(nodes), host, slots.fills)
    decreases nodes, 0
  {
    if m in Members(nodes[0], Some(slots)) {
      MemberSources(nodes[0], slots, host, m);
    } else {
      MemberSourcesAll(nodes[1..], slots, host, m);
    }
  }

  // ---------------------------------------------------------------------------------------------
  // Acyclic nestings.

  /** The graph has the edges of the templates, and an edge for every instance that the view or a template hands to
      another. */
  ghost predicate Covers(graph: Graph, config: Config, view: Node) {
    && (forall key :: key in config.registry ==> key in graph)
    && (forall key, guest :: key in config.registry && guest in KeysIn(config.registry[key].template) ==> HasEdge(graph, key, guest))
    && (forall link :: link in Handed(view) && link.0 in config.registry ==> HasEdge(graph, link.0, link.1))
    && (forall key, link :: key in config.registry && link in Handed(config.registry[key].template) && link.0 in config.registry ==>
          HasEdge(graph, link.0, link.1))
  }

  /** What the instance hands on was handed on in the view or a template. */
  ghost predicate KnownLinks(graph: Graph, config: Config, instance: Node) {
    forall link :: link in Handed(instance) && link.0 in config.registry ==> HasEdge(graph, link.0, link.1)
  }

  lemma GuestIsEdge(graph: Graph, config: Config, view: Node, host: Node, guest: Node)
    requires Covers(graph, config, view) && host.Instance? && host.key in config.registry
    requires guest in Guests(config, host) && KnownLinks(graph, config, host)
    ensures HasEdge(graph, host.key, guest.key) && KnownLinks(graph, config, guest)
  {
    var definition := config.registry[host.key];
    SubstitutionKeepsKeys(definition.template, Resolve(definition.parameters, host.parameters));
    MemberSources(Instantiated(config, host), SlotContext(DeclaredSlots(definition.slots), host.fills), host.key, guest);
  }

  lemma {:induction false} TrailIsWalk(graph: Graph, config: Config, view: Node, trail: seq<Node>, i: nat)
    requires Covers(graph, config, view) && NestedIn(config, view, trail) && i < |trail|
    ensures KnownLinks(graph, config, trail[i])
    ensures i > 0 ==> HasEdge(graph, trail[i - 1].key, trail[i].key)
  {
    if i == 0 {
      DirectMembers(view, trail[0]);
    } else {
      TrailIsWalk(graph, config, view, trail, i - 1);
      assert trail[i - 1 + 1] in Guests(config, trail[i - 1]);
      GuestIsEdge(graph, config, view, trail[i - 1], trail[i]);
    }
  }

  /** A walk that comes back to a definition closes a cycle. */
  lemma ClosedWalk(graph: Graph, keys: seq<Key>, j: nat)
    requires j < |keys| - 1 && keys[j] == keys[|keys| - 1]
    requires forall i :: 0 < i < |keys| ==> HasEdge(graph, keys[i - 1], keys[i])
    ensures Cyclic(graph)
  {
    var walk := keys[j..|keys| - 1];
    forall i | 0 <= i < |walk| ensures walk[i] in graph && HasEdge(graph, walk[i], if i == |walk| - 1 then walk[0] else walk[i + 1]) {
      assert walk[i] == keys[j + i + 1 - 1];
      assert HasEdge(graph, keys[j + i + 1 - 1], keys[j + i + 1]);
    }
    assert IsCycle(graph, walk);
  }

  lemma RepetitionIsCycle(graph: Graph, config: Config, view: Node, trail: seq<Node>)
    requires Covers(graph, config, view) && NestedIn(config, view, trail) && Repeats(config, Keys(trail))
    ensures Cyclic(graph)
  {
    var keys, n := Keys(trail), |trail| - 1;
    var j :| 0 <= j < n && keys[..n][j] == keys[n];
    forall i | 0 < i < |keys| ensures HasEdge(graph, keys[i - 1], keys[i]) {
      TrailIsWalk(graph, config, view, trail, i);
    }
    ClosedWalk(graph, keys, j);
  }

  /** The static guarantee: if the graph of the definitions, extended by an edge from host to guest for all slot content, has
      no cycle, the expander reports none. */
  lemma AcyclicNestingNeverCycles(graph: Graph, config: Config, view: Node)
    requires Covers(graph, config, view) && !Cyclic(graph)
    ensures Problem(CycleFound) !in ExpandView(config, view).facts
  {
    CyclesAreRepetitions(config, view);
    forall trail | NestedIn(config, view, trail) ensures !Repeats(config, Keys(trail)) {
      if Repeats(config, Keys(trail)) {
        RepetitionIsCycle(graph, config, view, trail);
      }
    }
  }

  ghost predicate NothingHanded(config: Config, view: Node) {
    Handed(view) == {} && forall key :: key in config.registry ==> Handed(config.registry[key].template) == {}
  }

  /** Where no instance is handed to another, the search over the definitions is all it takes. */
  lemma SearchIsEnoughWithoutGuests(config: Config, view: Node)
    requires NothingHanded(config, view) && !Cyclic(DefinitionGraph(config.registry))
    ensures Problem(CycleFound) !in ExpandView(config, view).facts
  {
    var graph := DefinitionGraph(config.registry);
    forall key, guest | key in config.registry && guest in KeysIn(config.registry[key].template) ensures HasEdge(graph, key, guest) {
      TemplateEdgesMeaning(config.registry[key].template, [], guest);
    }
    AcyclicNestingNeverCycles(graph, config, view);
  }

  // ---------------------------------------------------------------------------------------------
  // What the search over the definitions cannot see.

  lemma {:induction false} PlaceholderHoldsContent(node: Node, slots: SlotContext, slot: string)
    requires slot in slots.declared && Placeholders(node, slot) > 0
    ensures MembersAll(FillOf(slots.fills, slot), None) <= Members(node, Some(slots))
    decreases node, 1
  {
    if node.Branch? {
      PlaceholdersHoldContent(node.children, slots, slot);
    }
  }

  lemma {:induction false} PlaceholdersHoldContent(nodes: seq<Node>, slots: SlotContext, slot: string)
    requires slot in slots.declared && PlaceholdersAll(nodes, slot) > 0
    ensures MembersAll(FillOf(slots.fills, slot), None) <= MembersAll(nodes, Some(slots))
    decreases nodes, 0
  {
    if Placeholders(nodes[0], slot) > 0 {
      PlaceholderHoldsContent(nodes[0], slots, slot);
    } else {
      PlaceholdersHoldContent(nodes[1..], slots, slot);
    }
  }

  /** Slot content is expanded while its host is open: wherever a template places a slot, an instance handed to that slot of
      an instance of its own definition is a cycle, whatever the definition graph says. */
  lemma SelfInOwnSlotIsACycle(config: Config, view: Node, host: Node, guest: Node, slot: string)
    requires host in Members(view, None) && host.key in config.registry && (config.maxDepth.None? || config.maxDepth.value >= 1)
    requires slot in DeclaredSlots(config.registry[host.key].slots) && Placeholders(config.registry[host.key].template, slot) > 0
    requires guest in MembersAll(FillOf(host.fills, slot), None) && guest.key == host.key
    ensures Problem(CycleFound) in ExpandView(config, view).facts
  {
    var definition := config.registry[host.key];
    SubstitutionKeepsPlaceholders(definition.template, Resolve(definition.parameters, host.parameters), slot);
    PlaceholderHoldsContent(Instantiated(config, host), SlotContext(DeclaredSlots(definition.slots), host.fills), slot);
    var trail := [host, guest];
    assert trail[0 + 1] in Guests(config, trail[0]);
    assert NestedIn(config, view, trail);
    assert Keys(trail) == [host.key, guest.key] && Keys(trail)[..1] == [host.key];
    CyclesAreRepetitions(config, view);
  }
}
