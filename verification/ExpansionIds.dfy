/** Expanded ids never collide when every scope names its own members apart. */
module ExpansionIds {
  import opened Wrappers
  import opened JsonPatch
  import opened Expansion

  type Segment = Identity.Segment

  // ---------------------------------------------------------------------------------------------
  // Names of one scope.

  /** The first segments that a node's expansion puts after its scope's prefix. */
  function Heads(node: Node): set<Segment>
    decreases node, 1
  {
    match node
    case Leaf(id, _) => {Identity.Node(id)}
    case Branch(id, _, children) => {Identity.Node(id)} + HeadsAll(children)
    case Instance(id, _, _, _) => {Identity.Node(id)}
    case Placeholder(slot) => {Identity.Slot(slot)}
  }

  function HeadsAll(nodes: seq<Node>): set<Segment>
    decreases nodes, 0
  {
    if nodes == [] then {} else Heads(nodes[0]) + HeadsAll(nodes[1..])
  }

  /** Names are non-empty, no two nodes or placeholders of the scope share one, and the content handed to each slot
      is such a scope of its own. */
  predicate WellNamed(node: Node)
    decreases node, 1
  {
    match node
    case Leaf(id, _) => id != ""
    case Branch(id, _, children) => id != "" && Identity.Node(id) !in HeadsAll(children) && WellNamedAll(children)
    case Instance(id, _, _, fills) => id != "" && WellNamedFills(fills)
    case Placeholder(slot) => slot != ""
  }

  predicate WellNamedAll(nodes: seq<Node>)
    decreases nodes, 0
  {
    nodes == [] || (WellNamed(nodes[0]) && Heads(nodes[0]) !! HeadsAll(nodes[1..]) && WellNamedAll(nodes[1..]))
  }

  predicate WellNamedFills(fills: seq<Fill>)
    decreases fills, 0
  {
    fills == [] || (WellNamedAll(fills[0].nodes) && WellNamedFills(fills[1..]))
  }

  predicate WellNamedRegistry(config: Config) {
    forall key :: key in config.registry ==> WellNamed(config.registry[key].template)
  }

  lemma {:induction false} SubstitutionKeepsNames(node: Node, parameters: map<string, Json>)
    ensures Heads(SubstituteNode(node, parameters)) == Heads(node)
    ensures WellNamed(SubstituteNode(node, parameters)) == WellNamed(node)
    decreases node, 1
  {
    match node
    case Leaf(_, _) =>
    case Branch(_, _, children) => SubstitutionKeepsAllNames(children, parameters);
    case Instance(_, _, _, fills) => SubstitutionKeepsFillNames(fills, parameters);
    case Placeholder(_) =>
  }

  lemma {:induction false} SubstitutionKeepsAllNames(nodes: seq<Node>, parameters: map<string, Json>)
    ensures HeadsAll(SubstituteNodes(nodes, parameters)) == HeadsAll(nodes)
    ensures WellNamedAll(SubstituteNodes(nodes, parameters)) == WellNamedAll(nodes)
    decreases nodes, 0
  {
    if nodes != [] {
      SubstitutionKeepsNames(nodes[0], parameters);
      SubstitutionKeepsAllNames(nodes[1..], parameters);
      assert SubstituteNodes(nodes, parameters)[1..] == SubstituteNodes(nodes[1..], parameters);
    }
  }

  lemma {:induction false} SubstitutionKeepsFillNames(fills: seq<Fill>, parameters: map<string, Json>)
    ensures WellNamedFills(SubstituteFills(fills, parameters)) == WellNamedFills(fills)
    decreases fills, 0
  {
    if fills != [] {
      SubstitutionKeepsAllNames(fills[0].nodes, parameters);
      SubstitutionKeepsFillNames(fills[1..], parameters);
      assert SubstituteFills(fills, parameters)[1..] == SubstituteFills(fills[1..], parameters);
    }
  }

  lemma {:induction false} ContentIsWellNamed(fills: seq<Fill>, slot: string)
    requires WellNamedFills(fills)
    ensures WellNamedAll(FillOf(fills, slot))
  {
    if fills != [] && fills[0].slot != slot {
      ContentIsWellNamed(fills[1..], slot);
    }
  }

  // ---------------------------------------------------------------------------------------------
  // Distinct paths.

  predicate Distinct(paths: seq<Path>) {
    forall i, j :: 0 <= i < j < |paths| ==> paths[i] != paths[j]
  }

  predicate Named(path: Path) {
    forall k :: 0 <= k < |path| ==> path[k].value != ""
  }

  /** Every path goes on after the prefix, with one of these segments. */
  predicate Under(paths: seq<Path>, prefix: Path, heads: set<Segment>) {
    forall k :: 0 <= k < |paths| ==>
      |paths[k]| > |prefix| && prefix <= paths[k] && paths[k][|prefix|] in heads && Named(paths[k])
  }

  predicate AtOrUnder(paths: seq<Path>, prefix: Path) {
    forall k :: 0 <= k < |paths| ==> prefix <= paths[k] && Named(paths[k])
  }

  lemma UnderApart(a: seq<Path>, b: seq<Path>, prefix: Path, left: set<Segment>, right: set<Segment>)
    requires Distinct(a) && Distinct(b) && Under(a, prefix, left) && Under(b, prefix, right) && left !! right
    ensures Distinct(a + b) && Under(a + b, prefix, left + right)
  {
  }

  lemma AtOrUnderHead(paths: seq<Path>, prefix: Path, head: Segment)
    requires AtOrUnder(paths, prefix + [head])
    ensures Under(paths, prefix, {head})
  {
    forall k | 0 <= k < |paths| ensures |paths[k]| > |prefix| && prefix <= paths[k] && paths[k][|prefix|] == head {
      assert prefix + [head] <= paths[k];
      assert paths[k][..|prefix| + 1] == prefix + [head];
    }
  }

  ghost predicate ScopeReady(scope: Scope) {
    Named(scope.prefix) && (scope.slots.Some? ==> WellNamedFills(scope.slots.value.fills))
  }

  /** The emitted paths are distinct, named, and lie under the scope's prefix at the node's own names. */
  ghost predicate KeptApart(paths: seq<Path>, scope: Scope, heads: set<Segment>, isRoot: bool) {
    && Distinct(paths) && AtOrUnder(paths, scope.prefix)
    && (!isRoot ==> Under(paths, scope.prefix, heads))
  }

  lemma PlainNodeApart(paths: seq<Path>, scope: Scope, id: string, heads: set<Segment>, isRoot: bool)
    requires id != "" && Named(scope.prefix) && Distinct(paths) && Under(paths, scope.prefix, heads)
    requires !isRoot ==> Identity.Node(id) !in heads
    ensures var path := if isRoot then scope.prefix else scope.prefix + [Identity.Node(id)];
            KeptApart([path] + paths, scope, {Identity.Node(id)} + heads, isRoot)
  {
  }

  lemma NestedApart(paths: seq<Path>, scope: Scope, head: Segment, isRoot: bool)
    requires Distinct(paths) && AtOrUnder(paths, scope.prefix + [head])
    ensures KeptApart(paths, scope, {head}, isRoot)
  {
    AtOrUnderHead(paths, scope.prefix, head);
  }

  lemma NothingApart(facts: seq<Fact>, scope: Scope, heads: set<Segment>, isRoot: bool)
    requires OnlyProblems(facts)
    ensures KeptApart(EmittedPaths(facts), scope, heads, isRoot)
  {
    ProblemsEmitNothing(facts);
  }

  lemma InstanceKeepsApart(config: Config, node: Node, scope: Scope, stack: seq<Key>, local: Local, isRoot: bool)
    requires Nesting(config, stack) && node.Instance? && Opens(config, node.key, stack)
    requires var definition := config.registry[node.key];
             var template := Instantiated(config, node);
             var inner := Expand(config, template, TemplateScope(scope, node, definition), stack + [node.key], EMPTY, true);
             var paths := EmittedPaths(inner.facts);
             Distinct(paths) && AtOrUnder(paths, scope.prefix + [Identity.Node(node.id)])
    ensures KeptApart(EmittedPaths(Expand(config, node, scope, stack, local, isRoot).facts), scope, {Identity.Node(node.id)}, isRoot)
  {
    var definition := config.registry[node.key];
    var template := Instantiated(config, node);
    var inner := Expand(config, template, TemplateScope(scope, node, definition), stack + [node.key], EMPTY, true);
    EmitsLikeItsTemplate(config, node, scope, stack, local, isRoot);
    NestedApart(EmittedPaths(inner.facts), scope, Identity.Node(node.id), isRoot);
  }

  lemma LeafApart(config: Config, node: Node, scope: Scope, stack: seq<Key>, local: Local, isRoot: bool)
    requires Nesting(config, stack) && node.Leaf? && WellNamed(node) && Named(scope.prefix)
    ensures KeptApart(EmittedPaths(Expand(config, node, scope, stack, local, isRoot).facts), scope, Heads(node), isRoot)
  {
    var facts := Expand(config, node, scope, stack, local, isRoot).facts;
    PlainNodeApart([], scope, node.id, {}, isRoot);
    assert facts[1..] == [];
    assert EmittedPaths(facts) == [facts[0].path] + [];
    assert Heads(node) == {Identity.Node(node.id)} + {};
  }

  lemma BranchApart(config: Config, node: Node, scope: Scope, stack: seq<Key>, local: Local, isRoot: bool)
    requires Nesting(config, stack) && node.Branch? && WellNamed(node) && Named(scope.prefix)
    requires var path := if isRoot then scope.prefix else scope.prefix + [Identity.Node(node.id)];
             var paths := EmittedPaths(ExpandList(config, node.children, scope, stack, Record(local, scope, node.id, path)).facts);
             Distinct(paths) && Under(paths, scope.prefix, HeadsAll(node.children))
    ensures KeptApart(EmittedPaths(Expand(config, node, scope, stack, local, isRoot).facts), scope, Heads(node), isRoot)
  {
    var path := if isRoot then scope.prefix else scope.prefix + [Identity.Node(node.id)];
    var inner := ExpandList(config, node.children, scope, stack, Record(local, scope, node.id, path));
    PlainNodeApart(EmittedPaths(inner.facts), scope, node.id, HeadsAll(node.children), isRoot);
    var self := Emitted(path, node.id, scope.owner);
    EmittedConcat([self], inner.facts);
    assert [self][1..] == [];
    assert EmittedPaths([self]) == [path];
  }

  lemma PlaceholderApart(config: Config, node: Node, scope: Scope, stack: seq<Key>, local: Local, isRoot: bool)
    requires Nesting(config, stack) && node.Placeholder? && scope.slots.Some? && node.slot in scope.slots.value.declared
    requires var content := FillOf(scope.slots.value.fills, node.slot);
             var paths := EmittedPaths(ExpandList(config, content, SlotScope(scope, node.slot), stack, CountUse(local, node.slot)).facts);
             Distinct(paths) && AtOrUnder(paths, scope.prefix + [Identity.Slot(node.slot)])
    ensures KeptApart(EmittedPaths(Expand(config, node, scope, stack, local, isRoot).facts), scope, Heads(node), isRoot)
  {
    var used := CountUse(local, node.slot);
    var repeated := if used.uses[node.slot] > 1 then [Problem(DuplicatePlaceholder)] else [];
    var inner := ExpandList(config, FillOf(scope.slots.value.fills, node.slot), SlotScope(scope, node.slot), stack, used);
    EmittedConcat(repeated, inner.facts);
    ProblemsEmitNothing(repeated);
    NestedApart(EmittedPaths(inner.facts), scope, Identity.Slot(node.slot), isRoot);
  }

  lemma {:induction false} ExpansionKeepsApart(config: Config, node: Node, scope: Scope, stack: seq<Key>, local: Local, isRoot: bool)
    requires Nesting(config, stack) && WellNamedRegistry(config) && WellNamed(node) && ScopeReady(scope)
    ensures KeptApart(EmittedPaths(Expand(config, node, scope, stack, local, isRoot).facts), scope, Heads(node), isRoot)
    decreases Unopened(config, stack), if scope.slots.Some? then 1 else 0, node, 1
  {
    if node.Leaf? {
      LeafApart(config, node, scope, stack, local, isRoot);
    } else if node.Branch? {
      var path := if isRoot then scope.prefix else scope.prefix + [Identity.Node(node.id)];
      ExpansionKeepsAllApart(config, node.children, scope, stack, Record(local, scope, node.id, path));
      BranchApart(config, node, scope, stack, local, isRoot);
    } else if node.Placeholder? && scope.slots.Some? && node.slot in scope.slots.value.declared {
      var content := FillOf(scope.slots.value.fills, node.slot);
      ContentIsWellNamed(scope.slots.value.fills, node.slot);
      ExpansionKeepsAllApart(config, content, SlotScope(scope, node.slot), stack, CountUse(local, node.slot));
      PlaceholderApart(config, node, scope, stack, local, isRoot);
    } else if node.Instance? && Opens(config, node.key, stack) {
      var definition := config.registry[node.key];
      var parameters := Resolve(definition.parameters, node.parameters);
      SubstitutionKeepsNames(definition.template, parameters);
      OpeningTakesOne(config, stack, node.key);
      ExpansionKeepsApart(config, SubstituteNode(definition.template, parameters), TemplateScope(scope, node, definition),
                          stack + [node.key], EMPTY, true);
      InstanceKeepsApart(config, node, scope, stack, local, isRoot);
    } else {
      NothingApart(Expand(config, node, scope, stack, local, isRoot).facts, scope, Heads(node), isRoot);
    }
  }

  lemma {:induction false} ExpansionKeepsAllApart(config: Config, nodes: seq<Node>, scope: Scope, stack: seq<Key>, local: Local)
    requires Nesting(config, stack) && WellNamedRegistry(config) && WellNamedAll(nodes) && ScopeReady(scope)
    ensures var paths := EmittedPaths(ExpandList(config, nodes, scope, stack, local).facts);
            Distinct(paths) && Under(paths, scope.prefix, HeadsAll(nodes)) && AtOrUnder(paths, scope.prefix)
    decreases Unopened(config, stack), if scope.slots.Some? then 1 else 0, nodes, 0
  {
    if nodes != [] {
      var first := Expand(config, nodes[0], scope, stack, local, false);
      var rest := ExpandList(config, nodes[1..], scope, stack, first.local);
      ExpansionKeepsApart(config, nodes[0], scope, stack, local, false);
      ExpansionKeepsAllApart(config, nodes[1..], scope, stack, first.local);
      EmittedConcat(first.facts, rest.facts);
      UnderApart(EmittedPaths(first.facts), EmittedPaths(rest.facts), scope.prefix, Heads(nodes[0]), HeadsAll(nodes[1..]));
    }
  }

  // ---------------------------------------------------------------------------------------------
  // Duplicate reports.

  /** The diagnostics the shared context collects: problems as they come, and one per id registered before. */
  function Diagnose(facts: seq<Fact>): seq<Code> {
    if facts == [] then []
    else
      var front, last := facts[..|facts| - 1], facts[|facts| - 1];
      Diagnose(front)
      + match last {
          case Emitted(path, _, _) => if Identity.Render(path) in EmittedIds(front) then [DuplicateNodeId] else []
          case Problem(code) => [code]
          case Published(_, _, _) => []
        }
  }

  function EmittedIds(facts: seq<Fact>): set<string> {
    if facts == [] then {}
    else
      var last := facts[|facts| - 1];
      EmittedIds(facts[..|facts| - 1]) + if last.Emitted? then {Identity.Render(last.path)} else {}
  }

  predicate DistinctIds(paths: seq<Path>) {
    forall i, j :: 0 <= i < j < |paths| ==> Identity.Render(paths[i]) != Identity.Render(paths[j])
  }

  lemma {:induction false} EmittedIdsMeaning(facts: seq<Fact>)
    ensures forall id :: id in EmittedIds(facts) <==>
                         exists k :: 0 <= k < |EmittedPaths(facts)| && Identity.Render(EmittedPaths(facts)[k]) == id
  {
    if facts != [] {
      var front, last := facts[..|facts| - 1], facts[|facts| - 1];
      EmittedIdsMeaning(front);
      LastPath(facts);
      var paths := EmittedPaths(facts);
      forall id ensures id in EmittedIds(facts) <==> exists k :: 0 <= k < |paths| && Identity.Render(paths[k]) == id {
        if id in EmittedIds(front) {
          var k :| 0 <= k < |EmittedPaths(front)| && Identity.Render(EmittedPaths(front)[k]) == id;
          assert paths[k] == EmittedPaths(front)[k];
        } else if last.Emitted? && id == Identity.Render(last.path) {
          assert paths[|paths| - 1] == last.path;
        }
      }
    }
  }

  lemma LastPath(facts: seq<Fact>)
    requires facts != []
    ensures var front, last := facts[..|facts| - 1], facts[|facts| - 1];
            EmittedPaths(facts) == EmittedPaths(front) + if last.Emitted? then [last.path] else []
  {
    var front, last := facts[..|facts| - 1], facts[|facts| - 1];
    assert facts == front + [last];
    EmittedConcat(front, [last]);
    assert [last][1..] == [];
  }

  /** The point of namespacing. When every template, every slot's content and the view name their own members apart,
      the expanded ids are pairwise distinct, however deeply definitions are nested. */
  lemma ExpandedIdsNeverCollide(config: Config, view: Node)
    requires WellNamedRegistry(config) && WellNamed(view)
    ensures DistinctIds(PreorderAll(ExpandView(config, view).trees))
    ensures forall k :: 0 <= k < |PreorderAll(ExpandView(config, view).trees)| ==>
              Identity.ValidPath(PreorderAll(ExpandView(config, view).trees)[k])
  {
    ExpansionKeepsApart(config, view, VIEW, [], EMPTY, false);
    EmitsItsTree(config, view, VIEW, [], EMPTY, false);
    var paths := PreorderAll(ExpandView(config, view).trees);
    forall i, j | 0 <= i < j < |paths| ensures Identity.Render(paths[i]) != Identity.Render(paths[j]) {
      if Identity.Render(paths[i]) == Identity.Render(paths[j]) {
        Identity.RenderIsInjective(paths[i], paths[j]);
      }
    }
  }

  /** Decoding the id of an expanded node gives back the instances, slots and local id that lead to it. */
  lemma ExpandedIdsDecode(config: Config, view: Node, k: nat)
    requires WellNamedRegistry(config) && WellNamed(view)
    requires k < |PreorderAll(ExpandView(config, view).trees)|
    ensures var path := PreorderAll(ExpandView(config, view).trees)[k];
            Identity.DecodeId(Identity.Render(path)) == Some(path)
  {
    ExpandedIdsNeverCollide(config, view);
    Identity.IdRoundTrip(PreorderAll(ExpandView(config, view).trees)[k]);
  }
}
