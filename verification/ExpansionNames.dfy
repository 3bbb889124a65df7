/** The local names an instance publishes, against which its exports are resolved. */
module ExpansionNames {
  import opened JsonPatch
  import opened Expansion
  import ControlTopology
  import ControlMount

  /** Ids declared in one template; the content handed to nested instances belongs elsewhere. */
  function LocalNames(node: Node): set<string>
    decreases node, 1
  {
    match node
    case Leaf(id, _) => {id}
    case Branch(id, _, children) => {id} + LocalNamesAll(children)
    case Instance(id, _, _, _) => {id}
    case Placeholder(_) => {}
  }

  function LocalNamesAll(nodes: seq<Node>): set<string>
    decreases nodes, 0
  {
    if nodes == [] then {} else LocalNames(nodes[0]) + LocalNamesAll(nodes[1..])
  }

  /** The root goes by the instance's id, every other node by its id in the instance's namespace. */
  function NameIn(prefix: Path, root: string, id: string): string {
    if id == root then Identity.Render(prefix) else Identity.Render(prefix + [Identity.Node(id)])
  }

  predicate Resolves(ids: map<string, string>, prefix: Path, root: string) {
    forall id :: id in ids ==> ids[id] == NameIn(prefix, root, id)
  }

  ghost predicate Grows(before: Local, after: Local, names: set<string>, prefix: Path, root: string) {
    && after.ids.Keys == before.ids.Keys + names
    && (root in before.ids && Resolves(before.ids, prefix, root) ==> Resolves(after.ids, prefix, root))
  }

  lemma RecordGrows(local: Local, scope: Scope, id: string, root: string)
    ensures Grows(local, Record(local, scope, id, scope.prefix + [Identity.Node(id)]), if scope.records then {id} else {},
                  scope.prefix, root)
  {
  }

  /** Expanding a node below the root adds exactly its own names; outside templates nothing is recorded. */
  lemma {:induction false} NodeGrows(config: Config, node: Node, scope: Scope, stack: seq<Key>, local: Local, root: string)
    requires Nesting(config, stack)
    ensures Grows(local, Expand(config, node, scope, stack, local, false).local, if scope.records then LocalNames(node) else {},
                  scope.prefix, root)
    decreases Unopened(config, stack), if scope.slots.Some? then 1 else 0, node, 1
  {
    match node
    case Leaf(id, _) =>
      RecordGrows(local, scope, id, root);
    case Instance(id, _, _, _) =>
      RecordGrows(local, scope, id, root);
    case Branch(id, _, children) =>
      RecordGrows(local, scope, id, root);
      NodesGrow(config, children, scope, stack, Record(local, scope, id, scope.prefix + [Identity.Node(id)]), root);
    case Placeholder(slot) =>
      if scope.slots.Some? && slot in scope.slots.value.declared {
        NodesGrow(config, FillOf(scope.slots.value.fills, slot), SlotScope(scope, slot), stack, CountUse(local, slot), root);
        OutsideTemplatesAll(config, FillOf(scope.slots.value.fills, slot), SlotScope(scope, slot), stack, CountUse(local, slot));
      }
  }

  lemma {:induction false} NodesGrow(config: Config, nodes: seq<Node>, scope: Scope, stack: seq<Key>, local: Local, root: string)
    requires Nesting(config, stack)
    ensures Grows(local, ExpandList(config, nodes, scope, stack, local).local, if scope.records then LocalNamesAll(nodes) else {},
                  scope.prefix, root)
    decreases Unopened(config, stack), if scope.slots.Some? then 1 else 0, nodes, 0
  {
    if nodes != [] {
      var first := Expand(config, nodes[0], scope, stack, local, false);
      NodeGrows(config, nodes[0], scope, stack, local, root);
      NodesGrow(config, nodes[1..], scope, stack, first.local, root);
    }
  }

  lemma {:induction false} SubstitutionKeepsLocalNames(node: Node, parameters: map<string, Json>)
    ensures LocalNames(SubstituteNode(node, parameters)) == LocalNames(node)
    decreases node, 1
  {
    if node.Branch? {
      SubstitutionKeepsAllLocalNames(node.children, parameters);
    }
  }

  lemma {:induction false} SubstitutionKeepsAllLocalNames(nodes: seq<Node>, parameters: map<string, Json>)
    ensures LocalNamesAll(SubstituteNodes(nodes, parameters)) == LocalNamesAll(nodes)
    decreases nodes, 0
  {
    if nodes != [] {
      SubstitutionKeepsLocalNames(nodes[0], parameters);
      SubstitutionKeepsAllLocalNames(nodes[1..], parameters);
      assert SubstituteNodes(nodes, parameters)[1..] == SubstituteNodes(nodes[1..], parameters);
    }
  }

  /** A template with a plain root records each of its names, resolved within the instance, and nothing else: an export
      checked against the template can always be resolved. */
  lemma TemplateNamesResolve(config: Config, node: Node, scope: Scope, stack: seq<Key>)
    requires Nesting(config, stack) && node.Instance? && Opens(config, node.key, stack)
    requires config.registry[node.key].template.Leaf? || config.registry[node.key].template.Branch?
    ensures var definition := config.registry[node.key];
            var template := Instantiated(config, node);
            var inside := TemplateScope(scope, node, definition);
            var ids := Expand(config, template, inside, stack + [node.key], EMPTY, true).local.ids;
            ids.Keys == LocalNames(definition.template) && Resolves(ids, inside.prefix, definition.template.id)
  {
    var definition := config.registry[node.key];
    var parameters := Resolve(definition.parameters, node.parameters);
    var template, inside := SubstituteNode(definition.template, parameters), TemplateScope(scope, node, definition);
    SubstitutionKeepsLocalNames(definition.template, parameters);
    if template.Branch? {
      NodesGrow(config, template.children, inside, stack + [node.key], Record(EMPTY, inside, template.id, inside.prefix), template.id);
    }
  }

  /** Ids of the plain nodes of a template: what a definition's controls may stand for. */
  function PlainNames(node: Node): set<string>
    decreases node, 1
  {
    match node
    case Leaf(id, _) => {id}
    case Branch(id, _, children) => {id} + PlainNamesAll(children)
    case Instance(_, _, _, _) => {}
    case Placeholder(_) => {}
  }

  function PlainNamesAll(nodes: seq<Node>): set<string>
    decreases nodes, 0
  {
    if nodes == [] then {} else PlainNames(nodes[0]) + PlainNamesAll(nodes[1..])
  }

  lemma {:induction false} PlainNamesAreLocal(node: Node)
    ensures PlainNames(node) <= LocalNames(node)
    decreases node, 1
  {
    if node.Branch? {
      PlainNamesAreAllLocal(node.children);
    }
  }

  lemma {:induction false} PlainNamesAreAllLocal(nodes: seq<Node>)
    ensures PlainNamesAll(nodes) <= LocalNamesAll(nodes)
    decreases nodes, 0
  {
    if nodes != [] {
      PlainNamesAreLocal(nodes[0]);
      PlainNamesAreAllLocal(nodes[1..]);
    }
  }

  lemma ControlsAreLocal(nodes: seq<ControlTopology.ControlNode>, names: set<string>, ids: map<string, string>)
    requires ControlTopology.Accepted(nodes, names) && names <= ids.Keys
    ensures ControlMount.ControlsResolve(nodes, ids)
  {
    ControlMount.AcceptedParents(nodes, names);
    forall n | 0 <= n < |nodes| && nodes[n].parentId.Some? ensures nodes[n].parentId.value in ids {
      assert ControlMount.Has(nodes, nodes[n].parentId.value);
    }
  }

  /** Whatever a validated definition's controls name, the expansion of an instance has recorded: mounting them never meets an
      unknown local id. */
  lemma ExpandedControlsResolve(config: Config, node: Node, scope: Scope, stack: seq<Key>, pending: ControlMount.Pending)
    requires Nesting(config, stack) && node.Instance? && Opens(config, node.key, stack)
    requires config.registry[node.key].template.Leaf? || config.registry[node.key].template.Branch?
    requires pending.controls.Some? ==>
               ControlTopology.Accepted(pending.controls.value, PlainNames(config.registry[node.key].template))
    requires pending.localIds == Expand(config, Instantiated(config, node), TemplateScope(scope, node, config.registry[node.key]),
                                        stack + [node.key], EMPTY, true).local.ids
    ensures ControlMount.Resolvable(pending)
  {
    TemplateNamesResolve(config, node, scope, stack);
    PlainNamesAreLocal(config.registry[node.key].template);
    if pending.controls.Some? {
      ControlsAreLocal(pending.controls.value, PlainNames(config.registry[node.key].template), pending.localIds);
    }
  }
}
