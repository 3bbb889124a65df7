/** Who owns a node: its provenance can be read off its path. */
module ExpansionOwners {
  import opened Wrappers
  import opened Expansion
  import Identity

  /** The ids of the instances whose namespaces a path goes through, outermost first. */
  function Hosts(prefix: Path): seq<string> {
    if prefix == [] then []
    else
      var last := |prefix| - 1;
      Hosts(prefix[..last]) + if prefix[last].Node? then [Identity.Render(prefix)] else []
  }

  /** In the document's own namespace there is no owner. Elsewhere the ancestry is that of the namespace, the innermost
      instance is the owner, and the slot is the one in which the namespace ends. */
  predicate OwnerOf(owner: Option<Owner>, namespace: Path) {
    if namespace == [] then owner.None?
    else
      && owner.Some? && owner.value.ancestry == Hosts(namespace) != []
      && owner.value.instanceId == Hosts(namespace)[|Hosts(namespace)| - 1]
      && owner.value.slot == match namespace[|namespace| - 1] { case Slot(name) => Some(name) case Node(_) => None }
  }

  /** The root of a template carries its instance's path; every other node adds its own id to the namespace. */
  predicate OwnedByPath(fact: Fact) {
    fact.Emitted? ==>
      OwnerOf(fact.owner, fact.path) || (fact.path != [] && OwnerOf(fact.owner, fact.path[..|fact.path| - 1]))
  }

  predicate AllOwned(facts: seq<Fact>) {
    forall k :: 0 <= k < |facts| ==> OwnedByPath(facts[k])
  }

  predicate ScopeOk(scope: Scope) {
    OwnerOf(scope.owner, scope.prefix) && (scope.slots.Some? ==> scope.owner.Some?)
  }

  lemma AllOwnedConcat(a: seq<Fact>, b: seq<Fact>)
    requires AllOwned(a) && AllOwned(b)
    ensures AllOwned(a + b)
  {
  }

  lemma HostsStep(prefix: Path, segment: Identity.Segment)
    ensures Hosts(prefix + [segment]) == Hosts(prefix) + if segment.Node? then [Identity.Render(prefix + [segment])] else []
  {
    assert (prefix + [segment])[..|prefix|] == prefix;
  }

  lemma TemplateScopeOk(scope: Scope, instance: Node, definition: Definition)
    requires ScopeOk(scope) && instance.Instance?
    ensures ScopeOk(TemplateScope(scope, instance, definition))
  {
    HostsStep(scope.prefix, Identity.Node(instance.id));
  }

  lemma SlotScopeOk(scope: Scope, slot: string)
    requires ScopeOk(scope) && scope.owner.Some?
    ensures ScopeOk(SlotScope(scope, slot))
  {
    HostsStep(scope.prefix, Identity.Slot(slot));
  }

  lemma OwnFact(scope: Scope, id: string, isRoot: bool)
    requires ScopeOk(scope)
    ensures OwnedByPath(Emitted(PathOf(id, scope, isRoot), id, scope.owner))
  {
    var path := PathOf(id, scope, isRoot);
    assert !isRoot ==> path[..|path| - 1] == scope.prefix;
  }

  lemma NoEmissions(facts: seq<Fact>)
    requires forall k :: 0 <= k < |facts| ==> !facts[k].Emitted?
    ensures AllOwned(facts)
  {
  }

  /** What an expansion emits is owned as its path says, in any scope that is. */
  lemma {:induction false} ExpansionIsOwned(config: Config, node: Node, scope: Scope, stack: seq<Key>, local: Local, isRoot: bool)
    requires Nesting(config, stack) && ScopeOk(scope)
    ensures AllOwned(Expand(config, node, scope, stack, local, isRoot).facts)
    decreases Unopened(config, stack), if scope.slots.Some? then 1 else 0, node, 1
  {
    match node
    case Leaf(id, _) => OwnFact(scope, id, isRoot);
    case Branch(id, _, children) =>
      var recorded := Record(local, scope, id, PathOf(id, scope, isRoot));
      OwnFact(scope, id, isRoot);
      ListIsOwned(config, children, scope, stack, recorded);
      AllOwnedConcat([Emitted(PathOf(id, scope, isRoot), id, scope.owner)], ExpandList(config, children, scope, stack, recorded).facts);
    case Placeholder(slot) =>
      if scope.slots.Some? && slot in scope.slots.value.declared {
        SlotScopeOk(scope, slot);
        ListIsOwned(config, FillOf(scope.slots.value.fills, slot), SlotScope(scope, slot), stack, CountUse(local, slot));
      }
    case Instance(id, key, _, _) =>
      if Opens(config, key, stack) {
        OpeningTakesOne(config, stack, key);
        TemplateScopeOk(scope, node, config.registry[key]);
        ExpansionIsOwned(config, Instantiated(config, node), TemplateScope(scope, node, config.registry[key]), stack + [key], EMPTY, true);
        InstanceIsOwned(config, node, scope, stack, local, isRoot);
      }
  }

  lemma InstanceIsOwned(config: Config, node: Node, scope: Scope, stack: seq<Key>, local: Local, isRoot: bool)
    requires Nesting(config, stack) && node.Instance? && Opens(config, node.key, stack)
    requires AllOwned(Expand(config, Instantiated(config, node), TemplateScope(scope, node, config.registry[node.key]),
                             stack + [node.key], EMPTY, true).facts)
    ensures AllOwned(Expand(config, node, scope, stack, local, isRoot).facts)
  {
    var definition := config.registry[node.key];
    var inner := Expand(config, Instantiated(config, node), TemplateScope(scope, node, definition), stack + [node.key], EMPTY, true);
    SetupFactsAreRemarks(definition, node);
    MissingFactsAreRemarks(DeclaredSlots(definition.slots), inner.local.uses);
    NoEmissions(SetupFacts(definition, node));
    NoEmissions(MissingFacts(DeclaredSlots(definition.slots), inner.local.uses));
  }

  lemma {:induction false} ListIsOwned(config: Config, nodes: seq<Node>, scope: Scope, stack: seq<Key>, local: Local)
    requires Nesting(config, stack) && ScopeOk(scope)
    ensures AllOwned(ExpandList(config, nodes, scope, stack, local).facts)
    decreases Unopened(config, stack), if scope.slots.Some? then 1 else 0, nodes, 0
  {
    if nodes != [] {
      var first := Expand(config, nodes[0], scope, stack, local, false);
      ExpansionIsOwned(config, nodes[0], scope, stack, local, false);
      ListIsOwned(config, nodes[1..], scope, stack, first.local);
      AllOwnedConcat(first.facts, ExpandList(config, nodes[1..], scope, stack, first.local).facts);
    }
  }

  /** The provenance of every node of the document can be read off its path: the ancestry lists the instances it lies in,
      outermost first, the owner is the innermost, and the slot is the one whose content it belongs to. */
  lemma ProvenanceFollowsThePath(config: Config, view: Node, fact: Fact)
    requires fact in ExpandView(config, view).facts && fact.Emitted?
    ensures OwnerOf(fact.owner, fact.path) || (fact.path != [] && OwnerOf(fact.owner, fact.path[..|fact.path| - 1]))
  {
    ExpansionIsOwned(config, view, VIEW, [], EMPTY, false);
  }
}
