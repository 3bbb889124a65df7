/** What a reader finds in an expanded instance: its template's nodes with the given parameter values, the content handed to its
    slots, and the same inside the instances of its template. */
module ExpansionContent {
  import opened JsonPatch
  import opened Expansion
  import opened ExpansionMeaning
  import opened ParameterMeaning

  // ---------------------------------------------------------------------------------------------
  // Nodes of trees and of templates.

  /** The forest has a node with this path and these properties. */
  predicate Contains(trees: seq<Tree>, path: Path, props: map<string, Json>)
    decreases trees, 0
  {
    trees != [] && (HoldsNode(trees[0], path, props) || Contains(trees[1..], path, props))
  }

  predicate HoldsNode(tree: Tree, path: Path, props: map<string, Json>)
    decreases tree, 1
  {
    match tree
    case TreeLeaf(p, q) => p == path && q == props
    case TreeBranch(p, q, children) => (p == path && q == props) || Contains(children, path, props)
  }

  lemma {:induction false} ContainsConcat(a: seq<Tree>, b: seq<Tree>, path: Path, props: map<string, Json>)
    ensures Contains(a + b, path, props) <==> Contains(a, path, props) || Contains(b, path, props)
  {
    if a == [] {
      assert a + b == b;
    } else {
      assert (a + b)[1..] == a[1..] + b && (a + b)[0] == a[0];
      ContainsConcat(a[1..], b, path, props);
    }
  }

  /** A node stands in the template under plain nodes only. */
  predicate PlainlyIn(node: Node, m: Node)
    decreases node, 1
  {
    node == m || (node.Branch? && PlainlyInAll(node.children, m))
  }

  predicate PlainlyInAll(nodes: seq<Node>, m: Node)
    decreases nodes, 0
  {
    nodes != [] && (PlainlyIn(nodes[0], m) || PlainlyInAll(nodes[1..], m))
  }

  predicate PlainNode(m: Node) {
    m.Leaf? || m.Branch?
  }

  ghost predicate Includes(trees: seq<Tree>, part: seq<Tree>) {
    forall path, props :: Contains(part, path, props) ==> Contains(trees, path, props)
  }

  // ---------------------------------------------------------------------------------------------
  // The template with its parameters filled in.

  ghost predicate ShownProps(props: map<string, Json>, shown: map<string, Json>, definitions: seq<ParameterDefinition>,
                             provided: seq<Binding>) {
    props.Keys == shown.Keys && forall key :: key in props ==> Shown(props[key], shown[key], definitions, provided)
  }

  ghost predicate ShownBindings(bindings: seq<Binding>, shown: seq<Binding>, definitions: seq<ParameterDefinition>,
                                provided: seq<Binding>) {
    && |bindings| == |shown|
    && forall i :: 0 <= i < |bindings| ==>
         bindings[i].name == shown[i].name && Shown(bindings[i].value, shown[i].value, definitions, provided)
  }

  /** Node by node the same, with every reference replaced by the value given for it: in properties, in the parameters of
      nested instances, and in what is handed to their slots. */
  ghost predicate Filled(node: Node, filled: Node, definitions: seq<ParameterDefinition>, provided: seq<Binding>)
    decreases node, 1
  {
    match (node, filled)
    case (Leaf(id, props), Leaf(id', props')) => id == id' && ShownProps(props, props', definitions, provided)
    case (Branch(id, props, children), Branch(id', props', children')) =>
      id == id' && ShownProps(props, props', definitions, provided) && FilledAll(children, children', definitions, provided)
    case (Instance(id, key, bindings, fills), Instance(id', key', bindings', fills')) =>
      && id == id' && key == key' && ShownBindings(bindings, bindings', definitions, provided)
      && FilledFills(fills, fills', definitions, provided)
    case (Placeholder(slot), Placeholder(slot')) => slot == slot'
    case _ => false
  }

  ghost predicate FilledAll(nodes: seq<Node>, filled: seq<Node>, definitions: seq<ParameterDefinition>, provided: seq<Binding>)
    decreases nodes, 0
  {
    if nodes == [] then filled == []
    else filled != [] && Filled(nodes[0], filled[0], definitions, provided) && FilledAll(nodes[1..], filled[1..], definitions, provided)
  }

  ghost predicate FilledFills(fills: seq<Fill>, filled: seq<Fill>, definitions: seq<ParameterDefinition>, provided: seq<Binding>)
    decreases fills, 0
  {
    if fills == [] then filled == []
    else
      && filled != [] && fills[0].slot == filled[0].slot && FilledAll(fills[0].nodes, filled[0].nodes, definitions, provided)
      && FilledFills(fills[1..], filled[1..], definitions, provided)
  }

  lemma PropsAreShown(props: map<string, Json>, definitions: seq<ParameterDefinition>, provided: seq<Binding>)
    requires DistinctDefinitions(definitions) && DistinctBindings(provided)
    requires CleanProps(props, Resolve(definitions, provided))
    ensures ShownProps(props, SubstituteProps(props, Resolve(definitions, provided)), definitions, provided)
  {
    forall key | key in props
      ensures Shown(props[key], SubstituteProps(props, Resolve(definitions, provided))[key], definitions, provided) {
      SubstitutionShows(props[key], definitions, provided);
    }
  }

  lemma BindingsAreShown(bindings: seq<Binding>, definitions: seq<ParameterDefinition>, provided: seq<Binding>)
    requires DistinctDefinitions(definitions) && DistinctBindings(provided)
    requires CleanBindings(bindings, Resolve(definitions, provided))
    ensures ShownBindings(bindings, SubstituteBindings(bindings, Resolve(definitions, provided)), definitions, provided)
  {
    var shown := SubstituteBindings(bindings, Resolve(definitions, provided));
    forall i | 0 <= i < |bindings|
      ensures bindings[i].name == shown[i].name && Shown(bindings[i].value, shown[i].value, definitions, provided) {
      SubstitutionShows(bindings[i].value, definitions, provided);
    }
  }

  lemma {:induction false} TemplateIsFilled(node: Node, definitions: seq<ParameterDefinition>, provided: seq<Binding>)
    requires DistinctDefinitions(definitions) && DistinctBindings(provided)
    requires CleanNode(node, Resolve(definitions, provided))
    ensures Filled(node, SubstituteNode(node, Resolve(definitions, provided)), definitions, provided)
    decreases node, 1
  {
    match node
    case Leaf(_, props) => PropsAreShown(props, definitions, provided);
    case Branch(_, props, children) =>
      PropsAreShown(props, definitions, provided);
      TemplatesAreFilled(children, definitions, provided);
    case Instance(_, _, bindings, fills) =>
      BindingsAreShown(bindings, definitions, provided);
      FillsAreFilled(fills, definitions, provided);
    case Placeholder(_) =>
  }

  lemma {:induction false} TemplatesAreFilled(nodes: seq<Node>, definitions: seq<ParameterDefinition>, provided: seq<Binding>)
    requires DistinctDefinitions(definitions) && DistinctBindings(provided)
    requires CleanNodes(nodes, Resolve(definitions, provided))
    ensures FilledAll(nodes, SubstituteNodes(nodes, Resolve(definitions, provided)), definitions, provided)
    decreases nodes, 0
  {
    if nodes != [] {
      TemplateIsFilled(nodes[0], definitions, provided);
      TemplatesAreFilled(nodes[1..], definitions, provided);
      assert SubstituteNodes(nodes, Resolve(definitions, provided))[1..] == SubstituteNodes(nodes[1..], Resolve(definitions, provided));
    }
  }

  lemma {:induction false} FillsAreFilled(fills: seq<Fill>, definitions: seq<ParameterDefinition>, provided: seq<Binding>)
    requires DistinctDefinitions(definitions) && DistinctBindings(provided)
    requires CleanFills(fills, Resolve(definitions, provided))
    ensures FilledFills(fills, SubstituteFills(fills, Resolve(definitions, provided)), definitions, provided)
    decreases fills, 0
  {
    if fills != [] {
      TemplatesAreFilled(fills[0].nodes, definitions, provided);
      FillsAreFilled(fills[1..], definitions, provided);
      assert SubstituteFills(fills, Resolve(definitions, provided))[1..] == SubstituteFills(fills[1..], Resolve(definitions, provided));
    }
  }

  // ---------------------------------------------------------------------------------------------
  // What is expanded is found.

  lemma IncludesParts(a: seq<Tree>, b: seq<Tree>)
    ensures Includes(a + b, a) && Includes(a + b, b)
  {
    forall path, props | Contains(a, path, props) || Contains(b, path, props) ensures Contains(a + b, path, props) {
      ContainsConcat(a, b, path, props);
    }
  }

  lemma IncludesChildren(tree: Tree)
    requires tree.TreeBranch?
    ensures Includes([tree], tree.children)
  {
    assert [tree][0] == tree;
  }

  /** A member of the node is expanded on some account of uses, silently if the whole is silent, and its trees are found. */
  lemma {:induction false} MemberIsExpanded(config: Config, node: Node, scope: Scope, stack: seq<Key>, local: Local, isRoot: bool, m: Node)
    returns (at: Local)
    requires Nesting(config, stack) && node.Branch? && PlainlyInAll(node.children, m)
    ensures var out, inner := Expand(config, node, scope, stack, local, isRoot), Expand(config, m, scope, stack, at, false);
            Includes(out.trees, inner.trees) && (Silent(out.facts) ==> Silent(inner.facts))
    decreases node, 1
  {
    var path := if isRoot then scope.prefix else scope.prefix + [Identity.Node(node.id)];
    var recorded := Record(local, scope, node.id, path);
    at := ListMemberIsExpanded(config, node.children, scope, stack, recorded, m);
    var inner := ExpandList(config, node.children, scope, stack, recorded);
    var out := Expand(config, node, scope, stack, local, isRoot);
    IncludesChildren(out.trees[0]);
    assert out.trees == [out.trees[0]];
    SilentParts([Emitted(path, node.id, scope.owner)], inner.facts);
  }

  lemma {:induction false} ListMemberIsExpanded(config: Config, nodes: seq<Node>, scope: Scope, stack: seq<Key>, local: Local, m: Node)
    returns (at: Local)
    requires Nesting(config, stack) && PlainlyInAll(nodes, m)
    ensures var out, inner := ExpandList(config, nodes, scope, stack, local), Expand(config, m, scope, stack, at, false);
            Includes(out.trees, inner.trees) && (Silent(out.facts) ==> Silent(inner.facts))
    decreases nodes, 0
  {
    var first := Expand(config, nodes[0], scope, stack, local, false);
    var rest := ExpandList(config, nodes[1..], scope, stack, first.local);
    IncludesParts(first.trees, rest.trees);
    SilentParts(first.facts, rest.facts);
    if nodes[0] == m {
      at := local;
    } else if PlainlyIn(nodes[0], m) {
      at := MemberIsExpanded(config, nodes[0], scope, stack, local, false, m);
    } else {
      at := ListMemberIsExpanded(config, nodes[1..], scope, stack, first.local, m);
    }
  }

  lemma PlainNodeIsFound(config: Config, m: Node, scope: Scope, stack: seq<Key>, local: Local, isRoot: bool)
    requires Nesting(config, stack) && PlainNode(m)
    ensures Contains(Expand(config, m, scope, stack, local, isRoot).trees, PathOf(m.id, scope, isRoot), m.props)
  {
    var trees := Expand(config, m, scope, stack, local, isRoot).trees;
    assert trees == [trees[0]];
  }

  /** The scope inside an instance's template. */
  function Inside(config: Config, node: Node, scope: Scope): Scope
    requires node.Instance? && node.key in config.registry
  {
    TemplateScope(scope, node, config.registry[node.key])
  }

  /** The member is expanded in this scope without a report, and its trees are found. */
  ghost predicate Found(trees: seq<Tree>, config: Config, m: Node, scope: Scope, stack: seq<Key>)
    requires Nesting(config, stack)
  {
    exists at :: Silent(Expand(config, m, scope, stack, at, false).facts) && Includes(trees, Expand(config, m, scope, stack, at, false).trees)
  }

  lemma FoundPlainly(trees: seq<Tree>, config: Config, m: Node, scope: Scope, stack: seq<Key>)
    requires Nesting(config, stack) && Found(trees, config, m, scope, stack) && PlainNode(m)
    ensures Contains(trees, scope.prefix + [Identity.Node(m.id)], m.props)
  {
    var at :| Silent(Expand(config, m, scope, stack, at, false).facts) && Includes(trees, Expand(config, m, scope, stack, at, false).trees);
    PlainNodeIsFound(config, m, scope, stack, at, false);
  }

  lemma CleanWhenSilent(config: Config, node: Node, scope: Scope, stack: seq<Key>, local: Local, isRoot: bool)
    requires Nesting(config, stack) && node.Instance? && Silent(Expand(config, node, scope, stack, local, isRoot).facts)
    ensures Opens(config, node.key, stack) && Silent(SetupFacts(config.registry[node.key], node))
    ensures CleanNode(config.registry[node.key].template, Resolve(config.registry[node.key].parameters, node.parameters))
  {
    SilentInstance(config, node, scope, stack, local, isRoot);
    var definition := config.registry[node.key];
    var setup := SetupFacts(definition, node);
    var inner := Expand(config, Instantiated(config, node), Inside(config, node, scope), stack + [node.key], EMPTY, true);
    var missing := MissingFacts(DeclaredSlots(definition.slots), inner.local.uses);
    var published := [Published(Identity.Render(scope.prefix + [Identity.Node(node.id)]), node.key, inner.local.ids)];
    SilentParts(setup + inner.facts + missing, published);
    SilentParts(setup + inner.facts, missing);
    SilentParts(setup, inner.facts);
    SetupParts(definition, node);
  }

  lemma SetupParts(definition: Definition, instance: Node)
    requires instance.Instance?
    ensures Silent(SetupFacts(definition, instance)) <==>
            && Silent(UnknownParameters(definition.parameters, instance.parameters))
            && Silent(ParameterFacts(definition.parameters, instance.parameters))
            && CleanNode(definition.template, Resolve(definition.parameters, instance.parameters))
            && Silent(DuplicateSlotFacts(definition.slots))
            && Silent(UnknownFillFacts(DeclaredSlots(definition.slots), instance.fills))
            && Silent(CountFacts(definition.slots, instance.fills))
  {
    var unknown := UnknownParameters(definition.parameters, instance.parameters);
    var parameters := ParameterFacts(definition.parameters, instance.parameters);
    var references :=
      if CleanNode(definition.template, Resolve(definition.parameters, instance.parameters)) then [] else [Problem(InvalidReference)];
    var duplicates, fills := DuplicateSlotFacts(definition.slots), UnknownFillFacts(DeclaredSlots(definition.slots), instance.fills);
    SilentParts(unknown + parameters + references, SlotFacts(definition.slots, instance.fills));
    SilentParts(unknown + parameters, references);
    SilentParts(unknown, parameters);
    SilentParts(duplicates + fills, CountFacts(definition.slots, instance.fills));
    SilentParts(duplicates, fills);
    Loud(InvalidReference);
  }

  /** Names are given once, as in the records of the source. */
  predicate DistinctNames(config: Config, node: Node)
    requires node.Instance?
  {
    && DistinctBindings(node.parameters)
    && (node.key in config.registry ==> DistinctDefinitions(config.registry[node.key].parameters))
  }

  /** A silently expanded instance shows its template with the given values: the root under the instance's own path, every
      other plain node under its id, and every nested instance expanded in turn. */
  lemma InstanceShowsItsTemplate(config: Config, node: Node, scope: Scope, stack: seq<Key>, local: Local, isRoot: bool)
    returns (filled: Node)
    requires Nesting(config, stack) && node.Instance? && DistinctNames(config, node)
    requires Silent(Expand(config, node, scope, stack, local, isRoot).facts)
    ensures node.key in config.registry && Nesting(config, stack + [node.key])
    ensures Filled(config.registry[node.key].template, filled, config.registry[node.key].parameters, node.parameters)
    ensures var trees, path := Expand(config, node, scope, stack, local, isRoot).trees, scope.prefix + [Identity.Node(node.id)];
            && (PlainNode(filled) ==> Contains(trees, path, filled.props))
            && (filled.Branch? ==> forall m :: PlainlyInAll(filled.children, m) ==>
                                     && Found(trees, config, m, Inside(config, node, scope), stack + [node.key])
                                     && (PlainNode(m) ==> Contains(trees, path + [Identity.Node(m.id)], m.props)))
  {
    SilentInstance(config, node, scope, stack, local, isRoot);
    CleanWhenSilent(config, node, scope, stack, local, isRoot);
    OpeningTakesOne(config, stack, node.key);
    var definition, inside, below := config.registry[node.key], Inside(config, node, scope), stack + [node.key];
    filled := Instantiated(config, node);
    TemplateIsFilled(definition.template, definition.parameters, node.parameters);
    var inner := Expand(config, filled, inside, below, EMPTY, true);
    if PlainNode(filled) {
      PlainNodeIsFound(config, filled, inside, below, EMPTY, true);
    }
    if filled.Branch? {
      forall m | PlainlyInAll(filled.children, m)
        ensures Found(inner.trees, config, m, inside, below)
        ensures PlainNode(m) ==> Contains(inner.trees, inside.prefix + [Identity.Node(m.id)], m.props) {
        var at := MemberIsExpanded(config, filled, inside, below, EMPTY, true, m);
        if PlainNode(m) {
          FoundPlainly(inner.trees, config, m, inside, below);
        }
      }
    }
  }

  // ---------------------------------------------------------------------------------------------
  // Slot content.

  lemma {:induction false} PlaceholderIsMember(node: Node, slot: string)
    requires Placeholders(node, slot) > 0
    ensures PlainlyIn(node, Placeholder(slot))
    decreases node, 1
  {
    if node.Branch? {
      PlaceholderIsAmong(node.children, slot);
    }
  }

  lemma {:induction false} PlaceholderIsAmong(nodes: seq<Node>, slot: string)
    requires PlaceholdersAll(nodes, slot) > 0
    ensures PlainlyInAll(nodes, Placeholder(slot))
    decreases nodes, 0
  {
    if Placeholders(nodes[0], slot) > 0 {
      PlaceholderIsMember(nodes[0], slot);
    } else {
      PlaceholderIsAmong(nodes[1..], slot);
    }
  }

  predicate DistinctFills(fills: seq<Fill>) {
    forall i, j :: 0 <= i < j < |fills| ==> fills[i].slot != fills[j].slot
  }

  lemma {:induction false} FillMeaning(fills: seq<Fill>, fill: Fill)
    requires DistinctFills(fills) && fill in fills
    ensures FillOf(fills, fill.slot) == fill.nodes
  {
    if fills[0] != fill {
      assert fills == [fills[0]] + fills[1..];
      FillMeaning(fills[1..], fill);
    }
  }

  lemma {:induction false} FillIsDeclared(declared: seq<string>, fills: seq<Fill>, fill: Fill)
    requires Silent(UnknownFillFacts(declared, fills)) && fill in fills
    ensures fill.slot in declared
  {
    SilentParts(if fills[0].slot in declared then [] else [Problem(UnknownSlot)], UnknownFillFacts(declared, fills[1..]));
    Loud(UnknownSlot);
    if fills[0] != fill {
      assert fills == [fills[0]] + fills[1..];
      FillIsDeclared(declared, fills[1..], fill);
    }
  }

  lemma HandedIsDeclared(config: Config, node: Node, scope: Scope, stack: seq<Key>, local: Local, isRoot: bool, fill: Fill)
    requires Nesting(config, stack) && node.Instance? && Silent(Expand(config, node, scope, stack, local, isRoot).facts)
    requires fill in node.fills
    ensures node.key in config.registry && fill.slot in DeclaredSlots(config.registry[node.key].slots)
  {
    CleanWhenSilent(config, node, scope, stack, local, isRoot);
    var definition := config.registry[node.key];
    SetupParts(definition, node);
    FillIsDeclared(DeclaredSlots(definition.slots), node.fills, fill);
  }

  /** A placeholder, expanded without a report, gives the whole content of its slot. */
  lemma PlaceholderShows(trees: seq<Tree>, config: Config, slot: string, scope: Scope, stack: seq<Key>, at: Local, m: Node)
    requires Nesting(config, stack) && scope.slots.Some? && PlainlyInAll(FillOf(scope.slots.value.fills, slot), m)
    requires Silent(Expand(config, Placeholder(slot), scope, stack, at, false).facts)
    requires Includes(trees, Expand(config, Placeholder(slot), scope, stack, at, false).trees)
    ensures Found(trees, config, m, SlotScope(scope, slot), stack)
  {
    SilentPlaceholder(config, Placeholder(slot), scope, stack, at, false);
    var inner := ListMemberIsExpanded(config, FillOf(scope.slots.value.fills, slot), SlotScope(scope, slot), stack, CountUse(at, slot), m);
  }

  /** Everything handed to a slot of a silently expanded instance is shown, under the slot, as it was handed in. */
  lemma InstanceShowsItsContent(config: Config, node: Node, scope: Scope, stack: seq<Key>, local: Local, isRoot: bool, fill: Fill, m: Node)
    requires Nesting(config, stack) && node.Instance? && DistinctFills(node.fills)
    requires Silent(Expand(config, node, scope, stack, local, isRoot).facts)
    requires fill in node.fills && PlainlyInAll(fill.nodes, m)
    ensures node.key in config.registry && Nesting(config, stack + [node.key])
    ensures var trees := Expand(config, node, scope, stack, local, isRoot).trees;
            && Found(trees, config, m, SlotScope(Inside(config, node, scope), fill.slot), stack + [node.key])
            && (PlainNode(m) ==>
                  Contains(trees, scope.prefix + [Identity.Node(node.id)] + [Identity.Slot(fill.slot)] + [Identity.Node(m.id)], m.props))
  {
    SilentInstance(config, node, scope, stack, local, isRoot);
    SilentInstanceFillsEverySlotOnce(config, node, scope, stack, local, isRoot);
    HandedIsDeclared(config, node, scope, stack, local, isRoot, fill);
    OpeningTakesOne(config, stack, node.key);
    var definition, inside, below := config.registry[node.key], Inside(config, node, scope), stack + [node.key];
    var template := Instantiated(config, node);
    var inner := Expand(config, template, inside, below, EMPTY, true);
    SubstitutionKeepsPlaceholders(definition.template, Resolve(definition.parameters, node.parameters), fill.slot);
    PlaceholderIsMember(template, fill.slot);
    FillMeaning(node.fills, fill);
    var at := EMPTY;
    if template.Branch? {
      at := MemberIsExpanded(config, template, inside, below, EMPTY, true, Placeholder(fill.slot));
    }
    PlaceholderShows(inner.trees, config, fill.slot, inside, below, at, m);
    if PlainNode(m) {
      FoundPlainly(inner.trees, config, m, SlotScope(inside, fill.slot), below);
    }
  }
}
