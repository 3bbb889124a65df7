/** The composition expander as a function: definitions with parameters and slots are inlined into a plain tree whose
    ids are segment paths, together with everything the expansion reports on its way. */
module Expansion {
  import opened Wrappers
  import opened JsonPatch
  import Identity

  type Path = seq<Identity.Segment>

  datatype Binding = Binding(name: string, value: Json)
  datatype Fill = Fill(slot: string, nodes: seq<Node>)

  /** Plain nodes with and without children, composition instances, and slot placeholders. */
  datatype Node =
    | Leaf(id: string, props: map<string, Json>)
    | Branch(id: string, props: map<string, Json>, children: seq<Node>)
    | Instance(id: string, key: Key, parameters: seq<Binding>, fills: seq<Fill>)
    | Placeholder(slot: string)

  datatype Key = Key(name: string, version: string)
  datatype ParameterType = BooleanType | NumberType | StringType
  datatype ParameterDefinition = ParameterDefinition(name: string, default: Option<Json>, required: bool, kind: ParameterType)
  datatype SlotDefinition = SlotDefinition(name: string, required: bool, multiple: bool)
  datatype Definition = Definition(parameters: seq<ParameterDefinition>, slots: seq<SlotDefinition>, template: Node)

  /** No depth limit stands for an unbounded one, which the expander takes as well. */
  datatype Config = Config(registry: map<Key, Definition>, maxDepth: Option<nat>)

  datatype Tree =
    | TreeLeaf(path: Path, props: map<string, Json>)
    | TreeBranch(path: Path, props: map<string, Json>, children: seq<Tree>)

  datatype Code =
    | UnknownComposition | CycleFound | MaxDepth | UnknownSlot | DuplicateSlot | DuplicatePlaceholder | MissingPlaceholder
    | MissingSlot | MultipleSlot | UnknownParameter | MissingParameter | InvalidParameter | InvalidReference | DuplicateNodeId

  datatype Owner = Owner(ancestry: seq<string>, definition: Key, instanceId: string, slot: Option<string>)

  /** What the expansion writes to its shared context, in order. */
  datatype Fact =
    | Emitted(path: Path, localId: string, owner: Option<Owner>)
    | Problem(code: Code)
    | Published(instanceId: string, definition: Key, localIds: map<string, string>)

  /** The two maps each instance keeps while its template is expanded. */
  datatype Local = Local(uses: map<string, nat>, ids: map<string, string>)

  datatype SlotContext = SlotContext(declared: seq<string>, fills: seq<Fill>)
  datatype Scope = Scope(prefix: Path, owner: Option<Owner>, slots: Option<SlotContext>, records: bool)

  datatype Outcome = Outcome(trees: seq<Tree>, facts: seq<Fact>, local: Local)

  // ---------------------------------------------------------------------------------------------
  // Parameters.

  function Find(bindings: seq<Binding>, name: string): Option<Json> {
    if bindings == [] then None
    else if bindings[0].name == name then Some(bindings[0].value)
    else Find(bindings[1..], name)
  }

  predicate Matches(kind: ParameterType, value: Json) {
    match kind
    case BooleanType => value.Bool?
    case NumberType => value.Num?
    case StringType => value.Str?
  }

  /** A provided null falls back to the default, like an absent value. */
  function Provided(definition: ParameterDefinition, provided: seq<Binding>): Option<Json> {
    var value := Find(provided, definition.name);
    if value.Some? && value.value != Null then value else definition.default
  }

  function Resolve(definitions: seq<ParameterDefinition>, provided: seq<Binding>): map<string, Json> {
    if definitions == [] then map[]
    else
      var rest := Resolve(definitions[1..], provided);
      var value := Provided(definitions[0], provided);
      if value.None? then rest else rest[definitions[0].name := value.value]
  }

  function Declares(definitions: seq<ParameterDefinition>, name: string): bool {
    exists k :: 0 <= k < |definitions| && definitions[k].name == name
  }

  function UnknownParameters(definitions: seq<ParameterDefinition>, provided: seq<Binding>): seq<Fact> {
    if provided == [] then []
    else (if Declares(definitions, provided[0].name) then [] else [Problem(UnknownParameter)])
         + UnknownParameters(definitions, provided[1..])
  }

  function ParameterFacts(definitions: seq<ParameterDefinition>, provided: seq<Binding>): seq<Fact> {
    if definitions == [] then [] else ParameterFact(definitions[0], provided) + ParameterFacts(definitions[1..], provided)
  }

  function ParameterFact(definition: ParameterDefinition, provided: seq<Binding>): seq<Fact> {
    var value := Provided(definition, provided);
    if value.None? then if definition.required then [Problem(MissingParameter)] else []
    else if Matches(definition.kind, value.value) then [] else [Problem(InvalidParameter)]
  }

  const PARAMETER := "$parameter"

  /** An object whose only member is a `$parameter` string stands for a parameter value. */
  function Reference(value: Json): Option<string> {
    if value.Obj? && value.members.Keys == {PARAMETER} && value.members[PARAMETER].Str?
    then Some(value.members[PARAMETER].s) else None
  }

  function SubstituteJson(value: Json, parameters: map<string, Json>): Json
    decreases value
  {
    var reference := Reference(value);
    if reference.Some? then if reference.value in parameters then parameters[reference.value] else Null
    else
      match value
      case Arr(items) => Arr(seq(|items|, i requires 0 <= i < |items| => SubstituteJson(items[i], parameters)))
      case Obj(members) => Obj(map k | k in members :: SubstituteJson(members[k], parameters))
      case _ => value
  }

  /** Every reference is well formed and has a value. */
  predicate CleanJson(value: Json, parameters: map<string, Json>)
    decreases value
  {
    var reference := Reference(value);
    if reference.Some? then reference.value in parameters
    else
      match value
      case Arr(items) => forall i :: 0 <= i < |items| ==> CleanJson(items[i], parameters)
      case Obj(members) => PARAMETER !in members && forall k :: k in members ==> CleanJson(members[k], parameters)
      case _ => true
  }

  predicate CleanProps(props: map<string, Json>, parameters: map<string, Json>) {
    PARAMETER !in props && forall k :: k in props ==> CleanJson(props[k], parameters)
  }

  predicate CleanBindings(bindings: seq<Binding>, parameters: map<string, Json>) {
    forall k :: 0 <= k < |bindings| ==> bindings[k].name != PARAMETER && CleanJson(bindings[k].value, parameters)
  }

  function SubstituteProps(props: map<string, Json>, parameters: map<string, Json>): map<string, Json> {
    map k | k in props :: SubstituteJson(props[k], parameters)
  }

  function SubstituteBindings(bindings: seq<Binding>, parameters: map<string, Json>): seq<Binding> {
    seq(|bindings|, i requires 0 <= i < |bindings| => bindings[i].(value := SubstituteJson(bindings[i].value, parameters)))
  }

  /** Substitution reaches properties, instance parameters and the content handed to slots. */
  function SubstituteNode(node: Node, parameters: map<string, Json>): Node
    decreases node, 1
  {
    match node
    case Leaf(id, props) => Leaf(id, SubstituteProps(props, parameters))
    case Branch(id, props, children) => Branch(id, SubstituteProps(props, parameters), SubstituteNodes(children, parameters))
    case Instance(id, key, bindings, fills) =>
      Instance(id, key, SubstituteBindings(bindings, parameters), SubstituteFills(fills, parameters))
    case Placeholder(_) => node
  }

  function SubstituteNodes(nodes: seq<Node>, parameters: map<string, Json>): (r: seq<Node>)
    ensures |r| == |nodes|
    decreases nodes, 0
  {
    if nodes == [] then [] else [SubstituteNode(nodes[0], parameters)] + SubstituteNodes(nodes[1..], parameters)
  }

  function SubstituteFills(fills: seq<Fill>, parameters: map<string, Json>): (r: seq<Fill>)
    ensures |r| == |fills|
    decreases fills, 0
  {
    if fills == [] then []
    else [Fill(fills[0].slot, SubstituteNodes(fills[0].nodes, parameters))] + SubstituteFills(fills[1..], parameters)
  }

  predicate CleanNode(node: Node, parameters: map<string, Json>)
    decreases node, 1
  {
    match node
    case Leaf(_, props) => CleanProps(props, parameters)
    case Branch(_, props, children) => CleanProps(props, parameters) && CleanNodes(children, parameters)
    case Instance(_, _, bindings, fills) => CleanBindings(bindings, parameters) && CleanFills(fills, parameters)
    case Placeholder(_) => true
  }

  predicate CleanNodes(nodes: seq<Node>, parameters: map<string, Json>)
    decreases nodes, 0
  {
    nodes == [] || (CleanNode(nodes[0], parameters) && CleanNodes(nodes[1..], parameters))
  }

  predicate CleanFills(fills: seq<Fill>, parameters: map<string, Json>)
    decreases fills, 0
  {
    fills == [] || (CleanNodes(fills[0].nodes, parameters) && CleanFills(fills[1..], parameters))
  }

  // ---------------------------------------------------------------------------------------------
  // Slots.

  function FillOf(fills: seq<Fill>, slot: string): seq<Node> {
    if fills == [] then [] else if fills[0].slot == slot then fills[0].nodes else FillOf(fills[1..], slot)
  }

  function DeclaredSlots(slots: seq<SlotDefinition>): seq<string> {
    if slots == [] then []
    else
      var front := DeclaredSlots(slots[..|slots| - 1]);
      var last := slots[|slots| - 1].name;
      if last in front then front else front + [last]
  }

  function SlotFacts(slots: seq<SlotDefinition>, fills: seq<Fill>): seq<Fact> {
    DuplicateSlotFacts(slots) + UnknownFillFacts(DeclaredSlots(slots), fills) + CountFacts(slots, fills)
  }

  function DuplicateSlotFacts(slots: seq<SlotDefinition>): seq<Fact> {
    if slots == [] then []
    else
      var front := slots[..|slots| - 1];
      DuplicateSlotFacts(front)
      + if slots[|slots| - 1].name in DeclaredSlots(front) then [Problem(DuplicateSlot)] else []
  }

  function UnknownFillFacts(declared: seq<string>, fills: seq<Fill>): seq<Fact> {
    if fills == [] then []
    else (if fills[0].slot in declared then [] else [Problem(UnknownSlot)]) + UnknownFillFacts(declared, fills[1..])
  }

  /** Only the first declaration of a slot is checked against its content. */
  function CountFacts(slots: seq<SlotDefinition>, fills: seq<Fill>): seq<Fact> {
    if slots == [] then []
    else
      var front, last := slots[..|slots| - 1], slots[|slots| - 1];
      CountFacts(front, fills) + if last.name in DeclaredSlots(front) then [] else CountFact(last, |FillOf(fills, last.name)|)
  }

  function CountFact(slot: SlotDefinition, count: nat): seq<Fact> {
    (if slot.required && count == 0 then [Problem(MissingSlot)] else [])
    + if !slot.multiple && count > 1 then [Problem(MultipleSlot)] else []
  }

  function MissingFacts(declared: seq<string>, uses: map<string, nat>): seq<Fact> {
    if declared == [] then []
    else (if declared[0] in uses then [] else [Problem(MissingPlaceholder)]) + MissingFacts(declared[1..], uses)
  }

  function CountUse(local: Local, slot: string): Local {
    local.(uses := local.uses[slot := (if slot in local.uses then local.uses[slot] else 0) + 1])
  }

  // ---------------------------------------------------------------------------------------------
  // The definitions being expanded.

  /** Every definition on the stack is known and is there once. */
  predicate Nesting(config: Config, stack: seq<Key>) {
    && (forall i :: 0 <= i < |stack| ==> stack[i] in config.registry)
    && (forall i, j :: 0 <= i < j < |stack| ==> stack[i] != stack[j])
  }

  predicate TooDeep(config: Config, stack: seq<Key>) {
    config.maxDepth.Some? && |stack| >= config.maxDepth.value
  }

  predicate Opens(config: Config, key: Key, stack: seq<Key>) {
    key in config.registry && key !in stack && !TooDeep(config, stack)
  }

  /** The definitions that can still be opened: what every nested instance takes one of. */
  function Unopened(config: Config, stack: seq<Key>): set<Key> {
    set key | key in config.registry && key !in stack
  }

  lemma OpeningTakesOne(config: Config, stack: seq<Key>, key: Key)
    requires Nesting(config, stack) && key in config.registry && key !in stack
    ensures Nesting(config, stack + [key])
    ensures Unopened(config, stack + [key]) < Unopened(config, stack)
    ensures |Unopened(config, stack + [key])| == |Unopened(config, stack)| - 1
  {
    assert Unopened(config, stack + [key]) == Unopened(config, stack) - {key} && key in Unopened(config, stack);
  }

  /** The registry bounds the stack, whatever the depth limit. */
  lemma {:induction false} StackIsBounded(config: Config, stack: seq<Key>)
    requires Nesting(config, stack)
    ensures |stack| + |Unopened(config, stack)| == |config.registry|
  {
    if stack == [] {
      assert Unopened(config, stack) == config.registry.Keys;
    } else {
      var below, key := stack[..|stack| - 1], stack[|stack| - 1];
      assert stack == below + [key];
      StackIsBounded(config, below);
      OpeningTakesOne(config, below, key);
    }
  }

  // ---------------------------------------------------------------------------------------------
  // Expansion.

  function Record(local: Local, scope: Scope, id: string, path: Path): Local {
    if scope.records && id !in local.ids then local.(ids := local.ids[id := Identity.Render(path)]) else local
  }

  /** The template of an instance with its parameters filled in. */
  function Instantiated(config: Config, node: Node): Node
    requires node.Instance? && node.key in config.registry
  {
    var definition := config.registry[node.key];
    SubstituteNode(definition.template, Resolve(definition.parameters, node.parameters))
  }

  function InstanceOwner(scope: Scope, key: Key, path: Path): Owner {
    var ancestry := if scope.owner.None? then [] else scope.owner.value.ancestry;
    Owner(ancestry + [Identity.Render(path)], key, Identity.Render(path), None)
  }

  function SlotScope(scope: Scope, slot: string): Scope {
    Scope(scope.prefix + [Identity.Slot(slot)],
          if scope.owner.None? then None else Some(scope.owner.value.(slot := Some(slot))), None, false)
  }

  function TemplateScope(scope: Scope, instance: Node, definition: Definition): Scope
    requires instance.Instance?
  {
    var path := scope.prefix + [Identity.Node(instance.id)];
    Scope(path, Some(InstanceOwner(scope, instance.key, path)),
          Some(SlotContext(DeclaredSlots(definition.slots), instance.fills)), true)
  }

  function SetupFacts(definition: Definition, instance: Node): seq<Fact>
    requires instance.Instance?
  {
    UnknownParameters(definition.parameters, instance.parameters)
    + ParameterFacts(definition.parameters, instance.parameters)
    + (if CleanNode(definition.template, Resolve(definition.parameters, instance.parameters)) then [] else [Problem(InvalidReference)])
    + SlotFacts(definition.slots, instance.fills)
  }

  /** The stack holds the definitions being expanded; slot content is expanded under its host's stack. */
  function Expand(config: Config, node: Node, scope: Scope, stack: seq<Key>, local: Local, isRoot: bool): Outcome
    requires Nesting(config, stack)
    decreases Unopened(config, stack), if scope.slots.Some? then 1 else 0, node, 1
  {
    match node
    case Leaf(id, props) =>
      var path := if isRoot then scope.prefix else scope.prefix + [Identity.Node(id)];
      Outcome([TreeLeaf(path, props)], [Emitted(path, id, scope.owner)], Record(local, scope, id, path))
    case Branch(id, props, children) =>
      var path := if isRoot then scope.prefix else scope.prefix + [Identity.Node(id)];
      var inner := ExpandList(config, children, scope, stack, Record(local, scope, id, path));
      Outcome([TreeBranch(path, props, inner.trees)], [Emitted(path, id, scope.owner)] + inner.facts, inner.local)
    case Placeholder(slot) =>
      if scope.slots.None? then Outcome([], [], local)
      else if slot !in scope.slots.value.declared then Outcome([], [Problem(UnknownSlot)], local)
      else
        var used := CountUse(local, slot);
        var repeated := if used.uses[slot] > 1 then [Problem(DuplicatePlaceholder)] else [];
        var inner := ExpandList(config, FillOf(scope.slots.value.fills, slot), SlotScope(scope, slot), stack, used);
        Outcome(inner.trees, repeated + inner.facts, inner.local)
    case Instance(id, key, _, _) =>
      var path := scope.prefix + [Identity.Node(id)];
      var recorded := Record(local, scope, id, path);
      if key !in config.registry then Outcome([], [Problem(UnknownComposition)], recorded)
      else if key in stack then Outcome([], [Problem(CycleFound)], recorded)
      else if TooDeep(config, stack) then Outcome([], [Problem(MaxDepth)], recorded)
      else
        OpeningTakesOne(config, stack, key);
        var definition := config.registry[key];
        var template := Instantiated(config, node);
        var inner := Expand(config, template, TemplateScope(scope, node, definition), stack + [key], Local(map[], map[]), true);
        Outcome(inner.trees,
                SetupFacts(definition, node) + inner.facts
                + MissingFacts(DeclaredSlots(definition.slots), inner.local.uses)
                + [Published(Identity.Render(path), key, inner.local.ids)],
                recorded)
  }

  function ExpandList(config: Config, nodes: seq<Node>, scope: Scope, stack: seq<Key>, local: Local): Outcome
    requires Nesting(config, stack)
    decreases Unopened(config, stack), if scope.slots.Some? then 1 else 0, nodes, 0
  {
    if nodes == [] then Outcome([], [], local)
    else
      var first := Expand(config, nodes[0], scope, stack, local, false);
      var rest := ExpandList(config, nodes[1..], scope, stack, first.local);
      Outcome(first.trees + rest.trees, first.facts + rest.facts, rest.local)
  }

  const VIEW := Scope([], None, None, false)
  const EMPTY := Local(map[], map[])

  /** The document's view, expanded from an empty stack. */
  function ExpandView(config: Config, view: Node): Outcome {
    Expand(config, view, VIEW, [], EMPTY, false)
  }

  // ---------------------------------------------------------------------------------------------
  // What the facts amount to.

  function EmittedPaths(facts: seq<Fact>): seq<Path> {
    if facts == [] then []
    else (if facts[0].Emitted? then [facts[0].path] else []) + EmittedPaths(facts[1..])
  }

  function Preorder(tree: Tree): seq<Path>
    decreases tree, 1
  {
    match tree
    case TreeLeaf(path, _) => [path]
    case TreeBranch(path, _, children) => [path] + PreorderAll(children)
  }

  function PreorderAll(trees: seq<Tree>): seq<Path>
    decreases trees, 0
  {
    if trees == [] then [] else Preorder(trees[0]) + PreorderAll(trees[1..])
  }

  lemma {:induction false} EmittedConcat(a: seq<Fact>, b: seq<Fact>)
    ensures EmittedPaths(a + b) == EmittedPaths(a) + EmittedPaths(b)
  {
    if a == [] {
      assert a + b == b;
    } else {
      EmittedConcat(a[1..], b);
      assert (a + b)[1..] == a[1..] + b;
      Associative(if a[0].Emitted? then [a[0].path] else [], EmittedPaths(a[1..]), EmittedPaths(b));
    }
  }

  lemma {:induction false} PreorderConcat(a: seq<Tree>, b: seq<Tree>)
    ensures PreorderAll(a + b) == PreorderAll(a) + PreorderAll(b)
  {
    if a == [] {
      assert a + b == b;
    } else {
      PreorderConcat(a[1..], b);
      assert (a + b)[1..] == a[1..] + b;
      Associative(Preorder(a[0]), PreorderAll(a[1..]), PreorderAll(b));
    }
  }

  lemma Associative<T>(a: seq<T>, b: seq<T>, c: seq<T>)
    ensures a + (b + c) == (a + b) + c
  {
  }

  predicate OnlyProblems(facts: seq<Fact>) {
    forall k :: 0 <= k < |facts| ==> facts[k].Problem?
  }

  /** An instance is refused for these reasons; every other problem is a remark beside its expansion. */
  predicate IsRefusal(code: Code) {
    code.UnknownComposition? || code.CycleFound? || code.MaxDepth?
  }

  predicate OnlyRemarks(facts: seq<Fact>) {
    forall k :: 0 <= k < |facts| ==> facts[k].Problem? && !IsRefusal(facts[k].code)
  }

  lemma {:induction false} ProblemsEmitNothing(facts: seq<Fact>)
    requires forall k :: 0 <= k < |facts| ==> !facts[k].Emitted?
    ensures EmittedPaths(facts) == []
  {
    if facts != [] {
      ProblemsEmitNothing(facts[1..]);
    }
  }

  lemma {:induction false} UnknownParametersAreRemarks(definitions: seq<ParameterDefinition>, provided: seq<Binding>)
    ensures OnlyRemarks(UnknownParameters(definitions, provided))
  {
    if provided != [] {
      UnknownParametersAreRemarks(definitions, provided[1..]);
    }
  }

  lemma {:induction false} ParameterFactsAreRemarks(definitions: seq<ParameterDefinition>, provided: seq<Binding>)
    ensures OnlyRemarks(ParameterFacts(definitions, provided))
  {
    if definitions != [] {
      ParameterFactsAreRemarks(definitions[1..], provided);
    }
  }

  lemma {:induction false} SlotFactsAreRemarks(slots: seq<SlotDefinition>, fills: seq<Fill>)
    ensures OnlyRemarks(DuplicateSlotFacts(slots)) && OnlyRemarks(CountFacts(slots, fills))
  {
    if slots != [] {
      SlotFactsAreRemarks(slots[..|slots| - 1], fills);
    }
  }

  lemma {:induction false} UnknownFillsAreRemarks(declared: seq<string>, fills: seq<Fill>)
    ensures OnlyRemarks(UnknownFillFacts(declared, fills))
  {
    if fills != [] {
      UnknownFillsAreRemarks(declared, fills[1..]);
    }
  }

  lemma {:induction false} MissingFactsAreRemarks(declared: seq<string>, uses: map<string, nat>)
    ensures OnlyRemarks(MissingFacts(declared, uses))
  {
    if declared != [] {
      MissingFactsAreRemarks(declared[1..], uses);
    }
  }

  lemma SetupFactsAreRemarks(definition: Definition, instance: Node)
    requires instance.Instance?
    ensures OnlyRemarks(SetupFacts(definition, instance))
  {
    UnknownParametersAreRemarks(definition.parameters, instance.parameters);
    ParameterFactsAreRemarks(definition.parameters, instance.parameters);
    SlotFactsAreRemarks(definition.slots, instance.fills);
    UnknownFillsAreRemarks(DeclaredSlots(definition.slots), instance.fills);
    var unknown := UnknownParameters(definition.parameters, instance.parameters);
    var parameters := ParameterFacts(definition.parameters, instance.parameters);
    var references :=
      if CleanNode(definition.template, Resolve(definition.parameters, instance.parameters)) then [] else [Problem(InvalidReference)];
    RemarksConcat(unknown, parameters);
    RemarksConcat(unknown + parameters, references);
    RemarksConcat(unknown + parameters + references, SlotFacts(definition.slots, instance.fills));
  }

  lemma RemarksConcat(a: seq<Fact>, b: seq<Fact>)
    requires OnlyRemarks(a) && OnlyRemarks(b)
    ensures OnlyRemarks(a + b)
  {
  }

  /** An expanded instance emits what its template emits. */
  lemma InstanceEmits(setup: seq<Fact>, inner: seq<Fact>, missing: seq<Fact>, published: Fact)
    requires OnlyProblems(setup) && OnlyProblems(missing) && published.Published?
    ensures EmittedPaths(setup + inner + missing + [published]) == EmittedPaths(inner)
  {
    EmittedConcat(setup + inner + missing, [published]);
    EmittedConcat(setup + inner, missing);
    EmittedConcat(setup, inner);
    ProblemsEmitNothing(setup);
    ProblemsEmitNothing(missing);
    ProblemsEmitNothing([published]);
  }

  function PathOf(id: string, scope: Scope, isRoot: bool): Path {
    if isRoot then scope.prefix else scope.prefix + [Identity.Node(id)]
  }

  lemma EmitsItself(path: Path, id: string, owner: Option<Owner>, props: map<string, Json>, facts: seq<Fact>, trees: seq<Tree>)
    requires EmittedPaths(facts) == PreorderAll(trees)
    ensures EmittedPaths([Emitted(path, id, owner)] + facts) == PreorderAll([TreeBranch(path, props, trees)])
    ensures EmittedPaths([Emitted(path, id, owner)]) == PreorderAll([TreeLeaf(path, props)])
  {
    var self := [Emitted(path, id, owner)];
    assert self[1..] == [] && (self + facts)[1..] == facts;
    assert [TreeBranch(path, props, trees)][1..] == [] && [TreeLeaf(path, props)][1..] == [];
  }

  /** Conservation: the ids registered are exactly the ids of the produced tree, each once and in document order. */
  lemma {:induction false} EmitsItsTree(config: Config, node: Node, scope: Scope, stack: seq<Key>, local: Local, isRoot: bool)
    requires Nesting(config, stack)
    ensures var out := Expand(config, node, scope, stack, local, isRoot);
            EmittedPaths(out.facts) == PreorderAll(out.trees)
    decreases Unopened(config, stack), if scope.slots.Some? then 1 else 0, node, 1
  {
    match node
    case Leaf(id, props) =>
      EmitsItself(PathOf(id, scope, isRoot), id, scope.owner, props, [], []);
    case Branch(id, props, children) =>
      var path := PathOf(id, scope, isRoot);
      var recorded := Record(local, scope, id, path);
      EmitsItsTrees(config, children, scope, stack, recorded);
      var inner := ExpandList(config, children, scope, stack, recorded);
      EmitsItself(path, id, scope.owner, props, inner.facts, inner.trees);
    case Placeholder(slot) =>
      if scope.slots.Some? {
        if slot in scope.slots.value.declared {
          var used := CountUse(local, slot);
          var repeated := if used.uses[slot] > 1 then [Problem(DuplicatePlaceholder)] else [];
          var content := FillOf(scope.slots.value.fills, slot);
          var inner := ExpandList(config, content, SlotScope(scope, slot), stack, used);
          EmitsItsTrees(config, content, SlotScope(scope, slot), stack, used);
          EmittedConcat(repeated, inner.facts);
          ProblemsEmitNothing(repeated);
        }
      }
    case Instance(id, key, _, _) =>
      if Opens(config, key, stack) {
        var definition := config.registry[key];
        var template := Instantiated(config, node);
        OpeningTakesOne(config, stack, key);
        EmitsItsTree(config, template, TemplateScope(scope, node, definition), stack + [key], EMPTY, true);
        EmitsLikeItsTemplate(config, node, scope, stack, local, isRoot);
      }
  }

  lemma EmitsLikeItsTemplate(config: Config, node: Node, scope: Scope, stack: seq<Key>, local: Local, isRoot: bool)
    requires Nesting(config, stack) && node.Instance? && Opens(config, node.key, stack)
    ensures var definition := config.registry[node.key];
            var template := Instantiated(config, node);
            var inner := Expand(config, template, TemplateScope(scope, node, definition), stack + [node.key], EMPTY, true);
            EmittedPaths(Expand(config, node, scope, stack, local, isRoot).facts) == EmittedPaths(inner.facts)
  {
    var definition := config.registry[node.key];
    var template := Instantiated(config, node);
    var inner := Expand(config, template, TemplateScope(scope, node, definition), stack + [node.key], EMPTY, true);
    SetupFactsAreRemarks(definition, node);
    MissingFactsAreRemarks(DeclaredSlots(definition.slots), inner.local.uses);
    InstanceEmits(SetupFacts(definition, node), inner.facts, MissingFacts(DeclaredSlots(definition.slots), inner.local.uses),
                  Published(Identity.Render(scope.prefix + [Identity.Node(node.id)]), node.key, inner.local.ids));
  }

  lemma {:induction false} EmitsItsTrees(config: Config, nodes: seq<Node>, scope: Scope, stack: seq<Key>, local: Local)
    requires Nesting(config, stack)
    ensures var out := ExpandList(config, nodes, scope, stack, local);
            EmittedPaths(out.facts) == PreorderAll(out.trees)
    decreases Unopened(config, stack), if scope.slots.Some? then 1 else 0, nodes, 0
  {
    if nodes != [] {
      var first := Expand(config, nodes[0], scope, stack, local, false);
      var rest := ExpandList(config, nodes[1..], scope, stack, first.local);
      EmitsItsTree(config, nodes[0], scope, stack, local, false);
      EmitsItsTrees(config, nodes[1..], scope, stack, first.local);
      EmittedConcat(first.facts, rest.facts);
      PreorderConcat(first.trees, rest.trees);
    }
  }

  // ---------------------------------------------------------------------------------------------
  // Outside a template the instance maps play no part.

  predicate SameButLocal(a: Outcome, b: Outcome) {
    a.trees == b.trees && a.facts == b.facts
  }

  lemma {:induction false} OutsideTemplates(config: Config, node: Node, scope: Scope, stack: seq<Key>, local: Local, isRoot: bool)
    requires Nesting(config, stack) && scope.slots.None? && !scope.records
    ensures SameButLocal(Expand(config, node, scope, stack, local, isRoot), Expand(config, node, scope, stack, EMPTY, isRoot))
    ensures Expand(config, node, scope, stack, local, isRoot).local == local
    decreases node, 1
  {
    if node.Branch? {
      OutsideTemplatesAll(config, node.children, scope, stack, local);
      OutsideTemplatesAll(config, node.children, scope, stack, EMPTY);
    }
  }

  lemma {:induction false} OutsideTemplatesAll(config: Config, nodes: seq<Node>, scope: Scope, stack: seq<Key>, local: Local)
    requires Nesting(config, stack) && scope.slots.None? && !scope.records
    ensures SameButLocal(ExpandList(config, nodes, scope, stack, local), ExpandList(config, nodes, scope, stack, EMPTY))
    ensures ExpandList(config, nodes, scope, stack, local).local == local
    decreases nodes, 0
  {
    if nodes != [] {
      OutsideTemplates(config, nodes[0], scope, stack, local, false);
      OutsideTemplates(config, nodes[0], scope, stack, EMPTY, false);
      OutsideTemplatesAll(config, nodes[1..], scope, stack, local);
      OutsideTemplatesAll(config, nodes[1..], scope, stack, EMPTY);
    }
  }
}
