/** The expander as it runs: one shared context that collects diagnostics, ids, provenance and instances while nodes
    are visited. Its state is a function of the facts of the expansion, and its result is the plain inlining. */
module ExpansionRun {
  import opened Wrappers
  import opened JsonPatch
  import opened Expansion
  import opened ExpansionIds
  import opened ExpansionMeaning
  import opened ExpansionContent

  datatype Ui =
    | UiLeaf(id: string, props: map<string, Json>)
    | UiBranch(id: string, props: map<string, Json>, children: seq<Ui>)

  datatype Provenance = Provenance(owner: Owner, localId: string)
  datatype InstanceManifest = InstanceManifest(instanceId: string, definition: Key, localIds: map<string, string>)

  /** A scope as the expander keeps it: the prefix is text, absent outside every instance. */
  datatype TextScope = TextScope(prefix: Option<string>, owner: Option<Owner>, slots: Option<SlotContext>, state: InstanceState?)

  class InstanceState {
    var uses: map<string, nat>
    var ids: map<string, string>

    constructor ()
      ensures uses == map[] && ids == map[]
    {
      uses, ids := map[], map[];
    }

    function Value(): Local
      reads this
    {
      Local(uses, ids)
    }
  }

  // ---------------------------------------------------------------------------------------------
  // What the context's fields are made of.

  function Rendered(tree: Tree): Ui
    decreases tree, 1
  {
    match tree
    case TreeLeaf(path, props) => UiLeaf(Identity.Render(path), props)
    case TreeBranch(path, props, children) => UiBranch(Identity.Render(path), props, RenderedAll(children))
  }

  function RenderedAll(trees: seq<Tree>): seq<Ui>
    decreases trees, 0
  {
    if trees == [] then [] else [Rendered(trees[0])] + RenderedAll(trees[1..])
  }

  function ProvenanceOf(facts: seq<Fact>): map<string, Provenance> {
    if facts == [] then map[]
    else
      var front, last := ProvenanceOf(facts[..|facts| - 1]), facts[|facts| - 1];
      if last.Emitted? && last.owner.Some?
      then front[Identity.Render(last.path) := Provenance(last.owner.value, last.localId)] else front
  }

  function InstancesOf(facts: seq<Fact>): seq<InstanceManifest> {
    if facts == [] then []
    else
      var front, last := InstancesOf(facts[..|facts| - 1]), facts[|facts| - 1];
      if last.Published? then front + [InstanceManifest(last.instanceId, last.definition, last.localIds)] else front
  }

  function Codes(facts: seq<Fact>): seq<Code>
    requires OnlyProblems(facts)
  {
    if facts == [] then [] else Codes(facts[..|facts| - 1]) + [facts[|facts| - 1].code]
  }

  lemma LastFact(facts: seq<Fact>, last: Fact)
    ensures (facts + [last])[..|facts + [last]| - 1] == facts
  {
  }

  lemma {:induction false} ProblemsOnlyDiagnose(facts: seq<Fact>, found: seq<Fact>)
    requires OnlyProblems(found)
    ensures Diagnose(facts + found) == Diagnose(facts) + Codes(found)
    ensures EmittedIds(facts + found) == EmittedIds(facts)
    ensures ProvenanceOf(facts + found) == ProvenanceOf(facts) && InstancesOf(facts + found) == InstancesOf(facts)
  {
    if found == [] {
      assert facts + found == facts;
    } else {
      var front, last := found[..|found| - 1], found[|found| - 1];
      ProblemsOnlyDiagnose(facts, front);
      assert facts + found == (facts + front) + [last];
      LastFact(facts + front, last);
    }
  }

  lemma {:induction false} RenderedConcat(a: seq<Tree>, b: seq<Tree>)
    ensures RenderedAll(a + b) == RenderedAll(a) + RenderedAll(b)
  {
    if a == [] {
      assert a + b == b;
    } else {
      RenderedConcat(a[1..], b);
      assert (a + b)[1..] == a[1..] + b;
      Associative([Rendered(a[0])], RenderedAll(a[1..]), RenderedAll(b));
    }
  }

  /** The text scope shows the segment scope. */
  predicate Shows(text: TextScope, scope: Scope) {
    && text.prefix == (if scope.prefix == [] then None else Some(Identity.Render(scope.prefix)))
    && text.owner == scope.owner && text.slots == scope.slots
    && scope.records == (text.state != null)
    && (scope.slots.Some? ==> scope.prefix != [] && scope.records)
  }

  function LocalOf(state: InstanceState?): Local
    reads state
  {
    if state == null then EMPTY else state.Value()
  }

  predicate PlainRoot(node: Node) {
    node.Leaf? || node.Branch?
  }

  /** Templates have plain roots. */
  predicate PlainTemplates(config: Config) {
    forall key :: key in config.registry ==> PlainRoot(config.registry[key].template)
  }

  // ---------------------------------------------------------------------------------------------
  // The shared context.

  /** An outcome brought the context from one list of facts to the next and produced these nodes. */
  predicate Adds(out: Outcome, start: seq<Fact>, facts: seq<Fact>, local: Local, built: seq<Ui>) {
    facts == start + out.facts && local == out.local && RenderedAll(out.trees) == built
  }

  function States(state: InstanceState?): set<object> {
    if state == null then {} else {state}
  }

  class ExpansionContext {
    const config: Config
    var diagnostics: seq<Code>
    var emittedNodeIds: set<string>
    var nodeProvenanceById: map<string, Provenance>
    var instances: seq<InstanceManifest>
    ghost var facts: seq<Fact>

    ghost predicate Valid()
      reads this
    {
      && PlainTemplates(config)
      && diagnostics == Diagnose(facts) && emittedNodeIds == EmittedIds(facts)
      && nodeProvenanceById == ProvenanceOf(facts) && instances == InstancesOf(facts)
    }

    constructor (config: Config)
      requires PlainTemplates(config)
      ensures Valid() && this.config == config && facts == []
    {
      this.config := config;
      diagnostics, emittedNodeIds, nodeProvenanceById, instances, facts := [], {}, map[], [], [];
    }

    method Report(found: seq<Fact>)
      requires Valid() && OnlyProblems(found)
      modifies this
      ensures Valid() && facts == old(facts) + found
    {
      ProblemsOnlyDiagnose(facts, found);
      diagnostics := diagnostics + Codes(found);
      facts := facts + found;
    }

    method RegisterNode(localId: string, id: string, owner: Option<Owner>, ghost path: Path)
      requires Valid() && id == Identity.Render(path)
      modifies this
      ensures Valid() && facts == old(facts) + [Emitted(path, localId, owner)]
    {
      ghost var fact := Emitted(path, localId, owner);
      LastFact(facts, fact);
      if id !in emittedNodeIds {
        emittedNodeIds := emittedNodeIds + {id};
      } else {
        diagnostics := diagnostics + [DuplicateNodeId];
      }
      if owner.Some? {
        nodeProvenanceById := nodeProvenanceById[id := Provenance(owner.value, localId)];
      }
      facts := facts + [fact];
    }

    method Publish(instanceId: string, definition: Key, localIds: map<string, string>)
      requires Valid()
      modifies this
      ensures Valid() && facts == old(facts) + [Published(instanceId, definition, localIds)]
    {
      instances := instances + [InstanceManifest(instanceId, definition, localIds)];
      LastFact(facts, Published(instanceId, definition, localIds));
      facts := facts + [Published(instanceId, definition, localIds)];
    }

    method RecordLocalId(sourceId: string, id: string, scope: TextScope, ghost shown: Scope, ghost path: Path)
      requires Shows(scope, shown) && id == Identity.Render(path)
      modifies States(scope.state)
      ensures LocalOf(scope.state) == Record(old(LocalOf(scope.state)), shown, sourceId, path)
    {
      if scope.state != null {
        if sourceId !in scope.state.ids {
          scope.state.ids := scope.state.ids[sourceId := id];
        }
      }
    }

    method ExpandNode(node: Node, scope: TextScope, stack: seq<Key>, isRoot: bool, ghost shown: Scope) returns (result: Option<Ui>)
      requires Valid() && Shows(scope, shown) && Nesting(config, stack) && !node.Placeholder?
      requires isRoot ==> shown.prefix != [] && PlainRoot(node)
      modifies this, States(scope.state)
      ensures Valid()
      ensures var out := Expand(config, node, shown, stack, old(LocalOf(scope.state)), isRoot);
              Adds(out, old(facts), facts, LocalOf(scope.state), if result.None? then [] else [result.value])
      decreases Unopened(config, stack), if scope.slots.Some? then 1 else 0, node, 2
    {
      if node.Instance? {
        result := ExpandComposition(node, scope, stack, shown);
      } else {
        var plain := ExpandPlainNode(node, scope, stack, isRoot, shown);
        result := Some(plain);
      }
    }

    method ExpandComposition(node: Node, scope: TextScope, stack: seq<Key>, ghost shown: Scope) returns (result: Option<Ui>)
      requires Valid() && Shows(scope, shown) && Nesting(config, stack) && node.Instance?
      modifies this, States(scope.state)
      ensures Valid()
      ensures var out := Expand(config, node, shown, stack, old(LocalOf(scope.state)), false);
              Adds(out, old(facts), facts, LocalOf(scope.state), if result.None? then [] else [result.value])
      decreases Unopened(config, stack), if scope.slots.Some? then 1 else 0, node, 1
    {
      ghost var path := shown.prefix + [Identity.Node(node.id)];
      Identity.NamespacingAppends(shown.prefix, node.id);
      var instanceId := Identity.NamespacedId(scope.prefix, node.id);
      RecordLocalId(node.id, instanceId, scope, shown, path);
      if node.key !in config.registry {
        Report([Problem(UnknownComposition)]);
        return None;
      }
      if node.key in stack {
        Report([Problem(CycleFound)]);
        return None;
      }
      if TooDeep(config, stack) {
        Report([Problem(MaxDepth)]);
        return None;
      }
      result := Materialize(node, config.registry[node.key], instanceId, scope, stack, shown, old(LocalOf(scope.state)));
    }

    method Materialize(node: Node, definition: Definition, instanceId: string, scope: TextScope, stack: seq<Key>, ghost shown: Scope,
                       ghost local: Local)
      returns (result: Option<Ui>)
      requires Valid() && Shows(scope, shown) && Nesting(config, stack) && node.Instance?
      requires Opens(config, node.key, stack) && definition == config.registry[node.key]
      requires instanceId == Identity.Render(shown.prefix + [Identity.Node(node.id)])
      modifies this
      ensures Valid()
      ensures Adds(Expand(config, node, shown, stack, local, false), old(facts), facts,
                   Record(local, shown, node.id, shown.prefix + [Identity.Node(node.id)]), if result.None? then [] else [result.value])
      decreases Unopened(config, stack), if scope.slots.Some? then 1 else 0, node, 0
    {
      OpeningTakesOne(config, stack, node.key);
      SetupFactsAreRemarks(definition, node);
      Report(SetupFacts(definition, node));
      var state := new InstanceState();
      var inside := InsideTemplate(scope, node, definition, instanceId, state);
      TemplateShows(scope, shown, node, definition, instanceId, state);
      ghost var prepared := facts;
      result := ExpandNode(Instantiated(config, node), inside, stack + [node.key], true, TemplateScope(shown, node, definition));
      ghost var expanded, inner := facts, state.Value();
      MissingFactsAreRemarks(DeclaredSlots(definition.slots), state.uses);
      Report(MissingFacts(DeclaredSlots(definition.slots), state.uses));
      Publish(instanceId, node.key, state.ids);
      InstanceAdds(config, node, shown, stack, local, old(facts), prepared, expanded, facts, inner, if result.None? then [] else [result.value]);
    }

    method RegisterPlainNode(localId: string, scope: TextScope, isRoot: bool, ghost shown: Scope) returns (id: string)
      requires Valid() && Shows(scope, shown)
      requires isRoot ==> shown.prefix != []
      modifies this, States(scope.state)
      ensures Valid()
      ensures var path := PathOf(localId, shown, isRoot);
              && id == Identity.Render(path) && facts == old(facts) + [Emitted(path, localId, scope.owner)]
              && LocalOf(scope.state) == Record(old(LocalOf(scope.state)), shown, localId, path)
    {
      ghost var path := PathOf(localId, shown, isRoot);
      Identity.NamespacingAppends(shown.prefix, localId);
      id := if isRoot then scope.prefix.value else Identity.NamespacedId(scope.prefix, localId);
      RecordLocalId(localId, id, scope, shown, path);
      RegisterNode(localId, id, scope.owner, path);
    }

    method ExpandPlainNode(node: Node, scope: TextScope, stack: seq<Key>, isRoot: bool, ghost shown: Scope) returns (result: Ui)
      requires Valid() && Shows(scope, shown) && Nesting(config, stack) && PlainRoot(node)
      requires isRoot ==> shown.prefix != []
      modifies this, States(scope.state)
      ensures Valid()
      ensures Adds(Expand(config, node, shown, stack, old(LocalOf(scope.state)), isRoot), old(facts), facts, LocalOf(scope.state), [result])
      decreases Unopened(config, stack), if scope.slots.Some? then 1 else 0, node, 1
    {
      ghost var local := LocalOf(scope.state);
      var id := RegisterPlainNode(node.id, scope, isRoot, shown);
      if node.Leaf? {
        result := UiLeaf(id, node.props);
        LeafAdds(config, node, shown, stack, local, isRoot, old(facts));
      } else {
        ghost var registered, recorded := facts, LocalOf(scope.state);
        var children := ExpandChildren(node.children, scope, stack, shown);
        result := UiBranch(id, node.props, children);
        BranchAdds(config, node, shown, stack, local, recorded, isRoot, old(facts), registered, facts, LocalOf(scope.state), children);
      }
    }

    method ExpandChildren(children: seq<Node>, scope: TextScope, stack: seq<Key>, ghost shown: Scope) returns (result: seq<Ui>)
      requires Valid() && Shows(scope, shown) && Nesting(config, stack)
      modifies this, States(scope.state)
      ensures Valid()
      ensures var out := ExpandList(config, children, shown, stack, old(LocalOf(scope.state)));
              Adds(out, old(facts), facts, LocalOf(scope.state), result)
      decreases Unopened(config, stack), if scope.slots.Some? then 1 else 0, children, 0
    {
      result := [];
      ghost var whole := ExpandList(config, children, shown, stack, LocalOf(scope.state));
      var i := 0;
      while i < |children|
        invariant 0 <= i <= |children| && Valid()
        invariant Remaining(config, children[i..], shown, stack, LocalOf(scope.state), whole, old(facts), facts, result)
      {
        ghost var local := LocalOf(scope.state);
        ghost var was, built := facts, result;
        var nodes := ExpandChild(children[i], scope, stack, shown);
        result := result + nodes;
        assert children[i..][1..] == children[i + 1..];
        OneStep(config, children[i..], shown, stack, local, whole, old(facts), was, built);
        i := i + 1;
      }
      assert children[i..] == [];
    }

    /** A slot gives its content, a node itself, or nothing when it was refused. */
    method ExpandChild(child: Node, scope: TextScope, stack: seq<Key>, ghost shown: Scope) returns (result: seq<Ui>)
      requires Valid() && Shows(scope, shown) && Nesting(config, stack)
      modifies this, States(scope.state)
      ensures Valid()
      ensures Adds(Expand(config, child, shown, stack, old(LocalOf(scope.state)), false), old(facts), facts, LocalOf(scope.state), result)
      decreases Unopened(config, stack), if scope.slots.Some? then 1 else 0, child, 3
    {
      if child.Placeholder? {
        result := ExpandSlot(child.slot, scope, stack, shown);
      } else {
        var node := ExpandNode(child, scope, stack, false, shown);
        result := if node.None? then [] else [node.value];
      }
    }

    /** A declared slot is counted and hands out its content; an undeclared one hands out nothing. */
    method ConsumeSlot(slot: string, slots: SlotContext, state: InstanceState) returns (content: seq<Node>)
      requires Valid()
      modifies this, state
      ensures Valid()
      ensures slot !in slots.declared ==>
                content == [] && facts == old(facts) + [Problem(UnknownSlot)] && state.Value() == old(state.Value())
      ensures slot in slots.declared ==>
                && content == FillOf(slots.fills, slot) && state.Value() == CountUse(old(state.Value()), slot)
                && facts == old(facts) + Repeated(old(state.Value()), slot)
    {
      if slot !in slots.declared {
        Report([Problem(UnknownSlot)]);
        return [];
      }
      var used := (if slot in state.uses then state.uses[slot] else 0) + 1;
      state.uses := state.uses[slot := used];
      if used > 1 {
        Report([Problem(DuplicatePlaceholder)]);
      }
      content := FillOf(slots.fills, slot);
    }

    method ExpandSlot(slot: string, scope: TextScope, stack: seq<Key>, ghost shown: Scope) returns (result: seq<Ui>)
      requires Valid() && Shows(scope, shown) && Nesting(config, stack)
      modifies this, States(scope.state)
      ensures Valid()
      ensures var out := Expand(config, Placeholder(slot), shown, stack, old(LocalOf(scope.state)), false);
              Adds(out, old(facts), facts, LocalOf(scope.state), result)
      decreases Unopened(config, stack), if scope.slots.Some? then 1 else 0, Placeholder(slot), 1
    {
      ghost var local := LocalOf(scope.state);
      if scope.slots.None? {
        result := [];
        UnfilledSlotAdds(config, slot, shown, stack, local, old(facts));
      } else {
        var content := ConsumeSlot(slot, scope.slots.value, scope.state);
        ghost var consumed := facts;
        var inside := InsideSlot(scope, slot);
        SlotShows(scope, shown, slot);
        result := ExpandChildren(content, inside, stack, SlotScope(shown, slot));
        FilledSlotAdds(config, slot, shown, stack, local, old(facts), consumed, facts, LocalOf(scope.state), content, result);
      }
    }
  }

  // ---------------------------------------------------------------------------------------------
  // One constructor at a time.

  function InsideTemplate(text: TextScope, node: Node, definition: Definition, instanceId: string, state: InstanceState): TextScope
    requires node.Instance?
  {
    var ancestry := if text.owner.None? then [] else text.owner.value.ancestry;
    TextScope(Some(instanceId), Some(Owner(ancestry + [instanceId], node.key, instanceId, None)),
              Some(SlotContext(DeclaredSlots(definition.slots), node.fills)), state)
  }

  lemma TemplateShows(text: TextScope, scope: Scope, node: Node, definition: Definition, instanceId: string, state: InstanceState)
    requires Shows(text, scope) && node.Instance? && instanceId == Identity.Render(scope.prefix + [Identity.Node(node.id)])
    ensures Shows(InsideTemplate(text, node, definition, instanceId, state), TemplateScope(scope, node, definition))
  {
  }

  /** Setting up an instance, expanding its template and closing it. */
  lemma InstanceAdds(config: Config, node: Node, scope: Scope, stack: seq<Key>, local: Local, start: seq<Fact>, prepared: seq<Fact>,
                     expanded: seq<Fact>, facts: seq<Fact>, inner: Local, built: seq<Ui>)
    requires Nesting(config, stack) && node.Instance? && Opens(config, node.key, stack)
    requires var definition := config.registry[node.key];
             && prepared == start + SetupFacts(definition, node)
             && Adds(Expand(config, Instantiated(config, node), TemplateScope(scope, node, definition), stack + [node.key], EMPTY, true),
                     prepared, expanded, inner, built)
             && facts == expanded + MissingFacts(DeclaredSlots(definition.slots), inner.uses)
                         + [Published(Identity.Render(scope.prefix + [Identity.Node(node.id)]), node.key, inner.ids)]
    ensures Adds(Expand(config, node, scope, stack, local, false), start, facts,
                 Record(local, scope, node.id, scope.prefix + [Identity.Node(node.id)]), built)
  {
    var definition := config.registry[node.key];
    var out := Expand(config, Instantiated(config, node), TemplateScope(scope, node, definition), stack + [node.key], EMPTY, true);
    Regroup(start, SetupFacts(definition, node), out.facts, MissingFacts(DeclaredSlots(definition.slots), inner.uses),
            [Published(Identity.Render(scope.prefix + [Identity.Node(node.id)]), node.key, inner.ids)]);
  }

  lemma Regroup(a: seq<Fact>, b: seq<Fact>, c: seq<Fact>, d: seq<Fact>, e: seq<Fact>)
    ensures a + (b + c + d + e) == a + b + c + d + e
  {
  }

  function InsideSlot(text: TextScope, slot: string): TextScope
    requires text.prefix.Some?
  {
    TextScope(Some(Identity.SlotNamespace(text.prefix.value, slot)),
              if text.owner.None? then None else Some(text.owner.value.(slot := Some(slot))), None, null)
  }

  lemma SlotShows(text: TextScope, scope: Scope, slot: string)
    requires Shows(text, scope) && scope.slots.Some?
    ensures Shows(InsideSlot(text, slot), SlotScope(scope, slot))
  {
    Identity.NamespacingAppends(scope.prefix, slot);
  }

  function Repeated(local: Local, slot: string): (found: seq<Fact>)
    ensures OnlyProblems(found)
  {
    if CountUse(local, slot).uses[slot] > 1 then [Problem(DuplicatePlaceholder)] else []
  }

  lemma UnfilledSlotAdds(config: Config, slot: string, scope: Scope, stack: seq<Key>, local: Local, start: seq<Fact>)
    requires Nesting(config, stack) && scope.slots.None?
    ensures Adds(Expand(config, Placeholder(slot), scope, stack, local, false), start, start, local, [])
  {
  }

  /** Consuming a slot and expanding its content. */
  lemma FilledSlotAdds(config: Config, slot: string, scope: Scope, stack: seq<Key>, local: Local, start: seq<Fact>,
                       consumed: seq<Fact>, facts: seq<Fact>, after: Local, content: seq<Node>, built: seq<Ui>)
    requires Nesting(config, stack) && scope.slots.Some?
    requires if slot in scope.slots.value.declared then
               && consumed == start + Repeated(local, slot) && content == FillOf(scope.slots.value.fills, slot)
               && after == CountUse(local, slot)
             else consumed == start + [Problem(UnknownSlot)] && content == [] && after == local
    requires Adds(ExpandList(config, content, SlotScope(scope, slot), stack, EMPTY), consumed, facts, EMPTY, built)
    ensures Adds(Expand(config, Placeholder(slot), scope, stack, local, false), start, facts, after, built)
  {
    if slot in scope.slots.value.declared {
      DeclaredSlotOutcome(config, slot, scope, stack, local);
      var inner := ExpandList(config, content, SlotScope(scope, slot), stack, EMPTY);
      assert start + (Repeated(local, slot) + inner.facts) == start + Repeated(local, slot) + inner.facts;
    } else {
      assert ExpandList(config, content, SlotScope(scope, slot), stack, EMPTY) == Outcome([], [], EMPTY);
    }
  }

  lemma DeclaredSlotOutcome(config: Config, slot: string, scope: Scope, stack: seq<Key>, local: Local)
    requires Nesting(config, stack) && scope.slots.Some? && slot in scope.slots.value.declared
    ensures var inner := ExpandList(config, FillOf(scope.slots.value.fills, slot), SlotScope(scope, slot), stack, EMPTY);
            Expand(config, Placeholder(slot), scope, stack, local, false) ==
            Outcome(inner.trees, Repeated(local, slot) + inner.facts, CountUse(local, slot))
  {
    OutsideTemplatesAll(config, FillOf(scope.slots.value.fills, slot), SlotScope(scope, slot), stack, CountUse(local, slot));
  }

  lemma LeafAdds(config: Config, node: Node, scope: Scope, stack: seq<Key>, local: Local, isRoot: bool, start: seq<Fact>)
    requires Nesting(config, stack) && node.Leaf?
    ensures var path := PathOf(node.id, scope, isRoot);
            Adds(Expand(config, node, scope, stack, local, isRoot), start, start + [Emitted(path, node.id, scope.owner)],
                 Record(local, scope, node.id, path), [UiLeaf(Identity.Render(path), node.props)])
  {
    var out := Expand(config, node, scope, stack, local, isRoot);
    assert out.trees[1..] == [];
  }

  lemma BranchAdds(config: Config, node: Node, scope: Scope, stack: seq<Key>, local: Local, recorded: Local, isRoot: bool,
                   start: seq<Fact>, registered: seq<Fact>, facts: seq<Fact>, after: Local, children: seq<Ui>)
    requires Nesting(config, stack) && node.Branch?
    requires var path := PathOf(node.id, scope, isRoot);
             registered == start + [Emitted(path, node.id, scope.owner)] && recorded == Record(local, scope, node.id, path)
    requires Adds(ExpandList(config, node.children, scope, stack, recorded), registered, facts, after, children)
    ensures Adds(Expand(config, node, scope, stack, local, isRoot), start, facts, after,
                 [UiBranch(Identity.Render(PathOf(node.id, scope, isRoot)), node.props, children)])
  {
    var path := PathOf(node.id, scope, isRoot);
    var inner := ExpandList(config, node.children, scope, stack, recorded);
    assert Expand(config, node, scope, stack, local, isRoot) ==
           Outcome([TreeBranch(path, node.props, inner.trees)], [Emitted(path, node.id, scope.owner)] + inner.facts, inner.local);
    BranchRendered(path, node.props, inner.trees);
    Grouped(start, [Emitted(path, node.id, scope.owner)], inner.facts);
  }

  lemma Grouped(start: seq<Fact>, middle: seq<Fact>, rest: seq<Fact>)
    ensures start + (middle + rest) == start + middle + rest
  {
  }

  lemma BranchRendered(path: Path, props: map<string, Json>, trees: seq<Tree>)
    ensures RenderedAll([TreeBranch(path, props, trees)]) == [UiBranch(Identity.Render(path), props, RenderedAll(trees))]
  {
    assert [TreeBranch(path, props, trees)][1..] == [];
  }

  // ---------------------------------------------------------------------------------------------
  // The loop over children.

  /** What is done and what the remaining nodes will add make up the whole. */
  ghost predicate Remaining(config: Config, rest: seq<Node>, scope: Scope, stack: seq<Key>, local: Local, whole: Outcome,
                            start: seq<Fact>, facts: seq<Fact>, built: seq<Ui>)
    requires Nesting(config, stack)
  {
    var out := ExpandList(config, rest, scope, stack, local);
    && start + whole.facts == facts + out.facts && whole.local == out.local
    && RenderedAll(whole.trees) == built + RenderedAll(out.trees)
  }

  lemma OneStep(config: Config, rest: seq<Node>, scope: Scope, stack: seq<Key>, local: Local, whole: Outcome,
                start: seq<Fact>, facts: seq<Fact>, built: seq<Ui>)
    requires Nesting(config, stack) && rest != []
    requires Remaining(config, rest, scope, stack, local, whole, start, facts, built)
    ensures var first := Expand(config, rest[0], scope, stack, local, false);
            Remaining(config, rest[1..], scope, stack, first.local, whole, start, facts + first.facts,
                      built + RenderedAll(first.trees))
  {
    var first := Expand(config, rest[0], scope, stack, local, false);
    var after := ExpandList(config, rest[1..], scope, stack, first.local);
    RenderedConcat(first.trees, after.trees);
    assert facts + (first.facts + after.facts) == (facts + first.facts) + after.facts;
    assert built + (RenderedAll(first.trees) + RenderedAll(after.trees)) == (built + RenderedAll(first.trees)) + RenderedAll(after.trees);
  }

  // ---------------------------------------------------------------------------------------------
  // The whole document.

  /** No diagnostic means no problem and no id twice. */
  lemma {:induction false} NothingReported(facts: seq<Fact>)
    ensures Diagnose(facts) == [] <==> Silent(facts) && DistinctIds(EmittedPaths(facts))
  {
    if facts != [] {
      var front, last := facts[..|facts| - 1], facts[|facts| - 1];
      NothingReported(front);
      EmittedIdsMeaning(front);
      LastPath(facts);
      SilentParts(front, [last]);
      assert [last][0] == last && EmittedPaths(front) + [] == EmittedPaths(front);
      assert facts == front + [last];
      if last.Emitted? {
        OneMorePath(EmittedPaths(front), last.path);
      }
    }
  }

  lemma OneMorePath(paths: seq<Path>, path: Path)
    ensures DistinctIds(paths + [path]) <==>
            DistinctIds(paths) && forall k :: 0 <= k < |paths| ==> Identity.Render(paths[k]) != Identity.Render(path)
  {
    var longer := paths + [path];
    assert longer[|paths|] == path && forall k :: 0 <= k < |paths| ==> longer[k] == paths[k];
  }

  predicate Owned(fact: Fact) {
    fact.Emitted? && fact.owner.Some?
  }

  lemma {:induction false} KeyHasNode(facts: seq<Fact>, id: string) returns (k: nat)
    requires id in ProvenanceOf(facts)
    ensures k < |facts| && Owned(facts[k]) && Identity.Render(facts[k].path) == id
  {
    var last := facts[|facts| - 1];
    if Owned(last) && Identity.Render(last.path) == id {
      k := |facts| - 1;
    } else {
      k := KeyHasNode(facts[..|facts| - 1], id);
    }
  }

  lemma {:induction false} NodeHasKey(facts: seq<Fact>, k: nat)
    requires k < |facts| && Owned(facts[k])
    ensures Identity.Render(facts[k].path) in ProvenanceOf(facts)
  {
    if k < |facts| - 1 {
      NodeHasKey(facts[..|facts| - 1], k);
    }
  }

  predicate OwnedUnder(facts: seq<Fact>, id: string) {
    exists k :: 0 <= k < |facts| && Owned(facts[k]) && Identity.Render(facts[k].path) == id
  }

  /** Every owned node has its own entry. */
  predicate KeepsEntries(facts: seq<Fact>, provenance: map<string, Provenance>) {
    forall k :: 0 <= k < |facts| && Owned(facts[k]) ==> HasEntry(facts[k], provenance)
  }

  predicate HasEntry(fact: Fact, provenance: map<string, Provenance>)
    requires Owned(fact)
  {
    && Identity.Render(fact.path) in provenance
    && provenance[Identity.Render(fact.path)] == Provenance(fact.owner.value, fact.localId)
  }

  /** Provenance is kept for exactly the ids of nodes some composition owns. */
  lemma ProvenanceKeys(facts: seq<Fact>)
    ensures forall id :: id in ProvenanceOf(facts) <==> OwnedUnder(facts, id)
  {
    forall id | id in ProvenanceOf(facts) ensures OwnedUnder(facts, id) {
      var k := KeyHasNode(facts, id);
    }
    forall k | 0 <= k < |facts| && Owned(facts[k]) ensures Identity.Render(facts[k].path) in ProvenanceOf(facts) {
      NodeHasKey(facts, k);
    }
  }

  lemma LastIsApart(facts: seq<Fact>, k: nat)
    requires DistinctIds(EmittedPaths(facts)) && k < |facts| - 1 && facts[k].Emitted?
    ensures DistinctIds(EmittedPaths(facts[..|facts| - 1]))
    ensures facts[|facts| - 1].Emitted? ==> Identity.Render(facts[|facts| - 1].path) != Identity.Render(facts[k].path)
  {
    var front, last := facts[..|facts| - 1], facts[|facts| - 1];
    LastPath(facts);
    EmittedAt(front, k);
    DistinctParts(EmittedPaths(front), if last.Emitted? then [last.path] else [], front[k].path);
  }

  lemma DistinctParts(before: seq<Path>, after: seq<Path>, path: Path)
    requires DistinctIds(before + after) && path in before
    ensures DistinctIds(before)
    ensures after != [] ==> Identity.Render(after[0]) != Identity.Render(path)
  {
    var paths := before + after;
    assert forall i :: 0 <= i < |before| ==> paths[i] == before[i];
    var i :| 0 <= i < |before| && before[i] == path;
    if after != [] {
      assert paths[|before|] == after[0] && paths[i] == path;
    }
  }

  /** With distinct ids every owned node keeps its own entry. */
  lemma ProvenanceEntries(facts: seq<Fact>)
    requires DistinctIds(EmittedPaths(facts))
    ensures KeepsEntries(facts, ProvenanceOf(facts))
  {
    forall k | 0 <= k < |facts| && Owned(facts[k]) ensures HasEntry(facts[k], ProvenanceOf(facts)) {
      EntryIsKept(facts, k);
    }
  }

  lemma {:induction false} EntryIsKept(facts: seq<Fact>, k: nat)
    requires k < |facts| && Owned(facts[k]) && DistinctIds(EmittedPaths(facts))
    ensures HasEntry(facts[k], ProvenanceOf(facts))
  {
    if k < |facts| - 1 {
      var front := facts[..|facts| - 1];
      LastIsApart(facts, k);
      assert front[k] == facts[k];
      EntryIsKept(front, k);
    }
  }

  lemma {:induction false} EmittedAt(facts: seq<Fact>, k: nat)
    requires k < |facts| && facts[k].Emitted?
    ensures facts[k].path in EmittedPaths(facts)
  {
    if k > 0 {
      EmittedAt(facts[1..], k - 1);
    }
  }

  /** Expands a document's view. A result is given exactly when nothing is to be reported; it is then the plain
      inlining, no id appears twice, and every node made by a composition has its own provenance. */
  method ExpandDocument(config: Config, view: Node) returns (result: Option<Ui>, context: ExpansionContext)
    requires PlainTemplates(config) && !view.Placeholder?
    ensures context.Valid() && context.facts == ExpandView(config, view).facts
    ensures result.Some? <==> Silent(context.facts) && DistinctIds(EmittedPaths(context.facts))
    ensures result.Some? ==> Inlines(config, view, result.value) && DistinctIds(PreorderAll(ExpandView(config, view).trees))
    ensures result.Some? ==> RenderedAll(ExpandView(config, view).trees) == [result.value]
    ensures result.Some? ==> KeepsEntries(context.facts, context.nodeProvenanceById)
    ensures forall id :: id in context.nodeProvenanceById <==> OwnedUnder(context.facts, id)
  {
    context := new ExpansionContext(config);
    var expanded := context.ExpandNode(view, TextScope(None, None, None, null), [], false, VIEW);
    result := if context.diagnostics == [] then expanded else None;
    assert context.facts == ExpandView(config, view).facts;
    Delivered(config, view, expanded);
    ProvenanceKeys(context.facts);
    if result.Some? {
      ProvenanceEntries(context.facts);
    }
  }

  /** The document is the plain inlining of the view, to whatever depth no smaller than the registry. */
  ghost predicate Inlines(config: Config, view: Node, ui: Ui) {
    forall depth: nat :: depth >= |config.registry| ==> RenderedAll(Inline(config.registry, depth, view, [], None, false)) == [ui]
  }

  lemma Delivered(config: Config, view: Node, expanded: Option<Ui>)
    requires PlainTemplates(config) && !view.Placeholder?
    requires RenderedAll(ExpandView(config, view).trees) == if expanded.None? then [] else [expanded.value]
    ensures var out := ExpandView(config, view);
            && (Diagnose(out.facts) == [] <==> Silent(out.facts) && DistinctIds(EmittedPaths(out.facts)))
            && (Diagnose(out.facts) == [] ==>
                  expanded.Some? && Inlines(config, view, expanded.value) && DistinctIds(PreorderAll(out.trees)))
  {
    ExpandedDocument(config, view);
  }

  lemma ExpandedDocument(config: Config, view: Node)
    requires PlainTemplates(config) && !view.Placeholder?
    ensures var out := ExpandView(config, view);
            && (Diagnose(out.facts) == [] <==> Silent(out.facts) && DistinctIds(EmittedPaths(out.facts)))
            && EmittedPaths(out.facts) == PreorderAll(out.trees)
            && (Silent(out.facts) ==> forall depth: nat :: depth >= |config.registry| ==>
                                        out.trees == Inline(config.registry, depth, view, [], None, false))
            && (Silent(out.facts) ==> out.trees != [])
  {
    var out := ExpandView(config, view);
    NothingReported(out.facts);
    EmitsItsTree(config, view, VIEW, [], EMPTY, false);
    if Silent(out.facts) {
      StackIsBounded(config, []);
      forall depth: nat | depth >= |config.registry| ensures out.trees == Inline(config.registry, depth, view, [], None, false) {
        SilentExpansionInlines(config, view, VIEW, [], EMPTY, false, depth);
      }
      if view.Instance? {
        SilentInstance(config, view, VIEW, [], EMPTY, false);
      }
    }
  }

  /** A node of the document with this id and these properties. */
  predicate Displays(nodes: seq<Ui>, id: string, props: map<string, Json>)
    decreases nodes, 0
  {
    nodes != [] && (DisplaysNode(nodes[0], id, props) || Displays(nodes[1..], id, props))
  }

  predicate DisplaysNode(node: Ui, id: string, props: map<string, Json>)
    decreases node, 1
  {
    (node.id == id && node.props == props) || (node.UiBranch? && Displays(node.children, id, props))
  }

  /** What a reader finds in the expanded trees is in the document, under the text of its path. */
  lemma {:induction false} TheDocumentDisplays(trees: seq<Tree>, path: Path, props: map<string, Json>)
    requires Contains(trees, path, props)
    ensures Displays(RenderedAll(trees), Identity.Render(path), props)
    decreases trees, 0
  {
    assert RenderedAll(trees)[1..] == RenderedAll(trees[1..]);
    if HoldsNode(trees[0], path, props) {
      TheNodeDisplays(trees[0], path, props);
    } else {
      TheDocumentDisplays(trees[1..], path, props);
    }
  }

  lemma {:induction false} TheNodeDisplays(tree: Tree, path: Path, props: map<string, Json>)
    requires HoldsNode(tree, path, props)
    ensures DisplaysNode(Rendered(tree), Identity.Render(path), props)
    decreases tree, 1
  {
    if tree.TreeBranch? && !(tree.path == path && tree.props == props) {
      TheDocumentDisplays(tree.children, path, props);
    }
  }
}
