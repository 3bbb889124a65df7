/** A silent expansion is plain inlining: no stack, counters or reports, every slot filled exactly once. */
module ExpansionMeaning {
  import opened Wrappers
  import opened JsonPatch
  import opened Expansion

  // ---------------------------------------------------------------------------------------------
  // The simple form.

  /** Replaces instances by their templates and placeholders by the content handed in. It knows nothing of stacks or
      limits: a nesting depth only bounds the recursion, and every large enough one gives the same trees. */
  function Inline(registry: map<Key, Definition>, depth: nat, node: Node, prefix: Path, fills: Option<seq<Fill>>, isRoot: bool): seq<Tree>
    decreases depth, if fills.Some? then 1 else 0, node, 1
  {
    match node
    case Leaf(id, props) => [TreeLeaf(if isRoot then prefix else prefix + [Identity.Node(id)], props)]
    case Branch(id, props, children) =>
      [TreeBranch(if isRoot then prefix else prefix + [Identity.Node(id)], props, InlineAll(registry, depth, children, prefix, fills))]
    case Placeholder(slot) =>
      if fills.None? then []
      else InlineAll(registry, depth, FillOf(fills.value, slot), prefix + [Identity.Slot(slot)], None)
    case Instance(id, key, parameters, content) =>
      if key !in registry || depth == 0 then []
      else
        var template := SubstituteNode(registry[key].template, Resolve(registry[key].parameters, parameters));
        Inline(registry, depth - 1, template, prefix + [Identity.Node(id)], Some(content), true)
  }

  function InlineAll(registry: map<Key, Definition>, depth: nat, nodes: seq<Node>, prefix: Path, fills: Option<seq<Fill>>): seq<Tree>
    decreases depth, if fills.Some? then 1 else 0, nodes, 0
  {
    if nodes == [] then []
    else Inline(registry, depth, nodes[0], prefix, fills, false) + InlineAll(registry, depth, nodes[1..], prefix, fills)
  }

  predicate Silent(facts: seq<Fact>) {
    forall k :: 0 <= k < |facts| ==> !facts[k].Problem?
  }

  lemma SilentParts(a: seq<Fact>, b: seq<Fact>)
    ensures Silent(a + b) <==> Silent(a) && Silent(b)
  {
    var whole := a + b;
    if Silent(whole) {
      assert forall k :: 0 <= k < |a| ==> a[k] == whole[k];
      assert forall k :: 0 <= k < |b| ==> b[k] == whole[|a| + k];
    }
  }

  lemma Loud(code: Code)
    ensures !Silent([Problem(code)])
  {
    assert [Problem(code)][0].Problem?;
  }

  function FillsOf(scope: Scope): Option<seq<Fill>> {
    if scope.slots.None? then None else Some(scope.slots.value.fills)
  }

  /** What silence says about the instance being expanded. */
  lemma SilentInstance(config: Config, node: Node, scope: Scope, stack: seq<Key>, local: Local, isRoot: bool)
    requires Nesting(config, stack) && node.Instance?
    requires Silent(Expand(config, node, scope, stack, local, isRoot).facts)
    ensures Opens(config, node.key, stack)
    ensures var definition := config.registry[node.key];
            var template := Instantiated(config, node);
            var inner := Expand(config, template, TemplateScope(scope, node, definition), stack + [node.key], EMPTY, true);
            && Silent(inner.facts) && Silent(MissingFacts(DeclaredSlots(definition.slots), inner.local.uses))
            && Expand(config, node, scope, stack, local, isRoot).trees == inner.trees
  {
    Loud(UnknownComposition);
    Loud(CycleFound);
    Loud(MaxDepth);
    var definition := config.registry[node.key];
    var template := Instantiated(config, node);
    var inner := Expand(config, template, TemplateScope(scope, node, definition), stack + [node.key], EMPTY, true);
    var missing := MissingFacts(DeclaredSlots(definition.slots), inner.local.uses);
    var published := [Published(Identity.Render(scope.prefix + [Identity.Node(node.id)]), node.key, inner.local.ids)];
    SilentParts(SetupFacts(definition, node) + inner.facts + missing, published);
    SilentParts(SetupFacts(definition, node) + inner.facts, missing);
    SilentParts(SetupFacts(definition, node), inner.facts);
  }

  lemma SilentPlaceholder(config: Config, node: Node, scope: Scope, stack: seq<Key>, local: Local, isRoot: bool)
    requires Nesting(config, stack) && node.Placeholder? && scope.slots.Some?
    requires Silent(Expand(config, node, scope, stack, local, isRoot).facts)
    ensures node.slot in scope.slots.value.declared && (node.slot !in local.uses || local.uses[node.slot] == 0)
    ensures var inner := ExpandList(config, FillOf(scope.slots.value.fills, node.slot), SlotScope(scope, node.slot), stack,
                                    CountUse(local, node.slot));
            Silent(inner.facts) && Expand(config, node, scope, stack, local, isRoot).trees == inner.trees
  {
    Loud(UnknownSlot);
    Loud(DuplicatePlaceholder);
    var used := CountUse(local, node.slot);
    var repeated := if used.uses[node.slot] > 1 then [Problem(DuplicatePlaceholder)] else [];
    var inner := ExpandList(config, FillOf(scope.slots.value.fills, node.slot), SlotScope(scope, node.slot), stack, used);
    SilentParts(repeated, inner.facts);
  }

  lemma SilentBranchInlines(config: Config, node: Node, scope: Scope, stack: seq<Key>, local: Local, isRoot: bool, depth: nat)
    requires Nesting(config, stack) && node.Branch?
    requires ExpandList(config, node.children, scope, stack, Record(local, scope, node.id, PathOf(node.id, scope, isRoot))).trees ==
             InlineAll(config.registry, depth, node.children, scope.prefix, FillsOf(scope))
    ensures Expand(config, node, scope, stack, local, isRoot).trees ==
            Inline(config.registry, depth, node, scope.prefix, FillsOf(scope), isRoot)
  {
  }

  lemma SilentInstanceInlines(config: Config, node: Node, scope: Scope, stack: seq<Key>, local: Local, isRoot: bool, depth: nat)
    requires Nesting(config, stack) && node.Instance? && depth > 0
    requires Silent(Expand(config, node, scope, stack, local, isRoot).facts)
    requires Opens(config, node.key, stack)
    requires var definition := config.registry[node.key];
             var template := Instantiated(config, node);
             var inside := TemplateScope(scope, node, definition);
             Expand(config, template, inside, stack + [node.key], EMPTY, true).trees ==
             Inline(config.registry, depth - 1, template, inside.prefix, FillsOf(inside), true)
    ensures Expand(config, node, scope, stack, local, isRoot).trees ==
            Inline(config.registry, depth, node, scope.prefix, FillsOf(scope), isRoot)
  {
    SilentInstance(config, node, scope, stack, local, isRoot);
  }

  /** A silent expansion produces exactly the inlined tree, at every depth no smaller than the number of definitions that
      can still be opened. */
  lemma {:induction false} SilentExpansionInlines(config: Config, node: Node, scope: Scope, stack: seq<Key>, local: Local, isRoot: bool,
                                                  depth: nat)
    requires Nesting(config, stack) && depth >= |Unopened(config, stack)|
    requires Silent(Expand(config, node, scope, stack, local, isRoot).facts)
    ensures Expand(config, node, scope, stack, local, isRoot).trees ==
            Inline(config.registry, depth, node, scope.prefix, FillsOf(scope), isRoot)
    decreases Unopened(config, stack), if scope.slots.Some? then 1 else 0, node, 1
  {
    if node.Branch? {
      var path := PathOf(node.id, scope, isRoot);
      var recorded := Record(local, scope, node.id, path);
      SilentParts([Emitted(path, node.id, scope.owner)], ExpandList(config, node.children, scope, stack, recorded).facts);
      SilentListInlines(config, node.children, scope, stack, recorded, depth);
      SilentBranchInlines(config, node, scope, stack, local, isRoot, depth);
    } else if node.Placeholder? && scope.slots.Some? {
      SilentPlaceholder(config, node, scope, stack, local, isRoot);
      SilentListInlines(config, FillOf(scope.slots.value.fills, node.slot), SlotScope(scope, node.slot), stack,
                        CountUse(local, node.slot), depth);
    } else if node.Instance? {
      SilentInstance(config, node, scope, stack, local, isRoot);
      OpeningTakesOne(config, stack, node.key);
      var definition := config.registry[node.key];
      var template := Instantiated(config, node);
      SilentExpansionInlines(config, template, TemplateScope(scope, node, definition), stack + [node.key], EMPTY, true, depth - 1);
      SilentInstanceInlines(config, node, scope, stack, local, isRoot, depth);
    }
  }

  lemma {:induction false} SilentListInlines(config: Config, nodes: seq<Node>, scope: Scope, stack: seq<Key>, local: Local, depth: nat)
    requires Nesting(config, stack) && depth >= |Unopened(config, stack)|
    requires Silent(ExpandList(config, nodes, scope, stack, local).facts)
    ensures ExpandList(config, nodes, scope, stack, local).trees ==
            InlineAll(config.registry, depth, nodes, scope.prefix, FillsOf(scope))
    decreases Unopened(config, stack), if scope.slots.Some? then 1 else 0, nodes, 0
  {
    if nodes != [] {
      var first := Expand(config, nodes[0], scope, stack, local, false);
      SilentParts(first.facts, ExpandList(config, nodes[1..], scope, stack, first.local).facts);
      SilentExpansionInlines(config, nodes[0], scope, stack, local, false, depth);
      SilentListInlines(config, nodes[1..], scope, stack, first.local, depth);
    }
  }

  // ---------------------------------------------------------------------------------------------
  // Each slot exactly once.

  /** Placeholders for a slot in one scope; the content handed to nested instances belongs to other scopes. */
  function Placeholders(node: Node, slot: string): nat
    decreases node, 1
  {
    match node
    case Leaf(_, _) => 0
    case Branch(_, _, children) => PlaceholdersAll(children, slot)
    case Instance(_, _, _, _) => 0
    case Placeholder(s) => if s == slot then 1 else 0
  }

  function PlaceholdersAll(nodes: seq<Node>, slot: string): nat
    decreases nodes, 0
  {
    if nodes == [] then 0 else Placeholders(nodes[0], slot) + PlaceholdersAll(nodes[1..], slot)
  }

  function Uses(local: Local, slot: string): nat {
    if slot in local.uses then local.uses[slot] else 0
  }

  /** The counter of a declared slot counts its placeholders; outside a template nothing is counted. */
  lemma {:induction false} UsesCountPlaceholders(config: Config, node: Node, scope: Scope, stack: seq<Key>, local: Local,
                                                 isRoot: bool, slot: string)
    requires Nesting(config, stack)
    ensures Uses(Expand(config, node, scope, stack, local, isRoot).local, slot) ==
            Uses(local, slot) + if scope.slots.Some? && slot in scope.slots.value.declared then Placeholders(node, slot) else 0
    decreases Unopened(config, stack), if scope.slots.Some? then 1 else 0, node, 1
  {
    if node.Branch? {
      var path := if isRoot then scope.prefix else scope.prefix + [Identity.Node(node.id)];
      UsesCountAllPlaceholders(config, node.children, scope, stack, Record(local, scope, node.id, path), slot);
    } else if node.Placeholder? && scope.slots.Some? && node.slot in scope.slots.value.declared {
      UsesCountAllPlaceholders(config, FillOf(scope.slots.value.fills, node.slot), SlotScope(scope, node.slot), stack,
                               CountUse(local, node.slot), slot);
    }
  }

  lemma {:induction false} UsesCountAllPlaceholders(config: Config, nodes: seq<Node>, scope: Scope, stack: seq<Key>, local: Local,
                                                    slot: string)
    requires Nesting(config, stack)
    ensures Uses(ExpandList(config, nodes, scope, stack, local).local, slot) ==
            Uses(local, slot) + if scope.slots.Some? && slot in scope.slots.value.declared then PlaceholdersAll(nodes, slot) else 0
    decreases Unopened(config, stack), if scope.slots.Some? then 1 else 0, nodes, 0
  {
    if nodes != [] {
      var first := Expand(config, nodes[0], scope, stack, local, false);
      UsesCountPlaceholders(config, nodes[0], scope, stack, local, false, slot);
      UsesCountAllPlaceholders(config, nodes[1..], scope, stack, first.local, slot);
    }
  }

  predicate AtMostOnce(local: Local) {
    forall slot :: slot in local.uses ==> local.uses[slot] == 1
  }

  lemma {:induction false} SilentUsesOnce(config: Config, node: Node, scope: Scope, stack: seq<Key>, local: Local, isRoot: bool)
    requires Nesting(config, stack) && Silent(Expand(config, node, scope, stack, local, isRoot).facts) && AtMostOnce(local)
    ensures AtMostOnce(Expand(config, node, scope, stack, local, isRoot).local)
    decreases Unopened(config, stack), if scope.slots.Some? then 1 else 0, node, 1
  {
    if node.Branch? {
      var path := if isRoot then scope.prefix else scope.prefix + [Identity.Node(node.id)];
      var recorded := Record(local, scope, node.id, path);
      SilentParts([Emitted(path, node.id, scope.owner)], ExpandList(config, node.children, scope, stack, recorded).facts);
      SilentListUsesOnce(config, node.children, scope, stack, recorded);
    } else if node.Placeholder? && scope.slots.Some? {
      SilentPlaceholder(config, node, scope, stack, local, isRoot);
      SilentListUsesOnce(config, FillOf(scope.slots.value.fills, node.slot), SlotScope(scope, node.slot), stack,
                         CountUse(local, node.slot));
    }
  }

  lemma {:induction false} SilentListUsesOnce(config: Config, nodes: seq<Node>, scope: Scope, stack: seq<Key>, local: Local)
    requires Nesting(config, stack) && Silent(ExpandList(config, nodes, scope, stack, local).facts) && AtMostOnce(local)
    ensures AtMostOnce(ExpandList(config, nodes, scope, stack, local).local)
    decreases Unopened(config, stack), if scope.slots.Some? then 1 else 0, nodes, 0
  {
    if nodes != [] {
      var first := Expand(config, nodes[0], scope, stack, local, false);
      SilentParts(first.facts, ExpandList(config, nodes[1..], scope, stack, first.local).facts);
      SilentUsesOnce(config, nodes[0], scope, stack, local, false);
      SilentListUsesOnce(config, nodes[1..], scope, stack, first.local);
    }
  }

  lemma {:induction false} NothingMissing(declared: seq<string>, uses: map<string, nat>, k: nat)
    requires Silent(MissingFacts(declared, uses)) && k < |declared|
    ensures declared[k] in uses
  {
    SilentParts(if declared[0] in uses then [] else [Problem(MissingPlaceholder)], MissingFacts(declared[1..], uses));
    Loud(MissingPlaceholder);
    if k > 0 {
      NothingMissing(declared[1..], uses, k - 1);
    }
  }

  lemma {:induction false} SubstitutionKeepsPlaceholders(node: Node, parameters: map<string, Json>, slot: string)
    ensures Placeholders(SubstituteNode(node, parameters), slot) == Placeholders(node, slot)
    decreases node, 1
  {
    if node.Branch? {
      SubstitutionKeepsAllPlaceholders(node.children, parameters, slot);
    }
  }

  lemma {:induction false} SubstitutionKeepsAllPlaceholders(nodes: seq<Node>, parameters: map<string, Json>, slot: string)
    ensures PlaceholdersAll(SubstituteNodes(nodes, parameters), slot) == PlaceholdersAll(nodes, slot)
    decreases nodes, 0
  {
    if nodes != [] {
      SubstitutionKeepsPlaceholders(nodes[0], parameters, slot);
      SubstitutionKeepsAllPlaceholders(nodes[1..], parameters, slot);
      assert SubstituteNodes(nodes, parameters)[1..] == SubstituteNodes(nodes[1..], parameters);
    }
  }

  /** In a silently expanded instance every declared slot has exactly one placeholder in the template, so its content
      appears exactly once. */
  lemma SilentInstanceFillsEverySlotOnce(config: Config, node: Node, scope: Scope, stack: seq<Key>, local: Local, isRoot: bool)
    requires Nesting(config, stack) && node.Instance? && Silent(Expand(config, node, scope, stack, local, isRoot).facts)
    ensures node.key in config.registry
    ensures forall slot :: slot in DeclaredSlots(config.registry[node.key].slots) ==>
              Placeholders(config.registry[node.key].template, slot) == 1
  {
    SilentInstance(config, node, scope, stack, local, isRoot);
    var definition := config.registry[node.key];
    var parameters := Resolve(definition.parameters, node.parameters);
    var template, inside := SubstituteNode(definition.template, parameters), TemplateScope(scope, node, definition);
    var inner := Expand(config, template, inside, stack + [node.key], EMPTY, true);
    SilentUsesOnce(config, template, inside, stack + [node.key], EMPTY, true);
    forall slot | slot in DeclaredSlots(definition.slots) ensures Placeholders(definition.template, slot) == 1 {
      var k :| 0 <= k < |DeclaredSlots(definition.slots)| && DeclaredSlots(definition.slots)[k] == slot;
      NothingMissing(DeclaredSlots(definition.slots), inner.local.uses, k);
      UsesCountPlaceholders(config, template, inside, stack + [node.key], EMPTY, true, slot);
      SubstitutionKeepsPlaceholders(definition.template, parameters, slot);
    }
  }

  // ---------------------------------------------------------------------------------------------
  // Parameters.

  /** No `$parameter` member anywhere. */
  predicate ReferenceFree(value: Json)
    decreases value
  {
    match value
    case Arr(items) => forall i :: 0 <= i < |items| ==> ReferenceFree(items[i])
    case Obj(members) => PARAMETER !in members && forall k :: k in members ==> ReferenceFree(members[k])
    case _ => true
  }

  /** A clean value with well-typed parameters has no reference left after substitution. */
  lemma {:induction false} SubstitutionResolvesEverything(value: Json, parameters: map<string, Json>)
    requires CleanJson(value, parameters)
    requires forall k :: k in parameters ==> parameters[k].Bool? || parameters[k].Num? || parameters[k].Str?
    ensures ReferenceFree(SubstituteJson(value, parameters))
    decreases value
  {
    if Reference(value).None? {
      match value
      case Arr(items) =>
        forall i | 0 <= i < |items| ensures ReferenceFree(SubstituteJson(items[i], parameters)) {
          SubstitutionResolvesEverything(items[i], parameters);
        }
      case Obj(members) =>
        forall k | k in members ensures ReferenceFree(SubstituteJson(members[k], parameters)) {
          SubstitutionResolvesEverything(members[k], parameters);
        }
      case _ =>
    }
  }

  /** Values without references are left alone. */
  lemma {:induction false} SubstitutionLeavesPlainValues(value: Json, parameters: map<string, Json>)
    requires ReferenceFree(value)
    ensures SubstituteJson(value, parameters) == value
    decreases value
  {
    match value
    case Arr(items) =>
      forall i | 0 <= i < |items| ensures SubstituteJson(items[i], parameters) == items[i] {
        SubstitutionLeavesPlainValues(items[i], parameters);
      }
    case Obj(members) =>
      assert Reference(value).None?;
      forall k | k in members ensures SubstituteJson(members[k], parameters) == members[k] {
        SubstitutionLeavesPlainValues(members[k], parameters);
      }
      assert (map k | k in members :: SubstituteJson(members[k], parameters)) == members;
    case _ =>
  }
}
