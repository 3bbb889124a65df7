/** Which instances the expander refuses: exactly those that a nesting of instances leads to, and why an acyclic nesting
    never repeats. */
module ExpansionNesting {
  import opened Wrappers
  import opened Expansion

  // ---------------------------------------------------------------------------------------------
  // Nesting.

  /** The instances a node holds directly, those handed to its placeholders included. */
  function Members(node: Node, slots: Option<SlotContext>): (members: set<Node>)
    ensures forall m :: m in members ==> m.Instance?
    decreases if slots.Some? then 1 else 0, node, 1
  {
    match node
    case Leaf(_, _) => {}
    case Branch(_, _, children) => MembersAll(children, slots)
    case Instance(_, _, _, _) => {node}
    case Placeholder(slot) =>
      if slots.None? || slot !in slots.value.declared then {} else MembersAll(FillOf(slots.value.fills, slot), None)
  }

  function MembersAll(nodes: seq<Node>, slots: Option<SlotContext>): (members: set<Node>)
    ensures forall m :: m in members ==> m.Instance?
    decreases if slots.Some? then 1 else 0, nodes, 0
  {
    if nodes == [] then {} else Members(nodes[0], slots) + MembersAll(nodes[1..], slots)
  }

  /** What an instance nests: the instances of its template and those handed to the placeholders of its template. */
  function Guests(config: Config, host: Node): (guests: set<Node>)
    requires host.Instance? && host.key in config.registry
    ensures forall m :: m in guests ==> m.Instance?
  {
    Members(Instantiated(config, host), Some(SlotContext(DeclaredSlots(config.registry[host.key].slots), host.fills)))
  }

  function Refusal(config: Config, key: Key, stack: seq<Key>): Option<Code> {
    if key !in config.registry then Some(UnknownComposition)
    else if key in stack then Some(CycleFound)
    else if TooDeep(config, stack) then Some(MaxDepth)
    else None
  }

  /** The instance is refused for this reason, or one nested in it is. */
  ghost predicate Refuses(config: Config, instance: Node, stack: seq<Key>, code: Code)
    requires instance.Instance? && Nesting(config, stack)
    decreases Unopened(config, stack)
  {
    || Refusal(config, instance.key, stack) == Some(code)
    || (&& Opens(config, instance.key, stack)
        && (OpeningTakesOne(config, stack, instance.key);
            exists guest :: guest in Guests(config, instance) && Refuses(config, guest, stack + [instance.key], code)))
  }

  ghost predicate SomeRefused(config: Config, members: set<Node>, stack: seq<Key>, code: Code)
    requires (forall m :: m in members ==> m.Instance?) && Nesting(config, stack)
  {
    exists m :: m in members && Refuses(config, m, stack, code)
  }

  lemma RemarksRefuseNothing(facts: seq<Fact>, code: Code)
    requires OnlyRemarks(facts) && IsRefusal(code)
    ensures Problem(code) !in facts
  {
  }

  lemma InstanceReports(config: Config, node: Node, scope: Scope, stack: seq<Key>, local: Local, isRoot: bool, code: Code)
    requires Nesting(config, stack) && node.Instance? && Opens(config, node.key, stack) && IsRefusal(code)
    ensures var definition := config.registry[node.key];
            Problem(code) in Expand(config, node, scope, stack, local, isRoot).facts <==>
            Problem(code) in Expand(config, Instantiated(config, node), TemplateScope(scope, node, definition),
                                    stack + [node.key], EMPTY, true).facts
  {
    var definition := config.registry[node.key];
    var inner := Expand(config, Instantiated(config, node), TemplateScope(scope, node, definition), stack + [node.key], EMPTY, true);
    SetupFactsAreRemarks(definition, node);
    MissingFactsAreRemarks(DeclaredSlots(definition.slots), inner.local.uses);
    RemarksRefuseNothing(SetupFacts(definition, node), code);
    RemarksRefuseNothing(MissingFacts(DeclaredSlots(definition.slots), inner.local.uses), code);
  }

  lemma RefusedInstanceReports(config: Config, node: Node, scope: Scope, stack: seq<Key>, local: Local, isRoot: bool, code: Code)
    requires Nesting(config, stack) && node.Instance? && !Opens(config, node.key, stack) && IsRefusal(code)
    ensures Problem(code) in Expand(config, node, scope, stack, local, isRoot).facts <==> Refusal(config, node.key, stack) == Some(code)
  {
  }

  /** An expansion reports a refusal exactly when it holds an instance that is refused, at whatever depth. */
  lemma {:induction false} ExpansionReports(config: Config, node: Node, scope: Scope, stack: seq<Key>, local: Local, isRoot: bool, code: Code)
    requires Nesting(config, stack) && IsRefusal(code)
    ensures Problem(code) in Expand(config, node, scope, stack, local, isRoot).facts <==>
            SomeRefused(config, Members(node, scope.slots), stack, code)
    decreases Unopened(config, stack), if scope.slots.Some? then 1 else 0, node, 1
  {
    match node
    case Leaf(_, _) =>
    case Branch(id, _, children) =>
      ListReports(config, children, scope, stack, Record(local, scope, id, PathOf(id, scope, isRoot)), code);
    case Placeholder(slot) =>
      if scope.slots.Some? && slot in scope.slots.value.declared {
        ListReports(config, FillOf(scope.slots.value.fills, slot), SlotScope(scope, slot), stack, CountUse(local, slot), code);
      }
    case Instance(_, key, _, _) =>
      if Opens(config, key, stack) {
        var definition := config.registry[key];
        OpeningTakesOne(config, stack, key);
        ExpansionReports(config, Instantiated(config, node), TemplateScope(scope, node, definition), stack + [key], EMPTY, true, code);
        InstanceReports(config, node, scope, stack, local, isRoot, code);
        OneMember(config, node, stack, code);
      } else {
        RefusedInstanceReports(config, node, scope, stack, local, isRoot, code);
        OneMember(config, node, stack, code);
      }
  }

  lemma OneMember(config: Config, node: Node, stack: seq<Key>, code: Code)
    requires Nesting(config, stack) && node.Instance?
    ensures SomeRefused(config, {node}, stack, code) <==> Refuses(config, node, stack, code)
  {
    assert node in {node};
  }

  lemma {:induction false} ListReports(config: Config, nodes: seq<Node>, scope: Scope, stack: seq<Key>, local: Local, code: Code)
    requires Nesting(config, stack) && IsRefusal(code)
    ensures Problem(code) in ExpandList(config, nodes, scope, stack, local).facts <==>
            SomeRefused(config, MembersAll(nodes, scope.slots), stack, code)
    decreases Unopened(config, stack), if scope.slots.Some? then 1 else 0, nodes, 0
  {
    if nodes != [] {
      var first := Expand(config, nodes[0], scope, stack, local, false);
      ExpansionReports(config, nodes[0], scope, stack, local, false, code);
      ListReports(config, nodes[1..], scope, stack, first.local, code);
    }
  }

  // ---------------------------------------------------------------------------------------------
  // Trails: the nesting that leads to a refused instance.

  function Keys(trail: seq<Node>): seq<Key>
    requires forall i :: 0 <= i < |trail| ==> trail[i].Instance?
  {
    seq(|trail|, i requires 0 <= i < |trail| => trail[i].key)
  }

  /** Instances, each nested in the one before. */
  ghost predicate Linked(config: Config, trail: seq<Node>) {
    && trail != []
    && (forall i :: 0 <= i < |trail| ==> trail[i].Instance?)
    && (forall i :: 0 <= i < |trail| - 1 ==> trail[i].key in config.registry && trail[i + 1] in Guests(config, trail[i]))
  }

  /** Every definition but the last can be opened below the ones before it, and the last is refused. */
  ghost predicate EndsRefused(config: Config, stack: seq<Key>, keys: seq<Key>, code: Code)
    requires keys != []
  {
    && (forall i :: 0 <= i < |keys| - 1 ==> Opens(config, keys[i], stack + keys[..i]))
    && Refusal(config, keys[|keys| - 1], stack + keys[..|keys| - 1]) == Some(code)
  }

  lemma StackOfTail(stack: seq<Key>, keys: seq<Key>, i: nat)
    requires 0 < i <= |keys|
    ensures stack + [keys[0]] + keys[1..][..i - 1] == stack + keys[..i]
  {
  }

  lemma EndsRefusedTail(config: Config, stack: seq<Key>, keys: seq<Key>, code: Code)
    requires |keys| > 1
    ensures EndsRefused(config, stack, keys, code) <==>
            Opens(config, keys[0], stack) && EndsRefused(config, stack + [keys[0]], keys[1..], code)
  {
    var deeper, rest := stack + [keys[0]], keys[1..];
    assert stack + keys[..0] == stack;
    StackOfTail(stack, keys, |keys| - 1);
    if EndsRefused(config, stack, keys, code) {
      forall i | 0 <= i < |rest| - 1 ensures Opens(config, rest[i], deeper + rest[..i]) {
        assert Opens(config, keys[i + 1], stack + keys[..i + 1]);
        StackOfTail(stack, keys, i + 1);
      }
    }
    if Opens(config, keys[0], stack) && EndsRefused(config, deeper, rest, code) {
      forall i | 0 <= i < |keys| - 1 ensures Opens(config, keys[i], stack + keys[..i]) {
        if i > 0 {
          assert Opens(config, rest[i - 1], deeper + rest[..i - 1]);
          StackOfTail(stack, keys, i);
        }
      }
    }
  }

  lemma LinkedTail(config: Config, trail: seq<Node>)
    requires Linked(config, trail) && |trail| > 1
    ensures Linked(config, trail[1..]) && Keys(trail[1..]) == Keys(trail)[1..]
    ensures trail[0].key in config.registry && trail[1] in Guests(config, trail[0])
  {
    assert trail[0 + 1] in Guests(config, trail[0]);
  }

  lemma LinkedPrepend(config: Config, host: Node, trail: seq<Node>)
    requires Linked(config, trail) && host.Instance? && host.key in config.registry && trail[0] in Guests(config, host)
    ensures Linked(config, [host] + trail) && Keys([host] + trail) == [host.key] + Keys(trail)
  {
  }

  lemma OneRefused(config: Config, stack: seq<Key>, instance: Node, code: Code)
    requires instance.Instance?
    ensures Linked(config, [instance]) && Keys([instance]) == [instance.key]
    ensures EndsRefused(config, stack, [instance.key], code) <==> Refusal(config, instance.key, stack) == Some(code)
  {
    assert Keys([instance]) == [instance.key] && stack + [instance.key][..0] == stack;
  }

  lemma {:induction false} RefusalHasTrail(config: Config, instance: Node, stack: seq<Key>, code: Code) returns (trail: seq<Node>)
    requires instance.Instance? && Nesting(config, stack) && Refuses(config, instance, stack, code)
    ensures Linked(config, trail) && trail[0] == instance && EndsRefused(config, stack, Keys(trail), code)
    decreases Unopened(config, stack)
  {
    if Refusal(config, instance.key, stack) == Some(code) {
      OneRefused(config, stack, instance, code);
      trail := [instance];
    } else {
      OpeningTakesOne(config, stack, instance.key);
      var guest :| guest in Guests(config, instance) && Refuses(config, guest, stack + [instance.key], code);
      var rest := RefusalHasTrail(config, guest, stack + [instance.key], code);
      trail := [instance] + rest;
      LinkedPrepend(config, instance, rest);
      assert Keys(trail)[1..] == Keys(rest);
      EndsRefusedTail(config, stack, Keys(trail), code);
    }
  }

  lemma {:induction false} TrailRefuses(config: Config, stack: seq<Key>, trail: seq<Node>, code: Code)
    requires Nesting(config, stack) && Linked(config, trail) && EndsRefused(config, stack, Keys(trail), code)
    ensures Refuses(config, trail[0], stack, code)
    decreases |trail|
  {
    if |trail| == 1 {
      assert trail == [trail[0]];
      OneRefused(config, stack, trail[0], code);
    } else {
      LinkedTail(config, trail);
      EndsRefusedTail(config, stack, Keys(trail), code);
      OpeningTakesOne(config, stack, trail[0].key);
      TrailRefuses(config, stack + [trail[0].key], trail[1..], code);
    }
  }

  /** A nesting that starts in the view. */
  ghost predicate NestedIn(config: Config, view: Node, trail: seq<Node>) {
    Linked(config, trail) && trail[0] in Members(view, None)
  }

  /** The expander refuses an instance exactly when a nesting of instances leads from the view to it: all before it are
      known, different and above the depth limit, and it is unknown, one of them again, or too deep. */
  lemma RefusalsAreTrails(config: Config, view: Node, code: Code)
    requires IsRefusal(code)
    ensures Problem(code) in ExpandView(config, view).facts <==>
            exists trail :: NestedIn(config, view, trail) && EndsRefused(config, [], Keys(trail), code)
  {
    ExpansionReports(config, view, VIEW, [], EMPTY, false, code);
    if m :| m in Members(view, None) && Refuses(config, m, [], code) {
      var trail := RefusalHasTrail(config, m, [], code);
      assert NestedIn(config, view, trail);
    }
    if trail :| NestedIn(config, view, trail) && EndsRefused(config, [], Keys(trail), code) {
      TrailRefuses(config, [], trail, code);
    }
  }

  lemma FrontOfRefused(config: Config, keys: seq<Key>, code: Code)
    requires keys != [] && EndsRefused(config, [], keys, code)
    ensures Nesting(config, keys[..|keys| - 1])
  {
    forall i, j | 0 <= i < j < |keys| - 1 ensures keys[i] != keys[j] {
      assert Opens(config, keys[j], [] + keys[..j]) && keys[..j][i] == keys[i];
    }
    forall i | 0 <= i < |keys| - 1 ensures keys[i] in config.registry {
      assert Opens(config, keys[i], [] + keys[..i]);
    }
  }

  /** The registry is limit enough: with a depth limit no smaller, and with none, nothing is ever too deep. */
  lemma TheRegistryIsLimitEnough(config: Config, view: Node)
    requires config.maxDepth.None? || config.maxDepth.value >= |config.registry|
    ensures Problem(MaxDepth) !in ExpandView(config, view).facts
  {
    RefusalsAreTrails(config, view, MaxDepth);
    forall trail | NestedIn(config, view, trail) ensures !EndsRefused(config, [], Keys(trail), MaxDepth) {
      if EndsRefused(config, [], Keys(trail), MaxDepth) {
        var front, key := Keys(trail)[..|trail| - 1], Keys(trail)[|trail| - 1];
        FrontOfRefused(config, Keys(trail), MaxDepth);
        assert [] + front == front;
        OpeningTakesOne(config, front, key);
        StackIsBounded(config, front + [key]);
      }
    }
  }

  /** The last definition was opened before; the ones before it are known and different, and no more than the depth limit
      allows. */
  ghost predicate Repeats(config: Config, keys: seq<Key>)
    requires keys != []
  {
    var n := |keys| - 1;
    keys[n] in keys[..n] && Nesting(config, keys[..n]) && (config.maxDepth.None? || n <= config.maxDepth.value)
  }

  lemma RepeatsOpens(config: Config, keys: seq<Key>, i: nat)
    requires keys != [] && Repeats(config, keys) && i < |keys| - 1
    ensures Opens(config, keys[i], [] + keys[..i])
  {
    var front := keys[..|keys| - 1];
    assert front[i] == keys[i] && forall k :: 0 <= k < i ==> front[k] == keys[..i][k];
  }

  lemma RepeatsMeaning(config: Config, keys: seq<Key>)
    requires keys != []
    ensures Repeats(config, keys) <==> EndsRefused(config, [], keys, CycleFound)
  {
    var n := |keys| - 1;
    assert [] + keys[..n] == keys[..n];
    if Repeats(config, keys) {
      forall i | 0 <= i < n ensures Opens(config, keys[i], [] + keys[..i]) {
        RepeatsOpens(config, keys, i);
      }
    }
    if EndsRefused(config, [], keys, CycleFound) {
      FrontOfRefused(config, keys, CycleFound);
      if n > 0 {
        assert Opens(config, keys[n - 1], [] + keys[..n - 1]);
      }
    }
  }

  /** Exactly when the expander reports a cycle. */
  lemma CyclesAreRepetitions(config: Config, view: Node)
    ensures Problem(CycleFound) in ExpandView(config, view).facts <==>
            exists trail :: NestedIn(config, view, trail) && Repeats(config, Keys(trail))
  {
    RefusalsAreTrails(config, view, CycleFound);
    forall trail | NestedIn(config, view, trail)
      ensures Repeats(config, Keys(trail)) <==> EndsRefused(config, [], Keys(trail), CycleFound) {
      RepeatsMeaning(config, Keys(trail));
    }
  }
}
