/** Exactly when setting up an instance reports nothing: its parameters, the references of its template, and its slots. */
module InstanceChecks {
  import opened Wrappers
  import opened Decimal
  import opened JsonPatch
  import opened Expansion
  import opened ExpansionMeaning
  import opened ParameterMeaning
  import opened ExpansionContent

  // ---------------------------------------------------------------------------------------------
  // References.

  lemma ReferenceMeaning(value: Json, name: string)
    ensures Reference(value) == Some(name) <==> value == Obj(map["$parameter" := Str(name)])
  {
    if Reference(value) == Some(name) {
      assert value.members == map["$parameter" := Str(name)];
    }
  }

  /** What stands at the path, unless the path goes through a reference. */
  function Reached(value: Json, path: Tokens): Option<Json> {
    if Meets(value, path).Some? && Meets(value, path).value < |path| then None else Lookup(value, path)
  }

  /** Objects with a `$parameter` member are references to names that have a value. */
  predicate FineReference(found: Json, parameters: map<string, Json>) {
    found.Obj? && "$parameter" in found.members ==>
      exists name :: name in parameters && found == Obj(map["$parameter" := Str(name)])
  }

  lemma ReachedBelow(value: Json, key: string, path: Tokens)
    requires Reference(value).None? && Child(value, key).Some?
    ensures Reached(value, [key] + path) == Reached(Child(value, key).value, path)
  {
    assert ([key] + path)[1..] == path;
  }

  lemma FineAtRoot(value: Json, parameters: map<string, Json>)
    ensures FineReference(value, parameters) <==>
            if Reference(value).Some? then Reference(value).value in parameters
            else !(value.Obj? && PARAMETER in value.members)
  {
    if Reference(value).Some? {
      ReferenceMeaning(value, Reference(value).value);
    }
    if value.Obj? && PARAMETER in value.members && FineReference(value, parameters) {
      var name :| name in parameters && value == Obj(map["$parameter" := Str(name)]);
      ReferenceMeaning(value, name);
    }
  }

  ghost predicate FineEverywhere(value: Json, parameters: map<string, Json>) {
    forall path :: Reached(value, path).Some? ==> FineReference(Reached(value, path).value, parameters)
  }

  lemma FineChild(value: Json, parameters: map<string, Json>, key: string)
    requires FineEverywhere(value, parameters) && Reference(value).None? && Child(value, key).Some?
    ensures FineEverywhere(Child(value, key).value, parameters)
  {
    forall path | Reached(Child(value, key).value, path).Some?
      ensures FineReference(Reached(Child(value, key).value, path).value, parameters) {
      ReachedBelow(value, key, path);
    }
  }

  lemma FineAbove(value: Json, parameters: map<string, Json>)
    requires FineReference(value, parameters)
    requires Reference(value).None? ==> forall key :: Child(value, key).Some? ==> FineEverywhere(Child(value, key).value, parameters)
    ensures FineEverywhere(value, parameters)
  {
    forall path | Reached(value, path).Some? ensures FineReference(Reached(value, path).value, parameters) {
      if path != [] {
        assert [path[0]] + path[1..] == path;
        ReachedBelow(value, path[0], path[1..]);
      }
    }
  }

  /** A value is clean exactly when every object with a `$parameter` member, at whatever path outside a reference, is a
      reference to a name that has a value. */
  lemma {:induction false} CleanMeaning(value: Json, parameters: map<string, Json>)
    ensures CleanJson(value, parameters) <==> FineEverywhere(value, parameters)
    decreases value
  {
    FineAtRoot(value, parameters);
    assert Reached(value, []) == Some(value);
    if Reference(value).Some? {
      if FineReference(value, parameters) {
        FineAbove(value, parameters);
      }
    } else {
      match value
      case Arr(items) => CleanItems(value, parameters);
      case Obj(members) => CleanMembers(value, parameters);
      case _ =>
        if FineReference(value, parameters) {
          FineAbove(value, parameters);
        }
    }
  }

  lemma {:induction false} CleanItems(value: Json, parameters: map<string, Json>)
    requires value.Arr?
    ensures CleanJson(value, parameters) <==> FineEverywhere(value, parameters)
    decreases value, 0
  {
    forall i | 0 <= i < |value.items| ensures CleanJson(value.items[i], parameters) <==> FineEverywhere(value.items[i], parameters) {
      CleanMeaning(value.items[i], parameters);
    }
    if FineEverywhere(value, parameters) {
      forall i | 0 <= i < |value.items| ensures CleanJson(value.items[i], parameters) {
        NumeralParses(i);
        FineChild(value, parameters, Numeral(i));
      }
    }
    if CleanJson(value, parameters) {
      FineAbove(value, parameters);
    }
  }

  lemma {:induction false} CleanMembers(value: Json, parameters: map<string, Json>)
    requires value.Obj? && Reference(value).None?
    ensures CleanJson(value, parameters) <==> FineEverywhere(value, parameters)
    decreases value, 0
  {
    forall k | k in value.members ensures CleanJson(value.members[k], parameters) <==> FineEverywhere(value.members[k], parameters) {
      CleanMeaning(value.members[k], parameters);
    }
    FineAtRoot(value, parameters);
    assert Reached(value, []) == Some(value);
    if FineEverywhere(value, parameters) {
      forall k | k in value.members ensures CleanJson(value.members[k], parameters) {
        FineChild(value, parameters, k);
      }
    }
    if CleanJson(value, parameters) {
      FineAbove(value, parameters);
    }
  }

  // ---------------------------------------------------------------------------------------------
  // Templates.

  /** A node of the template, or of the content handed to a nested instance. */
  predicate Within(node: Node, m: Node)
    decreases node, 1
  {
    node == m || (node.Branch? && WithinAll(node.children, m)) || (node.Instance? && WithinFills(node.fills, m))
  }

  predicate WithinAll(nodes: seq<Node>, m: Node)
    decreases nodes, 0
  {
    nodes != [] && (Within(nodes[0], m) || WithinAll(nodes[1..], m))
  }

  predicate WithinFills(fills: seq<Fill>, m: Node)
    decreases fills, 0
  {
    fills != [] && (WithinAll(fills[0].nodes, m) || WithinFills(fills[1..], m))
  }

  /** The node's own properties or parameters hold well-formed references to names that have a value, and no other. */
  ghost predicate FineHere(m: Node, parameters: map<string, Json>) {
    match m
    case Leaf(_, props) => "$parameter" !in props && forall key :: key in props ==> FineEverywhere(props[key], parameters)
    case Branch(_, props, _) => "$parameter" !in props && forall key :: key in props ==> FineEverywhere(props[key], parameters)
    case Instance(_, _, bindings, _) =>
      forall k :: 0 <= k < |bindings| ==> bindings[k].name != "$parameter" && FineEverywhere(bindings[k].value, parameters)
    case Placeholder(_) => true
  }

  lemma CleanPropsMeaning(props: map<string, Json>, parameters: map<string, Json>)
    ensures CleanProps(props, parameters) <==>
            "$parameter" !in props && forall key :: key in props ==> FineEverywhere(props[key], parameters)
  {
    forall key | key in props ensures CleanJson(props[key], parameters) <==> FineEverywhere(props[key], parameters) {
      CleanMeaning(props[key], parameters);
    }
  }

  lemma CleanBindingsMeaning(bindings: seq<Binding>, parameters: map<string, Json>)
    ensures CleanBindings(bindings, parameters) <==>
            forall k :: 0 <= k < |bindings| ==> bindings[k].name != "$parameter" && FineEverywhere(bindings[k].value, parameters)
  {
    forall k | 0 <= k < |bindings| ensures CleanJson(bindings[k].value, parameters) <==> FineEverywhere(bindings[k].value, parameters) {
      CleanMeaning(bindings[k].value, parameters);
    }
  }

  /** A template is clean exactly when all its nodes are. */
  lemma {:induction false} CleanTemplateMeaning(node: Node, parameters: map<string, Json>)
    ensures CleanNode(node, parameters) <==> forall m :: Within(node, m) ==> FineHere(m, parameters)
    decreases node, 1
  {
    assert Within(node, node);
    match node
    case Leaf(_, props) =>
      CleanPropsMeaning(props, parameters);
      assert FineHere(node, parameters) <==> CleanProps(props, parameters);
      assert forall m :: Within(node, m) <==> m == node;
    case Branch(_, props, children) =>
      CleanPropsMeaning(props, parameters);
      CleanTemplatesMeaning(children, parameters);
      assert FineHere(node, parameters) <==> CleanProps(props, parameters);
      assert forall m :: Within(node, m) <==> m == node || WithinAll(children, m);
    case Instance(_, _, bindings, fills) =>
      CleanBindingsMeaning(bindings, parameters);
      CleanFillsMeaning(fills, parameters);
      assert FineHere(node, parameters) <==> CleanBindings(bindings, parameters);
      assert forall m :: Within(node, m) <==> m == node || WithinFills(fills, m);
    case Placeholder(_) =>
  }

  lemma {:induction false} CleanTemplatesMeaning(nodes: seq<Node>, parameters: map<string, Json>)
    ensures CleanNodes(nodes, parameters) <==> forall m :: WithinAll(nodes, m) ==> FineHere(m, parameters)
    decreases nodes, 0
  {
    if nodes != [] {
      CleanTemplateMeaning(nodes[0], parameters);
      CleanTemplatesMeaning(nodes[1..], parameters);
    }
  }

  lemma {:induction false} CleanFillsMeaning(fills: seq<Fill>, parameters: map<string, Json>)
    ensures CleanFills(fills, parameters) <==> forall m :: WithinFills(fills, m) ==> FineHere(m, parameters)
    decreases fills, 0
  {
    if fills != [] {
      CleanTemplatesMeaning(fills[0].nodes, parameters);
      CleanFillsMeaning(fills[1..], parameters);
    }
  }

  // ---------------------------------------------------------------------------------------------
  // Parameters.

  ghost predicate Declared(definitions: seq<ParameterDefinition>, name: string) {
    exists k :: 0 <= k < |definitions| && definitions[k].name == name
  }

  lemma {:induction false} NoUnknownParameters(definitions: seq<ParameterDefinition>, provided: seq<Binding>)
    ensures Silent(UnknownParameters(definitions, provided)) <==> forall k :: 0 <= k < |provided| ==> Declared(definitions, provided[k].name)
  {
    if provided != [] {
      NoUnknownParameters(definitions, provided[1..]);
      SilentParts(if Declares(definitions, provided[0].name) then [] else [Problem(UnknownParameter)],
                  UnknownParameters(definitions, provided[1..]));
      Loud(UnknownParameter);
      assert provided == [provided[0]] + provided[1..];
    }
  }

  /** A value of the declared type is given, or none and none is required. */
  ghost predicate WellGiven(definition: ParameterDefinition, provided: seq<Binding>) {
    && (definition.required ==> exists v :: Given(definition, provided, v))
    && forall v :: Given(definition, provided, v) ==>
         match definition.kind
         case BooleanType => v.Bool?
         case NumberType => v.Num?
         case StringType => v.Str?
  }

  lemma OneParameter(definition: ParameterDefinition, provided: seq<Binding>)
    requires DistinctBindings(provided)
    ensures Silent(ParameterFact(definition, provided)) <==> WellGiven(definition, provided)
  {
    Loud(MissingParameter);
    Loud(InvalidParameter);
    var value := Provided(definition, provided);
    forall v ensures value == Some(v) <==> Given(definition, provided, v) {
      ProvidedMeaning(definition, provided, v);
    }
    if value.Some? {
      assert Given(definition, provided, value.value);
    }
  }

  lemma {:induction false} ParametersAreWellGiven(definitions: seq<ParameterDefinition>, provided: seq<Binding>)
    requires DistinctBindings(provided)
    ensures Silent(ParameterFacts(definitions, provided)) <==> forall k :: 0 <= k < |definitions| ==> WellGiven(definitions[k], provided)
  {
    if definitions != [] {
      OneParameter(definitions[0], provided);
      ParametersAreWellGiven(definitions[1..], provided);
      SilentParts(ParameterFact(definitions[0], provided), ParameterFacts(definitions[1..], provided));
      assert definitions == [definitions[0]] + definitions[1..];
    }
  }

  // ---------------------------------------------------------------------------------------------
  // Slots.

  predicate DistinctSlots(slots: seq<SlotDefinition>) {
    forall i, j :: 0 <= i < j < |slots| ==> slots[i].name != slots[j].name
  }

  lemma {:induction false} DeclaredSlotsMeaning(slots: seq<SlotDefinition>, name: string)
    ensures name in DeclaredSlots(slots) <==> exists k :: 0 <= k < |slots| && slots[k].name == name
  {
    if slots != [] {
      DeclaredSlotsMeaning(slots[..|slots| - 1], name);
      assert slots == slots[..|slots| - 1] + [slots[|slots| - 1]];
    }
  }

  lemma {:induction false} NoDuplicateSlots(slots: seq<SlotDefinition>)
    ensures Silent(DuplicateSlotFacts(slots)) <==> DistinctSlots(slots)
  {
    if slots != [] {
      var front, last := slots[..|slots| - 1], slots[|slots| - 1];
      NoDuplicateSlots(front);
      DeclaredSlotsMeaning(front, last.name);
      SilentParts(DuplicateSlotFacts(front), if last.name in DeclaredSlots(front) then [Problem(DuplicateSlot)] else []);
      Loud(DuplicateSlot);
      assert slots == front + [last];
    }
  }

  lemma {:induction false} NoUnknownFills(declared: seq<string>, fills: seq<Fill>)
    ensures Silent(UnknownFillFacts(declared, fills)) <==> forall k :: 0 <= k < |fills| ==> fills[k].slot in declared
  {
    if fills != [] {
      NoUnknownFills(declared, fills[1..]);
      SilentParts(if fills[0].slot in declared then [] else [Problem(UnknownSlot)], UnknownFillFacts(declared, fills[1..]));
      Loud(UnknownSlot);
      assert fills == [fills[0]] + fills[1..];
    }
  }

  /** Content for a required slot, and no more than one node for a slot that takes one. */
  ghost predicate WellFilled(slot: SlotDefinition, fills: seq<Fill>) {
    && (slot.required ==> exists fill :: fill in fills && fill.slot == slot.name && fill.nodes != [])
    && (!slot.multiple ==> forall fill :: fill in fills && fill.slot == slot.name ==> |fill.nodes| <= 1)
  }

  lemma {:induction false} NoFill(fills: seq<Fill>, slot: string)
    requires forall fill :: fill in fills ==> fill.slot != slot
    ensures FillOf(fills, slot) == []
  {
    if fills != [] {
      assert fills[0] in fills && forall fill :: fill in fills[1..] ==> fill in fills;
      NoFill(fills[1..], slot);
    }
  }

  lemma CountMeaning(slot: SlotDefinition, fills: seq<Fill>)
    requires DistinctFills(fills)
    ensures var count := |FillOf(fills, slot.name)|;
            Silent(CountFact(slot, count)) <==> WellFilled(slot, fills)
  {
    var count := |FillOf(fills, slot.name)|;
    SilentParts(if slot.required && count == 0 then [Problem(MissingSlot)] else [],
                if !slot.multiple && count > 1 then [Problem(MultipleSlot)] else []);
    Loud(MissingSlot);
    Loud(MultipleSlot);
    if fill :| fill in fills && fill.slot == slot.name {
      FillMeaning(fills, fill);
      forall other | other in fills && other.slot == slot.name ensures other.nodes == FillOf(fills, slot.name) {
        FillMeaning(fills, other);
      }
    } else {
      NoFill(fills, slot.name);
    }
  }

  lemma {:induction false} SlotsAreWellFilled(slots: seq<SlotDefinition>, fills: seq<Fill>)
    requires DistinctFills(fills) && DistinctSlots(slots)
    ensures Silent(CountFacts(slots, fills)) <==> forall k :: 0 <= k < |slots| ==> WellFilled(slots[k], fills)
  {
    if slots != [] {
      var front, last := slots[..|slots| - 1], slots[|slots| - 1];
      SlotsAreWellFilled(front, fills);
      DeclaredSlotsMeaning(front, last.name);
      CountMeaning(last, fills);
      SilentParts(CountFacts(front, fills), CountFact(last, |FillOf(fills, last.name)|));
      assert slots == front + [last];
    }
  }

  /** Setting up an instance reports nothing exactly when every provided name is declared, every parameter has a value of its
      type unless it needs none, every reference of the template is well formed and has a value, no slot is declared twice,
      content goes to declared slots only, and every slot has as much as it takes. */
  lemma SetupIsSilentExactly(definition: Definition, instance: Node)
    requires instance.Instance? && DistinctBindings(instance.parameters) && DistinctFills(instance.fills)
    ensures Silent(SetupFacts(definition, instance)) <==>
            && (forall k :: 0 <= k < |instance.parameters| ==> Declared(definition.parameters, instance.parameters[k].name))
            && (forall k :: 0 <= k < |definition.parameters| ==> WellGiven(definition.parameters[k], instance.parameters))
            && (forall m :: Within(definition.template, m) ==> FineHere(m, Resolve(definition.parameters, instance.parameters)))
            && DistinctSlots(definition.slots)
            && (forall k :: 0 <= k < |instance.fills| ==>
                  exists j :: 0 <= j < |definition.slots| && definition.slots[j].name == instance.fills[k].slot)
            && (forall k :: 0 <= k < |definition.slots| ==> WellFilled(definition.slots[k], instance.fills))
  {
    SetupParts(definition, instance);
    NoUnknownParameters(definition.parameters, instance.parameters);
    ParametersAreWellGiven(definition.parameters, instance.parameters);
    CleanTemplateMeaning(definition.template, Resolve(definition.parameters, instance.parameters));
    NoDuplicateSlots(definition.slots);
    NoUnknownFills(DeclaredSlots(definition.slots), instance.fills);
    forall k | 0 <= k < |instance.fills|
      ensures instance.fills[k].slot in DeclaredSlots(definition.slots) <==>
              exists j :: 0 <= j < |definition.slots| && definition.slots[j].name == instance.fills[k].slot {
      DeclaredSlotsMeaning(definition.slots, instance.fills[k].slot);
    }
    if DistinctSlots(definition.slots) {
      SlotsAreWellFilled(definition.slots, instance.fills);
    }
  }
}
