/** The risk of a proposed patch: derived from its paths and from every key inside its values, never below what the
    proposal declares. */
module Risk {
  import opened Wrappers
  import Text
  import Pointer

  datatype Risk = Presentation | Interaction | Behavior | Data | ExternalEffect

  function Rank(risk: Risk): nat {
    match risk
    case Presentation => 0
    case Interaction => 1
    case Behavior => 2
    case Data => 3
    case ExternalEffect => 4
  }

  /** The candidate wins only when it ranks higher. */
  function Higher(current: Risk, candidate: Risk): Risk {
    if Rank(candidate) > Rank(current) then candidate else current
  }

  function Highest(risks: seq<Risk>): Risk {
    if risks == [] then Presentation else Higher(Highest(risks[..|risks| - 1]), risks[|risks| - 1])
  }

  /** Values as the walk sees them: object members in order, everything else a scalar. */
  datatype Value = Scalar | List(items: seq<Value>) | Record(entries: seq<Entry>)
  datatype Entry = Entry(key: string, value: Value)

  datatype OperationType = Add | Copy | Move | Remove | Replace | Test
  datatype Operation = Operation(op: OperationType, path: string, from: Option<string>, value: Option<Value>)
  datatype Proposal = Proposal(risk: Risk, operations: seq<Operation>)

  const MAXIMUM_INSPECTED_VALUES := 10_000

  const EXTERNAL_EFFECT_KEYS := {"effect", "effectid", "effects", "endpoint", "href", "src", "target", "url"}
  const DATA_KEYS := {"binding", "bindings", "cells", "columns", "data", "dataclassification", "entities", "entries", "errors", "items",
    "mutation", "name", "options", "properties", "query", "results", "rows", "semantics", "store", "stores", "types", "value", "values"}
  const BEHAVIOR_KEYS := {"accept", "action", "activationmode", "asyncvalidators", "disabled", "events", "guard", "linear", "loading",
    "machine", "maximumfilebytes", "multiple", "readonly", "required", "rules", "selectionmode", "sortablecolumns", "updateon", "validators"}
  const INTERACTION_KEYS := {"$children", "$comp", "$slot", "slots"}
  const PRESENTATION_KEYS := {"align", "columns", "content", "direction", "gap", "helptext", "label", "level", "padding", "placeholder",
    "size", "surface", "title", "tone", "variant", "weight"}

  /** Lower-casing is a parameter: it depends on Unicode tables. */
  type Lower = string -> string

  /** The first category that lists the key. */
  function KeyRisk(lower: Lower, key: string): Option<Risk> {
    var normalized := lower(key);
    if normalized in EXTERNAL_EFFECT_KEYS then Some(ExternalEffect)
    else if normalized in DATA_KEYS then Some(Data)
    else if normalized in BEHAVIOR_KEYS then Some(Behavior)
    else if normalized in INTERACTION_KEYS then Some(Interaction)
    else if normalized in PRESENTATION_KEYS then Some(Presentation)
    else None
  }

  function KnownRisk(lower: Lower, key: string): Risk {
    if KeyRisk(lower, key).Some? then KeyRisk(lower, key).value else Presentation
  }

  // ---------------------------------------------------------------------------------------------
  // The simple form.

  function Size(value: Value): nat
    decreases value, 1
  {
    match value
    case Scalar => 1
    case List(items) => 1 + SizeAll(items)
    case Record(entries) => 1 + SizeEntries(entries)
  }

  function SizeAll(values: seq<Value>): nat
    decreases values, 0
  {
    if values == [] then 0 else SizeAll(values[..|values| - 1]) + Size(values[|values| - 1])
  }

  function SizeEntries(entries: seq<Entry>): nat
    decreases entries, 0
  {
    if entries == [] then 0 else SizeEntries(entries[..|entries| - 1]) + Size(entries[|entries| - 1].value)
  }

  /** The highest risk of any key in the tree. */
  function TreeRisk(lower: Lower, value: Value): Risk
    decreases value, 1
  {
    match value
    case Scalar => Presentation
    case List(items) => TreeRiskAll(lower, items)
    case Record(entries) => TreeRiskEntries(lower, entries)
  }

  function TreeRiskAll(lower: Lower, values: seq<Value>): Risk
    decreases values, 0
  {
    if values == [] then Presentation
    else Higher(TreeRiskAll(lower, values[..|values| - 1]), TreeRisk(lower, values[|values| - 1]))
  }

  function TreeRiskEntries(lower: Lower, entries: seq<Entry>): Risk
    decreases entries, 0
  {
    if entries == [] then Presentation
    else
      var last := entries[|entries| - 1];
      Higher(TreeRiskEntries(lower, entries[..|entries| - 1]), Higher(KnownRisk(lower, last.key), TreeRisk(lower, last.value)))
  }

  /** A value too large to inspect counts as the top risk. */
  function BudgetedRisk(lower: Lower, value: Value): Risk {
    if Size(value) <= MAXIMUM_INSPECTED_VALUES then TreeRisk(lower, value) else ExternalEffect
  }

  // ---------------------------------------------------------------------------------------------
  // The walk.

  lemma HigherIsJoin(a: Risk, b: Risk, c: Risk)
    ensures Higher(a, b) == Higher(b, a) && Higher(a, Higher(b, c)) == Higher(Higher(a, b), c)
    ensures Higher(Presentation, a) == a && Higher(a, Presentation) == a && Higher(a, a) == a
  {
  }

  lemma {:induction false} StackGrows(lower: Lower, stack: seq<Value>, more: seq<Value>)
    ensures SizeAll(stack + more) == SizeAll(stack) + SizeAll(more)
    ensures TreeRiskAll(lower, stack + more) == Higher(TreeRiskAll(lower, stack), TreeRiskAll(lower, more))
  {
    if more == [] {
      assert stack + more == stack;
    } else {
      var last := |more| - 1;
      assert (stack + more)[..|stack| + last] == stack + more[..last];
      StackGrows(lower, stack, more[..last]);
      HigherIsJoin(TreeRiskAll(lower, stack), TreeRiskAll(lower, more[..last]), TreeRisk(lower, more[last]));
    }
  }

  /** The stack walk finds the highest key risk of the whole tree, or the top risk when the tree is too large. */
  method ValueRisk(lower: Lower, value: Value) returns (risk: Risk)
    ensures risk == BudgetedRisk(lower, value)
  {
    var pending, risks: seq<Risk> := [value], [];
    var inspected := 0;
    StackGrows(lower, [], [value]);
    assert [value][..0] == [];
    while pending != []
      invariant inspected <= MAXIMUM_INSPECTED_VALUES && inspected + SizeAll(pending) == Size(value)
      invariant Higher(Highest(risks), TreeRiskAll(lower, pending)) == TreeRisk(lower, value)
      decreases MAXIMUM_INSPECTED_VALUES - inspected
    {
      if inspected >= MAXIMUM_INSPECTED_VALUES {
        PositiveSize(pending[|pending| - 1]);
        return ExternalEffect;
      }
      var current, rest := pending[|pending| - 1], pending[..|pending| - 1];
      risks, pending := InspectValue(lower, current, rest, risks);
      inspected := inspected + 1;
    }
    risk := Highest(risks);
  }

  lemma PositiveSize(value: Value)
    ensures Size(value) >= 1
  {
  }

  method InspectValue(lower: Lower, value: Value, pending: seq<Value>, risks: seq<Risk>) returns (risks': seq<Risk>, pending': seq<Value>)
    ensures SizeAll(pending') + 1 == SizeAll(pending) + Size(value)
    ensures Higher(Highest(risks'), TreeRiskAll(lower, pending')) ==
            Higher(Highest(risks), Higher(TreeRiskAll(lower, pending), TreeRisk(lower, value)))
  {
    match value
    case Scalar =>
      risks', pending' := risks, pending;
    case List(items) =>
      StackGrows(lower, pending, items);
      risks', pending' := risks, pending + items;
    case Record(entries) =>
      risks', pending' := InspectEntries(lower, entries, pending, risks);
  }

  method InspectEntries(lower: Lower, entries: seq<Entry>, pending: seq<Value>, risks: seq<Risk>)
    returns (risks': seq<Risk>, pending': seq<Value>)
    ensures SizeAll(pending') == SizeAll(pending) + SizeEntries(entries)
    ensures Higher(Highest(risks'), TreeRiskAll(lower, pending')) ==
            Higher(Highest(risks), Higher(TreeRiskAll(lower, pending), TreeRiskEntries(lower, entries)))
  {
    risks', pending' := risks, pending;
    ghost var risk, before := Highest(risks), TreeRiskAll(lower, pending);
    for i := 0 to |entries|
      invariant SizeAll(pending') == SizeAll(pending) + SizeEntries(entries[..i])
      invariant Higher(Highest(risks'), TreeRiskAll(lower, pending')) == Higher(risk, Higher(before, TreeRiskEntries(lower, entries[..i])))
    {
      var known := KeyRisk(lower, entries[i].key);
      ghost var stacked, done, own := TreeRiskAll(lower, pending'), TreeRiskEntries(lower, entries[..i]), TreeRisk(lower, entries[i].value);
      Collect(risk, before, done, Highest(risks'), stacked, KnownRisk(lower, entries[i].key), own);
      NextEntry(lower, entries, i);
      NextPending(lower, pending', entries[i].value);
      if known.Some? {
        assert (risks' + [known.value])[..|risks'|] == risks';
        risks' := risks' + [known.value];
      }
      pending' := pending' + [entries[i].value];
    }
    assert entries[..|entries|] == entries;
  }

  lemma NextEntry(lower: Lower, entries: seq<Entry>, i: nat)
    requires i < |entries|
    ensures SizeEntries(entries[..i + 1]) == SizeEntries(entries[..i]) + Size(entries[i].value)
    ensures TreeRiskEntries(lower, entries[..i + 1]) ==
            Higher(TreeRiskEntries(lower, entries[..i]), Higher(KnownRisk(lower, entries[i].key), TreeRisk(lower, entries[i].value)))
  {
    assert entries[..i + 1][..i] == entries[..i];
  }

  lemma NextPending(lower: Lower, pending: seq<Value>, value: Value)
    ensures SizeAll(pending + [value]) == SizeAll(pending) + Size(value)
    ensures TreeRiskAll(lower, pending + [value]) == Higher(TreeRiskAll(lower, pending), TreeRisk(lower, value))
  {
    assert (pending + [value])[..|pending|] == pending;
  }

  /** Taking a key's risk and stacking its value, in one step. */
  lemma Collect(risk: Risk, before: Risk, done: Risk, now: Risk, stacked: Risk, known: Risk, own: Risk)
    requires Higher(now, stacked) == Higher(risk, Higher(before, done))
    ensures Higher(Higher(now, known), Higher(stacked, own)) == Higher(risk, Higher(before, Higher(done, Higher(known, own))))
    ensures Higher(now, Presentation) == now
  {
    var both := Higher(known, own);
    Exchange(now, known, stacked, own);
    HigherIsJoin(risk, Higher(before, done), both);
    HigherIsJoin(before, done, both);
  }

  lemma Exchange(a: Risk, b: Risk, c: Risk, d: Risk)
    ensures Higher(Higher(a, b), Higher(c, d)) == Higher(Higher(a, c), Higher(b, d))
  {
  }

  // ---------------------------------------------------------------------------------------------
  // Operations and proposals.

  /** The pointer's tokens; escapes are undone without checking them. */
  function PathTokens(path: string): seq<string> {
    var parts := Text.Split(path, '/')[1..];
    seq(|parts|, i requires 0 <= i < |parts| => UnescapedPart(parts[i]))
  }

  function PathRisk(lower: Lower, path: string): Risk {
    var tokens := PathTokens(path);
    if "semantics" in tokens then Data
    else if tokens == [] || KeyRisk(lower, tokens[|tokens| - 1]).None? then Behavior
    else KeyRisk(lower, tokens[|tokens| - 1]).value
  }

  /** Paths are read as the pointers they are. */
  lemma PathTokensReadPointers(tokens: seq<string>)
    requires tokens != []
    ensures PathTokens(Pointer.EncodePointer(tokens)) == tokens
  {
    var path, encoded := Pointer.EncodePointer(tokens), Pointer.EncodeEach(tokens);
    forall k | 0 <= k < |encoded| ensures '/' !in encoded[k] && UnescapedPart(encoded[k]) == tokens[k] {
      Pointer.TokenRoundTrip(tokens[k]);
    }
    Text.JoinThenSplit(encoded, '/');
    assert path[0] == '/' && path[1..] == Text.Join(encoded, '/');
    assert Text.Split(path, '/') == [""] + Text.Split(path[1..], '/');
  }

  function UnescapedPart(part: string): string {
    Text.ReplaceAll(Text.ReplaceAll(part, "~1", "/"), "~0", "~")
  }

  /** The risk of a path: data below semantics, otherwise that of its last key, and behavior where that is not listed. */
  lemma PathRiskMeaning(lower: Lower, tokens: seq<string>)
    requires tokens != []
    ensures var risk, last := PathRisk(lower, Pointer.EncodePointer(tokens)), lower(tokens[|tokens| - 1]);
            && ("semantics" in tokens ==> risk == Data)
            && ("semantics" !in tokens ==>
                  && (risk == ExternalEffect <==> last in EXTERNAL_EFFECT_KEYS)
                  && (risk == Data <==> last in DATA_KEYS - EXTERNAL_EFFECT_KEYS)
                  && (risk == Interaction <==> last in INTERACTION_KEYS - BEHAVIOR_KEYS - DATA_KEYS - EXTERNAL_EFFECT_KEYS)
                  && (risk == Presentation <==>
                        last in PRESENTATION_KEYS - INTERACTION_KEYS - BEHAVIOR_KEYS - DATA_KEYS - EXTERNAL_EFFECT_KEYS))
  {
    PathTokensReadPointers(tokens);
  }

  predicate Inert(operation: Operation) {
    operation.op == Test || operation.path == "/revision"
  }

  function ValueOf(operation: Operation): Value {
    if operation.value.None? then Scalar else operation.value.value
  }

  function OperationRisk(lower: Lower, operation: Operation): Risk {
    if Inert(operation) then Presentation
    else Higher(PathRisk(lower, operation.path), BudgetedRisk(lower, ValueOf(operation)))
  }

  function Classified(lower: Lower, operations: seq<Operation>): Risk {
    if operations == [] then Presentation
    else Higher(Classified(lower, operations[..|operations| - 1]), OperationRisk(lower, operations[|operations| - 1]))
  }

  method EffectiveUiPatchRisk(lower: Lower, proposal: Proposal) returns (risk: Risk)
    ensures risk == Higher(proposal.risk, Classified(lower, proposal.operations))
  {
    var classified := Presentation;
    for i := 0 to |proposal.operations|
      invariant classified == Classified(lower, proposal.operations[..i])
    {
      var operation := proposal.operations[i];
      var derived := Presentation;
      if !Inert(operation) {
        var nested := ValueRisk(lower, ValueOf(operation));
        derived := Higher(PathRisk(lower, operation.path), nested);
      }
      classified := Higher(classified, derived);
      assert proposal.operations[..i + 1][..i] == proposal.operations[..i];
    }
    assert proposal.operations[..|proposal.operations|] == proposal.operations;
    risk := Higher(proposal.risk, classified);
  }

  // ---------------------------------------------------------------------------------------------
  // What the risk means.

  /** The key occurs somewhere in the tree. */
  predicate Occurs(key: string, value: Value)
    decreases value, 1
  {
    match value
    case Scalar => false
    case List(items) => exists i :: 0 <= i < |items| && Occurs(key, items[i])
    case Record(entries) => exists i :: 0 <= i < |entries| && (entries[i].key == key || Occurs(key, entries[i].value))
  }

  lemma {:induction false} CoversAll(lower: Lower, values: seq<Value>, i: nat)
    requires i < |values|
    ensures Rank(TreeRiskAll(lower, values)) >= Rank(TreeRisk(lower, values[i]))
  {
    if i < |values| - 1 {
      CoversAll(lower, values[..|values| - 1], i);
    }
  }

  lemma {:induction false} CoversEntries(lower: Lower, entries: seq<Entry>, i: nat)
    requires i < |entries|
    ensures Rank(TreeRiskEntries(lower, entries)) >= Rank(TreeRisk(lower, entries[i].value))
    ensures Rank(TreeRiskEntries(lower, entries)) >= Rank(KnownRisk(lower, entries[i].key))
  {
    if i < |entries| - 1 {
      CoversEntries(lower, entries[..|entries| - 1], i);
    }
  }

  /** No key of the tree ranks above the tree's risk. */
  lemma {:induction false} EveryKeyIsCovered(lower: Lower, key: string, value: Value)
    requires Occurs(key, value)
    ensures Rank(KnownRisk(lower, key)) <= Rank(TreeRisk(lower, value))
    decreases value
  {
    match value
    case List(items) =>
      var i :| 0 <= i < |items| && Occurs(key, items[i]);
      EveryKeyIsCovered(lower, key, items[i]);
      CoversAll(lower, items, i);
    case Record(entries) =>
      var i :| 0 <= i < |entries| && (entries[i].key == key || Occurs(key, entries[i].value));
      if entries[i].key != key {
        EveryKeyIsCovered(lower, key, entries[i].value);
      }
      CoversEntries(lower, entries, i);
  }

  /** A tree's risk is the risk of one of its keys, unless there is nothing to report. */
  lemma {:induction false} SomeKeyExplains(lower: Lower, value: Value) returns (key: string)
    requires TreeRisk(lower, value) != Presentation
    ensures Occurs(key, value) && KeyRisk(lower, key) == Some(TreeRisk(lower, value))
    decreases value
  {
    match value
    case List(items) =>
      var i := SourceAmongAll(lower, items);
      key := SomeKeyExplains(lower, items[i]);
    case Record(entries) =>
      var i := SourceAmongEntries(lower, entries);
      if KeyRisk(lower, entries[i].key) == Some(TreeRisk(lower, value)) {
        key := entries[i].key;
      } else {
        key := SomeKeyExplains(lower, entries[i].value);
      }
  }

  lemma {:induction false} SourceAmongAll(lower: Lower, values: seq<Value>) returns (i: nat)
    requires TreeRiskAll(lower, values) != Presentation
    ensures i < |values| && TreeRisk(lower, values[i]) == TreeRiskAll(lower, values)
  {
    var last := |values| - 1;
    if TreeRisk(lower, values[last]) == TreeRiskAll(lower, values) {
      i := last;
    } else {
      i := SourceAmongAll(lower, values[..last]);
    }
  }

  lemma {:induction false} SourceAmongEntries(lower: Lower, entries: seq<Entry>) returns (i: nat)
    requires TreeRiskEntries(lower, entries) != Presentation
    ensures i < |entries|
    ensures KeyRisk(lower, entries[i].key) == Some(TreeRiskEntries(lower, entries))
            || TreeRisk(lower, entries[i].value) == TreeRiskEntries(lower, entries)
  {
    var last := |entries| - 1;
    if KeyRisk(lower, entries[last].key) == Some(TreeRiskEntries(lower, entries))
       || TreeRisk(lower, entries[last].value) == TreeRiskEntries(lower, entries) {
      i := last;
    } else {
      i := SourceAmongEntries(lower, entries[..last]);
    }
  }

  lemma {:induction false} ClassifiedCovers(lower: Lower, operations: seq<Operation>, k: nat)
    requires k < |operations|
    ensures Rank(Classified(lower, operations)) >= Rank(OperationRisk(lower, operations[k]))
  {
    if k < |operations| - 1 {
      ClassifiedCovers(lower, operations[..|operations| - 1], k);
    }
  }

  /** What an operation puts into the document, which reads as told: its value, or what a copy or move finds at its source. */
  function Written(operation: Operation, read: string -> Option<Value>): Option<Value> {
    match operation.op
    case Add => Some(ValueOf(operation))
    case Replace => Some(ValueOf(operation))
    case Copy => if operation.from.None? then None else read(operation.from.value)
    case Move => if operation.from.None? then None else read(operation.from.value)
    case Remove => None
    case Test => None
  }

  /** Whatever the document holds, no key inside what the operation writes ranks above the operation's risk. */
  ghost predicate Covers(lower: Lower, operation: Operation) {
    forall read, key :: Written(operation, read).Some? && Occurs(key, Written(operation, read).value) ==>
                          Rank(KnownRisk(lower, key)) <= Rank(OperationRisk(lower, operation))
  }

  lemma ValueIsCovered(lower: Lower, operation: Operation, key: string)
    requires !Inert(operation) && Occurs(key, ValueOf(operation))
    ensures Rank(KnownRisk(lower, key)) <= Rank(OperationRisk(lower, operation))
  {
    if Size(ValueOf(operation)) <= MAXIMUM_INSPECTED_VALUES {
      EveryKeyIsCovered(lower, key, ValueOf(operation));
    }
  }

  function Linking(): Value {
    Record([Entry("href", Scalar)])
  }

  /** Exactly when an operation's risk covers what it writes: additions and replacements always, but for the revision member,
      whose value is not looked at; copies and moves, whose value is not known, only under the top risk. */
  lemma CoversExactly(lower: Lower, operation: Operation)
    requires lower("href") == "href" && ((operation.op.Copy? || operation.op.Move?) ==> operation.from.Some?)
    ensures Covers(lower, operation) <==>
            match operation.op
            case Test => true
            case Remove => true
            case Add => operation.path != "/revision" || TreeRisk(lower, ValueOf(operation)) == Presentation
            case Replace => operation.path != "/revision" || TreeRisk(lower, ValueOf(operation)) == Presentation
            case Copy => OperationRisk(lower, operation) == ExternalEffect
            case Move => OperationRisk(lower, operation) == ExternalEffect
  {
    if operation.op.Copy? || operation.op.Move? {
      FetchCovers(lower, operation);
    } else if operation.op.Add? || operation.op.Replace? {
      AssignCovers(lower, operation);
    }
  }

  lemma FetchCovers(lower: Lower, operation: Operation)
    requires lower("href") == "href" && (operation.op.Copy? || operation.op.Move?) && operation.from.Some?
    ensures Covers(lower, operation) <==> OperationRisk(lower, operation) == ExternalEffect
  {
    var read := (path: string) => Some(Linking());
    assert Written(operation, read) == Some(Linking());
    assert Linking().entries[0].key == "href" && Occurs("href", Linking());
    assert KnownRisk(lower, "href") == ExternalEffect;
  }

  lemma UncoveredKey(lower: Lower, operation: Operation, read: string -> Option<Value>, key: string)
    requires Written(operation, read).Some? && Occurs(key, Written(operation, read).value)
    requires Rank(KnownRisk(lower, key)) > Rank(OperationRisk(lower, operation))
    ensures !Covers(lower, operation)
  {
  }

  lemma KnownToRank(lower: Lower, key: string, risk: Risk)
    requires KeyRisk(lower, key) == Some(risk) && risk != Presentation
    ensures Rank(KnownRisk(lower, key)) > 0
  {
  }

  lemma RevisionCovers(lower: Lower, operation: Operation)
    requires (operation.op.Add? || operation.op.Replace?) && operation.path == "/revision"
    ensures Covers(lower, operation) <==> TreeRisk(lower, ValueOf(operation)) == Presentation
  {
    var value := ValueOf(operation);
    assert OperationRisk(lower, operation) == Presentation;
    if TreeRisk(lower, value) == Presentation {
      forall read, key | Written(operation, read).Some? && Occurs(key, Written(operation, read).value)
        ensures Rank(KnownRisk(lower, key)) <= Rank(OperationRisk(lower, operation)) {
        EveryKeyIsCovered(lower, key, value);
      }
    } else {
      var key := SomeKeyExplains(lower, value);
      KnownToRank(lower, key, TreeRisk(lower, value));
      UncoveredKey(lower, operation, (path: string) => None, key);
    }
  }

  lemma AssignCovers(lower: Lower, operation: Operation)
    requires operation.op.Add? || operation.op.Replace?
    ensures Covers(lower, operation) <==> operation.path != "/revision" || TreeRisk(lower, ValueOf(operation)) == Presentation
  {
    if operation.path == "/revision" {
      RevisionCovers(lower, operation);
    } else {
      forall key | Occurs(key, ValueOf(operation)) ensures Rank(KnownRisk(lower, key)) <= Rank(OperationRisk(lower, operation)) {
        ValueIsCovered(lower, operation, key);
      }
    }
  }

  /** A declaration can raise the risk but never lower it: the effective risk is at least what is declared, at least what
      each changed path calls for, and at least what any key inside any added or replacing value calls for, whatever the
      sizes; only tests and operations at the revision member are not looked at. */
  lemma EffectiveRiskIsNeverTooLow(lower: Lower, proposal: Proposal, k: nat, key: string)
    requires k < |proposal.operations|
    ensures var effective, operation := Higher(proposal.risk, Classified(lower, proposal.operations)), proposal.operations[k];
            && Rank(effective) >= Rank(proposal.risk) && Rank(effective) >= Rank(OperationRisk(lower, operation))
            && (!Inert(operation) ==>
                  && Rank(effective) >= Rank(PathRisk(lower, operation.path))
                  && (Occurs(key, ValueOf(operation)) ==> Rank(effective) >= Rank(KnownRisk(lower, key))))
  {
    ClassifiedCovers(lower, proposal.operations, k);
    if !Inert(proposal.operations[k]) && Occurs(key, ValueOf(proposal.operations[k])) {
      ValueIsCovered(lower, proposal.operations[k], key);
    }
  }

  /** The proposal policy refuses copies, moves and every operation with a source. */
  predicate Supported(operation: Operation) {
    (operation.op.Add? || operation.op.Remove? || operation.op.Replace? || operation.op.Test?) && operation.from.None?
  }

  /** Without approval the policy lets nothing through that ranks above presentation. */
  predicate LetsThrough(lower: Lower, proposal: Proposal, approved: bool) {
    && (forall k :: 0 <= k < |proposal.operations| ==> Supported(proposal.operations[k]))
    && (approved || Higher(proposal.risk, Classified(lower, proposal.operations)) == Presentation)
  }

  /** The gate as a whole: what gets through without approval writes, beside the revision, no key above presentation risk, on
      every document. */
  lemma UnapprovedIsPresentational(lower: Lower, proposal: Proposal, k: nat, read: string -> Option<Value>, key: string)
    requires LetsThrough(lower, proposal, false) && k < |proposal.operations| && proposal.operations[k].path != "/revision"
    requires Written(proposal.operations[k], read).Some? && Occurs(key, Written(proposal.operations[k], read).value)
    ensures KnownRisk(lower, key) == Presentation && PathRisk(lower, proposal.operations[k].path) == Presentation
  {
    assert Supported(proposal.operations[k]);
    EffectiveRiskIsNeverTooLow(lower, proposal, k, key);
  }

  /** And every path it lets through, beside tests and the revision, ends in a key that is listed as presentation. */
  lemma UnapprovedPathsAreListed(lower: Lower, proposal: Proposal, k: nat, tokens: seq<string>)
    requires LetsThrough(lower, proposal, false) && k < |proposal.operations| && !Inert(proposal.operations[k])
    requires tokens != [] && proposal.operations[k].path == Pointer.EncodePointer(tokens)
    ensures "semantics" !in tokens && lower(tokens[|tokens| - 1]) in PRESENTATION_KEYS
  {
    EffectiveRiskIsNeverTooLow(lower, proposal, k, "");
    PathRiskMeaning(lower, tokens);
  }

  lemma {:induction false} ClassifiedHasASource(lower: Lower, operations: seq<Operation>) returns (k: nat)
    requires Classified(lower, operations) != Presentation
    ensures k < |operations| && OperationRisk(lower, operations[k]) == Classified(lower, operations)
  {
    var last := |operations| - 1;
    if OperationRisk(lower, operations[last]) == Classified(lower, operations) {
      k := last;
    } else {
      k := ClassifiedHasASource(lower, operations[..last]);
    }
  }

  /** Nor is it raised for nothing: an effective risk above the declared one is the risk of some operation. */
  lemma EffectiveRiskHasASource(lower: Lower, proposal: Proposal) returns (k: nat)
    requires Higher(proposal.risk, Classified(lower, proposal.operations)) != proposal.risk
    ensures k < |proposal.operations|
    ensures OperationRisk(lower, proposal.operations[k]) == Higher(proposal.risk, Classified(lower, proposal.operations))
  {
    k := ClassifiedHasASource(lower, proposal.operations);
  }
}
