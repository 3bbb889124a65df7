/** The safety walk over an untrusted proposal: an explicit stack over a heap that may share objects or be cyclic. */
module ProposalSafety {
  import Identity
  import opened Wrappers

  type Ref = nat

  /** Numbers are known by whether they are finite and by the width of their text. */
  datatype Value =
    | Null
    | Boolean(b: bool)
    | Number(finite: bool, width: nat)
    | Text(text: string)
    | Foreign
    | Object(ref: Ref)

  datatype Entry = Entry(key: string, value: Value)
  datatype Container = Items(items: seq<Value>) | Record(plain: bool, entries: seq<Entry>)
  type Heap = map<Ref, Container>

  datatype Pending = Pending(depth: nat, value: Value)

  const MAXIMUM_BYTES := 1_048_576
  const MAXIMUM_DEPTH := 64
  const MAXIMUM_STRING_BYTES := 65_536
  const MAXIMUM_VALUES := 50_000

  predicate UnsafeKey(key: string) {
    key == "__proto__" || key == "constructor" || key == "prototype"
  }

  function EncodedBytes(text: string): nat {
    if text == "" then 0 else |Identity.Utf8(text[0])| + EncodedBytes(text[1..])
  }

  // ---------------------------------------------------------------------------------------------
  // The simple form: totals over the unfolded value.

  /** What a group of values adds up to; `hits` counts the occurrences of one chosen object. */
  datatype Totals = Totals(fine: bool, count: nat, bytes: nat, hits: nat)

  function Plus(a: Totals, b: Totals): Totals {
    Totals(a.fine && b.fine, a.count + b.count, a.bytes + b.bytes, a.hits + b.hits)
  }

  const NOTHING := Totals(true, 0, 0, 0)

  function ValuesOf(container: Container): seq<Value> {
    if container.Items? then container.items
    else seq(|container.entries|, i requires 0 <= i < |container.entries| => container.entries[i].value)
  }

  function KeyBytes(entries: seq<Entry>): nat {
    if entries == [] then 0 else EncodedBytes(entries[0].key) + 2 + KeyBytes(entries[1..])
  }

  function Separators(n: nat): nat {
    if n == 0 then 0 else n - 1
  }

  predicate SafeKeys(entries: seq<Entry>) {
    forall k :: 0 <= k < |entries| ==> !UnsafeKey(entries[k].key)
  }

  /** A container on its own: brackets, separators and keys. */
  function OwnTotals(container: Container, hits: nat): Totals {
    match container
    case Items(items) => Totals(true, 1, 2 + Separators(|items|), hits)
    case Record(plain, entries) =>
      Totals(plain && SafeKeys(entries), 1, 2 + Separators(|entries|) + |entries| + KeyBytes(entries), hits)
  }

  function ScalarTotals(value: Value): Totals
    requires !value.Object?
  {
    match value
    case Null => Totals(true, 1, 4, 0)
    case Boolean(b) => Totals(true, 1, if b then 4 else 5, 0)
    case Number(finite, width) => Totals(finite, 1, width, 0)
    case Text(text) => Totals(EncodedBytes(text) <= MAXIMUM_STRING_BYTES, 1, EncodedBytes(text) + 2, 0)
    case Foreign => Totals(false, 1, 0, 0)
  }

  predicate Allocated(heap: Heap, value: Value) {
    value.Object? ==> value.ref in heap
  }

  predicate AllAllocated(heap: Heap, values: seq<Value>) {
    forall k :: 0 <= k < |values| ==> Allocated(heap, values[k])
  }

  ghost predicate Closed(heap: Heap) {
    forall ref :: ref in heap ==> AllAllocated(heap, ValuesOf(heap[ref]))
  }

  /** The value unfolded to the depth limit, counting one object; a value beyond the limit is counted, but not fine. */
  ghost function Measure(heap: Heap, value: Value, depth: nat, probe: Ref): Totals
    requires Closed(heap) && Allocated(heap, value) && depth <= MAXIMUM_DEPTH + 1
    decreases MAXIMUM_DEPTH + 1 - depth, 1
  {
    if depth > MAXIMUM_DEPTH then Totals(false, 1, 0, 0)
    else if !value.Object? then ScalarTotals(value)
    else Plus(OwnTotals(heap[value.ref], Hit(value.ref, probe)), Sum(Measures(heap, ValuesOf(heap[value.ref]), depth + 1, probe)))
  }

  function Hit(ref: Ref, probe: Ref): nat {
    if ref == probe then 1 else 0
  }

  ghost function Measures(heap: Heap, values: seq<Value>, depth: nat, probe: Ref): seq<Totals>
    requires Closed(heap) && depth <= MAXIMUM_DEPTH + 1 && AllAllocated(heap, values)
    decreases MAXIMUM_DEPTH + 1 - depth, 2
  {
    seq(|values|, i requires 0 <= i < |values| => Measure(heap, values[i], depth, probe))
  }

  function Sum(totals: seq<Totals>): Totals {
    if totals == [] then NOTHING else Plus(Sum(totals[..|totals| - 1]), totals[|totals| - 1])
  }

  lemma {:induction false} SumConcat(a: seq<Totals>, b: seq<Totals>)
    ensures Sum(a + b) == Plus(Sum(a), Sum(b))
  {
    if b == [] {
      assert a + b == a;
    } else {
      var whole := a + b;
      assert whole[..|whole| - 1] == a + b[..|b| - 1];
      assert whole[|whole| - 1] == b[|b| - 1];
      SumConcat(a, b[..|b| - 1]);
    }
  }

  ghost predicate Fits(totals: Totals) {
    totals.fine && totals.count <= MAXIMUM_VALUES && totals.bytes <= MAXIMUM_BYTES && totals.hits <= 1
  }

  /** Within every budget, and with no object met twice. */
  ghost predicate Acceptable(heap: Heap, value: Value)
    requires Closed(heap) && Allocated(heap, value)
  {
    forall probe: Ref :: Fits(Measure(heap, value, 0, probe))
  }

  // ---------------------------------------------------------------------------------------------
  // The walk.

  predicate Ready(heap: Heap, pending: Pending) {
    Allocated(heap, pending.value) && pending.depth <= MAXIMUM_DEPTH + 1
  }

  ghost predicate Stacked(heap: Heap, pending: seq<Pending>) {
    Closed(heap) && forall k :: 0 <= k < |pending| ==> Ready(heap, pending[k])
  }

  ghost function MeasureOf(heap: Heap, pending: Pending, probe: Ref): Totals
    requires Closed(heap) && Ready(heap, pending)
  {
    Measure(heap, pending.value, pending.depth, probe)
  }

  ghost function StackTotals(heap: Heap, pending: seq<Pending>, probe: Ref): seq<Totals>
    requires Stacked(heap, pending)
  {
    seq(|pending|, i requires 0 <= i < |pending| => MeasureOf(heap, pending[i], probe))
  }

  function Children(container: Container, depth: nat): seq<Pending> {
    var values := ValuesOf(container);
    seq(|values|, i requires 0 <= i < |values| => Pending(depth, values[i]))
  }

  /** What is done and what is on the stack. */
  ghost function Balance(heap: Heap, count: nat, bytes: nat, seen: set<Ref>, pending: seq<Pending>, probe: Ref): Totals
    requires Stacked(heap, pending)
  {
    Plus(Done(count, bytes, seen, probe), Sum(StackTotals(heap, pending, probe)))
  }

  ghost function Done(count: nat, bytes: nat, seen: set<Ref>, probe: Ref): Totals {
    Totals(true, count, bytes, if probe in seen then 1 else 0)
  }

  ghost predicate Balanced(heap: Heap, count: nat, bytes: nat, seen: set<Ref>, pending: seq<Pending>, value: Value)
    requires Closed(heap) && Allocated(heap, value)
  {
    && Stacked(heap, pending)
    && forall probe: Ref {:trigger BalancedAt(heap, count, bytes, seen, pending, value, probe)} ::
         BalancedAt(heap, count, bytes, seen, pending, value, probe)
  }

  ghost predicate BalancedAt(heap: Heap, count: nat, bytes: nat, seen: set<Ref>, pending: seq<Pending>, value: Value, probe: Ref)
    requires Closed(heap) && Allocated(heap, value) && Stacked(heap, pending)
  {
    Balance(heap, count, bytes, seen, pending, probe) == Measure(heap, value, 0, probe)
  }

  lemma PopBalance(heap: Heap, count: nat, bytes: nat, seen: set<Ref>, pending: seq<Pending>, current: Pending, probe: Ref)
    requires Stacked(heap, pending + [current])
    ensures Stacked(heap, pending) && Ready(heap, current)
    ensures Balance(heap, count, bytes, seen, pending + [current], probe) ==
            Plus(Balance(heap, count, bytes, seen, pending, probe), MeasureOf(heap, current, probe))
  {
    var all := pending + [current];
    assert all[|pending|] == current && forall k :: 0 <= k < |pending| ==> all[k] == pending[k];
    assert StackTotals(heap, all, probe)[..|pending|] == StackTotals(heap, pending, probe);
  }

  /** Stacking a container's values adds what unfolding them adds. */
  lemma PushBalance(heap: Heap, count: nat, bytes: nat, seen: set<Ref>, pending: seq<Pending>, ref: Ref, depth: nat, probe: Ref)
    requires Stacked(heap, pending) && ref in heap && depth <= MAXIMUM_DEPTH + 1
    ensures Stacked(heap, pending + Children(heap[ref], depth))
    ensures Balance(heap, count, bytes, seen, pending + Children(heap[ref], depth), probe) ==
            Plus(Balance(heap, count, bytes, seen, pending, probe), Sum(Measures(heap, ValuesOf(heap[ref]), depth, probe)))
  {
    var children, values := Children(heap[ref], depth), ValuesOf(heap[ref]);
    assert AllAllocated(heap, values);
    assert StackTotals(heap, pending + children, probe) == StackTotals(heap, pending, probe) + Measures(heap, values, depth, probe);
    SumConcat(StackTotals(heap, pending, probe), Measures(heap, values, depth, probe));
  }

  /** A value that does not fit beside what is done makes the whole unacceptable. */
  lemma Overdrawn(heap: Heap, count: nat, bytes: nat, seen: set<Ref>, pending: seq<Pending>, current: Pending, value: Value, probe: Ref)
    requires Closed(heap) && Allocated(heap, value) && Balanced(heap, count, bytes, seen, pending + [current], value)
    requires Ready(heap, current) && !Fits(Plus(Done(count, bytes, seen, probe), MeasureOf(heap, current, probe)))
    ensures !Acceptable(heap, value)
  {
    assert BalancedAt(heap, count, bytes, seen, pending + [current], value, probe);
    PopBalance(heap, count, bytes, seen, pending, current, probe);
    assert !Fits(Measure(heap, value, 0, probe));
  }

  lemma RestIsStacked(heap: Heap, pending: seq<Pending>, current: Pending)
    requires Stacked(heap, pending + [current])
    ensures Stacked(heap, pending) && Ready(heap, current)
  {
    var all := pending + [current];
    assert all[|pending|] == current && forall k :: 0 <= k < |pending| ==> all[k] == pending[k];
  }

  lemma ScalarStep(heap: Heap, count: nat, bytes: nat, seen: set<Ref>, pending: seq<Pending>, current: Pending, value: Value)
    requires Closed(heap) && Allocated(heap, value) && Balanced(heap, count, bytes, seen, pending + [current], value)
    requires current.depth <= MAXIMUM_DEPTH && !current.value.Object? && ScalarTotals(current.value).fine
    ensures Balanced(heap, count + 1, bytes + ScalarTotals(current.value).bytes, seen, pending, value)
  {
    RestIsStacked(heap, pending, current);
    var count', bytes' := count + 1, bytes + ScalarTotals(current.value).bytes;
    forall probe: Ref ensures BalancedAt(heap, count', bytes', seen, pending, value, probe) {
      assert BalancedAt(heap, count, bytes, seen, pending + [current], value, probe);
      ScalarStepAt(heap, count, bytes, seen, pending, current, probe);
    }
  }

  lemma ScalarStepAt(heap: Heap, count: nat, bytes: nat, seen: set<Ref>, pending: seq<Pending>, current: Pending, probe: Ref)
    requires Stacked(heap, pending + [current]) && Stacked(heap, pending)
    requires current.depth <= MAXIMUM_DEPTH && !current.value.Object? && ScalarTotals(current.value).fine
    ensures Balance(heap, count + 1, bytes + ScalarTotals(current.value).bytes, seen, pending, probe) ==
            Balance(heap, count, bytes, seen, pending + [current], probe)
  {
    PopBalance(heap, count, bytes, seen, pending, current, probe);
  }

  /** Entering a container moves it to what is done and its values onto the stack. */
  lemma ObjectStep(heap: Heap, count: nat, bytes: nat, seen: set<Ref>, pending: seq<Pending>, depth: nat, ref: Ref, value: Value)
    requires Closed(heap) && Allocated(heap, value)
    requires Balanced(heap, count, bytes, seen, pending + [Pending(depth, Object(ref))], value)
    requires depth <= MAXIMUM_DEPTH && ref in heap && ref !in seen && OwnTotals(heap[ref], 1).fine
    ensures Balanced(heap, count + 1, bytes + OwnTotals(heap[ref], 1).bytes, seen + {ref}, pending + Children(heap[ref], depth + 1), value)
  {
    var count', bytes', seen' := count + 1, bytes + OwnTotals(heap[ref], 1).bytes, seen + {ref};
    var before, after := pending + [Pending(depth, Object(ref))], pending + Children(heap[ref], depth + 1);
    ChildrenAreStacked(heap, pending, depth, ref);
    forall probe: Ref ensures BalancedAt(heap, count', bytes', seen', after, value, probe) {
      assert BalancedAt(heap, count, bytes, seen, before, value, probe);
      ObjectStepAt(heap, count, bytes, seen, pending, depth, ref, probe);
    }
  }

  lemma ChildrenAreStacked(heap: Heap, pending: seq<Pending>, depth: nat, ref: Ref)
    requires Stacked(heap, pending + [Pending(depth, Object(ref))]) && depth <= MAXIMUM_DEPTH && ref in heap
    ensures Stacked(heap, pending + Children(heap[ref], depth + 1))
  {
    RestIsStacked(heap, pending, Pending(depth, Object(ref)));
    assert AllAllocated(heap, ValuesOf(heap[ref]));
  }

  lemma ObjectStepAt(heap: Heap, count: nat, bytes: nat, seen: set<Ref>, pending: seq<Pending>, depth: nat, ref: Ref, probe: Ref)
    requires Closed(heap) && Stacked(heap, pending + [Pending(depth, Object(ref))])
    requires depth <= MAXIMUM_DEPTH && ref in heap && ref !in seen && OwnTotals(heap[ref], 1).fine
    ensures Stacked(heap, pending + Children(heap[ref], depth + 1))
    ensures Balance(heap, count + 1, bytes + OwnTotals(heap[ref], 1).bytes, seen + {ref}, pending + Children(heap[ref], depth + 1), probe) ==
            Balance(heap, count, bytes, seen, pending + [Pending(depth, Object(ref))], probe)
  {
    PopBalance(heap, count, bytes, seen, pending, Pending(depth, Object(ref)), probe);
    PushBalance(heap, count + 1, bytes + OwnTotals(heap[ref], 1).bytes, seen + {ref}, pending, ref, depth + 1, probe);
    Entered(count, bytes, seen, ref, OwnTotals(heap[ref], Hit(ref, probe)), probe);
  }

  lemma Entered(count: nat, bytes: nat, seen: set<Ref>, ref: Ref, own: Totals, probe: Ref)
    requires ref !in seen && own.fine && own.count == 1 && own.hits == Hit(ref, probe)
    ensures Done(count + 1, bytes + own.bytes, seen + {ref}, probe) == Plus(Done(count, bytes, seen, probe), own)
  {
  }

  /** Accepts exactly the values whose unfolding is a tree of safe JSON values within every budget. The walk ends on
      every heap, cyclic ones included. */
  method ProposalIsSafe(heap: Heap, value: Value) returns (safe: bool)
    requires Closed(heap) && Allocated(heap, value)
    ensures safe <==> Acceptable(heap, value)
  {
    var bytes: nat, count: nat, seen: set<Ref>, pending := 0, 0, {}, [Pending(0, value)];
    StartBalanced(heap, value);
    while pending != []
      invariant count <= MAXIMUM_VALUES && bytes <= MAXIMUM_BYTES && Balanced(heap, count, bytes, seen, pending, value)
      decreases MAXIMUM_VALUES - count
    {
      var current, rest := pending[|pending| - 1], pending[..|pending| - 1];
      assert pending == rest + [current];
      safe, count, bytes, seen, pending := InspectPending(heap, current, count, bytes, seen, rest, value);
      if !safe {
        return;
      }
    }
    EmptyStack(heap, count, bytes, seen, value);
    safe := true;
  }

  lemma StartBalanced(heap: Heap, value: Value)
    requires Closed(heap) && Allocated(heap, value)
    ensures Balanced(heap, 0, 0, {}, [Pending(0, value)], value)
  {
    forall probe: Ref ensures BalancedAt(heap, 0, 0, {}, [Pending(0, value)], value, probe) {
      OneTotal(heap, value, probe);
    }
  }

  lemma OneTotal(heap: Heap, value: Value, probe: Ref)
    requires Closed(heap) && Allocated(heap, value)
    ensures Balance(heap, 0, 0, {}, [Pending(0, value)], probe) == Measure(heap, value, 0, probe)
  {
    var one := Measure(heap, value, 0, probe);
    assert StackTotals(heap, [Pending(0, value)], probe) == [one];
    assert Sum([one]) == one by {
      assert [one][..0] == [];
    }
  }

  lemma EmptyStack(heap: Heap, count: nat, bytes: nat, seen: set<Ref>, value: Value)
    requires Closed(heap) && Allocated(heap, value) && Balanced(heap, count, bytes, seen, [], value)
    requires count <= MAXIMUM_VALUES && bytes <= MAXIMUM_BYTES
    ensures Acceptable(heap, value)
  {
    forall probe: Ref ensures Fits(Measure(heap, value, 0, probe)) {
      assert BalancedAt(heap, count, bytes, seen, [], value, probe);
    }
  }

  /** One step of the walk: a refusal is final, an acceptance moves the value from the stack to what is done. */
  method InspectPending(heap: Heap, current: Pending, count: nat, bytes: nat, seen: set<Ref>, pending: seq<Pending>, ghost value: Value)
    returns (accepted: bool, count': nat, bytes': nat, seen': set<Ref>, pending': seq<Pending>)
    requires Closed(heap) && Allocated(heap, value) && Balanced(heap, count, bytes, seen, pending + [current], value)
    requires Ready(heap, current) && count <= MAXIMUM_VALUES && bytes <= MAXIMUM_BYTES
    ensures count' == count + 1
    ensures if accepted then count' <= MAXIMUM_VALUES && bytes' <= MAXIMUM_BYTES && Balanced(heap, count', bytes', seen', pending', value)
            else !Acceptable(heap, value)
  {
    accepted, count', bytes', seen', pending' := false, count + 1, bytes, seen, pending;
    if current.depth > MAXIMUM_DEPTH || count' > MAXIMUM_VALUES {
      Overdrawn(heap, count, bytes, seen, pending, current, value, 0);
    } else if !current.value.Object? {
      accepted, bytes' := InspectScalar(heap, current, count, bytes, seen, pending, value);
    } else {
      accepted, bytes', seen', pending' := InspectObject(heap, current, count, bytes, seen, pending, value);
    }
  }

  method InspectScalar(heap: Heap, current: Pending, ghost count: nat, bytes: nat, ghost seen: set<Ref>, ghost pending: seq<Pending>,
                       ghost value: Value)
    returns (accepted: bool, bytes': nat)
    requires Closed(heap) && Allocated(heap, value) && Balanced(heap, count, bytes, seen, pending + [current], value)
    requires Ready(heap, current) && current.depth <= MAXIMUM_DEPTH && !current.value.Object?
    ensures if accepted then bytes' <= MAXIMUM_BYTES && Balanced(heap, count + 1, bytes', seen, pending, value)
            else !Acceptable(heap, value)
  {
    var cost := ScalarTotals(current.value);
    bytes' := bytes + cost.bytes;
    accepted := cost.fine && bytes' <= MAXIMUM_BYTES;
    if accepted {
      ScalarStep(heap, count, bytes, seen, pending, current, value);
    } else {
      Overdrawn(heap, count, bytes, seen, pending, current, value, 0);
    }
  }

  method InspectObject(heap: Heap, current: Pending, count: nat, bytes: nat, seen: set<Ref>, pending: seq<Pending>, ghost value: Value)
    returns (accepted: bool, bytes': nat, seen': set<Ref>, pending': seq<Pending>)
    requires Closed(heap) && Allocated(heap, value) && Balanced(heap, count, bytes, seen, pending + [current], value)
    requires Ready(heap, current) && current.depth <= MAXIMUM_DEPTH && current.value.Object? && bytes <= MAXIMUM_BYTES
    ensures if accepted then bytes' <= MAXIMUM_BYTES && Balanced(heap, count + 1, bytes', seen', pending', value)
            else !Acceptable(heap, value)
  {
    var ref := current.value.ref;
    accepted, bytes', seen', pending' := false, bytes, seen, pending;
    if ref !in seen {
      seen' := seen + {ref};
      accepted, bytes' := EnterContainer(heap[ref], bytes);
    }
    if accepted {
      ObjectStep(heap, count, bytes, seen, pending, current.depth, ref, value);
      pending' := pending + Children(heap[ref], current.depth + 1);
    } else {
      Overdrawn(heap, count, bytes, seen, pending, current, value, ref);
    }
  }

  method EnterContainer(container: Container, before: nat) returns (accepted: bool, bytes: nat)
    requires before <= MAXIMUM_BYTES
    ensures accepted <==> OwnTotals(container, 1).fine && before + OwnTotals(container, 1).bytes <= MAXIMUM_BYTES
    ensures accepted ==> bytes == before + OwnTotals(container, 1).bytes
  {
    match container
    case Items(items) =>
      bytes := before + 2 + Separators(|items|);
      accepted := bytes <= MAXIMUM_BYTES;
    case Record(plain, entries) =>
      bytes := before + 2 + Separators(|entries|) + |entries|;
      if !plain || bytes > MAXIMUM_BYTES {
        return false, bytes;
      }
      accepted, bytes := InspectKeys(entries, bytes);
  }

  method InspectKeys(entries: seq<Entry>, before: nat) returns (accepted: bool, bytes: nat)
    requires before <= MAXIMUM_BYTES
    ensures accepted <==> SafeKeys(entries) && before + KeyBytes(entries) <= MAXIMUM_BYTES
    ensures accepted ==> bytes == before + KeyBytes(entries)
  {
    bytes := before;
    for i := 0 to |entries|
      invariant forall k :: 0 <= k < i ==> !UnsafeKey(entries[k].key)
      invariant bytes <= MAXIMUM_BYTES && bytes + KeyBytes(entries[i..]) == before + KeyBytes(entries)
    {
      assert entries[i..][1..] == entries[i + 1..];
      if UnsafeKey(entries[i].key) {
        return false, bytes;
      }
      bytes := bytes + EncodedBytes(entries[i].key) + 2;
      if bytes > MAXIMUM_BYTES {
        return false, bytes;
      }
    }
    return true, bytes;
  }

  // ---------------------------------------------------------------------------------------------
  // What acceptance says about the heap.

  /** The value at the end of a path of member positions. */
  ghost function Follow(heap: Heap, value: Value, path: seq<nat>): Option<Value>
    requires Closed(heap) && Allocated(heap, value)
    decreases |path|
  {
    if path == [] then Some(value)
    else if !value.Object? then None
    else
      var values := ValuesOf(heap[value.ref]);
      if path[0] >= |values| then None else Follow(heap, values[path[0]], path[1..])
  }

  lemma {:induction false} SumCovers(totals: seq<Totals>, i: nat)
    requires i < |totals|
    ensures Sum(totals).fine ==> totals[i].fine
    ensures Sum(totals).hits >= totals[i].hits
  {
    if i < |totals| - 1 {
      SumCovers(totals[..|totals| - 1], i);
    }
  }

  lemma {:induction false} SumCoversTwo(totals: seq<Totals>, i: nat, j: nat)
    requires i < j < |totals|
    ensures Sum(totals).hits >= totals[i].hits + totals[j].hits
  {
    SumCovers(totals[..|totals| - 1], i);
    if j < |totals| - 1 {
      SumCoversTwo(totals[..|totals| - 1], i, j);
    }
  }

  /** In a fine value every path ends within the depth limit, and the object at its end is counted. */
  lemma {:induction false} FollowedIsCounted(heap: Heap, value: Value, depth: nat, path: seq<nat>, probe: Ref)
    requires Closed(heap) && Allocated(heap, value) && depth <= MAXIMUM_DEPTH + 1 && Measure(heap, value, depth, probe).fine
    requires Follow(heap, value, path).Some?
    ensures depth + |path| <= MAXIMUM_DEPTH
    ensures Follow(heap, value, path) == Some(Object(probe)) ==> Measure(heap, value, depth, probe).hits >= 1
    decreases |path|
  {
    if path != [] {
      var values := ValuesOf(heap[value.ref]);
      SumCovers(Measures(heap, values, depth + 1, probe), path[0]);
      FollowedIsCounted(heap, values[path[0]], depth + 1, path[1..], probe);
    }
  }

  /** An accepted value is a tree: every object is reached along one path only, so nothing is shared or cyclic. */
  lemma AcceptedIsATree(heap: Heap, value: Value, p: seq<nat>, q: seq<nat>)
    requires Closed(heap) && Allocated(heap, value) && Acceptable(heap, value)
    requires Follow(heap, value, p).Some? && Follow(heap, value, p).value.Object? && Follow(heap, value, p) == Follow(heap, value, q)
    ensures p == q
  {
    var probe := Follow(heap, value, p).value.ref;
    assert Fits(Measure(heap, value, 0, probe));
    OnePathEach(heap, value, 0, p, q, probe);
  }

  lemma {:induction false} OnePathEach(heap: Heap, value: Value, depth: nat, p: seq<nat>, q: seq<nat>, probe: Ref)
    requires Closed(heap) && Allocated(heap, value) && depth <= MAXIMUM_DEPTH + 1
    requires Follow(heap, value, p) == Some(Object(probe)) && Follow(heap, value, q) == Some(Object(probe))
    requires Measure(heap, value, depth, probe).fine && Measure(heap, value, depth, probe).hits <= 1
    ensures p == q
    decreases |p|
  {
    if p != [] {
      ChildIsCounted(heap, value, depth, p, probe);
    }
    if q != [] {
      ChildIsCounted(heap, value, depth, q, probe);
    }
    if p != [] && q != [] {
      SamePosition(heap, value, depth, p[0], q[0], probe);
      OnePathEach(heap, ValuesOf(heap[value.ref])[p[0]], depth + 1, p[1..], q[1..], probe);
      assert p == [p[0]] + p[1..] && q == [q[0]] + q[1..];
    }
  }

  lemma ChildFollows(heap: Heap, value: Value, path: seq<nat>)
    requires Closed(heap) && Allocated(heap, value) && path != [] && Follow(heap, value, path).Some?
    ensures value.Object?
    ensures var values := ValuesOf(heap[value.ref]);
            path[0] < |values| && AllAllocated(heap, values) && Follow(heap, values[path[0]], path[1..]) == Follow(heap, value, path)
  {
  }

  lemma ChildMeasured(heap: Heap, ref: Ref, depth: nat, i: nat, probe: Ref)
    requires Closed(heap) && ref in heap && depth <= MAXIMUM_DEPTH && i < |ValuesOf(heap[ref])|
    ensures var whole, part := Measure(heap, Object(ref), depth, probe), Measure(heap, ValuesOf(heap[ref])[i], depth + 1, probe);
            (whole.fine ==> part.fine) && whole.hits >= Hit(ref, probe) + part.hits
  {
    SumCovers(Measures(heap, ValuesOf(heap[ref]), depth + 1, probe), i);
  }

  /** The member a path goes through is fine and holds the path's end, and the whole holds it beside itself. */
  lemma ChildIsCounted(heap: Heap, value: Value, depth: nat, path: seq<nat>, probe: Ref)
    requires Closed(heap) && Allocated(heap, value) && depth <= MAXIMUM_DEPTH + 1 && Measure(heap, value, depth, probe).fine
    requires path != [] && Follow(heap, value, path) == Some(Object(probe))
    ensures depth <= MAXIMUM_DEPTH && value.Object?
    ensures var values := ValuesOf(heap[value.ref]);
            && path[0] < |values| && Follow(heap, values[path[0]], path[1..]) == Some(Object(probe))
            && Measure(heap, values[path[0]], depth + 1, probe).fine && Measure(heap, values[path[0]], depth + 1, probe).hits >= 1
            && Measure(heap, value, depth, probe).hits >= Hit(value.ref, probe) + Measure(heap, values[path[0]], depth + 1, probe).hits
  {
    ChildFollows(heap, value, path);
    FollowedIsCounted(heap, value, depth, path, probe);
    assert value == Object(value.ref);
    ChildMeasured(heap, value.ref, depth, path[0], probe);
    FollowedIsCounted(heap, ValuesOf(heap[value.ref])[path[0]], depth + 1, path[1..], probe);
  }

  lemma SamePosition(heap: Heap, value: Value, depth: nat, i: nat, j: nat, probe: Ref)
    requires Closed(heap) && Allocated(heap, value) && depth <= MAXIMUM_DEPTH && value.Object?
    requires Measure(heap, value, depth, probe).hits <= 1
    requires var values := ValuesOf(heap[value.ref]);
             && i < |values| && j < |values|
             && Measure(heap, values[i], depth + 1, probe).hits >= 1 && Measure(heap, values[j], depth + 1, probe).hits >= 1
    ensures i == j
  {
    var totals := Measures(heap, ValuesOf(heap[value.ref]), depth + 1, probe);
    if i < j {
      SumCoversTwo(totals, i, j);
    } else if j < i {
      SumCoversTwo(totals, j, i);
    }
  }

  // ---------------------------------------------------------------------------------------------
  // What acceptance says about every value inside.

  /** A finite number, a text of bounded length, or a plain object without the three reserved keys. */
  predicate SafeHere(heap: Heap, value: Value)
    requires Allocated(heap, value)
  {
    match value
    case Number(finite, _) => finite
    case Text(text) => |Encoded(text)| <= 65_536
    case Foreign => false
    case Object(ref) =>
      heap[ref].Record? ==>
        heap[ref].plain && forall e :: e in heap[ref].entries ==> e.key != "__proto__" && e.key != "constructor" && e.key != "prototype"
    case _ => true
  }

  ghost predicate SafeAt(heap: Heap, value: Value, depth: nat, path: seq<nat>)
    requires Closed(heap) && Allocated(heap, value)
  {
    var found := Follow(heap, value, path);
    found.Some? ==> depth + |path| <= 64 && Allocated(heap, found.value) && SafeHere(heap, found.value)
  }

  lemma SafeOnItsOwn(heap: Heap, value: Value, depth: nat, probe: Ref)
    requires Closed(heap) && Allocated(heap, value) && depth <= MAXIMUM_DEPTH
    ensures SafeHere(heap, value) <==> if value.Object? then OwnTotals(heap[value.ref], Hit(value.ref, probe)).fine
                                       else ScalarTotals(value).fine
  {
    if value.Object? && heap[value.ref].Record? {
      var entries := heap[value.ref].entries;
      assert forall k :: 0 <= k < |entries| ==> entries[k] in entries;
    }
  }

  lemma {:induction false} SumIsFine(totals: seq<Totals>)
    ensures Sum(totals).fine <==> forall i :: 0 <= i < |totals| ==> totals[i].fine
  {
    if totals != [] {
      SumIsFine(totals[..|totals| - 1]);
    }
  }

  /** Everything inside is safe and no deeper than the limit. */
  ghost predicate SafeInside(heap: Heap, value: Value, depth: nat)
    requires Closed(heap) && Allocated(heap, value)
  {
    forall path :: SafeAt(heap, value, depth, path)
  }

  lemma PartIsSafe(heap: Heap, ref: Ref, depth: nat, i: nat, deeper: nat)
    requires Closed(heap) && ref in heap && i < |ValuesOf(heap[ref])| && SafeInside(heap, Object(ref), depth) && deeper == depth + 1
    ensures SafeInside(heap, ValuesOf(heap[ref])[i], deeper)
  {
    var part := ValuesOf(heap[ref])[i];
    forall path ensures SafeAt(heap, part, deeper, path) {
      assert ([i] + path)[1..] == path;
      assert SafeAt(heap, Object(ref), depth, [i] + path);
    }
  }

  lemma WholeIsSafe(heap: Heap, ref: Ref, depth: nat)
    requires Closed(heap) && ref in heap && depth <= MAXIMUM_DEPTH && SafeHere(heap, Object(ref))
    requires forall i :: 0 <= i < |ValuesOf(heap[ref])| ==> SafeInside(heap, ValuesOf(heap[ref])[i], depth + 1)
    ensures SafeInside(heap, Object(ref), depth)
  {
    forall path ensures SafeAt(heap, Object(ref), depth, path) {
      if path != [] && path[0] < |ValuesOf(heap[ref])| {
        assert SafeInside(heap, ValuesOf(heap[ref])[path[0]], depth + 1);
        assert SafeAt(heap, ValuesOf(heap[ref])[path[0]], depth + 1, path[1..]);
      }
    }
  }

  lemma SafeObject(heap: Heap, ref: Ref, depth: nat, deeper: nat)
    requires Closed(heap) && ref in heap && depth <= MAXIMUM_DEPTH && deeper == depth + 1
    ensures SafeInside(heap, Object(ref), depth) <==>
            SafeHere(heap, Object(ref)) &&
            forall i :: 0 <= i < |ValuesOf(heap[ref])| ==> SafeInside(heap, ValuesOf(heap[ref])[i], deeper)
  {
    assert SafeAt(heap, Object(ref), depth, []) <==> SafeHere(heap, Object(ref));
    if SafeInside(heap, Object(ref), depth) {
      forall i | 0 <= i < |ValuesOf(heap[ref])| ensures SafeInside(heap, ValuesOf(heap[ref])[i], deeper) {
        PartIsSafe(heap, ref, depth, i, deeper);
      }
    } else if SafeHere(heap, Object(ref)) && forall i :: 0 <= i < |ValuesOf(heap[ref])| ==> SafeInside(heap, ValuesOf(heap[ref])[i], deeper) {
      WholeIsSafe(heap, ref, depth);
    }
  }

  /** A value is fine exactly when everything inside is safe. */
  lemma {:induction false} FineMeaning(heap: Heap, value: Value, depth: nat, probe: Ref)
    requires Closed(heap) && Allocated(heap, value) && depth <= MAXIMUM_DEPTH + 1
    ensures Measure(heap, value, depth, probe).fine <==> SafeInside(heap, value, depth)
    decreases MAXIMUM_DEPTH + 1 - depth
  {
    if depth > MAXIMUM_DEPTH {
      assert !SafeAt(heap, value, depth, []);
    } else if value.Object? {
      SafeOnItsOwn(heap, value, depth, probe);
      var values := ValuesOf(heap[value.ref]);
      var parts := Measures(heap, values, depth + 1, probe);
      SumIsFine(parts);
      forall i | 0 <= i < |values| ensures parts[i].fine <==> SafeInside(heap, values[i], depth + 1) {
        FineMeaning(heap, values[i], depth + 1, probe);
      }
      SafeObject(heap, value.ref, depth, depth + 1);
    } else {
      SafeOnItsOwn(heap, value, depth, probe);
      assert SafeAt(heap, value, depth, []) <==> SafeHere(heap, value);
    }
  }

  // ---------------------------------------------------------------------------------------------
  // What the byte budget measures: the value written out as JSON in UTF-8, its texts without escapes.

  function Encoded(text: string): (bytes: seq<Identity.byte>)
    ensures |bytes| == EncodedBytes(text)
  {
    if text == "" then [] else Identity.Utf8(text[0]) + Encoded(text[1..])
  }

  function Quoted(text: string): seq<Identity.byte> {
    Encoded("\"") + Encoded(text) + Encoded("\"")
  }

  function Joined(parts: seq<seq<Identity.byte>>): seq<Identity.byte> {
    if |parts| <= 1 then if parts == [] then [] else parts[0]
    else Joined(parts[..|parts| - 1]) + Encoded(",") + parts[|parts| - 1]
  }

  function Members(entries: seq<Entry>, parts: seq<seq<Identity.byte>>): seq<seq<Identity.byte>>
    requires |entries| == |parts|
  {
    seq(|entries|, i requires 0 <= i < |entries| => Quoted(entries[i].key) + Encoded(":") + parts[i])
  }

  /** Of a number only the width is known; what has no JSON form, or lies below the depth limit, is not written. */
  ghost function Written(heap: Heap, value: Value, depth: nat): seq<Identity.byte>
    requires Closed(heap) && Allocated(heap, value) && depth <= MAXIMUM_DEPTH + 1
    decreases MAXIMUM_DEPTH + 1 - depth
  {
    if depth > MAXIMUM_DEPTH then []
    else
      match value
      case Null => Encoded("null")
      case Boolean(b) => if b then Encoded("true") else Encoded("false")
      case Number(_, width) => seq(width, i => 48)
      case Text(text) => Quoted(text)
      case Foreign => []
      case Object(ref) =>
        var values := ValuesOf(heap[ref]);
        var parts := seq(|values|, i requires 0 <= i < |values| => Written(heap, values[i], depth + 1));
        match heap[ref]
        case Items(_) => Encoded("[") + Joined(parts) + Encoded("]")
        case Record(_, entries) => Encoded("{") + Joined(Members(entries, parts)) + Encoded("}")
  }

  lemma {:induction false} JoinedLength(parts: seq<seq<Identity.byte>>, totals: seq<Totals>)
    requires |parts| == |totals| && forall i :: 0 <= i < |parts| ==> |parts[i]| == totals[i].bytes
    ensures |Joined(parts)| == Separators(|parts|) + Sum(totals).bytes
  {
    if parts != [] {
      JoinedLength(parts[..|parts| - 1], totals[..|parts| - 1]);
    }
  }

  lemma {:induction false} KeyBytesLast(entries: seq<Entry>)
    requires entries != []
    ensures KeyBytes(entries) == KeyBytes(entries[..|entries| - 1]) + EncodedBytes(entries[|entries| - 1].key) + 2
  {
    if |entries| > 1 {
      KeyBytesLast(entries[1..]);
      assert entries[1..][..|entries| - 2] == entries[..|entries| - 1][1..];
    }
  }

  lemma {:induction false} MembersLength(entries: seq<Entry>, parts: seq<seq<Identity.byte>>, totals: seq<Totals>)
    requires |entries| == |parts| == |totals| && forall i :: 0 <= i < |parts| ==> |parts[i]| == totals[i].bytes
    ensures |Joined(Members(entries, parts))| == Separators(|entries|) + |entries| + KeyBytes(entries) + Sum(totals).bytes
  {
    if entries != [] {
      var n := |entries| - 1;
      MembersLength(entries[..n], parts[..n], totals[..n]);
      KeyBytesLast(entries);
      assert Members(entries, parts)[..n] == Members(entries[..n], parts[..n]);
    }
  }

  lemma {:induction false} WrittenLength(heap: Heap, value: Value, depth: nat, probe: Ref)
    requires Closed(heap) && Allocated(heap, value) && depth <= MAXIMUM_DEPTH + 1
    ensures |Written(heap, value, depth)| == Measure(heap, value, depth, probe).bytes
    decreases MAXIMUM_DEPTH + 1 - depth
  {
    if depth <= MAXIMUM_DEPTH && value.Object? {
      var values := ValuesOf(heap[value.ref]);
      var parts := seq(|values|, i requires 0 <= i < |values| => Written(heap, values[i], depth + 1));
      var totals := Measures(heap, values, depth + 1, probe);
      forall i | 0 <= i < |values| ensures |parts[i]| == totals[i].bytes {
        WrittenLength(heap, values[i], depth + 1, probe);
      }
      match heap[value.ref] {
        case Items(_) => JoinedLength(parts, totals);
        case Record(_, entries) => MembersLength(entries, parts, totals);
      }
    } else {
      PlainLength();
    }
  }

  lemma PlainLength()
    ensures |Encoded("null")| == |Encoded("true")| == 4 && |Encoded("false")| == 5
  {
  }

  // ---------------------------------------------------------------------------------------------
  // What the other budget counts: the places of the value.

  function Under(i: nat, places: seq<seq<nat>>): seq<seq<nat>> {
    seq(|places|, k requires 0 <= k < |places| => [i] + places[k])
  }

  ghost function Places(heap: Heap, value: Value, depth: nat): seq<seq<nat>>
    requires Closed(heap) && Allocated(heap, value) && depth <= MAXIMUM_DEPTH + 1
    decreases MAXIMUM_DEPTH + 1 - depth, 0
  {
    if depth > MAXIMUM_DEPTH || !value.Object? then [[]] else [[]] + PlacesOf(heap, ValuesOf(heap[value.ref]), depth + 1)
  }

  ghost function PlacesOf(heap: Heap, values: seq<Value>, depth: nat): seq<seq<nat>>
    requires Closed(heap) && AllAllocated(heap, values) && depth <= MAXIMUM_DEPTH + 1
    decreases MAXIMUM_DEPTH + 1 - depth, 1, |values|
  {
    if values == [] then []
    else
      var last := |values| - 1;
      PlacesOf(heap, values[..last], depth) + Under(last, Places(heap, values[last], depth))
  }

  lemma {:induction false} PlacesCount(heap: Heap, value: Value, depth: nat, probe: Ref)
    requires Closed(heap) && Allocated(heap, value) && depth <= MAXIMUM_DEPTH + 1
    ensures |Places(heap, value, depth)| == Measure(heap, value, depth, probe).count
    decreases MAXIMUM_DEPTH + 1 - depth, 0
  {
    if depth <= MAXIMUM_DEPTH && value.Object? {
      ObjectCount(heap, value.ref, depth, probe);
      PlacesOfCount(heap, ValuesOf(heap[value.ref]), depth + 1, probe);
    }
  }

  lemma ObjectCount(heap: Heap, ref: Ref, depth: nat, probe: Ref)
    requires Closed(heap) && ref in heap && depth <= MAXIMUM_DEPTH
    ensures |Places(heap, Object(ref), depth)| == 1 + |PlacesOf(heap, ValuesOf(heap[ref]), depth + 1)|
    ensures Measure(heap, Object(ref), depth, probe).count == 1 + Sum(Measures(heap, ValuesOf(heap[ref]), depth + 1, probe)).count
  {
  }

  lemma {:induction false} PlacesOfCount(heap: Heap, values: seq<Value>, depth: nat, probe: Ref)
    requires Closed(heap) && AllAllocated(heap, values) && depth <= MAXIMUM_DEPTH + 1
    ensures |PlacesOf(heap, values, depth)| == Sum(Measures(heap, values, depth, probe)).count
    decreases MAXIMUM_DEPTH + 1 - depth, 1, |values|
  {
    if values != [] {
      var last := |values| - 1;
      PlacesOfCount(heap, values[..last], depth, probe);
      PlacesCount(heap, values[last], depth, probe);
      assert Measures(heap, values, depth, probe)[..last] == Measures(heap, values[..last], depth, probe);
    }
  }

  predicate AllDifferent(places: seq<seq<nat>>) {
    forall i, j :: 0 <= i < j < |places| ==> places[i] != places[j]
  }

  /** The places are the paths, each of them once, unless some lie below the depth limit. */
  lemma {:induction false} PlacesArePaths(heap: Heap, value: Value, depth: nat)
    requires Closed(heap) && Allocated(heap, value) && depth <= MAXIMUM_DEPTH && SafeInside(heap, value, depth)
    ensures AllDifferent(Places(heap, value, depth))
    ensures forall path :: path in Places(heap, value, depth) <==> Follow(heap, value, path).Some?
    decreases MAXIMUM_DEPTH + 1 - depth, 0
  {
    if value.Object? {
      var values := ValuesOf(heap[value.ref]);
      SafeObject(heap, value.ref, depth, depth + 1);
      PlacesOfParts(heap, values, depth + 1);
      var parts := PlacesOf(heap, values, depth + 1);
      assert [] !in parts;
      DifferentTogether([[]], parts);
    }
  }

  lemma {:induction false} PlacesOfParts(heap: Heap, values: seq<Value>, depth: nat)
    requires Closed(heap) && AllAllocated(heap, values) && depth <= MAXIMUM_DEPTH + 1
    requires forall i :: 0 <= i < |values| ==> SafeInside(heap, values[i], depth)
    ensures AllDifferent(PlacesOf(heap, values, depth))
    ensures forall path :: path in PlacesOf(heap, values, depth) <==>
              path != [] && path[0] < |values| && Follow(heap, values[path[0]], path[1..]).Some?
    decreases MAXIMUM_DEPTH + 1 - depth, 1, |values|
  {
    if values != [] {
      var last := |values| - 1;
      assert SafeAt(heap, values[last], depth, []);
      PlacesOfParts(heap, values[..last], depth);
      PlacesArePaths(heap, values[last], depth);
      var own := Places(heap, values[last], depth);
      forall path ensures path in Under(last, own) <==> path != [] && path[0] == last && path[1..] in own {
        UnderMembers(last, own, path);
      }
      UnderDiffers(last, own);
      DifferentTogether(PlacesOf(heap, values[..last], depth), Under(last, own));
    }
  }

  lemma DifferentTogether(a: seq<seq<nat>>, b: seq<seq<nat>>)
    requires AllDifferent(a) && AllDifferent(b) && forall path :: path in a ==> path !in b
    ensures AllDifferent(a + b)
  {
    var whole := a + b;
    forall i, j | 0 <= i < j < |whole| ensures whole[i] != whole[j] {
      if i < |a| <= j {
        assert a[i] in a && b[j - |a|] in b;
      }
    }
  }

  lemma UnderMembers(i: nat, places: seq<seq<nat>>, path: seq<nat>)
    ensures path in Under(i, places) <==> path != [] && path[0] == i && path[1..] in places
  {
    if path != [] && path[0] == i && path[1..] in places {
      var k :| 0 <= k < |places| && places[k] == path[1..];
      assert Under(i, places)[k] == path;
    }
    if path in Under(i, places) {
      var k :| 0 <= k < |places| && Under(i, places)[k] == path;
      assert path[1..] == places[k];
    }
  }

  lemma UnderDiffers(i: nat, places: seq<seq<nat>>)
    requires AllDifferent(places)
    ensures AllDifferent(Under(i, places))
  {
    forall a, b | 0 <= a < b < |places| ensures Under(i, places)[a] != Under(i, places)[b] {
      assert Under(i, places)[a][1..] == places[a] && Under(i, places)[b][1..] == places[b];
    }
  }

  // ---------------------------------------------------------------------------------------------
  // Acceptance.

  lemma {:induction false} HitsCameFrom(totals: seq<Totals>) returns (i: nat, j: nat)
    requires Sum(totals).hits >= 1
    ensures i < |totals| && totals[i].hits >= 1
    ensures Sum(totals).hits >= 2 ==> totals[i].hits >= 2 || (j < |totals| && j != i && totals[j].hits >= 1)
  {
    var last := |totals| - 1;
    if totals[last].hits >= 1 {
      i, j := last, 0;
      if Sum(totals[..last]).hits >= 1 {
        var k, _ := HitsCameFrom(totals[..last]);
        j := k;
      }
    } else {
      i, j := HitsCameFrom(totals[..last]);
    }
  }

  lemma ObjectHits(heap: Heap, value: Value, depth: nat, probe: Ref)
    requires Closed(heap) && Allocated(heap, value) && depth <= MAXIMUM_DEPTH + 1 && Measure(heap, value, depth, probe).hits >= 1
    ensures value.Object? && depth <= MAXIMUM_DEPTH
    ensures Measure(heap, value, depth, probe).hits ==
            (if value.ref == probe then 1 else 0) + Sum(Measures(heap, ValuesOf(heap[value.ref]), depth + 1, probe)).hits
  {
  }

  lemma FollowInto(heap: Heap, ref: Ref, i: nat, path: seq<nat>)
    requires Closed(heap) && ref in heap && i < |ValuesOf(heap[ref])|
    ensures AllAllocated(heap, ValuesOf(heap[ref]))
    ensures Follow(heap, Object(ref), [i] + path) == Follow(heap, ValuesOf(heap[ref])[i], path)
  {
    assert ([i] + path)[1..] == path;
  }

  lemma {:induction false} HitIsReached(heap: Heap, value: Value, depth: nat, probe: Ref) returns (path: seq<nat>)
    requires Closed(heap) && Allocated(heap, value) && depth <= MAXIMUM_DEPTH + 1 && Measure(heap, value, depth, probe).hits >= 1
    ensures Follow(heap, value, path) == Some(Object(probe))
    decreases MAXIMUM_DEPTH + 1 - depth
  {
    ObjectHits(heap, value, depth, probe);
    if value == Object(probe) {
      path := [];
    } else {
      var values := ValuesOf(heap[value.ref]);
      var i, _ := HitsCameFrom(Measures(heap, values, depth + 1, probe));
      var rest := HitIsReached(heap, values[i], depth + 1, probe);
      FollowInto(heap, value.ref, i, rest);
      path := [i] + rest;
    }
  }

  /** An object counted twice is reached along two paths. */
  lemma {:induction false} HitTwice(heap: Heap, value: Value, depth: nat, probe: Ref) returns (p: seq<nat>, q: seq<nat>)
    requires Closed(heap) && Allocated(heap, value) && depth <= MAXIMUM_DEPTH + 1 && Measure(heap, value, depth, probe).hits >= 2
    ensures p != q && Follow(heap, value, p) == Follow(heap, value, q) == Some(Object(probe))
    decreases MAXIMUM_DEPTH + 1 - depth
  {
    ObjectHits(heap, value, depth, probe);
    var parts := Measures(heap, ValuesOf(heap[value.ref]), depth + 1, probe);
    var i, j := HitsCameFrom(parts);
    if value.ref == probe {
      q := [];
      p := HitBelow(heap, value.ref, depth, i, probe);
    } else if parts[i].hits >= 2 {
      var a, b := HitTwice(heap, ValuesOf(heap[value.ref])[i], depth + 1, probe);
      FollowInto(heap, value.ref, i, a);
      FollowInto(heap, value.ref, i, b);
      p, q := [i] + a, [i] + b;
      assert p[1..] == a && q[1..] == b;
    } else {
      p := HitBelow(heap, value.ref, depth, i, probe);
      q := HitBelow(heap, value.ref, depth, j, probe);
    }
  }

  lemma HitBelow(heap: Heap, ref: Ref, depth: nat, i: nat, probe: Ref) returns (path: seq<nat>)
    requires Closed(heap) && ref in heap && depth <= MAXIMUM_DEPTH && i < |ValuesOf(heap[ref])|
    requires Measures(heap, ValuesOf(heap[ref]), depth + 1, probe)[i].hits >= 1
    ensures Follow(heap, Object(ref), path) == Some(Object(probe)) && path != [] && path[0] == i
  {
    var rest := HitIsReached(heap, ValuesOf(heap[ref])[i], depth + 1, probe);
    FollowInto(heap, ref, i, rest);
    path := [i] + rest;
  }

  ghost predicate OnePath(heap: Heap, value: Value, p: seq<nat>, q: seq<nat>)
    requires Closed(heap) && Allocated(heap, value)
  {
    Follow(heap, value, p).Some? && Follow(heap, value, p).value.Object? && Follow(heap, value, p) == Follow(heap, value, q) ==> p == q
  }

  /** A value is accepted exactly when everything inside is safe and at a depth of at most 64, every object is reached along
      one path only, there are at most 50,000 places, and written out it takes no more than a mebibyte. */
  lemma AcceptanceMeaning(heap: Heap, value: Value)
    requires Closed(heap) && Allocated(heap, value)
    ensures Acceptable(heap, value) <==>
            && SafeInside(heap, value, 0)
            && (forall p, q :: OnePath(heap, value, p, q))
            && |Places(heap, value, 0)| <= 50_000
            && |Written(heap, value, 0)| <= 1_048_576
  {
    FineMeaning(heap, value, 0, 0);
    PlacesCount(heap, value, 0, 0);
    WrittenLength(heap, value, 0, 0);
    if Acceptable(heap, value) {
      assert Fits(Measure(heap, value, 0, 0));
      forall p, q ensures OnePath(heap, value, p, q) {
        if !OnePath(heap, value, p, q) {
          AcceptedIsATree(heap, value, p, q);
        }
      }
    } else {
      var probe: Ref :| !Fits(Measure(heap, value, 0, probe));
      FineMeaning(heap, value, 0, probe);
      PlacesCount(heap, value, 0, probe);
      WrittenLength(heap, value, 0, probe);
      if Measure(heap, value, 0, probe).hits >= 2 {
        var p, q := HitTwice(heap, value, 0, probe);
        assert !OnePath(heap, value, p, q);
      }
    }
  }
}
