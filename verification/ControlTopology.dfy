/** Validation of the control topology of one composition definition: one rooted tree of local control nodes. */
module ControlTopology {
  import opened Wrappers

  type Id = string
  datatype Kind = ArrayKind | ControlKind | FormKind | GroupKind | RecordKind

  datatype ControlNode = ControlNode(id: Id, key: Option<string>, kind: Kind, parentId: Option<Id>)

  datatype Code = UnknownControlNode | DuplicateControlNodeId | UnknownControlParent | InvalidControlTopology

  datatype Diagnostic = Diagnostic(code: Code, index: nat)

  // ---------------------------------------------------------------------------------------------
  // The index of the nodes, and parent chains through it.

  type Index = map<Id, ControlNode>

  /** The first node registered under every id. */
  function IndexOf(nodes: seq<ControlNode>): Index {
    if nodes == [] then map[]
    else
      var index, last := IndexOf(nodes[..|nodes| - 1]), nodes[|nodes| - 1];
      if last.id in index then index else index[last.id := last]
  }

  function Next(parents: Index, current: Option<Id>): Option<Id> {
    if current.None? || current.value !in parents then None
    else
      var parentId := parents[current.value].parentId;
      if parentId.Some? && parentId.value in parents then parentId else None
  }

  /** The ancestor after a number of steps. */
  function Walk(parents: Index, current: Option<Id>, steps: nat): Option<Id>
    decreases steps
  {
    if steps == 0 then current else Walk(parents, Next(parents, current), steps - 1)
  }

  ghost predicate Ends(parents: Index, id: Id) {
    exists steps: nat :: Walk(parents, Some(id), steps).None?
  }

  lemma {:induction false} WalkCompose(parents: Index, current: Option<Id>, a: nat, b: nat)
    ensures Walk(parents, current, a + b) == Walk(parents, Walk(parents, current, a), b)
    decreases a
  {
    if a > 0 {
      WalkCompose(parents, Next(parents, current), a - 1, b);
    }
  }

  lemma {:induction false} WalkFromNowhere(parents: Index, steps: nat)
    ensures Walk(parents, None, steps).None?
  {
    if steps > 0 {
      WalkFromNowhere(parents, steps - 1);
    }
  }

  /** A chain that meets the same node twice never ends. */
  lemma {:induction false} RepeatNeverEnds(parents: Index, id: Id, i: nat, j: nat, steps: nat)
    requires i < j && Walk(parents, Some(id), i).Some? && Walk(parents, Some(id), i) == Walk(parents, Some(id), j)
    ensures Walk(parents, Some(id), steps).Some?
    decreases steps
  {
    if steps <= j {
      WalkCompose(parents, Some(id), steps, j - steps);
      WalkFromNowhere(parents, j - steps);
    } else {
      RepeatNeverEnds(parents, id, i, j, steps - (j - i));
      WalkCompose(parents, Some(id), j, steps - j);
      WalkCompose(parents, Some(id), i, steps - j);
    }
  }

  ghost function Steps(parents: Index, id: Id): nat
    requires Ends(parents, id)
  {
    var n :| Walk(parents, Some(id), n).None?;
    LeastSteps(parents, id, n)
  }

  ghost function LeastSteps(parents: Index, id: Id, n: nat): (least: nat)
    requires Walk(parents, Some(id), n).None?
    ensures least >= 1 && Walk(parents, Some(id), least).None? && Walk(parents, Some(id), least - 1).Some?
  {
    if Walk(parents, Some(id), n - 1).Some? then n else LeastSteps(parents, id, n - 1)
  }

  lemma StepsToParent(parents: Index, id: Id)
    requires id in parents && Next(parents, Some(id)).Some? && Ends(parents, id)
    ensures Ends(parents, Next(parents, Some(id)).value)
    ensures Steps(parents, Next(parents, Some(id)).value) < Steps(parents, id)
  {
    var parent := Next(parents, Some(id)).value;
    var n := Steps(parents, id);
    assert Walk(parents, Some(parent), n - 1).None?;
    var m := Steps(parents, parent);
    if m >= n {
      WalkCompose(parents, Some(parent), n - 1, m - 1 - (n - 1));
      WalkFromNowhere(parents, m - n);
    }
  }

  // ---------------------------------------------------------------------------------------------
  // What an accepted topology is.

  predicate UniqueIds(nodes: seq<ControlNode>) {
    forall i, j :: 0 <= i < j < |nodes| ==> nodes[i].id != nodes[j].id
  }

  /** Parents strictly precede their children in some ranking: there is no cycle. */
  ghost predicate Ranked(nodes: seq<ControlNode>, rank: seq<nat>) {
    && |rank| == |nodes|
    && forall i, j :: 0 <= i < |nodes| && 0 <= j < |nodes| && nodes[i].parentId == Some(nodes[j].id) ==> rank[j] < rank[i]
  }

  ghost predicate Acyclic(nodes: seq<ControlNode>) {
    exists rank :: Ranked(nodes, rank)
  }

  predicate IsRoot(node: ControlNode) {
    node.parentId.None?
  }

  function RootCount(nodes: seq<ControlNode>): nat {
    if nodes == [] then 0 else RootCount(nodes[..|nodes| - 1]) + if IsRoot(nodes[|nodes| - 1]) then 1 else 0
  }

  /** Exactly one node without a parent, and that node has no key. */
  predicate OneUnkeyedRoot(nodes: seq<ControlNode>) {
    RootCount(nodes) == 1 && forall i :: 0 <= i < |nodes| && IsRoot(nodes[i]) ==> nodes[i].key.None?
  }

  /** A nested node is keyed, is no form, and sits below a known aggregate. */
  predicate NestedOk(nodes: seq<ControlNode>, node: ControlNode) {
    node.parentId.Some? ==>
      && node.parentId.value in IndexOf(nodes)
      && IndexOf(nodes)[node.parentId.value].kind != ControlKind
      && node.key.Some? && node.kind != FormKind
  }

  function SiblingIdentity(node: ControlNode): Option<string> {
    if node.parentId.None? || node.key.None? then None
    else Some(node.parentId.value + "\0" + node.key.value)
  }

  predicate DistinctSiblings(nodes: seq<ControlNode>) {
    forall i, j :: 0 <= i < j < |nodes| && SiblingIdentity(nodes[i]).Some? ==>
                     SiblingIdentity(nodes[i]) != SiblingIdentity(nodes[j])
  }

  ghost predicate Accepted(nodes: seq<ControlNode>, localIds: set<Id>) {
    && UniqueIds(nodes)
    && (forall i :: 0 <= i < |nodes| ==> nodes[i].id in localIds)
    && OneUnkeyedRoot(nodes)
    && (forall i :: 0 <= i < |nodes| ==> NestedOk(nodes, nodes[i]))
    && DistinctSiblings(nodes)
    && Acyclic(nodes)
  }

  // ---------------------------------------------------------------------------------------------
  // The validator.

  method ValidateTopology(nodes: seq<ControlNode>, localIds: set<Id>) returns (diagnostics: seq<Diagnostic>)
    ensures diagnostics == [] <==> Accepted(nodes, localIds)
  {
    var byId, identities := IndexNodes(nodes, localIds);
    var root := ValidateRoot(nodes);
    var nested := ValidateRelationships(nodes, byId);
    var siblings := ValidateSiblingKeys(nodes);
    var cycles := ValidateCycles(nodes, byId);
    diagnostics := identities + root + nested + siblings + cycles;
    if UniqueIds(nodes) {
      AcyclicMeansEnding(nodes);
    }
  }

  method IndexNodes(nodes: seq<ControlNode>, localIds: set<Id>) returns (byId: Index, diagnostics: seq<Diagnostic>)
    ensures byId == IndexOf(nodes)
    ensures diagnostics == [] <==> UniqueIds(nodes) && forall i :: 0 <= i < |nodes| ==> nodes[i].id in localIds
  {
    byId, diagnostics := map[], [];
    for n := 0 to |nodes|
      invariant byId == IndexOf(nodes[..n])
      invariant diagnostics == [] <==> UniqueIds(nodes[..n]) && forall i :: 0 <= i < n ==> nodes[i].id in localIds
    {
      var node := nodes[n];
      IndexStep(nodes, n);
      UniqueStep(nodes[..n], node);
      assert nodes[..n + 1] == nodes[..n] + [node];
      if node.id !in localIds {
        diagnostics := diagnostics + [Diagnostic(UnknownControlNode, n)];
      }
      if node.id !in byId {
        byId := byId[node.id := node];
      } else {
        diagnostics := diagnostics + [Diagnostic(DuplicateControlNodeId, n)];
      }
    }
    assert nodes[..|nodes|] == nodes;
  }

  lemma IndexStep(nodes: seq<ControlNode>, n: nat)
    requires n < |nodes|
    ensures var index := IndexOf(nodes[..n]);
            IndexOf(nodes[..n + 1]) == if nodes[n].id in index then index else index[nodes[n].id := nodes[n]]
  {
    assert nodes[..n + 1][..n] == nodes[..n];
  }

  lemma {:induction false} IndexMembers(nodes: seq<ControlNode>)
    ensures forall i :: 0 <= i < |nodes| ==> nodes[i].id in IndexOf(nodes)
    ensures forall id :: id in IndexOf(nodes) ==> exists i :: 0 <= i < |nodes| && nodes[i].id == id && IndexOf(nodes)[id] == nodes[i]
  {
    if nodes != [] {
      var front := nodes[..|nodes| - 1];
      IndexMembers(front);
      forall id | id in IndexOf(nodes)
        ensures exists i :: 0 <= i < |nodes| && nodes[i].id == id && IndexOf(nodes)[id] == nodes[i]
      {
        if id in IndexOf(front) {
          var i :| 0 <= i < |front| && front[i].id == id && IndexOf(front)[id] == front[i];
          assert nodes[i] == front[i];
        }
      }
    }
  }

  lemma UniqueStep(nodes: seq<ControlNode>, node: ControlNode)
    ensures UniqueIds(nodes + [node]) <==> UniqueIds(nodes) && node.id !in IndexOf(nodes)
  {
    IndexMembers(nodes);
    var longer := nodes + [node];
    assert forall i :: 0 <= i < |nodes| ==> longer[i] == nodes[i];
    assert longer[|nodes|] == node;
  }

  /** With unique ids the index finds every node. */
  lemma UniqueIndex(nodes: seq<ControlNode>, i: nat)
    requires UniqueIds(nodes) && i < |nodes|
    ensures nodes[i].id in IndexOf(nodes) && IndexOf(nodes)[nodes[i].id] == nodes[i]
  {
    IndexMembers(nodes);
    var j :| 0 <= j < |nodes| && nodes[j].id == nodes[i].id && IndexOf(nodes)[nodes[i].id] == nodes[j];
    assert i == j;
  }

  method ValidateRoot(nodes: seq<ControlNode>) returns (diagnostics: seq<Diagnostic>)
    ensures diagnostics == [] <==> OneUnkeyedRoot(nodes)
  {
    var roots: seq<ControlNode> := [];
    for n := 0 to |nodes|
      invariant |roots| == RootCount(nodes[..n])
      invariant forall root :: root in roots <==> root in nodes[..n] && IsRoot(root)
    {
      assert nodes[..n + 1] == nodes[..n] + [nodes[n]];
      if IsRoot(nodes[n]) {
        roots := roots + [nodes[n]];
      }
    }
    assert nodes[..|nodes|] == nodes;
    if |roots| != 1 {
      return [Diagnostic(InvalidControlTopology, 0)];
    }
    assert roots[0] in roots;
    if roots[0].key.Some? {
      return [Diagnostic(InvalidControlTopology, 0)];
    }
    diagnostics := [];
  }

  method ValidateRelationships(nodes: seq<ControlNode>, byId: Index) returns (diagnostics: seq<Diagnostic>)
    requires byId == IndexOf(nodes)
    ensures diagnostics == [] <==> forall i :: 0 <= i < |nodes| ==> NestedOk(nodes, nodes[i])
  {
    diagnostics := [];
    for n := 0 to |nodes|
      invariant diagnostics == [] <==> forall i :: 0 <= i < n ==> NestedOk(nodes, nodes[i])
    {
      var node := nodes[n];
      if node.parentId.Some? {
        if node.parentId.value !in byId {
          diagnostics := diagnostics + [Diagnostic(UnknownControlParent, n)];
        } else if byId[node.parentId.value].kind == ControlKind {
          diagnostics := diagnostics + [Diagnostic(InvalidControlTopology, n)];
        }
        if node.key.None? {
          diagnostics := diagnostics + [Diagnostic(InvalidControlTopology, n)];
        }
        if node.kind == FormKind {
          diagnostics := diagnostics + [Diagnostic(InvalidControlTopology, n)];
        }
      }
    }
  }

  method ValidateSiblingKeys(nodes: seq<ControlNode>) returns (diagnostics: seq<Diagnostic>)
    ensures diagnostics == [] <==> DistinctSiblings(nodes)
  {
    var keys: set<string> := {};
    diagnostics := [];
    for n := 0 to |nodes|
      invariant forall k :: k in keys <==> exists i :: 0 <= i < n && SiblingIdentity(nodes[i]) == Some(k)
      invariant diagnostics == [] <==> DistinctSiblings(nodes[..n])
    {
      assert nodes[..n + 1][..n] == nodes[..n];
      var identity := SiblingIdentity(nodes[n]);
      if identity.Some? {
        if identity.value !in keys {
          keys := keys + {identity.value};
        } else {
          diagnostics := diagnostics + [Diagnostic(InvalidControlTopology, n)];
          var i :| 0 <= i < n && SiblingIdentity(nodes[i]) == identity;
          assert nodes[..n + 1][i] == nodes[i] && nodes[..n + 1][n] == nodes[n];
        }
      }
    }
    assert nodes[..|nodes|] == nodes;
  }

  method ValidateCycles(nodes: seq<ControlNode>, byId: Index) returns (diagnostics: seq<Diagnostic>)
    requires byId == IndexOf(nodes)
    ensures diagnostics == [] <==> forall i :: 0 <= i < |nodes| ==> Ends(byId, nodes[i].id)
  {
    diagnostics := [];
    IndexMembers(nodes);
    for n := 0 to |nodes|
      invariant diagnostics == [] <==> forall i :: 0 <= i < n ==> Ends(byId, nodes[i].id)
    {
      var found := ValidateCycle(nodes[n].id, byId, n);
      diagnostics := diagnostics + found;
    }
  }

  /** Follows the parents of one node and reports when it meets a node again. */
  method ValidateCycle(start: Id, byId: Index, index: nat) returns (diagnostics: seq<Diagnostic>)
    requires start in byId
    ensures diagnostics == [] <==> Ends(byId, start)
  {
    var visited: set<Id> := {};
    var current := Some(start);
    ghost var steps := 0;
    while current.Some?
      invariant current.Some? ==> current.value in byId
      invariant visited <= byId.Keys
      invariant current == Walk(byId, Some(start), steps)
      invariant forall id :: id in visited ==> exists i :: 0 <= i < steps && Walk(byId, Some(start), i) == Some(id)
      decreases byId.Keys - visited, if current.Some? then 1 else 0
    {
      if current.value in visited {
        ghost var i :| 0 <= i < steps && Walk(byId, Some(start), i) == current;
        forall n ensures Walk(byId, Some(start), n).Some? {
          RepeatNeverEnds(byId, start, i, steps, n);
        }
        return [Diagnostic(InvalidControlTopology, index)];
      }
      visited := visited + {current.value};
      WalkCompose(byId, Some(start), steps, 1);
      current := Next(byId, current);
      steps := steps + 1;
    }
    diagnostics := [];
  }

  // ---------------------------------------------------------------------------------------------
  // What acceptance means.

  lemma {:induction false} RankedEnds(nodes: seq<ControlNode>, rank: seq<nat>, i: nat)
    requires UniqueIds(nodes) && Ranked(nodes, rank) && i < |nodes|
    ensures Ends(IndexOf(nodes), nodes[i].id)
    decreases rank[i]
  {
    var parents := IndexOf(nodes);
    UniqueIndex(nodes, i);
    var next := Next(parents, Some(nodes[i].id));
    if next.Some? {
      IndexMembers(nodes);
      var j :| 0 <= j < |nodes| && nodes[j].id == next.value;
      RankedEnds(nodes, rank, j);
      OneMoreStep(parents, nodes[i].id);
    } else {
      assert Walk(parents, Some(nodes[i].id), 1).None?;
    }
  }

  lemma OneMoreStep(parents: Index, id: Id)
    requires Next(parents, Some(id)).Some? && Ends(parents, Next(parents, Some(id)).value)
    ensures Ends(parents, id)
  {
    var steps: nat :| Walk(parents, Next(parents, Some(id)), steps).None?;
    assert Walk(parents, Some(id), steps + 1).None?;
  }

  /** Following parents ends everywhere exactly when the nodes can be ranked. */
  lemma AcyclicMeansEnding(nodes: seq<ControlNode>)
    requires UniqueIds(nodes)
    ensures Acyclic(nodes) <==> forall i :: 0 <= i < |nodes| ==> Ends(IndexOf(nodes), nodes[i].id)
  {
    var parents := IndexOf(nodes);
    if Acyclic(nodes) {
      var rank :| Ranked(nodes, rank);
      forall i | 0 <= i < |nodes| ensures Ends(parents, nodes[i].id) {
        RankedEnds(nodes, rank, i);
      }
    }
    if forall i :: 0 <= i < |nodes| ==> Ends(parents, nodes[i].id) {
      var rank := seq(|nodes|, i requires 0 <= i < |nodes| => Steps(parents, nodes[i].id));
      forall i, j | 0 <= i < |nodes| && 0 <= j < |nodes| && nodes[i].parentId == Some(nodes[j].id)
        ensures rank[j] < rank[i]
      {
        UniqueIndex(nodes, i);
        UniqueIndex(nodes, j);
        assert Next(parents, Some(nodes[i].id)) == Some(nodes[j].id);
        StepsToParent(parents, nodes[i].id);
      }
      assert Ranked(nodes, rank);
    }
  }

  lemma {:induction false} OneRoot(nodes: seq<ControlNode>, i: nat, j: nat)
    requires RootCount(nodes) <= 1 && i < |nodes| && j < |nodes| && IsRoot(nodes[i]) && IsRoot(nodes[j])
    ensures i == j
  {
    var last := |nodes| - 1;
    var front := nodes[..last];
    if i < last && j < last {
      OneRoot(front, i, j);
    } else if i < last {
      SomeRoot(front, i);
    } else if j < last {
      SomeRoot(front, j);
    }
  }

  lemma {:induction false} SomeRoot(nodes: seq<ControlNode>, i: nat)
    requires i < |nodes| && IsRoot(nodes[i])
    ensures RootCount(nodes) >= 1
  {
    if i < |nodes| - 1 {
      SomeRoot(nodes[..|nodes| - 1], i);
    }
  }

  /** An accepted topology is one rooted tree: from every node the parents lead to the root. */
  lemma EveryNodeReachesTheRoot(nodes: seq<ControlNode>, localIds: set<Id>, root: nat, i: nat) returns (steps: nat)
    requires Accepted(nodes, localIds) && root < |nodes| && IsRoot(nodes[root]) && i < |nodes|
    ensures Walk(IndexOf(nodes), Some(nodes[i].id), steps) == Some(nodes[root].id)
  {
    var rank :| Ranked(nodes, rank);
    steps := ToRoot(nodes, localIds, rank, root, i);
  }

  lemma {:induction false} ToRoot(nodes: seq<ControlNode>, localIds: set<Id>, rank: seq<nat>, root: nat, i: nat)
    returns (steps: nat)
    requires Accepted(nodes, localIds) && Ranked(nodes, rank) && root < |nodes| && IsRoot(nodes[root]) && i < |nodes|
    ensures Walk(IndexOf(nodes), Some(nodes[i].id), steps) == Some(nodes[root].id)
    decreases rank[i]
  {
    UniqueIndex(nodes, i);
    if IsRoot(nodes[i]) {
      OneRoot(nodes, root, i);
      steps := 0;
    } else {
      var j := ParentPosition(nodes, i);
      var rest := ToRoot(nodes, localIds, rank, root, j);
      steps := rest + 1;
    }
  }

  /** A nested node's parent is the next step of its walk. */
  lemma ParentPosition(nodes: seq<ControlNode>, i: nat) returns (j: nat)
    requires UniqueIds(nodes) && i < |nodes| && NestedOk(nodes, nodes[i]) && !IsRoot(nodes[i])
    ensures j < |nodes| && nodes[i].parentId == Some(nodes[j].id)
    ensures Next(IndexOf(nodes), Some(nodes[i].id)) == Some(nodes[j].id)
  {
    UniqueIndex(nodes, i);
    IndexMembers(nodes);
    j :| 0 <= j < |nodes| && Some(nodes[j].id) == nodes[i].parentId;
  }

  /** Two sibling identities stand for one parent and key when parent ids do not contain the separator. */
  lemma SiblingIdentityIsExact(a: ControlNode, b: ControlNode)
    requires SiblingIdentity(a).Some? && SiblingIdentity(a) == SiblingIdentity(b)
    requires '\0' !in a.parentId.value && '\0' !in b.parentId.value
    ensures a.parentId == b.parentId && a.key == b.key
  {
    var p, q := a.parentId.value, b.parentId.value;
    var s := SiblingIdentity(a).value;
    assert s[|p|] == '\0' && s[|q|] == '\0';
    assert forall n :: 0 <= n < |p| ==> s[n] == p[n];
    assert forall n :: 0 <= n < |q| ==> s[n] == q[n];
    assert |p| == |q|;
    assert s[..|p|] == p && s[..|q|] == q;
    assert s[|p| + 1..] == a.key.value && s[|q| + 1..] == b.key.value;
  }

  /** Keyed nodes below one parent have different keys. */
  predicate SiblingKeysApart(nodes: seq<ControlNode>) {
    forall i, j :: 0 <= i < j < |nodes| && nodes[i].parentId.Some? && nodes[i].key.Some? && nodes[i].parentId == nodes[j].parentId ==>
                     nodes[i].key != nodes[j].key
  }

  /** The set of identities the validator keeps tells siblings apart: what it accepts has different keys below every parent,
      and it accepts every such topology whose parent ids do not contain the separator. */
  lemma IdentitiesTellSiblingsApart(nodes: seq<ControlNode>)
    ensures DistinctSiblings(nodes) ==> SiblingKeysApart(nodes)
    ensures (forall i :: 0 <= i < |nodes| && nodes[i].parentId.Some? ==> '\0' !in nodes[i].parentId.value) && SiblingKeysApart(nodes) ==>
              DistinctSiblings(nodes)
  {
    if DistinctSiblings(nodes) {
      forall i, j | 0 <= i < j < |nodes| && nodes[i].parentId.Some? && nodes[i].key.Some? && nodes[i].parentId == nodes[j].parentId
        ensures nodes[i].key != nodes[j].key
      {
        assert SiblingIdentity(nodes[i]).Some? && SiblingIdentity(nodes[i]) != SiblingIdentity(nodes[j]);
      }
    }
    if (forall i :: 0 <= i < |nodes| && nodes[i].parentId.Some? ==> '\0' !in nodes[i].parentId.value) && SiblingKeysApart(nodes) {
      forall i, j | 0 <= i < j < |nodes| && SiblingIdentity(nodes[i]).Some?
        ensures SiblingIdentity(nodes[i]) != SiblingIdentity(nodes[j])
      {
        if SiblingIdentity(nodes[i]) == SiblingIdentity(nodes[j]) {
          SiblingIdentityIsExact(nodes[i], nodes[j]);
        }
      }
    }
  }
}
