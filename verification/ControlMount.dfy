/** Mounting the control topologies of expanded composition instances into the document's control nodes. */
module ControlMount {
  import opened Wrappers
  import opened ControlTopology

  const MAX_EXPANDED_CONTROL_NODES := 10_000

  datatype Mount = Mount(key: string, parentId: Id)

  /** One expanded instance waiting for its controls to be mounted. `localIds` maps the definition's local ids to
      expanded ids; `callerLocalIds` is the scope in which the mount names its parent. */
  datatype Pending = Pending(callerLocalIds: Option<map<Id, Id>>, controls: Option<seq<ControlNode>>,
                             localIds: map<Id, Id>, mount: Option<Mount>)

  datatype MountCode = InvalidControlMount | UnknownMountParent | DuplicateControlAuthority | ControlNodeLimit

  datatype Context = Context(nodes: seq<ControlNode>, ids: set<Id>, kinds: map<Id, Kind>, diagnostics: seq<MountCode>)

  function Report(context: Context, code: MountCode): Context {
    context.(diagnostics := context.diagnostics + [code])
  }

  /** The ids and parents of the controls are local ids that the expansion recorded. */
  predicate ControlsResolve(nodes: seq<ControlNode>, localIds: map<Id, Id>) {
    forall n :: 0 <= n < |nodes| ==>
      && nodes[n].id in localIds
      && (nodes[n].parentId.Some? ==> nodes[n].parentId.value in localIds)
  }

  predicate Resolvable(pending: Pending) {
    pending.controls.Some? ==> ControlsResolve(pending.controls.value, pending.localIds)
  }

  function Roots(nodes: seq<ControlNode>): seq<ControlNode> {
    if nodes == [] then []
    else Roots(nodes[..|nodes| - 1]) + if IsRoot(nodes[|nodes| - 1]) then [nodes[|nodes| - 1]] else []
  }

  function Expanded(node: ControlNode, localIds: map<Id, Id>, mount: Option<Mount>): ControlNode
    requires node.id in localIds && (node.parentId.Some? ==> node.parentId.value in localIds)
  {
    var renamed := node.(id := localIds[node.id],
                         parentId := if node.parentId.None? then None else Some(localIds[node.parentId.value]));
    if mount.None? || node.parentId.Some? then renamed
    else renamed.(key := Some(mount.value.key), parentId := Some(mount.value.parentId))
  }

  function ExpandedAll(nodes: seq<ControlNode>, localIds: map<Id, Id>, mount: Option<Mount>): seq<ControlNode>
    requires Resolvable(Pending(None, Some(nodes), localIds, None))
  {
    seq(|nodes|, n requires 0 <= n < |nodes| => Expanded(nodes[n], localIds, mount))
  }

  function Register(context: Context, node: ControlNode): Context {
    if node.id in context.ids then Report(context, DuplicateControlAuthority)
    else Context(context.nodes + [node], context.ids + {node.id}, context.kinds[node.id := node.kind], context.diagnostics)
  }

  function RegisterAll(context: Context, nodes: seq<ControlNode>): Context {
    if nodes == [] then context else Register(RegisterAll(context, nodes[..|nodes| - 1]), nodes[|nodes| - 1])
  }

  datatype Resolution = Refused(code: MountCode) | Resolved(mount: Option<Mount>)

  /** A mount target must be a registered control node and no array. */
  function ResolveMount(pending: Pending, context: Context): Resolution {
    if pending.mount.None? then Resolved(None)
    else
      var named := pending.mount.value.parentId;
      var parent := if pending.callerLocalIds.None? then Some(named)
                    else if named in pending.callerLocalIds.value then Some(pending.callerLocalIds.value[named]) else None;
      if parent.None? || parent.value !in context.kinds then Refused(UnknownMountParent)
      else if context.kinds[parent.value] == ArrayKind then Refused(InvalidControlMount)
      else Resolved(Some(Mount(pending.mount.value.key, parent.value)))
  }

  function Finalize(context: Context, pending: Pending): Context
    requires Resolvable(pending)
  {
    if pending.controls.None? then Report(context, InvalidControlMount)
    else
      var nodes := pending.controls.value;
      var roots := Roots(nodes);
      if |roots| != 1 then Report(context, InvalidControlMount)
      else if (roots[0].kind == FormKind) != pending.mount.None? then Report(context, InvalidControlMount)
      else
        match ResolveMount(pending, context)
        case Refused(code) => Report(context, code)
        case Resolved(mount) =>
          if |context.nodes| + |nodes| > MAX_EXPANDED_CONTROL_NODES then Report(context, ControlNodeLimit)
          else RegisterAll(context, ExpandedAll(nodes, pending.localIds, mount))
  }

  function FinalizeAll(context: Context, pending: seq<Pending>): Context
    requires forall n :: 0 <= n < |pending| ==> Resolvable(pending[n])
    decreases |pending|
  {
    if pending == [] then context else FinalizeAll(Finalize(context, pending[0]), pending[1..])
  }

  // ---------------------------------------------------------------------------------------------
  // The forest.

  predicate Has(nodes: seq<ControlNode>, id: Id) {
    exists i :: 0 <= i < |nodes| && nodes[i].id == id
  }

  predicate ParentsPresent(nodes: seq<ControlNode>) {
    forall i :: 0 <= i < |nodes| && nodes[i].parentId.Some? ==> Has(nodes, nodes[i].parentId.value)
  }

  /** Unique ids, every parent present, no cycle. */
  ghost predicate Forest(nodes: seq<ControlNode>) {
    UniqueIds(nodes) && ParentsPresent(nodes) && Acyclic(nodes)
  }

  ghost predicate KindsAgree(nodes: seq<ControlNode>, kinds: map<Id, Kind>) {
    forall i :: 0 <= i < |nodes| ==> nodes[i].id in kinds && kinds[nodes[i].id] == nodes[i].kind
  }

  lemma HasAppend(nodes: seq<ControlNode>, node: ControlNode)
    ensures forall id :: Has(nodes + [node], id) <==> Has(nodes, id) || id == node.id
    ensures UniqueIds(nodes + [node]) <==> UniqueIds(nodes) && !Has(nodes, node.id)
  {
    var longer := nodes + [node];
    assert forall i :: 0 <= i < |nodes| ==> longer[i] == nodes[i];
    assert longer[|nodes|] == node;
  }

  /** The lookup structures agree with the node list. */
  ghost predicate Coherent(context: Context) {
    && (forall id :: id in context.ids <==> Has(context.nodes, id))
    && context.kinds.Keys == context.ids
    && (UniqueIds(context.nodes) ==> KindsAgree(context.nodes, context.kinds))
  }

  lemma RegisterOutcome(context: Context, node: ControlNode)
    requires Coherent(context) && UniqueIds(context.nodes) && node.id !in context.ids
    ensures Coherent(Register(context, node)) && UniqueIds(Register(context, node).nodes)
  {
    var after := Register(context, node);
    HasAppend(context.nodes, node);
    forall i | 0 <= i < |after.nodes|
      ensures after.nodes[i].id in after.kinds && after.kinds[after.nodes[i].id] == after.nodes[i].kind
    {
      if i < |context.nodes| {
        assert Has(context.nodes, context.nodes[i].id);
      }
    }
  }

  lemma RegisterLast(before: Context, last: ControlNode, nodes: seq<ControlNode>, front: seq<ControlNode>)
    requires Coherent(before) && UniqueIds(before.nodes) && before.nodes == nodes + front
    ensures before.diagnostics <= Register(before, last).diagnostics
    ensures Register(before, last).diagnostics == before.diagnostics ==>
              && Register(before, last).nodes == nodes + (front + [last])
              && Coherent(Register(before, last)) && UniqueIds(Register(before, last).nodes)
  {
    if last.id !in before.ids {
      RegisterOutcome(before, last);
      assert nodes + (front + [last]) == nodes + front + [last];
    }
  }

  lemma {:induction false} RegisterAllOutcome(context: Context, nodes: seq<ControlNode>)
    requires Coherent(context) && UniqueIds(context.nodes)
    ensures context.diagnostics <= RegisterAll(context, nodes).diagnostics
    ensures RegisterAll(context, nodes).diagnostics == context.diagnostics ==>
              && RegisterAll(context, nodes).nodes == context.nodes + nodes
              && Coherent(RegisterAll(context, nodes)) && UniqueIds(RegisterAll(context, nodes).nodes)
  {
    if nodes == [] {
      assert context.nodes + nodes == context.nodes;
    } else {
      var front, last := nodes[..|nodes| - 1], nodes[|nodes| - 1];
      RegisterAllOutcome(context, front);
      var before := RegisterAll(context, front);
      if before.diagnostics == context.diagnostics {
        RegisterLast(before, last, context.nodes, front);
        assert nodes == front + [last];
      }
    }
  }

  lemma {:induction false} FinalizeAllGrows(context: Context, pending: seq<Pending>)
    requires forall n :: 0 <= n < |pending| ==> Resolvable(pending[n])
    ensures |context.diagnostics| <= |FinalizeAll(context, pending).diagnostics|
    decreases |pending|
  {
    if pending != [] {
      FinalizeGrows(context, pending[0]);
      FinalizeAllGrows(Finalize(context, pending[0]), pending[1..]);
    }
  }

  lemma {:induction false} RegisterAllGrows(context: Context, nodes: seq<ControlNode>)
    ensures |context.diagnostics| <= |RegisterAll(context, nodes).diagnostics|
  {
    if nodes != [] {
      RegisterAllGrows(context, nodes[..|nodes| - 1]);
    }
  }

  lemma FinalizeGrows(context: Context, pending: Pending)
    requires Resolvable(pending)
    ensures |context.diagnostics| <= |Finalize(context, pending).diagnostics|
  {
    if pending.controls.Some? && ResolveMount(pending, context).Resolved? {
      RegisterAllGrows(context, ExpandedAll(pending.controls.value, pending.localIds, ResolveMount(pending, context).mount));
    }
  }

  // ---------------------------------------------------------------------------------------------
  // One topology.

  /** What a silent `Finalize` appended. */
  lemma SilentFinalize(context: Context, pending: Pending)
    requires Coherent(context) && UniqueIds(context.nodes) && Resolvable(pending)
    requires |Finalize(context, pending).diagnostics| == |context.diagnostics|
    ensures pending.controls.Some? && ResolveMount(pending, context).Resolved?
    ensures var after := Finalize(context, pending);
            && after.diagnostics == context.diagnostics
            && after.nodes == context.nodes + ExpandedAll(pending.controls.value, pending.localIds, ResolveMount(pending, context).mount)
            && Coherent(after) && UniqueIds(after.nodes) && |after.nodes| <= MAX_EXPANDED_CONTROL_NODES
  {
    var mount := ResolveMount(pending, context).mount;
    RegisterAllOutcome(context, ExpandedAll(pending.controls.value, pending.localIds, mount));
  }

  /** Who is the parent after appending: the old parent, the parent inside the tree, or the mount target. */
  ghost predicate ParentAt(nodes: seq<ControlNode>, controls: seq<ControlNode>, mount: Option<Mount>, i: nat, p: nat)
    requires i < |nodes| + |controls|
  {
    var n := |nodes|;
    if i < n then p < n && nodes[i].parentId == Some(nodes[p].id)
    else if controls[i - n].parentId.Some? then n <= p < n + |controls| && controls[i - n].parentId == Some(controls[p - n].id)
    else mount.Some? && p < n && nodes[p].id == mount.value.parentId
  }

  lemma AppendedParent(nodes: seq<ControlNode>, controls: seq<ControlNode>, localIds: map<Id, Id>, mount: Option<Mount>, i: nat)
    returns (p: nat)
    requires ParentsPresent(nodes) && ParentsPresent(controls) && Resolvable(Pending(None, Some(controls), localIds, None))
    requires mount.Some? ==> Has(nodes, mount.value.parentId)
    requires i < |nodes| + |controls| && (nodes + ExpandedAll(controls, localIds, mount))[i].parentId.Some?
    ensures p < |nodes| + |controls| && ParentAt(nodes, controls, mount, i, p)
    ensures var all := nodes + ExpandedAll(controls, localIds, mount);
            all[i].parentId == Some(all[p].id)
  {
    var n := |nodes|;
    if i < n {
      assert Has(nodes, nodes[i].parentId.value);
      p :| 0 <= p < n && nodes[p].id == nodes[i].parentId.value;
    } else if controls[i - n].parentId.Some? {
      assert Has(controls, controls[i - n].parentId.value);
      var j :| 0 <= j < |controls| && controls[j].id == controls[i - n].parentId.value;
      p := n + j;
    } else {
      p :| 0 <= p < n && nodes[p].id == mount.value.parentId;
    }
  }

  lemma ParentIsUnique(all: seq<ControlNode>, i: nat, j: nat, p: nat)
    requires UniqueIds(all) && i < |all| && j < |all| && p < |all|
    requires all[i].parentId == Some(all[j].id) && all[i].parentId == Some(all[p].id)
    ensures j == p
  {
  }

  lemma AppendedRank(nodes: seq<ControlNode>, controls: seq<ControlNode>, mount: Option<Mount>, older: seq<nat>, newer: seq<nat>)
    returns (rank: seq<nat>)
    requires Ranked(nodes, older) && Ranked(controls, newer) && UniqueIds(nodes)
    requires mount.Some? ==> Has(nodes, mount.value.parentId)
    ensures |rank| == |nodes| + |controls|
    ensures forall i, p :: 0 <= i < |rank| && 0 <= p < |rank| && ParentAt(nodes, controls, mount, i, p) ==> rank[p] < rank[i]
  {
    var base := 0;
    if mount.Some? {
      var target :| 0 <= target < |nodes| && nodes[target].id == mount.value.parentId;
      base := older[target];
    }
    rank := older + seq(|controls|, k requires 0 <= k < |controls| => base + 1 + newer[k]);
  }

  /** Putting an accepted tree below an existing node, or beside the others, keeps the forest. */
  lemma AppendTree(nodes: seq<ControlNode>, controls: seq<ControlNode>, localIds: map<Id, Id>, mount: Option<Mount>)
    requires Forest(nodes) && Resolvable(Pending(None, Some(controls), localIds, None))
    requires UniqueIds(nodes + ExpandedAll(controls, localIds, mount))
    requires Acyclic(controls) && ParentsPresent(controls)
    requires mount.Some? ==> Has(nodes, mount.value.parentId)
    ensures Forest(nodes + ExpandedAll(controls, localIds, mount))
  {
    var all := nodes + ExpandedAll(controls, localIds, mount);
    var older, newer :| Ranked(nodes, older) && Ranked(controls, newer);
    var rank := AppendedRank(nodes, controls, mount, older, newer);
    forall i | 0 <= i < |all| && all[i].parentId.Some? ensures Has(all, all[i].parentId.value) {
      var p := AppendedParent(nodes, controls, localIds, mount, i);
    }
    forall i, j | 0 <= i < |all| && 0 <= j < |all| && all[i].parentId == Some(all[j].id) ensures rank[j] < rank[i] {
      var p := AppendedParent(nodes, controls, localIds, mount, i);
      ParentIsUnique(all, i, j, p);
    }
    assert Ranked(all, rank);
  }

  /** A validated topology has all its parents. */
  lemma AcceptedParents(nodes: seq<ControlNode>, localIds: set<Id>)
    requires Accepted(nodes, localIds)
    ensures ParentsPresent(nodes)
  {
    forall i | 0 <= i < |nodes| && nodes[i].parentId.Some? ensures Has(nodes, nodes[i].parentId.value) {
      assert NestedOk(nodes, nodes[i]);
      IndexMembers(nodes);
    }
  }

  lemma MountTarget(context: Context, pending: Pending)
    requires Coherent(context) && UniqueIds(context.nodes)
    requires ResolveMount(pending, context).Resolved? && ResolveMount(pending, context).mount.Some?
    ensures Has(context.nodes, ResolveMount(pending, context).mount.value.parentId)
  {
    var parent := ResolveMount(pending, context).mount.value.parentId;
    assert parent in context.ids;
  }

  /** Mounting without diagnostics keeps the expanded set a forest: unique ids, every parent present, no cycle. */
  lemma {:induction false} MountingKeepsForest(context: Context, pending: seq<Pending>, localIds: seq<set<Id>>)
    requires Coherent(context) && Forest(context.nodes)
    requires forall n :: 0 <= n < |pending| ==> Resolvable(pending[n])
    requires |localIds| == |pending|
    requires forall n :: 0 <= n < |pending| && pending[n].controls.Some? ==> Accepted(pending[n].controls.value, localIds[n])
    requires |FinalizeAll(context, pending).diagnostics| == |context.diagnostics|
    ensures Coherent(FinalizeAll(context, pending)) && Forest(FinalizeAll(context, pending).nodes)
    ensures context.nodes <= FinalizeAll(context, pending).nodes
    decreases |pending|
  {
    if pending != [] {
      var next := Finalize(context, pending[0]);
      FinalizeGrows(context, pending[0]);
      FinalizeAllGrows(next, pending[1..]);
      SilentFinalize(context, pending[0]);
      var controls, mount := pending[0].controls.value, ResolveMount(pending[0], context).mount;
      AcceptedParents(controls, localIds[0]);
      if mount.Some? {
        MountTarget(context, pending[0]);
      }
      AppendTree(context.nodes, controls, pending[0].localIds, mount);
      MountingKeepsForest(next, pending[1..], localIds[1..]);
    }
  }

  // ---------------------------------------------------------------------------------------------
  // Parents of parents.

  /** Definitions only nest controls below aggregates. */
  predicate AggregateParents(nodes: seq<ControlNode>) {
    forall i, j :: 0 <= i < |nodes| && 0 <= j < |nodes| && nodes[i].parentId == Some(nodes[j].id) ==> nodes[j].kind != ControlKind
  }

  lemma AcceptedAggregates(nodes: seq<ControlNode>, localIds: set<Id>)
    requires Accepted(nodes, localIds)
    ensures AggregateParents(nodes)
  {
    forall i, j | 0 <= i < |nodes| && 0 <= j < |nodes| && nodes[i].parentId == Some(nodes[j].id)
      ensures nodes[j].kind != ControlKind
    {
      assert NestedOk(nodes, nodes[i]);
      UniqueIndex(nodes, j);
    }
  }

  /** A mount only refuses array targets. The rule that parents are aggregates, which validation enforces inside a
      definition, therefore survives a silent mount exactly when the target is no plain control. */
  lemma MountKeepsAggregatesUnlessControl(context: Context, pending: Pending, localIds: set<Id>)
    requires Coherent(context) && Forest(context.nodes) && AggregateParents(context.nodes) && Resolvable(pending)
    requires |Finalize(context, pending).diagnostics| == |context.diagnostics|
    requires pending.controls.Some? ==> Accepted(pending.controls.value, localIds)
    ensures pending.controls.Some? && ResolveMount(pending, context).Resolved?
    ensures var mount := ResolveMount(pending, context).mount;
            && (mount.Some? ==> mount.value.parentId in context.kinds)
            && (AggregateParents(Finalize(context, pending).nodes) <==>
                  (mount.Some? ==> context.kinds[mount.value.parentId] != ControlKind))
  {
    SilentFinalize(context, pending);
    var controls, mount := pending.controls.value, ResolveMount(pending, context).mount;
    AcceptedParents(controls, localIds);
    AcceptedAggregates(controls, localIds);
    if mount.Some? {
      MountTarget(context, pending);
      if context.kinds[mount.value.parentId] == ControlKind {
        RootBelowTarget(context, controls, pending.localIds, mount);
      }
    }
    if mount.Some? ==> context.kinds[mount.value.parentId] != ControlKind {
      AggregatesStay(context, controls, pending.localIds, mount);
    }
  }

  lemma RootBelowTarget(context: Context, controls: seq<ControlNode>, localIds: map<Id, Id>, mount: Option<Mount>)
    requires Coherent(context) && Forest(context.nodes) && ParentsPresent(controls) && RootCount(controls) == 1
    requires Resolvable(Pending(None, Some(controls), localIds, None))
    requires mount.Some? && mount.value.parentId in context.kinds && context.kinds[mount.value.parentId] == ControlKind
    ensures !AggregateParents(context.nodes + ExpandedAll(controls, localIds, mount))
  {
    var all := context.nodes + ExpandedAll(controls, localIds, mount);
    var root := RootOf(controls);
    assert Has(context.nodes, mount.value.parentId);
    var p := AppendedParent(context.nodes, controls, localIds, mount, |context.nodes| + root);
    assert all[p] == context.nodes[p];
  }

  lemma AggregatesStay(context: Context, controls: seq<ControlNode>, localIds: map<Id, Id>, mount: Option<Mount>)
    requires Coherent(context) && Forest(context.nodes) && AggregateParents(context.nodes) && AggregateParents(controls)
    requires ParentsPresent(controls) && Resolvable(Pending(None, Some(controls), localIds, None))
    requires UniqueIds(context.nodes + ExpandedAll(controls, localIds, mount))
    requires mount.Some? ==> mount.value.parentId in context.kinds && context.kinds[mount.value.parentId] != ControlKind
    ensures AggregateParents(context.nodes + ExpandedAll(controls, localIds, mount))
  {
    var all := context.nodes + ExpandedAll(controls, localIds, mount);
    forall i, j | 0 <= i < |all| && 0 <= j < |all| && all[i].parentId == Some(all[j].id) ensures all[j].kind != ControlKind {
      AppendedAggregate(context, controls, localIds, mount, i, j);
    }
  }

  lemma AppendedAggregate(context: Context, controls: seq<ControlNode>, localIds: map<Id, Id>, mount: Option<Mount>, i: nat, j: nat)
    requires Coherent(context) && Forest(context.nodes) && AggregateParents(context.nodes) && AggregateParents(controls)
    requires ParentsPresent(controls) && Resolvable(Pending(None, Some(controls), localIds, None))
    requires mount.Some? ==> mount.value.parentId in context.kinds && context.kinds[mount.value.parentId] != ControlKind
    requires var all := context.nodes + ExpandedAll(controls, localIds, mount);
             UniqueIds(all) && i < |all| && j < |all| && all[i].parentId == Some(all[j].id)
    ensures (context.nodes + ExpandedAll(controls, localIds, mount))[j].kind != ControlKind
  {
    assert mount.Some? ==> Has(context.nodes, mount.value.parentId);
    var p := AppendedParent(context.nodes, controls, localIds, mount, i);
    ParentIsUnique(context.nodes + ExpandedAll(controls, localIds, mount), i, j, p);
    ParentKind(context, controls, localIds, mount, i, p);
  }

  lemma ParentKind(context: Context, controls: seq<ControlNode>, localIds: map<Id, Id>, mount: Option<Mount>, i: nat, p: nat)
    requires Coherent(context) && UniqueIds(context.nodes) && AggregateParents(context.nodes) && AggregateParents(controls)
    requires Resolvable(Pending(None, Some(controls), localIds, None))
    requires mount.Some? ==> mount.value.parentId in context.kinds && context.kinds[mount.value.parentId] != ControlKind
    requires i < |context.nodes| + |controls| && p < |context.nodes| + |controls|
    requires ParentAt(context.nodes, controls, mount, i, p)
    ensures (context.nodes + ExpandedAll(controls, localIds, mount))[p].kind != ControlKind
  {
  }

  lemma {:induction false} RootOf(nodes: seq<ControlNode>) returns (i: nat)
    requires RootCount(nodes) >= 1
    ensures i < |nodes| && IsRoot(nodes[i])
  {
    if IsRoot(nodes[|nodes| - 1]) {
      i := |nodes| - 1;
    } else {
      i := RootOf(nodes[..|nodes| - 1]);
    }
  }

  // ---------------------------------------------------------------------------------------------
  // Sibling keys.

  /** Nobody below the mount target goes by the mount's key. */
  predicate KeyIsFree(nodes: seq<ControlNode>, mount: Mount) {
    forall i :: 0 <= i < |nodes| && nodes[i].parentId == Some(mount.parentId) ==> nodes[i].key != Some(mount.key)
  }

  /** Two nodes of the appended list that had one parent before, or get one by the mount. */
  predicate WereSiblings(nodes: seq<ControlNode>, controls: seq<ControlNode>, mount: Option<Mount>, i: nat, j: nat)
    requires i < j < |nodes| + |controls|
  {
    var n := |nodes|;
    if j < n then nodes[i].parentId.Some? && nodes[i].parentId == nodes[j].parentId
    else if i < n then IsRoot(controls[j - n]) && mount.Some? && nodes[i].parentId == Some(mount.value.parentId)
    else controls[i - n].parentId == controls[j - n].parentId
  }

  lemma SiblingsAfterAppending(nodes: seq<ControlNode>, controls: seq<ControlNode>, localIds: map<Id, Id>, mount: Option<Mount>,
                               i: nat, j: nat)
    requires ParentsPresent(nodes) && ParentsPresent(controls) && Resolvable(Pending(None, Some(controls), localIds, None))
    requires UniqueIds(controls) && UniqueIds(nodes + ExpandedAll(controls, localIds, mount))
    requires mount.Some? ==> Has(nodes, mount.value.parentId)
    requires i < j < |nodes| + |controls|
    requires var all := nodes + ExpandedAll(controls, localIds, mount);
             all[i].parentId.Some? && all[i].parentId == all[j].parentId
    ensures WereSiblings(nodes, controls, mount, i, j)
  {
    var all, n := nodes + ExpandedAll(controls, localIds, mount), |nodes|;
    var p := AppendedParent(nodes, controls, localIds, mount, i);
    var q := AppendedParent(nodes, controls, localIds, mount, j);
    ParentIsUnique(all, i, q, p);
  }

  /** The key a node has in the appended list. */
  function KeyAt(nodes: seq<ControlNode>, controls: seq<ControlNode>, mount: Option<Mount>, i: nat): Option<string>
    requires i < |nodes| + |controls|
  {
    if i < |nodes| then nodes[i].key
    else if mount.Some? && IsRoot(controls[i - |nodes|]) then Some(mount.value.key)
    else controls[i - |nodes|].key
  }

  lemma AppendedKey(nodes: seq<ControlNode>, controls: seq<ControlNode>, localIds: map<Id, Id>, mount: Option<Mount>, i: nat)
    requires ControlsResolve(controls, localIds) && i < |nodes| + |controls|
    ensures (nodes + ExpandedAll(controls, localIds, mount))[i].key == KeyAt(nodes, controls, mount, i)
  {
  }

  lemma SiblingPair(nodes: seq<ControlNode>, i: nat, j: nat)
    requires SiblingKeysApart(nodes) && i < j < |nodes| && nodes[i].parentId.Some? && nodes[i].parentId == nodes[j].parentId
    ensures nodes[i].key.Some? ==> nodes[i].key != nodes[j].key
  {
  }

  lemma KeysDiffer(nodes: seq<ControlNode>, controls: seq<ControlNode>, mount: Option<Mount>, i: nat, j: nat)
    requires RootCount(controls) == 1 && SiblingKeysApart(nodes) && SiblingKeysApart(controls)
    requires mount.Some? ==> KeyIsFree(nodes, mount.value)
    requires i < j < |nodes| + |controls| && WereSiblings(nodes, controls, mount, i, j) && KeyAt(nodes, controls, mount, i).Some?
    ensures KeyAt(nodes, controls, mount, i) != KeyAt(nodes, controls, mount, j)
  {
    var n := |nodes|;
    if j < n {
      SiblingPair(nodes, i, j);
    } else if n <= i {
      if IsRoot(controls[i - n]) {
        OneRoot(controls, i - n, j - n);
      } else {
        SiblingPair(controls, i - n, j - n);
      }
    }
  }

  lemma KeysAfterAppending(nodes: seq<ControlNode>, controls: seq<ControlNode>, localIds: map<Id, Id>, mount: Option<Mount>)
    requires Forest(nodes) && ParentsPresent(controls) && Resolvable(Pending(None, Some(controls), localIds, None))
    requires UniqueIds(controls) && RootCount(controls) == 1 && UniqueIds(nodes + ExpandedAll(controls, localIds, mount))
    requires mount.Some? ==> Has(nodes, mount.value.parentId)
    requires SiblingKeysApart(nodes) && SiblingKeysApart(controls) && (mount.Some? ==> KeyIsFree(nodes, mount.value))
    ensures SiblingKeysApart(nodes + ExpandedAll(controls, localIds, mount))
  {
    var all := nodes + ExpandedAll(controls, localIds, mount);
    forall i, j | 0 <= i < j < |all| && all[i].parentId.Some? && all[i].key.Some? && all[i].parentId == all[j].parentId
      ensures all[i].key != all[j].key
    {
      SiblingsAfterAppending(nodes, controls, localIds, mount, i, j);
      AppendedKey(nodes, controls, localIds, mount, i);
      AppendedKey(nodes, controls, localIds, mount, j);
      KeysDiffer(nodes, controls, mount, i, j);
    }
  }

  /** Mounting does not look at the keys below its target: siblings keep different keys exactly when the mount's key is free
      there, so of two mounts with one key below one parent the second is accepted and breaks the rule. */
  lemma MountKeepsSiblingKeysExactly(context: Context, pending: Pending, localIds: set<Id>)
    requires Coherent(context) && Forest(context.nodes) && SiblingKeysApart(context.nodes) && Resolvable(pending)
    requires |Finalize(context, pending).diagnostics| == |context.diagnostics|
    requires pending.controls.Some? ==> Accepted(pending.controls.value, localIds)
    ensures pending.controls.Some? && ResolveMount(pending, context).Resolved?
    ensures var mount := ResolveMount(pending, context).mount;
            SiblingKeysApart(Finalize(context, pending).nodes) <==> (mount.Some? ==> KeyIsFree(context.nodes, mount.value))
  {
    SilentFinalize(context, pending);
    var controls, mount := pending.controls.value, ResolveMount(pending, context).mount;
    AcceptedParents(controls, localIds);
    IdentitiesTellSiblingsApart(controls);
    if mount.Some? {
      MountTarget(context, pending);
    }
    if mount.Some? ==> KeyIsFree(context.nodes, mount.value) {
      KeysAfterAppending(context.nodes, controls, pending.localIds, mount);
    } else {
      TakenKeyClashes(context.nodes, controls, pending.localIds, mount.value);
    }
  }

  lemma TakenKeyClashes(nodes: seq<ControlNode>, controls: seq<ControlNode>, localIds: map<Id, Id>, mount: Mount)
    requires Resolvable(Pending(None, Some(controls), localIds, None)) && RootCount(controls) == 1 && !KeyIsFree(nodes, mount)
    ensures !SiblingKeysApart(nodes + ExpandedAll(controls, localIds, Some(mount)))
  {
    var all, n := nodes + ExpandedAll(controls, localIds, Some(mount)), |nodes|;
    var i :| 0 <= i < n && nodes[i].parentId == Some(mount.parentId) && nodes[i].key == Some(mount.key);
    var root := RootOf(controls);
    assert all[i] == nodes[i] && all[n + root] == Expanded(controls[root], localIds, Some(mount));
  }

  // ---------------------------------------------------------------------------------------------
  // Where things end up.

  /** A mount goes below the node whose id the caller recorded for the name it gives, or below the named node itself outside every
      instance, and nowhere else. */
  lemma MountTargetMeaning(pending: Pending, context: Context, key: string, target: Id)
    ensures ResolveMount(pending, context) == Resolved(Some(Mount(key, target))) <==>
            && pending.mount.Some? && pending.mount.value.key == key
            && (if pending.callerLocalIds.None? then target == pending.mount.value.parentId
                else pending.mount.value.parentId in pending.callerLocalIds.value
                     && target == pending.callerLocalIds.value[pending.mount.value.parentId])
            && target in context.kinds && context.kinds[target] != ArrayKind
  {
  }

  /** A silent mount adds every control under the id recorded for it: below the recorded parent with its own key, or, for the
      root, below the target under the mount's key. */
  lemma MountedNodes(context: Context, pending: Pending, n: nat)
    requires Coherent(context) && UniqueIds(context.nodes) && Resolvable(pending)
    requires |Finalize(context, pending).diagnostics| == |context.diagnostics|
    requires pending.controls.Some? && n < |pending.controls.value|
    ensures |Finalize(context, pending).nodes| == |context.nodes| + |pending.controls.value|
    ensures var control, node := pending.controls.value[n], Finalize(context, pending).nodes[|context.nodes| + n];
            && node.id == pending.localIds[control.id] && node.kind == control.kind
            && (control.parentId.Some? ==> node.parentId == Some(pending.localIds[control.parentId.value]) && node.key == control.key)
            && (control.parentId.None? ==>
                  if pending.mount.None? then node.parentId.None? && node.key == control.key
                  else node.key == Some(pending.mount.value.key) && node.parentId ==
                       Some(if pending.callerLocalIds.None? then pending.mount.value.parentId
                            else if pending.mount.value.parentId in pending.callerLocalIds.value
                            then pending.callerLocalIds.value[pending.mount.value.parentId] else ""))
  {
    SilentFinalize(context, pending);
    if pending.mount.Some? {
      var mount := ResolveMount(pending, context).mount.value;
      MountTargetMeaning(pending, context, mount.key, mount.parentId);
    }
  }

  // ---------------------------------------------------------------------------------------------
  // Witnesses.

  /** A form with one control. */
  function Fields(form: Id, field: Id, key: string): Context
    requires form != field
  {
    var root, control := ControlNode(form, None, FormKind, None), ControlNode(field, Some(key), ControlKind, Some(form));
    Context([root, control], {form, field}, map[form := FormKind, field := ControlKind], [])
  }

  /** An instance with a single group, recorded under the id, mounted below a control node of the document. */
  function GroupBelow(parentId: Id, key: string, id: Id): Pending {
    Pending(None, Some([ControlNode("group", None, GroupKind, None)]), map["group" := id], Some(Mount(key, parentId)))
  }

  lemma FieldsAreFine(form: Id, field: Id, key: string)
    requires form != field
    ensures var context := Fields(form, field, key);
            Coherent(context) && Forest(context.nodes) && AggregateParents(context.nodes) && SiblingKeysApart(context.nodes)
  {
    var nodes := Fields(form, field, key).nodes;
    assert nodes[0].id == form && nodes[1].id == field;
    assert Ranked(nodes, [0, 1]);
  }

  lemma GroupIsAccepted(parentId: Id, key: string, id: Id)
    ensures Resolvable(GroupBelow(parentId, key, id)) && Accepted(GroupBelow(parentId, key, id).controls.value, {"group"})
  {
    var nodes := GroupBelow(parentId, key, id).controls.value;
    assert nodes[..0] == [] && RootCount(nodes) == 1;
    assert Ranked(nodes, [0]);
  }

  /** Mounting the group leaves no diagnostic, below the form and below the control alike. */
  lemma GroupIsMounted(form: Id, field: Id, key: string, parentId: Id, mounted: string, id: Id)
    requires form != field && parentId in {form, field} && id !in {form, field}
    ensures Resolvable(GroupBelow(parentId, mounted, id))
    ensures Finalize(Fields(form, field, key), GroupBelow(parentId, mounted, id)).diagnostics == []
  {
    var context, pending := Fields(form, field, key), GroupBelow(parentId, mounted, id);
    var nodes := pending.controls.value;
    assert nodes[..0] == [] && Roots(nodes) == nodes;
    var added := ExpandedAll(nodes, pending.localIds, Some(Mount(mounted, parentId)));
    assert added[..0] == [] && RegisterAll(context, []) == context;
    assert RegisterAll(context, added) == Register(context, added[0]);
  }

  /** The expander accepts a group below a plain control. */
  lemma MountOnControlIsSilent(form: Id, field: Id, key: string, mounted: string, id: Id)
    requires form != field && id !in {form, field}
    ensures Resolvable(GroupBelow(field, mounted, id))
    ensures var after := Finalize(Fields(form, field, key), GroupBelow(field, mounted, id));
            after.diagnostics == [] && !AggregateParents(after.nodes)
  {
    FieldsAreFine(form, field, key);
    GroupIsAccepted(field, mounted, id);
    GroupIsMounted(form, field, key, field, mounted, id);
    MountKeepsAggregatesUnlessControl(Fields(form, field, key), GroupBelow(field, mounted, id), {"group"});
  }

  /** The expander accepts a group under the key of its new sibling. */
  lemma MountOnTakenKeyIsSilent(form: Id, field: Id, key: string, id: Id)
    requires form != field && id !in {form, field}
    ensures Resolvable(GroupBelow(form, key, id))
    ensures var after := Finalize(Fields(form, field, key), GroupBelow(form, key, id));
            after.diagnostics == [] && !SiblingKeysApart(after.nodes)
  {
    FieldsAreFine(form, field, key);
    GroupIsAccepted(form, key, id);
    GroupIsMounted(form, field, key, form, key, id);
    MountKeepsSiblingKeysExactly(Fields(form, field, key), GroupBelow(form, key, id), {"group"});
    assert !KeyIsFree(Fields(form, field, key).nodes, Mount(key, form)) by {
      assert Fields(form, field, key).nodes[1].key == Some(key);
    }
  }

  // ---------------------------------------------------------------------------------------------
  // The expansion context object.

  class TopologyContext {
    var controlNodes: seq<ControlNode>
    var controlNodeIds: set<Id>
    var controlNodeKinds: map<Id, Kind>
    var diagnostics: seq<MountCode>

    ghost function Model(): Context
      reads this
    {
      Context(controlNodes, controlNodeIds, controlNodeKinds, diagnostics)
    }

    /** Starts from the document's own control nodes and reports the ids that occur twice. */
    constructor (nodes: seq<ControlNode>)
      ensures controlNodes == nodes && Coherent(Model())
      ensures diagnostics == [] <==> UniqueIds(nodes)
    {
      var ids: set<Id>, kinds: map<Id, Kind>, found: seq<MountCode> := {}, map[], [];
      for n := 0 to |nodes|
        invariant forall id :: id in ids <==> Has(nodes[..n], id)
        invariant kinds.Keys == ids
        invariant UniqueIds(nodes[..n]) ==> KindsAgree(nodes[..n], kinds)
        invariant found == [] <==> UniqueIds(nodes[..n])
      {
        assert nodes[..n + 1] == nodes[..n] + [nodes[n]];
        HasAppend(nodes[..n], nodes[n]);
        assert forall i :: 0 <= i < n ==> Has(nodes[..n], nodes[..n][i].id);
        if nodes[n].id in ids {
          found := found + [DuplicateControlAuthority];
        }
        ids := ids + {nodes[n].id};
        kinds := kinds[nodes[n].id := nodes[n].kind];
      }
      assert nodes[..|nodes|] == nodes;
      controlNodes, controlNodeIds, controlNodeKinds, diagnostics := nodes, ids, kinds, found;
    }

    method RegisterExpandedControl(node: ControlNode)
      modifies this
      ensures Model() == Register(old(Model()), node)
    {
      if node.id in controlNodeIds {
        diagnostics := diagnostics + [DuplicateControlAuthority];
        return;
      }
      controlNodeIds := controlNodeIds + {node.id};
      controlNodeKinds := controlNodeKinds[node.id := node.kind];
      controlNodes := controlNodes + [node];
    }

    method FinalizeControlTopology(pending: Pending)
      requires Resolvable(pending)
      modifies this
      ensures Model() == Finalize(old(Model()), pending)
    {
      if pending.controls.None? {
        diagnostics := diagnostics + [InvalidControlMount];
        return;
      }
      var nodes := pending.controls.value;
      var roots := Roots(nodes);
      if |roots| != 1 || (roots[0].kind == FormKind) != pending.mount.None? {
        diagnostics := diagnostics + [InvalidControlMount];
        return;
      }
      var resolution := ResolveMount(pending, Context(controlNodes, controlNodeIds, controlNodeKinds, diagnostics));
      if resolution.Refused? {
        diagnostics := diagnostics + [resolution.code];
        return;
      }
      if |controlNodes| + |nodes| > MAX_EXPANDED_CONTROL_NODES {
        diagnostics := diagnostics + [ControlNodeLimit];
        return;
      }
      ghost var all := ExpandedAll(nodes, pending.localIds, resolution.mount);
      for n := 0 to |nodes|
        invariant Model() == RegisterAll(old(Model()), all[..n])
      {
        assert all[..n + 1][..n] == all[..n] && all[..n + 1][n] == all[n];
        RegisterExpandedControl(Expanded(nodes[n], pending.localIds, resolution.mount));
      }
      assert all[..|nodes|] == all;
    }

    method FinalizeTopologies(pending: seq<Pending>)
      requires forall n :: 0 <= n < |pending| ==> Resolvable(pending[n])
      modifies this
      ensures Model() == FinalizeAll(old(Model()), pending)
    {
      for n := 0 to |pending|
        invariant FinalizeAll(Model(), pending[n..]) == FinalizeAll(old(Model()), pending)
      {
        assert pending[n..][1..] == pending[n + 1..];
        FinalizeControlTopology(pending[n]);
      }
    }
  }
}
