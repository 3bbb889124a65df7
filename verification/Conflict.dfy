/** Conflict detection between a proposal and the revisions committed since its base. */
module Conflict {
  import opened Pointer
  import opened JsonPatch
  import opened CollaborationPatch

  datatype Conflict = Conflict(baseRevision: string, currentPath: string, currentRevision: string, proposalPath: string)

  function DistinctPaths(paths: seq<string>): seq<string> {
    if paths == [] then []
    else
      var before := DistinctPaths(paths[..|paths| - 1]);
      if paths[|paths| - 1] in before then before else before + [paths[|paths| - 1]]
  }

  function WithArrayParents(paths: seq<string>): seq<string> {
    if paths == [] then []
    else
      var own := match ArrayParent(paths[0]) { case None => [paths[0]] case Some(p) => [paths[0], p] };
      own + WithArrayParents(paths[1..])
  }

  /** The pointers a proposed operation claims: structural operations also claim the enclosing array. */
  function ConflictFootprints(op: Operation): seq<string> {
    if !IsStructural(op) then OperationPaths(op)
    else DistinctPaths(WithArrayParents(OperationPaths(op)))
  }

  function OverlappingFootprints(footprints: seq<string>, currentPath: string): seq<string> {
    if footprints == [] then []
    else
      (if PointersOverlap(footprints[0], currentPath) then [footprints[0]] else [])
      + OverlappingFootprints(footprints[1..], currentPath)
  }

  function ToConflicts(base: string, current: string, currentPath: string, proposed: seq<string>): seq<Conflict> {
    seq(|proposed|, i requires 0 <= i < |proposed| => Conflict(base, currentPath, current, proposed[i]))
  }

  function PathConflicts(base: string, current: string, footprints: seq<string>, changed: seq<string>): seq<Conflict> {
    if changed == [] then []
    else
      ToConflicts(base, current, changed[0], OverlappingFootprints(footprints, changed[0]))
      + PathConflicts(base, current, footprints, changed[1..])
  }

  /** `intervening` lists the changed paths of each revision after the base, oldest first. */
  function OperationConflicts(base: string, current: string, op: Operation, intervening: seq<seq<string>>): seq<Conflict>
    decreases |intervening|
  {
    if intervening == [] then []
    else
      PathConflicts(base, current, ConflictFootprints(op), intervening[0])
      + OperationConflicts(base, current, op, intervening[1..])
  }

  function AllConflicts(base: string, current: string, ops: seq<Operation>, intervening: seq<seq<string>>): seq<Conflict>
    decreases |ops|
  {
    if ops == [] then []
    else OperationConflicts(base, current, ops[0], intervening) + AllConflicts(base, current, ops[1..], intervening)
  }

  predicate SameConflictArea(a: Conflict, b: Conflict) {
    a.currentPath == b.currentPath && PointersOverlap(a.proposalPath, b.proposalPath)
  }

  /** Index of the first entry in the same area, or the length. */
  function FindArea(unique: seq<Conflict>, value: Conflict): (i: nat)
    ensures i <= |unique|
    ensures i < |unique| ==> SameConflictArea(unique[i], value)
    ensures forall k :: 0 <= k < i ==> !SameConflictArea(unique[k], value)
  {
    if unique == [] || SameConflictArea(unique[0], value) then 0 else 1 + FindArea(unique[1..], value)
  }

  function Merge(unique: seq<Conflict>, value: Conflict): seq<Conflict> {
    var i := FindArea(unique, value);
    if i == |unique| then unique + [value]
    else if |value.proposalPath| > |unique[i].proposalPath| then unique[i := value]
    else unique
  }

  function MergeAll(values: seq<Conflict>): seq<Conflict> {
    if values == [] then [] else Merge(MergeAll(values[..|values| - 1]), values[|values| - 1])
  }

  function CollaborationConflicts(base: string, current: string, ops: seq<Operation>,
                                  intervening: seq<seq<string>>): seq<Conflict> {
    MergeAll(AllConflicts(base, current, ops, intervening))
  }

  /** The merging loop, as the service runs it over a growing list. */
  method UniqueConflicts(values: seq<Conflict>) returns (unique: seq<Conflict>)
    ensures unique == MergeAll(values)
  {
    unique := [];
    for n := 0 to |values|
      invariant unique == MergeAll(values[..n])
    {
      var value := values[n];
      var i := 0;
      while i < |unique| && !SameConflictArea(unique[i], value)
        invariant 0 <= i <= |unique|
        invariant forall k :: 0 <= k < i ==> !SameConflictArea(unique[k], value)
      {
        i := i + 1;
      }
      assert i == FindArea(unique, value);
      assert values[..n + 1][..n] == values[..n];
      if i == |unique| {
        unique := unique + [value];
      } else if |value.proposalPath| > |unique[i].proposalPath| {
        unique := unique[i := value];
      }
    }
    assert values[..|values|] == values;
  }

  // ---------------------------------------------------------------------------------------------
  // What is reported.

  ghost predicate Reportable(values: seq<Conflict>) {
    forall k :: 0 <= k < |values| ==> DecodePointer(values[k].proposalPath).Some?
  }

  /** `deep` stands for `shallow`: same current path, at or below the same proposal path. */
  ghost predicate StandsFor(deep: Conflict, shallow: Conflict)
    requires DecodePointer(deep.proposalPath).Some? && DecodePointer(shallow.proposalPath).Some?
  {
    && deep.currentPath == shallow.currentPath
    && DecodePointer(shallow.proposalPath).value <= DecodePointer(deep.proposalPath).value
  }

  ghost predicate Represents(unique: seq<Conflict>, values: seq<Conflict>)
    requires Reportable(unique) && Reportable(values)
  {
    && (forall u :: u in unique ==> u in values)
    && (forall n {:trigger Covered(unique, values, n)} :: 0 <= n < |values| ==> Covered(unique, values, n))
    && AreasApart(unique)
  }

  ghost predicate Covered(unique: seq<Conflict>, values: seq<Conflict>, n: int)
    requires Reportable(unique) && Reportable(values) && 0 <= n < |values|
  {
    exists k :: 0 <= k < |unique| && StandsFor(unique[k], values[n])
  }

  ghost predicate AreasApart(unique: seq<Conflict>) {
    forall i, j :: 0 <= i < |unique| && 0 <= j < |unique| && i != j ==> !SameConflictArea(unique[i], unique[j])
  }

  /** In one area the longer text is the deeper pointer. */
  lemma LongerIsDeeper(a: Conflict, b: Conflict)
    requires DecodePointer(a.proposalPath).Some? && DecodePointer(b.proposalPath).Some?
    requires SameConflictArea(a, b)
    ensures if |b.proposalPath| > |a.proposalPath| then StandsFor(b, a) else StandsFor(a, b)
  {
    OverlapIsPrefix(a.proposalPath, b.proposalPath);
    if DecodePointer(a.proposalPath).value <= DecodePointer(b.proposalPath).value {
      TokenPrefixIsTextPrefix(a.proposalPath, b.proposalPath);
    } else {
      TokenPrefixIsTextPrefix(b.proposalPath, a.proposalPath);
    }
  }

  lemma DeeperStaysApart(deep: Conflict, shallow: Conflict, other: Conflict)
    requires DecodePointer(deep.proposalPath).Some? && DecodePointer(shallow.proposalPath).Some?
    requires DecodePointer(other.proposalPath).Some?
    requires StandsFor(deep, shallow) && !SameConflictArea(shallow, other)
    ensures !SameConflictArea(deep, other) && !SameConflictArea(other, deep)
  {
    OverlapIsPrefix(shallow.proposalPath, other.proposalPath);
    OverlapIsPrefix(deep.proposalPath, other.proposalPath);
    OverlapIsPrefix(other.proposalPath, deep.proposalPath);
  }

  lemma MergedIsReportable(unique: seq<Conflict>, value: Conflict)
    requires Reportable(unique) && Reportable([value])
    ensures Reportable(Merge(unique, value))
  {
    assert [value][0] == value;
  }

  lemma MergeMembers(unique: seq<Conflict>, values: seq<Conflict>, value: Conflict)
    requires forall u :: u in unique ==> u in values
    ensures forall u :: u in Merge(unique, value) ==> u in values + [value]
  {
    var merged := Merge(unique, value);
    forall u | u in merged ensures u in values + [value] {
      if u != value {
        assert u in unique;
      }
    }
  }

  lemma MergeCovers(unique: seq<Conflict>, values: seq<Conflict>, value: Conflict, n: nat)
    requires Reportable(unique) && Reportable(values) && Reportable(values + [value]) && Reportable(Merge(unique, value))
    requires n < |values| ==> Covered(unique, values, n)
    requires n <= |values|
    ensures Covered(Merge(unique, value), values + [value], n)
  {
    var all, merged, i := values + [value], Merge(unique, value), FindArea(unique, value);
    assert all[|values|] == value;
    if i < |unique| {
      LongerIsDeeper(unique[i], value);
    }
    if n < |values| {
      assert all[n] == values[n];
      var k :| 0 <= k < |unique| && StandsFor(unique[k], values[n]);
      assert StandsFor(merged[k], all[n]);
    } else {
      assert StandsFor(merged[i], all[n]);
    }
  }

  lemma MergeApart(unique: seq<Conflict>, value: Conflict, a: nat, b: nat)
    requires Reportable(unique) && Reportable([value]) && Reportable(Merge(unique, value))
    requires AreasApart(unique)
    requires a < |Merge(unique, value)| && b < |Merge(unique, value)| && a != b
    ensures !SameConflictArea(Merge(unique, value)[a], Merge(unique, value)[b])
  {
    var merged, i := Merge(unique, value), FindArea(unique, value);
    assert [value][0] == value;
    OverlapIsPrefix(merged[a].proposalPath, merged[b].proposalPath);
    OverlapIsPrefix(merged[b].proposalPath, merged[a].proposalPath);
    if i < |unique| {
      LongerIsDeeper(unique[i], value);
      if a == i {
        DeeperStaysApart(merged[a], unique[i], unique[b]);
      } else if b == i {
        DeeperStaysApart(merged[b], unique[i], unique[a]);
      }
    } else if a == |unique| || b == |unique| {
      assert !SameConflictArea(unique[if a == |unique| then b else a], value);
    }
  }

  lemma MergeRepresents(unique: seq<Conflict>, values: seq<Conflict>, value: Conflict)
    requires Reportable(unique) && Reportable(values + [value]) && Reportable(values) && Represents(unique, values)
    ensures Reportable(Merge(unique, value)) && Represents(Merge(unique, value), values + [value])
  {
    var all, merged := values + [value], Merge(unique, value);
    assert all[|values|] == value && [value][0] == value;
    MergeMembers(unique, values, value);
    MergedIsReportable(unique, value);
    forall n | 0 <= n < |all| ensures Covered(merged, all, n) {
      MergeCovers(unique, values, value, n);
    }
    forall a, b | 0 <= a < |merged| && 0 <= b < |merged| && a != b ensures !SameConflictArea(merged[a], merged[b]) {
      MergeApart(unique, value, a, b);
    }
  }

  /** The report keeps one conflict per area: each is a detected conflict, no two share an area, and every
      detected conflict is represented by a reported one with the same current path at or below its own. */
  lemma {:induction false} UniqueConflictsRepresentAll(values: seq<Conflict>)
    requires Reportable(values)
    ensures Reportable(MergeAll(values)) && Represents(MergeAll(values), values)
  {
    if values != [] {
      var front := values[..|values| - 1];
      UniqueConflictsRepresentAll(front);
      assert values == front + [values[|values| - 1]];
      MergeRepresents(MergeAll(front), front, values[|values| - 1]);
    }
  }

  lemma {:induction false} MergeAllEmpty(values: seq<Conflict>)
    ensures MergeAll(values) == [] <==> values == []
  {
    if values != [] {
      MergeAllEmpty(values[..|values| - 1]);
    }
  }

  // ---------------------------------------------------------------------------------------------
  // When nothing is reported.

  lemma {:induction false} NoOverlappingFootprints(footprints: seq<string>, currentPath: string)
    ensures OverlappingFootprints(footprints, currentPath) == [] <==>
            forall f :: f in footprints ==> !PointersOverlap(f, currentPath)
  {
    if footprints != [] {
      NoOverlappingFootprints(footprints[1..], currentPath);
      assert footprints == [footprints[0]] + footprints[1..];
    }
  }

  lemma {:induction false} NoPathConflicts(base: string, current: string, footprints: seq<string>, changed: seq<string>)
    ensures PathConflicts(base, current, footprints, changed) == [] <==>
            forall f, c :: f in footprints && c in changed ==> !PointersOverlap(f, c)
  {
    if changed != [] {
      NoPathConflicts(base, current, footprints, changed[1..]);
      NoOverlappingFootprints(footprints, changed[0]);
      assert changed == [changed[0]] + changed[1..];
    }
  }

  ghost predicate ClearOf(op: Operation, changed: seq<string>) {
    forall f, c :: f in ConflictFootprints(op) && c in changed ==> !PointersOverlap(f, c)
  }

  lemma {:induction false} NoOperationConflicts(base: string, current: string, op: Operation, intervening: seq<seq<string>>)
    ensures OperationConflicts(base, current, op, intervening) == [] <==>
            forall n :: 0 <= n < |intervening| ==> ClearOf(op, intervening[n])
    decreases |intervening|
  {
    if intervening != [] {
      NoOperationConflicts(base, current, op, intervening[1..]);
      NoPathConflicts(base, current, ConflictFootprints(op), intervening[0]);
      assert intervening == [intervening[0]] + intervening[1..];
    }
  }

  ghost predicate ClearOfAll(op: Operation, intervening: seq<seq<string>>) {
    forall n :: 0 <= n < |intervening| ==> ClearOf(op, intervening[n])
  }

  lemma {:induction false} NoConflictsDetected(base: string, current: string, ops: seq<Operation>, intervening: seq<seq<string>>)
    ensures AllConflicts(base, current, ops, intervening) == [] <==>
            forall k :: 0 <= k < |ops| ==> ClearOfAll(ops[k], intervening)
    decreases |ops|
  {
    if ops != [] {
      NoConflictsDetected(base, current, ops[1..], intervening);
      NoOperationConflicts(base, current, ops[0], intervening);
      assert ops == [ops[0]] + ops[1..];
    }
  }

  /** A proposal passes exactly when no footprint of it overlaps any path changed since its base. */
  lemma NoConflictsReported(base: string, current: string, ops: seq<Operation>, intervening: seq<seq<string>>)
    ensures CollaborationConflicts(base, current, ops, intervening) == [] <==>
            forall k, n :: 0 <= k < |ops| && 0 <= n < |intervening| ==> ClearOf(ops[k], intervening[n])
  {
    MergeAllEmpty(AllConflicts(base, current, ops, intervening));
    NoConflictsDetected(base, current, ops, intervening);
  }
}
