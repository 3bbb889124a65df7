/** What a conflict report says: which overlaps between a proposal and the paths changed since its base it stands for. */
module ConflictReport {
  import opened Wrappers
  import opened Pointer
  import opened JsonPatch
  import opened CollaborationPatch
  import opened Conflict
  import opened Rebase

  // ---------------------------------------------------------------------------------------------
  // What is detected.

  /** A real overlap: a pointer that the proposal claims, and a path changed since the base, on base and head as asked. */
  ghost predicate Detected(c: Conflict, base: string, current: string, ops: seq<Operation>, intervening: seq<seq<string>>) {
    && c.baseRevision == base && c.currentRevision == current
    && PointersOverlap(c.proposalPath, c.currentPath)
    && (exists op :: op in ops && c.proposalPath in ConflictFootprints(op))
    && (exists changed :: changed in intervening && c.currentPath in changed)
  }

  lemma {:induction false} OverlappingMembers(footprints: seq<string>, currentPath: string)
    ensures forall f :: f in OverlappingFootprints(footprints, currentPath) <==> f in footprints && PointersOverlap(f, currentPath)
  {
    if footprints != [] {
      OverlappingMembers(footprints[1..], currentPath);
      assert footprints == [footprints[0]] + footprints[1..];
    }
  }

  lemma {:induction false} PathConflictsMeaning(base: string, current: string, footprints: seq<string>, changed: seq<string>, c: Conflict)
    ensures c in PathConflicts(base, current, footprints, changed) <==>
            && c.baseRevision == base && c.currentRevision == current && PointersOverlap(c.proposalPath, c.currentPath)
            && c.proposalPath in footprints && c.currentPath in changed
  {
    if changed != [] {
      var proposed := OverlappingFootprints(footprints, changed[0]);
      PathConflictsMeaning(base, current, footprints, changed[1..], c);
      OverlappingMembers(footprints, changed[0]);
      ToConflictsMembers(base, current, changed[0], proposed, c);
      assert changed == [changed[0]] + changed[1..];
    }
  }

  lemma ToConflictsMembers(base: string, current: string, currentPath: string, proposed: seq<string>, c: Conflict)
    ensures c in ToConflicts(base, current, currentPath, proposed) <==>
            c.baseRevision == base && c.currentRevision == current && c.currentPath == currentPath && c.proposalPath in proposed
  {
    var found := ToConflicts(base, current, currentPath, proposed);
    if c.baseRevision == base && c.currentRevision == current && c.currentPath == currentPath && c.proposalPath in proposed {
      var i :| 0 <= i < |proposed| && proposed[i] == c.proposalPath;
      assert found[i] == c;
    }
  }

  lemma {:induction false} OperationConflictsMeaning(base: string, current: string, op: Operation, intervening: seq<seq<string>>, c: Conflict)
    ensures c in OperationConflicts(base, current, op, intervening) <==> Detected(c, base, current, [op], intervening)
    decreases |intervening|
  {
    assert op in [op];
    if intervening != [] {
      PathConflictsMeaning(base, current, ConflictFootprints(op), intervening[0], c);
      OperationConflictsMeaning(base, current, op, intervening[1..], c);
      assert intervening == [intervening[0]] + intervening[1..];
    }
  }

  /** Detection finds exactly the overlaps there are. */
  lemma {:induction false} AllConflictsMeaning(base: string, current: string, ops: seq<Operation>, intervening: seq<seq<string>>, c: Conflict)
    ensures c in AllConflicts(base, current, ops, intervening) <==> Detected(c, base, current, ops, intervening)
    decreases |ops|
  {
    if ops != [] {
      OperationConflictsMeaning(base, current, ops[0], intervening, c);
      AllConflictsMeaning(base, current, ops[1..], intervening, c);
      assert ops == [ops[0]] + ops[1..];
    }
  }

  // ---------------------------------------------------------------------------------------------
  // What is reported.

  lemma {:induction false} MergedAreValues(values: seq<Conflict>)
    ensures forall u :: u in MergeAll(values) ==> u in values
  {
    if values != [] {
      var front, last := values[..|values| - 1], values[|values| - 1];
      MergedAreValues(front);
      MergeMembers(MergeAll(front), front, last);
      assert values == front + [last];
    }
  }

  /** The pointers an addressable operation claims decode. */
  lemma ClaimedDecodes(op: Operation, f: string)
    requires Addressable(op) && f in ConflictFootprints(op)
    ensures DecodePointer(f).Some?
  {
    FootprintMembers(op);
    if f !in OperationPaths(op) {
      var p :| p in OperationPaths(op) && ArrayParent(p) == Some(f);
      ArrayParentMeaning(p, DecodePointer(p).value);
    }
  }

  /** There is a report for the overlap: about the same changed path, at or below the pointer that the proposal claims. */
  ghost predicate Reported(report: seq<Conflict>, footprint: string, currentPath: string)
    requires DecodePointer(footprint).Some?
  {
    exists r :: r in report && r.currentPath == currentPath && DecodePointer(r.proposalPath).Some?
                && DecodePointer(footprint).value <= DecodePointer(r.proposalPath).value
  }

  lemma ReportCovers(base: string, current: string, ops: seq<Operation>, intervening: seq<seq<string>>, op: Operation, f: string,
                     changed: seq<string>, path: string)
    requires forall op :: op in ops ==> Addressable(op)
    requires op in ops && f in ConflictFootprints(op) && changed in intervening && path in changed && PointersOverlap(f, path)
    ensures DecodePointer(f).Some? && Reported(CollaborationConflicts(base, current, ops, intervening), f, path)
  {
    var values, c := AllConflicts(base, current, ops, intervening), Conflict(base, path, current, f);
    ClaimedDecodes(op, f);
    AllConflictsMeaning(base, current, ops, intervening, c);
    forall k | 0 <= k < |values| ensures DecodePointer(values[k].proposalPath).Some? {
      AllConflictsMeaning(base, current, ops, intervening, values[k]);
      var other :| other in ops && values[k].proposalPath in ConflictFootprints(other);
      ClaimedDecodes(other, values[k].proposalPath);
    }
    UniqueConflictsRepresentAll(values);
    var n :| 0 <= n < |values| && values[n] == c;
    assert Covered(MergeAll(values), values, n);
    var k :| 0 <= k < |MergeAll(values)| && StandsFor(MergeAll(values)[k], values[n]);
    assert MergeAll(values)[k] in MergeAll(values);
  }

  /** The report names real overlaps only, each with its two sides, and for addressable operations it stands for every
      overlap. */
  lemma ReportMeaning(base: string, current: string, ops: seq<Operation>, intervening: seq<seq<string>>)
    ensures var report := CollaborationConflicts(base, current, ops, intervening);
            && (forall r :: r in report ==> Detected(r, base, current, ops, intervening))
            && ((forall op :: op in ops ==> Addressable(op)) ==>
                  forall op, f, changed, path ::
                    op in ops && f in ConflictFootprints(op) && changed in intervening && path in changed && PointersOverlap(f, path) ==>
                    DecodePointer(f).Some? && Reported(report, f, path))
  {
    var report := CollaborationConflicts(base, current, ops, intervening);
    MergedAreValues(AllConflicts(base, current, ops, intervening));
    forall r | r in report ensures Detected(r, base, current, ops, intervening) {
      AllConflictsMeaning(base, current, ops, intervening, r);
    }
    if forall op :: op in ops ==> Addressable(op) {
      forall op, f, changed, path |
        op in ops && f in ConflictFootprints(op) && changed in intervening && path in changed && PointersOverlap(f, path)
        ensures DecodePointer(f).Some? && Reported(report, f, path) {
        ReportCovers(base, current, ops, intervening, op, f, changed, path);
      }
    }
  }
}
