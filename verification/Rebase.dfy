/** The rebase theorem: a proposal that passes conflict detection against the revisions committed since its
    base has the same effect on the head as if those revisions had been made after it. */
module Rebase {
  import opened Wrappers
  import opened Pointer
  import opened JsonPatch
  import opened CollaborationPatch
  import opened Conflict

  /** The patch that made one committed revision, and the revision's name. */
  datatype Change = Change(ops: seq<Operation>, revision: string)

  /** Documents under service control carry the revision stamp. */
  predicate Stamped(doc: Json) {
    doc.Obj? && "revision" in doc.members && doc.members["revision"].Str?
  }

  function Commit(doc: Json, change: Change): (next: Option<Json>)
    requires doc.Obj?
    ensures next.Some? ==> Stamped(next.value)
  {
    var patched :- ApplyAll(doc, change.ops);
    PatchKeepsObject(doc, change.ops);
    Some(Stamp(patched, change.revision))
  }

  /** Commits a history of revisions, oldest first. */
  function Replay(doc: Json, history: seq<Change>): (head: Option<Json>)
    requires doc.Obj?
    ensures head.Some? ==> head.value.Obj?
    ensures head.Some? && Stamped(doc) ==> Stamped(head.value)
    decreases |history|
  {
    if history == [] then Some(doc)
    else
      var next :- Commit(doc, history[0]);
      Replay(next, history[1..])
  }

  function WithoutTests(history: seq<Change>): seq<Change> {
    seq(|history|, i requires 0 <= i < |history| => history[i].(ops := Changes(history[i].ops)))
  }

  /** No footprint of the proposal overlaps a footprint of a changing operation already committed. */
  ghost predicate Independent(ops: seq<Operation>, done: seq<Operation>) {
    forall op, d, f, g | op in ops && d in done && !d.Test? && f in ConflictFootprints(op) && g in ConflictFootprints(d)
      :: !PointersOverlap(f, g)
  }

  /** On every document under service control the two operations can be exchanged. */
  ghost predicate Commutes(op: Operation, done: Operation) {
    forall doc :: Stamped(doc) && Apply(doc, done).Some? ==> Exchange(doc, op, done)
  }

  ghost predicate AllCommute(ops: seq<Operation>, done: seq<Operation>) {
    forall op, d :: op in ops && d in done && !d.Test? ==> Commutes(op, d)
  }

  // ---------------------------------------------------------------------------------------------
  // From pointer texts to token footprints.

  lemma {:induction false} DistinctPathsMembers(paths: seq<string>)
    ensures forall p :: p in DistinctPaths(paths) <==> p in paths
  {
    if paths != [] {
      DistinctPathsMembers(paths[..|paths| - 1]);
      assert paths == paths[..|paths| - 1] + [paths[|paths| - 1]];
    }
  }

  lemma {:induction false} WithArrayParentsMembers(paths: seq<string>)
    ensures forall f :: f in WithArrayParents(paths) <==>
                        f in paths || exists p :: p in paths && ArrayParent(p) == Some(f)
  {
    if paths != [] {
      WithArrayParentsMembers(paths[1..]);
      assert paths == [paths[0]] + paths[1..];
    }
  }

  lemma FootprintMembers(op: Operation)
    ensures forall f :: f in ConflictFootprints(op) <==>
                        || f in OperationPaths(op)
                        || (IsStructural(op) && exists p :: p in OperationPaths(op) && ArrayParent(p) == Some(f))
  {
    WithArrayParentsMembers(OperationPaths(op));
    DistinctPathsMembers(WithArrayParents(OperationPaths(op)));
  }

  lemma WidenedParent(path: string, tokens: Tokens, t: Tokens)
    requires DecodePointer(path) == Some(tokens) && tokens != [] && t in Widened(tokens) && t != tokens
    ensures ArrayParent(path).Some? && DecodePointer(ArrayParent(path).value) == Some(t)
  {
    ArrayParentMeaning(path, tokens);
  }

  lemma WidenedHasText(op: Operation, path: string, t: Tokens) returns (f: string)
    requires path in OperationPaths(op) && Address(path).Some?
    requires t == Address(path).value || (IsStructural(op) && t in Widened(Address(path).value))
    ensures f in ConflictFootprints(op) && DecodePointer(f) == Some(t)
  {
    FootprintMembers(op);
    var tokens := Address(path).value;
    if t == tokens {
      f := path;
    } else {
      WidenedParent(path, tokens, t);
      f := ArrayParent(path).value;
    }
  }

  lemma FootprintHasText(op: Operation, t: Tokens) returns (f: string)
    requires PolicyApproved(op) && Addressable(op) && t in Footprint(op)
    ensures f in ConflictFootprints(op) && DecodePointer(f) == Some(t)
  {
    if (op.Move? || op.Copy?) && t !in Widened(Address(op.path).value) {
      f := WidenedHasText(op, op.from, t);
    } else {
      f := WidenedHasText(op, op.path, t);
    }
  }

  lemma ApprovedMember(ops: seq<Operation>, op: Operation)
    requires AllApproved(ops) && op in ops
    ensures PolicyApproved(op) && Addressable(op)
  {
    var k :| 0 <= k < |ops| && ops[k] == op;
    ApprovedIsAddressable(ops[k]);
  }

  lemma IndependentIsDisjoint(op: Operation, d: Operation)
    requires PolicyApproved(op) && PolicyApproved(d) && Addressable(op) && Addressable(d) && !d.Test? && Independent([op], [d])
    ensures Disjoint(Footprint(op), Footprint(d))
  {
    forall p, q | p in Footprint(op) && q in Footprint(d) ensures !Overlap(p, q) {
      var f := FootprintHasText(op, p);
      var g := FootprintHasText(d, q);
      assert op in [op] && d in [d];
      OverlapIsPrefix(f, g);
    }
  }

  /** Independent operations commute. */
  lemma IndependentCommute(ops: seq<Operation>, done: seq<Operation>)
    requires AllApproved(ops) && AllApproved(done) && Independent(ops, done)
    ensures AllCommute(ops, done)
  {
    forall op, d | op in ops && d in done && !d.Test? ensures Commutes(op, d) {
      ApprovedMember(ops, op);
      ApprovedMember(done, d);
      IndependentIsDisjoint(op, d);
      forall doc | Stamped(doc) && Apply(doc, d).Some? ensures Exchange(doc, op, d) {
        OperationsCommute(doc, op, d);
      }
    }
  }

  // ---------------------------------------------------------------------------------------------
  // The revision stamp.

  /** The stamp is an edit that never fails. */
  lemma StampIsEdit(doc: Json, revision: string)
    requires doc.Obj?
    ensures Update(doc, REVISION, Insert(Str(revision))) == Some(Stamp(doc, revision))
    ensures EditFootprint(REVISION, Insert(Str(revision))) == {REVISION}
  {
  }

  predicate BelowRevision(path: Tokens) {
    REVISION < path
  }

  lemma NothingBelowRevision(doc: Json, path: Tokens, e: Edit)
    requires Stamped(doc) && BelowRevision(path)
    ensures Lookup(doc, path).None? && Update(doc, path, e).None?
  {
    var child := Child(doc, path[0]).value;
    assert Child(child, path[1]).None?;
    assert path[1..] != [] && path[1..][0] == path[1];
    assert forall f :: EditMember(child, path[1], f).None?;
    assert Update(child, path[1..], e).None?;
  }

  lemma ClearOfRevision(path: Tokens, e: Edit)
    requires path != [] && path != REVISION && !BelowRevision(path)
    ensures Disjoint(EditFootprint(path, e), {REVISION})
  {
    assert path == [path[0]] + path[1..];
    assert path[0] != "revision";
  }

  /** An approved operation either leaves the stamp alone or fails on every stamped document. */
  lemma ApprovedAgainstStamp(op: Operation)
    requires PolicyApproved(op) && Addressable(op)
    ensures Disjoint(Footprint(op), {REVISION}) || forall doc :: Stamped(doc) ==> Apply(doc, op).None?
  {
    ApprovedIsAddressable(op);
    var path := Address(op.path).value;
    var hasFrom := op.Move? || op.Copy?;
    var from := if hasFrom then Address(op.from).value else path;
    if BelowRevision(path) || BelowRevision(from) {
      forall doc | Stamped(doc) ensures Apply(doc, op).None? {
        if BelowRevision(from) {
          NothingBelowRevision(doc, from, Delete);
        }
        FailsBelowRevision(doc, op);
      }
    } else {
      ClearOfRevision(path, Delete);
      ClearOfRevision(path, Assign(Null));
      ClearOfRevision(from, Delete);
    }
  }

  lemma FailsBelowRevision(doc: Json, op: Operation)
    requires Stamped(doc) && PolicyApproved(op) && Addressable(op)
    requires BelowRevision(Address(op.path).value) || ((op.Move? || op.Copy?) && BelowRevision(Address(op.from).value))
    ensures Apply(doc, op).None?
  {
    ApprovedIsAddressable(op);
    var path := Address(op.path).value;
    if op.Move? || op.Copy? {
      var from := Address(op.from).value;
      if BelowRevision(from) {
        NothingBelowRevision(doc, from, Delete);
      } else if Lookup(doc, from).Some? {
        NothingBelowRevision(doc, path, Insert(Lookup(doc, from).value));
        if op.Move? && Update(doc, from, Delete).Some? {
          StampSurvives(doc, from, Delete);
          NothingBelowRevision(Update(doc, from, Delete).value, path, Insert(Lookup(doc, from).value));
        }
      }
    } else {
      NothingBelowRevision(doc, path, if op.Remove? then Delete else if op.Add? then Insert(op.value) else Assign(op.value));
    }
  }

  lemma StampSurvives(doc: Json, path: Tokens, e: Edit)
    requires Stamped(doc) && path != [] && path != REVISION && !BelowRevision(path)
    requires Update(doc, path, e).Some?
    ensures Stamped(Update(doc, path, e).value)
  {
    ClearOfRevision(path, e);
    DisjointIsApart(doc, path, e, {REVISION}, REVISION);
    LookupPastUpdate(doc, path, e, REVISION);
    StampedLookup(doc);
    StampedLookup(Update(doc, path, e).value);
  }

  lemma StampedLookup(doc: Json)
    requires doc.Obj?
    ensures Stamped(doc) <==> Lookup(doc, REVISION).Some? && Lookup(doc, REVISION).value.Str?
  {
    assert REVISION[1..] == [];
    if "revision" in doc.members {
      assert Lookup(doc, REVISION) == Some(doc.members["revision"]);
    }
  }

  /** Restamping the document does not influence an approved patch, whose result can be restamped instead. */
  lemma {:induction false} StampPastPatch(doc: Json, revision: string, ops: seq<Operation>)
    requires Stamped(doc) && AllApproved(ops)
    ensures ApplyAll(Stamp(doc, revision), ops).Some? <==> ApplyAll(doc, ops).Some?
    ensures ApplyAll(doc, ops).Some? ==>
              && Stamped(ApplyAll(doc, ops).value)
              && ApplyAll(Stamp(doc, revision), ops) == Some(Stamp(ApplyAll(doc, ops).value, revision))
    decreases |ops|
  {
    if ops != [] {
      var op, edit := ops[0], Insert(Str(revision));
      assert PolicyApproved(op);
      ApprovedIsAddressable(op);
      ApprovedAgainstStamp(op);
      StampIsEdit(doc, revision);
      if Disjoint(Footprint(op), {REVISION}) {
        EditPastOperation(doc, REVISION, edit, op);
        if Apply(doc, op).Some? {
          var next := Apply(doc, op).value;
          JsonPatch.RootStaysObject(doc, op);
          LookupPastOperation(doc, op, REVISION);
          StampedLookup(doc);
          StampedLookup(next);
          StampIsEdit(next, revision);
          StampPastPatch(next, revision, ops[1..]);
        }
      } else {
        assert Apply(doc, op).None? && Apply(Stamp(doc, revision), op).None?;
      }
    }
  }

  // ---------------------------------------------------------------------------------------------
  // Whole patches.

  lemma StampStays(doc: Json, op: Operation)
    requires Stamped(doc) && PolicyApproved(op) && Apply(doc, op).Some?
    ensures Stamped(Apply(doc, op).value)
  {
    assert [op][1..] == [];
    StampPastPatch(doc, "", [op]);
  }

  lemma {:induction false} PatchPastOperation(doc: Json, ops: seq<Operation>, done: Operation)
    requires Stamped(doc) && AllApproved(ops) && PolicyApproved(done) && forall op :: op in ops ==> Commutes(op, done)
    requires Apply(doc, done).Some?
    ensures var after := Apply(doc, done).value;
            && (ApplyAll(after, ops).Some? <==> ApplyAll(doc, ops).Some?)
            && (ApplyAll(doc, ops).Some? ==> Apply(ApplyAll(doc, ops).value, done) == ApplyAll(after, ops))
    decreases |ops|
  {
    if ops != [] {
      assert ops[0] in ops && Commutes(ops[0], done);
      if Apply(doc, ops[0]).Some? {
        StampStays(doc, ops[0]);
        PatchPastOperation(Apply(doc, ops[0]).value, ops[1..], done);
      }
    }
  }

  /** Patches whose operations commute one by one can be exchanged whole. */
  lemma {:induction false} PatchesCommute(doc: Json, ops: seq<Operation>, done: seq<Operation>)
    requires Stamped(doc) && AllApproved(ops) && AllApproved(done) && AllCommute(ops, done)
    requires forall j :: 0 <= j < |done| ==> !done[j].Test?
    requires ApplyAll(doc, done).Some?
    ensures var after := ApplyAll(doc, done).value;
            && (ApplyAll(after, ops).Some? <==> ApplyAll(doc, ops).Some?)
            && (ApplyAll(doc, ops).Some? ==> ApplyAll(ApplyAll(doc, ops).value, done) == ApplyAll(after, ops))
    decreases |done|
  {
    if done != [] {
      PatchPastOperation(doc, ops, done[0]);
      StampStays(doc, done[0]);
      PatchesCommute(Apply(doc, done[0]).value, ops, done[1..]);
    }
  }

  // ---------------------------------------------------------------------------------------------
  // The theorem.

  /** Rebasing past one revision: the patch applies to the head exactly when it applies to the revision before, and the
      result is the patch first and the revision committed on top. */
  ghost predicate Rebases(doc: Json, ops: seq<Operation>, change: Change)
    requires doc.Obj? && Commit(doc, change).Some?
  {
    var head := Commit(doc, change).value;
    && (ApplyAll(head, ops).Some? <==> ApplyAll(doc, ops).Some?)
    && (ApplyAll(doc, ops).Some? ==>
          && ApplyAll(doc, ops).value.Obj?
          && Commit(ApplyAll(doc, ops).value, change.(ops := Changes(change.ops))) == ApplyAll(head, ops))
  }

  lemma RebasePastOne(doc: Json, ops: seq<Operation>, change: Change)
    requires Stamped(doc) && AllApproved(ops) && AllApproved(change.ops) && AllCommute(ops, change.ops)
    requires Commit(doc, change).Some?
    ensures Rebases(doc, ops, change)
    ensures ApplyAll(doc, ops).Some? ==> Stamped(ApplyAll(doc, ops).value)
  {
    var patched, changes := ApplyAll(doc, change.ops).value, Changes(change.ops);
    StampPastPatch(doc, change.revision, change.ops);
    StampPastPatch(doc, change.revision, ops);
    ChangesHaveTheEffect(doc, change.ops);
    ChangesMembers(change.ops);
    forall j | 0 <= j < |changes| ensures PolicyApproved(changes[j]) && !changes[j].Test? {
      assert changes[j] in changes;
      ApprovedMember(change.ops, changes[j]);
    }
    PatchesCommute(doc, ops, changes);
    StampPastPatch(patched, change.revision, ops);
  }

  /** If the proposal commutes with every patch committed since its base, it applies to the head exactly when it applies to
      the base, and the outcome is the base with the proposal made first and the intervening changes committed on top. */
  lemma {:induction false} CommutingRebaseIsSound(base: Json, ops: seq<Operation>, history: seq<Change>)
    requires Stamped(base) && AllApproved(ops)
    requires forall n :: 0 <= n < |history| ==> AllApproved(history[n].ops) && AllCommute(ops, history[n].ops)
    requires Replay(base, history).Some?
    ensures var head := Replay(base, history).value;
            && (ApplyAll(head, ops).Some? <==> ApplyAll(base, ops).Some?)
            && (ApplyAll(base, ops).Some? ==>
                  && ApplyAll(base, ops).value.Obj?
                  && Replay(ApplyAll(base, ops).value, WithoutTests(history)) == ApplyAll(head, ops))
    decreases |history|
  {
    if history == [] {
      if ApplyAll(base, ops).Some? {
        PatchKeepsObject(base, ops);
      }
    } else {
      var next := Commit(base, history[0]).value;
      RebasePastOne(base, ops, history[0]);
      CommutingRebaseIsSound(next, ops, history[1..]);
      assert WithoutTests(history)[1..] == WithoutTests(history[1..]);
    }
  }

  /** Rebase soundness: independence from every patch committed since the base is enough. */
  lemma RebaseIsSound(base: Json, ops: seq<Operation>, history: seq<Change>)
    requires Stamped(base) && AllApproved(ops)
    requires forall n :: 0 <= n < |history| ==> AllApproved(history[n].ops) && Independent(ops, history[n].ops)
    requires Replay(base, history).Some?
    ensures var head := Replay(base, history).value;
            && (ApplyAll(head, ops).Some? <==> ApplyAll(base, ops).Some?)
            && (ApplyAll(base, ops).Some? ==>
                  && ApplyAll(base, ops).value.Obj?
                  && Replay(ApplyAll(base, ops).value, WithoutTests(history)) == ApplyAll(head, ops))
  {
    forall n | 0 <= n < |history| ensures AllCommute(ops, history[n].ops) {
      IndependentCommute(ops, history[n].ops);
    }
    CommutingRebaseIsSound(base, ops, history);
  }

  lemma FootprintDecodes(op: Operation, f: string)
    requires PolicyApproved(op) && f in ConflictFootprints(op)
    ensures DecodePointer(f).Some? && DecodePointer(f).value != []
  {
    FootprintMembers(op);
    if f in OperationPaths(op) {
      ApprovedPath(f);
    } else {
      var p :| p in OperationPaths(op) && ArrayParent(p) == Some(f);
      ApprovedPath(p);
      ArrayParentMeaning(p, DecodePointer(p).value);
    }
  }

  function ChangedPathsOf(history: seq<Change>): seq<seq<string>> {
    seq(|history|, n requires 0 <= n < |history| => ChangedPaths(history[n].ops))
  }
}
