/** The rebase theorem inside the running service, and what undo restores. */
module CollaborationRebase {
  import opened Wrappers
  import opened JsonPatch
  import opened OperationMeaning
  import opened CollaborationPatch
  import opened Pointer
  import opened Conflict
  import opened ConflictReport
  import opened Rebase
  import opened ArrayShifts
  import opened Collaboration
  import opened CollaborationInvariant
  import opened CollaborationRuns

  ghost predicate AllProposed(s: State, chain: seq<Revision>) {
    forall n :: 0 <= n < |chain| ==> chain[n].proposalId.Some? && chain[n].revision in s.patches
  }

  /** The patches behind a chain of proposed revisions. */
  ghost function HistoryOf(s: State, chain: seq<Revision>): seq<Change>
    requires AllProposed(s, chain)
  {
    seq(|chain|, n requires 0 <= n < |chain| => Change(s.patches[chain[n].revision], chain[n].revision))
  }

  lemma {:induction false} ReplayAppend(doc: Json, history: seq<Change>, last: Change)
    requires doc.Obj?
    ensures Replay(doc, history + [last]) ==
            if Replay(doc, history).None? then None else Commit(Replay(doc, history).value, last)
    decreases |history|
  {
    if history == [] {
      assert (history + [last])[1..] == [];
    } else {
      assert (history + [last])[1..] == history[1..] + [last];
      if Commit(doc, history[0]).Some? {
        ReplayAppend(Commit(doc, history[0]).value, history[1..], last);
      }
    }
  }

  lemma ProposedRevision(s: State, k: Id)
    requires Inv(s) && k in s.revisions && s.revisions[k].proposalId.Some?
    ensures var r := s.revisions[k];
            && k in s.patches && AllApproved(s.patches[k]) && r.changedPaths == ChangedPaths(s.patches[k])
            && r.parentRevision.Some? && r.parentRevision.value in s.revisions
            && s.revisions[r.parentRevision.value].document.Obj?
            && Commit(s.revisions[r.parentRevision.value].document, Change(s.patches[k], k)) == Some(r.document)
  {
    assert RevisionOk(s, k);
  }

  lemma {:induction false} ChainMembers(s: State, base: Id, chain: seq<Revision>, head: Id)
    requires Inv(s) && head in s.revisions && ParentChain(s.revisions, base, chain, Some(head)) && AllProposed(s, chain)
    ensures base in s.revisions && Stamped(s.revisions[base].document)
    ensures forall n :: 0 <= n < |chain| ==>
              AllApproved(s.patches[chain[n].revision]) && chain[n].changedPaths == ChangedPaths(s.patches[chain[n].revision])
    decreases |chain|
  {
    assert RevisionOk(s, head);
    if chain != [] {
      ProposedRevision(s, head);
      var before := chain[..|chain| - 1];
      ChainMembers(s, base, before, s.revisions[head].parentRevision.value);
      assert chain == before + [chain[|chain| - 1]];
    }
  }

  /** Along a chain of proposed revisions the head's document is the base's document with the patches replayed. */
  lemma {:induction false} ChainReplays(s: State, base: Id, chain: seq<Revision>, head: Id)
    requires Inv(s) && head in s.revisions && ParentChain(s.revisions, base, chain, Some(head)) && AllProposed(s, chain)
    requires base in s.revisions && Stamped(s.revisions[base].document)
    ensures Replay(s.revisions[base].document, HistoryOf(s, chain)) == Some(s.revisions[head].document)
    decreases |chain|
  {
    if chain != [] {
      assert RevisionOk(s, head);
      ProposedRevision(s, head);
      var before := chain[..|chain| - 1];
      ChainReplays(s, base, before, s.revisions[head].parentRevision.value);
      var change := Change(s.patches[head], head);
      assert HistoryOf(s, chain) == HistoryOf(s, before) + [change];
      ReplayAppend(s.revisions[base].document, HistoryOf(s, before), change);
    }
  }

  /** Where a submitted document waits or was committed. */
  function SubmittedDocument(t: State, request: Request, name: Id): Option<Json>
    requires request.Propose?
  {
    if name in t.revisions then Some(t.revisions[name].document)
    else if request.proposalId in t.candidates then Some(t.candidates[request.proposalId].document)
    else None
  }

  predicate Taken(response: Response) {
    response.status == Accepted || response.status == ReviewRequired
  }

  lemma RecordedDocument(s: State, request: Request, actor: Actor, candidate: Candidate, now: Time)
    requires request.Propose? && request.branchId in s.branches && candidate.revision !in s.revisions
    ensures var (t, response) := RecordProposal(s, request, actor, candidate, now);
            Taken(response) && SubmittedDocument(t, request, candidate.revision) == Some(candidate.document)
  {
  }

  /** A proposal is created exactly when its patch is approved and applies, and the host accepts the result. */
  lemma CreatedProposal(s: State, request: Request, actor: Actor, parent: Id, now: Time, validates: Json -> bool)
    requires WellFormed(s) && request.Propose? && request.branchId in s.branches && parent in s.revisions
    requires RevisionName(s.revisionSequence + 1) !in s.revisions
    ensures var name := RevisionName(s.revisionSequence + 1);
            var (t, response) := CreateProposal(s, request, actor, parent, now, validates);
            var result := ApplyAll(s.revisions[parent].document, request.operations);
            && (Taken(response) <==>
                  AllApproved(request.operations) && result.Some? && result.value.Obj? && validates(Stamp(result.value, name)))
            && (Taken(response) ==> SubmittedDocument(t, request, name) == Some(Stamp(result.value, name)))
  {
    var a, name := Allocate(s), RevisionName(s.revisionSequence + 1);
    var applied := ApplyCollaborationPatch(s.revisions[parent].document, request.operations, name, validates);
    if ApplyAll(s.revisions[parent].document, request.operations).Some? {
      PatchKeepsObject(s.revisions[parent].document, request.operations);
    }
    if applied.Patched? {
      var candidate := Candidate(actor, request.branchId, applied.changedPaths, request.meta.correlationId,
                                 applied.document, parent, applied.removedPaths, name, a.revisionSequence);
      RecordedDocument(a, request, actor, candidate, now);
    }
  }

  /** A submission is taken exactly when it raises no conflict, its patch is approved and applies to the head, and
      the host accepts the result; the stored document is that result. */
  lemma TakenSubmission(s: State, request: Request, actor: Actor, now: Time, validates: Json -> bool, chain: seq<Revision>)
    requires Inv(s) && WellFormed(s) && request.Propose?
    requires request.branchId in s.branches && request.proposalId !in s.proposals
    requires Intervening(s.revisions, Some(s.branches[request.branchId].headRevision), request.baseRevision) == Some(chain)
    ensures var head := s.branches[request.branchId].headRevision;
            var name := RevisionName(s.revisionSequence + 1);
            var (t, response) := Submit(s, request, actor, now, validates);
            && head in s.revisions && s.revisions[head].document.Obj?
            && var result := ApplyAll(s.revisions[head].document, request.operations);
            && (Taken(response) <==>
                  && CollaborationConflicts(request.baseRevision, head, request.operations, ChangedPathLists(chain)) == []
                  && AllApproved(request.operations)
                  && result.Some? && result.value.Obj? && validates(Stamp(result.value, name)))
            && (Taken(response) ==> SubmittedDocument(t, request, name) == Some(Stamp(result.value, name)))
  {
    var head := s.branches[request.branchId].headRevision;
    assert BranchOk(s, request.branchId) && RevisionOk(s, head);
    NextNameIsFree(s);
    CreatedProposal(s, request, actor, head, now, validates);
  }

  /** Without a conflict, the diagnostic tells why a submission is refused: its patch writes what the framework owns or does not
      apply to the head, or the host does not accept the result. */
  lemma RefusedSubmission(s: State, request: Request, actor: Actor, now: Time, validates: Json -> bool, chain: seq<Revision>)
    requires Inv(s) && WellFormed(s) && request.Propose?
    requires request.branchId in s.branches && request.proposalId !in s.proposals
    requires Intervening(s.revisions, Some(s.branches[request.branchId].headRevision), request.baseRevision) == Some(chain)
    requires CollaborationConflicts(request.baseRevision, s.branches[request.branchId].headRevision, request.operations,
                                    ChangedPathLists(chain)) == []
    ensures s.branches[request.branchId].headRevision in s.revisions
    ensures var result := ApplyAll(s.revisions[s.branches[request.branchId].headRevision].document, request.operations);
            var response := Submit(s, request, actor, now, validates).1;
            && (response == Failure(Invalid, InvalidPatch) <==> !AllApproved(request.operations) || result.None?)
            && (response == Failure(Invalid, SchemaRejected) <==>
                  && AllApproved(request.operations) && result.Some? && result.value.Obj?
                  && !validates(Stamp(result.value, RevisionName(s.revisionSequence + 1))))
  {
    TakenSubmission(s, request, actor, now, validates, chain);
    if ApplyAll(s.revisions[s.branches[request.branchId].headRevision].document, request.operations).Some? {
      PatchKeepsObject(s.revisions[s.branches[request.branchId].headRevision].document, request.operations);
    }
  }

  /** The answer to a submission names exactly what stands in its way: only real overlaps between a pointer it claims and a
      path that a revision since its base changed, on the base and the head it was checked against, and for addressable
      operations all of them. With an overlap the submission is refused and nothing changes. */
  lemma SubmissionReport(s: State, request: Request, actor: Actor, now: Time, validates: Json -> bool, chain: seq<Revision>)
    requires Inv(s) && WellFormed(s) && request.Propose?
    requires request.branchId in s.branches && request.proposalId !in s.proposals
    requires Intervening(s.revisions, Some(s.branches[request.branchId].headRevision), request.baseRevision) == Some(chain)
    ensures var (t, response) := Submit(s, request, actor, now, validates);
            var head, later := s.branches[request.branchId].headRevision, ChangedPathLists(chain);
            && (forall r :: r in response.conflicts ==> Detected(r, request.baseRevision, head, request.operations, later))
            && (response.conflicts != [] ==> response.status == Conflicted && t == s)
            && forall op, f, changed, path ::
                 op in request.operations && f in ConflictFootprints(op) && changed in later && path in changed && PointersOverlap(f, path) ==>
                 && response.conflicts != []
                 && ((forall op :: op in request.operations ==> Addressable(op)) ==>
                       DecodePointer(f).Some? && Reported(response.conflicts, f, path))
  {
    var head, later := s.branches[request.branchId].headRevision, ChangedPathLists(chain);
    var conflicts := CollaborationConflicts(request.baseRevision, head, request.operations, later);
    ReportMeaning(request.baseRevision, head, request.operations, later);
    NoConflictsReported(request.baseRevision, head, request.operations, later);
    assert BranchOk(s, request.branchId);
    if conflicts == [] {
      CreationReportsNothing(s, request, actor, head, now, validates);
      forall op, f, changed, path | op in request.operations && f in ConflictFootprints(op) && changed in later && path in changed
        ensures !PointersOverlap(f, path) {
        var k, n :| 0 <= k < |request.operations| && request.operations[k] == op && 0 <= n < |later| && later[n] == changed;
        assert ClearOf(request.operations[k], later[n]);
      }
    }
  }

  lemma CreationReportsNothing(s: State, request: Request, actor: Actor, parent: Id, now: Time, validates: Json -> bool)
    requires WellFormed(s) && request.Propose? && request.branchId in s.branches && parent in s.revisions
    ensures CreateProposal(s, request, actor, parent, now, validates).1.conflicts == []
  {
  }

  /** A submission that opens with a test is taken exactly when replacing the tested value by the expected one would change
      nothing at the head, and the rest could be taken. */
  lemma GuardedSubmission(s: State, request: Request, actor: Actor, now: Time, validates: Json -> bool, chain: seq<Revision>)
    requires Inv(s) && WellFormed(s) && request.Propose? && request.operations != [] && request.operations[0].Test?
    requires request.branchId in s.branches && request.proposalId !in s.proposals
    requires Intervening(s.revisions, Some(s.branches[request.branchId].headRevision), request.baseRevision) == Some(chain)
    ensures var head, guard := s.branches[request.branchId].headRevision, request.operations[0];
            && head in s.revisions
            && var doc := s.revisions[head].document;
            && var result := ApplyAll(doc, request.operations[1..]);
            (Taken(Submit(s, request, actor, now, validates).1) <==>
               && CollaborationConflicts(request.baseRevision, head, request.operations, ChangedPathLists(chain)) == []
               && AllApproved(request.operations)
               && Apply(doc, Replace(guard.path, guard.value)) == Some(doc)
               && result.Some? && result.value.Obj? && validates(Stamp(result.value, RevisionName(s.revisionSequence + 1))))
  {
    TakenSubmission(s, request, actor, now, validates, chain);
    var doc, guard := s.revisions[s.branches[request.branchId].headRevision].document, request.operations[0];
    TestMeaning(doc, guard.path, guard.value);
    assert guard == Test(guard.path, guard.value);
  }

  /** Every test of a submission that is taken holds of what the operations before it have made of the head. */
  lemma TakenTestsHold(s: State, request: Request, actor: Actor, now: Time, validates: Json -> bool, chain: seq<Revision>, k: nat)
    requires Inv(s) && WellFormed(s) && request.Propose? && k < |request.operations| && request.operations[k].Test?
    requires request.branchId in s.branches && request.proposalId !in s.proposals
    requires Intervening(s.revisions, Some(s.branches[request.branchId].headRevision), request.baseRevision) == Some(chain)
    requires Taken(Submit(s, request, actor, now, validates).1)
    ensures s.branches[request.branchId].headRevision in s.revisions
    ensures var before := ApplyAll(s.revisions[s.branches[request.branchId].headRevision].document, request.operations[..k]);
            before.Some? && Apply(before.value, Replace(request.operations[k].path, request.operations[k].value)) == before
  {
    TakenSubmission(s, request, actor, now, validates, chain);
    var doc, test := s.revisions[s.branches[request.branchId].headRevision].document, request.operations[k];
    ReachesOperation(doc, request.operations, k);
    TestMeaning(ApplyAll(doc, request.operations[..k]).value, test.path, test.value);
    assert test == Test(test.path, test.value);
  }

  /** Rebase soundness in any reachable state. If the revisions since the base were made by proposals that commute with the
      submitted one, as independent ones do, the submission applies to the head exactly when it applies to its base, and
      what is stored is the base with the submission first and the intervening changes on top. */
  lemma RebasedSubmission(s: State, request: Request, actor: Actor, now: Time, validates: Json -> bool, chain: seq<Revision>)
    requires Inv(s) && WellFormed(s) && request.Propose? && AllApproved(request.operations)
    requires request.branchId in s.branches && request.proposalId !in s.proposals
    requires Intervening(s.revisions, Some(s.branches[request.branchId].headRevision), request.baseRevision) == Some(chain)
    requires AllProposed(s, chain)
    requires forall n :: 0 <= n < |chain| ==> AllCommute(request.operations, s.patches[chain[n].revision])
    ensures request.baseRevision in s.revisions && s.branches[request.branchId].headRevision in s.revisions
    ensures var name := RevisionName(s.revisionSequence + 1);
            var (t, response) := Submit(s, request, actor, now, validates);
            var onBase := ApplyAll(s.revisions[request.baseRevision].document, request.operations);
            var onHead := ApplyAll(s.revisions[s.branches[request.branchId].headRevision].document, request.operations);
            && (onHead.Some? <==> onBase.Some?)
            && (Taken(response) ==>
                  && onBase.Some? && onBase.value.Obj?
                  && var replayed := Replay(onBase.value, WithoutTests(HistoryOf(s, chain)));
                  && replayed.Some? && replayed.value.Obj?
                  && SubmittedDocument(t, request, name) == Some(Stamp(replayed.value, name)))
  {
    var head := s.branches[request.branchId].headRevision;
    assert BranchOk(s, request.branchId);
    InterveningIsTheParentChain(s.revisions, Some(head), request.baseRevision);
    ChainMembers(s, request.baseRevision, chain, head);
    ChainReplays(s, request.baseRevision, chain, head);
    CommutingRebaseIsSound(s.revisions[request.baseRevision].document, request.operations, HistoryOf(s, chain));
    TakenSubmission(s, request, actor, now, validates, chain);
  }

  /** The service's own conflict check is enough whenever it misses nothing in the intervening patches. */
  lemma ConflictFreeSubmission(s: State, request: Request, actor: Actor, now: Time, validates: Json -> bool, chain: seq<Revision>)
    requires Inv(s) && WellFormed(s) && request.Propose?
    requires request.branchId in s.branches && request.proposalId !in s.proposals
    requires Intervening(s.revisions, Some(s.branches[request.branchId].headRevision), request.baseRevision) == Some(chain)
    requires AllProposed(s, chain)
    requires forall n :: 0 <= n < |chain| ==> NothingMissed(s.patches[chain[n].revision])
    requires Taken(Submit(s, request, actor, now, validates).1)
    ensures request.baseRevision in s.revisions
    ensures var name := RevisionName(s.revisionSequence + 1);
            var onBase := ApplyAll(s.revisions[request.baseRevision].document, request.operations);
            && onBase.Some? && onBase.value.Obj?
            && var replayed := Replay(onBase.value, WithoutTests(HistoryOf(s, chain)));
            && replayed.Some? && replayed.value.Obj?
            && SubmittedDocument(Submit(s, request, actor, now, validates).0, request, name)
               == Some(Stamp(replayed.value, name))
  {
    var head := s.branches[request.branchId].headRevision;
    assert BranchOk(s, request.branchId);
    TakenSubmission(s, request, actor, now, validates, chain);
    NoConflictsReported(request.baseRevision, head, request.operations, ChangedPathLists(chain));
    InterveningIsTheParentChain(s.revisions, Some(head), request.baseRevision);
    ChainMembers(s, request.baseRevision, chain, head);
    forall n | 0 <= n < |chain| ensures AllCommute(request.operations, s.patches[chain[n].revision]) {
      var done := s.patches[chain[n].revision];
      forall op | op in request.operations ensures ClearOf(op, ChangedPaths(done)) {
        var k :| 0 <= k < |request.operations| && request.operations[k] == op;
        assert ClearOf(request.operations[k], ChangedPathLists(chain)[n]);
      }
      DetectionImpliesCommuting(request.operations, done);
    }
    RebasedSubmission(s, request, actor, now, validates, chain);
  }

  // ---------------------------------------------------------------------------------------------
  // Undo.

  /** An accepted undo makes the document before the undone revision the head's document again, under a new name;
      nothing is deleted. */
  lemma UndoRestores(s: State, request: Request, actor: Actor, now: Time, validates: Json -> bool)
    requires Inv(s) && WellFormed(s) && request.Undo?
    requires UndoRevision(s, request, actor, now, validates).1.status == Accepted
    ensures var t := UndoRevision(s, request, actor, now, validates).0;
            var name := RevisionName(s.revisionSequence + 1);
            && request.branchId in s.branches && s.branches[request.branchId].headRevision == request.targetRevision
            && request.targetRevision in s.revisions
            && var target := s.revisions[request.targetRevision];
            && target.parentRevision.Some? && target.parentRevision.value in s.revisions
            && s.revisions[target.parentRevision.value].document.Obj?
            && t.branches[request.branchId].headRevision == name && name in t.revisions && name !in s.revisions
            && t.revisions[name].document == Stamp(s.revisions[target.parentRevision.value].document, name)
            && t.revisions[name].compensatesRevision == Some(request.targetRevision)
            && request.targetRevision in t.revisions && t.revisions[request.targetRevision] == target
  {
    NextNameIsFree(s);
  }

  /** Undoing an undo brings the undone document back. */
  lemma UndoOfUndo(s: State, redo: Id, undo: Id, target: Id)
    requires Inv(s) && redo in s.revisions && undo in s.revisions && target in s.revisions
    requires s.revisions[redo].proposalId.None? && s.revisions[redo].parentRevision == Some(undo)
    requires s.revisions[undo].proposalId.None? && s.revisions[undo].parentRevision == Some(target)
    ensures s.revisions[target].document.Obj?
    ensures s.revisions[redo].document == Stamp(s.revisions[target].document, redo)
  {
    assert RevisionOk(s, redo) && RevisionOk(s, undo) && RevisionOk(s, target);
  }
}
