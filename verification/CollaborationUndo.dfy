/** Submissions across undone revisions: what an undo takes back plays no part in the rebased document. */
module CollaborationUndo {
  import opened Wrappers
  import opened JsonPatch
  import opened CollaborationPatch
  import opened Conflict
  import opened Rebase
  import opened ArrayShifts
  import opened Collaboration
  import opened CollaborationInvariant
  import opened CollaborationRuns
  import opened CollaborationRebase

  // ---------------------------------------------------------------------------------------------
  // Chains of proposed and undoing revisions.

  function NameAt(floor: Id, chain: seq<Revision>, n: nat): Id
    requires n <= |chain|
  {
    if n == 0 then floor else chain[n - 1].revision
  }

  /** Every revision of the chain is stored under its name, above the one before. */
  lemma {:induction false} ChainLinks(s: State, floor: Id, chain: seq<Revision>, head: Option<Id>, n: nat)
    requires Inv(s) && ParentChain(s.revisions, floor, chain, head) && floor in s.revisions && n <= |chain|
    ensures head == Some(NameAt(floor, chain, |chain|))
    ensures NameAt(floor, chain, n) in s.revisions
    ensures n > 0 ==> s.revisions[NameAt(floor, chain, n)] == chain[n - 1]
                      && chain[n - 1].parentRevision == Some(NameAt(floor, chain, n - 1))
    decreases |chain|
  {
    if chain != [] {
      var before, last := chain[..|chain| - 1], chain[|chain| - 1];
      assert RevisionOk(s, head.value);
      ChainLinks(s, floor, before, last.parentRevision, if n < |chain| then n else |before|);
    }
  }

  lemma {:induction false} ChainAscends(s: State, floor: Id, chain: seq<Revision>, head: Option<Id>, m: nat, n: nat)
    requires Inv(s) && ParentChain(s.revisions, floor, chain, head) && floor in s.revisions && m <= n <= |chain|
    ensures NameAt(floor, chain, m) in s.revisions && NameAt(floor, chain, n) in s.revisions
    ensures s.revisions[NameAt(floor, chain, m)].sequence <= s.revisions[NameAt(floor, chain, n)].sequence
    ensures m < n ==> s.revisions[NameAt(floor, chain, m)].sequence < s.revisions[NameAt(floor, chain, n)].sequence
    decreases n
  {
    ChainLinks(s, floor, chain, head, n);
    if m < n {
      ChainAscends(s, floor, chain, head, m, n - 1);
      assert RevisionOk(s, NameAt(floor, chain, n));
    }
  }

  /** The rest of a chain is the chain from its middle. */
  lemma {:induction false} ChainSuffix(s: State, floor: Id, chain: seq<Revision>, head: Option<Id>, m: nat)
    requires Inv(s) && ParentChain(s.revisions, floor, chain, head) && floor in s.revisions && m <= |chain|
    ensures ParentChain(s.revisions, NameAt(floor, chain, m), chain[m..], head)
    decreases |chain|
  {
    ChainLinks(s, floor, chain, head, |chain|);
    if m < |chain| {
      var before, last := chain[..|chain| - 1], chain[|chain| - 1];
      ChainSuffix(s, floor, before, last.parentRevision, m);
      ChainAscends(s, floor, chain, head, m, |chain|);
      assert chain[m..][..|chain| - m - 1] == before[m..];
      assert NameAt(floor, before, m) == NameAt(floor, chain, m);
    }
  }

  // ---------------------------------------------------------------------------------------------
  // The chain with the submission made first.

  /** The document of each revision of the chain, had the floor been `start`: patches are made again, undos go back. */
  ghost function Lifted(s: State, start: Json, chain: seq<Revision>, n: nat): Option<Json>
    requires n <= |chain|
  {
    if n == 0 then Some(start)
    else
      var r := chain[n - 1];
      if r.proposalId.Some? then
        var below :- Lifted(s, start, chain, n - 1);
        if !below.Obj? || r.revision !in s.patches then None
        else Commit(below, Change(Changes(s.patches[r.revision]), r.revision))
      else if n == 1 then None
      else
        var restored :- Lifted(s, start, chain, n - 2);
        if restored.Obj? then Some(Stamp(restored, r.revision)) else None
  }

  ghost predicate ProposalsCommute(s: State, ops: seq<Operation>, chain: seq<Revision>) {
    forall n :: 0 <= n < |chain| && chain[n].proposalId.Some? && chain[n].revision in s.patches ==>
                  AllCommute(ops, s.patches[chain[n].revision])
  }

  /** The floor of the chain is no undone revision: the chain starts with a proposal. */
  predicate StartsProposed(chain: seq<Revision>) {
    chain == [] || chain[0].proposalId.Some?
  }

  lemma StampedRevision(s: State, k: Id)
    requires Inv(s) && k in s.revisions
    ensures Stamped(s.revisions[k].document)
  {
    assert RevisionOk(s, k);
  }

  lemma UndoneRevision(s: State, floor: Id, chain: seq<Revision>, head: Option<Id>, n: nat)
    requires Inv(s) && ParentChain(s.revisions, floor, chain, head) && floor in s.revisions && StartsProposed(chain)
    requires 1 <= n <= |chain| && chain[n - 1].proposalId.None?
    ensures n >= 2 && NameAt(floor, chain, n - 2) in s.revisions && s.revisions[NameAt(floor, chain, n - 2)].document.Obj?
    ensures chain[n - 1].document == Stamp(s.revisions[NameAt(floor, chain, n - 2)].document, chain[n - 1].revision)
  {
    ChainLinks(s, floor, chain, head, n);
    ChainLinks(s, floor, chain, head, n - 1);
    assert RevisionOk(s, NameAt(floor, chain, n));
  }

  /** The step from one proposed revision to the next. */
  lemma PastProposal(s: State, floor: Id, chain: seq<Revision>, head: Option<Id>, ops: seq<Operation>, n: nat, start: Json)
    requires Inv(s) && ParentChain(s.revisions, floor, chain, head) && floor in s.revisions
    requires AllApproved(ops) && ProposalsCommute(s, ops, chain) && 1 <= n <= |chain| && chain[n - 1].proposalId.Some?
    ensures NameAt(floor, chain, n - 1) in s.revisions && NameAt(floor, chain, n) in s.revisions
    ensures var before := ApplyAll(s.revisions[NameAt(floor, chain, n - 1)].document, ops);
            var here := ApplyAll(s.revisions[NameAt(floor, chain, n)].document, ops);
            && (here.Some? <==> before.Some?)
            && (before.Some? ==>
                  here.value.Obj? && (Lifted(s, start, chain, n - 1) == before ==> Lifted(s, start, chain, n) == here))
  {
    var k := NameAt(floor, chain, n);
    ChainLinks(s, floor, chain, head, n);
    ProposedRevision(s, k);
    StampedRevision(s, NameAt(floor, chain, n - 1));
    RebasePastOne(s.revisions[NameAt(floor, chain, n - 1)].document, ops, Change(s.patches[k], k));
    if ApplyAll(s.revisions[k].document, ops).Some? {
      PatchKeepsObject(s.revisions[k].document, ops);
      PatchKeepsObject(s.revisions[NameAt(floor, chain, n - 1)].document, ops);
    }
  }

  /** The step over an undone revision and its undo. */
  lemma PastUndo(s: State, floor: Id, chain: seq<Revision>, head: Option<Id>, ops: seq<Operation>, n: nat, start: Json)
    requires Inv(s) && ParentChain(s.revisions, floor, chain, head) && floor in s.revisions && StartsProposed(chain)
    requires AllApproved(ops) && 2 <= n <= |chain| && chain[n - 1].proposalId.None?
    requires NameAt(floor, chain, n - 2) in s.revisions
    requires var before := ApplyAll(s.revisions[NameAt(floor, chain, n - 2)].document, ops); before.Some? ==> before.value.Obj?
    ensures NameAt(floor, chain, n) in s.revisions
    ensures var before := ApplyAll(s.revisions[NameAt(floor, chain, n - 2)].document, ops);
            var here := ApplyAll(s.revisions[NameAt(floor, chain, n)].document, ops);
            && (here.Some? <==> before.Some?)
            && (before.Some? ==>
                  here.value.Obj? && (Lifted(s, start, chain, n - 2) == before ==> Lifted(s, start, chain, n) == here))
  {
    UndoneRevision(s, floor, chain, head, n);
    ChainLinks(s, floor, chain, head, n);
    StampedRevision(s, NameAt(floor, chain, n - 2));
    StampPastPatch(s.revisions[NameAt(floor, chain, n - 2)].document, chain[n - 1].revision, ops);
  }

  /** All along the chain the patch applies exactly when it applies to the floor, with the lifted document as result. */
  lemma {:induction false} PatchAlongChain(s: State, floor: Id, chain: seq<Revision>, head: Option<Id>, ops: seq<Operation>, n: nat)
    requires Inv(s) && ParentChain(s.revisions, floor, chain, head) && floor in s.revisions && StartsProposed(chain)
    requires AllApproved(ops) && ProposalsCommute(s, ops, chain) && n <= |chain|
    ensures NameAt(floor, chain, n) in s.revisions
    ensures var onFloor := ApplyAll(s.revisions[floor].document, ops);
            var here := ApplyAll(s.revisions[NameAt(floor, chain, n)].document, ops);
            && (here.Some? <==> onFloor.Some?)
            && (onFloor.Some? ==> here.value.Obj? && Lifted(s, onFloor.value, chain, n) == here)
    decreases n
  {
    var onFloor := ApplyAll(s.revisions[floor].document, ops);
    var start := if onFloor.Some? then onFloor.value else s.revisions[floor].document;
    if n == 0 {
      StampedRevision(s, floor);
      if onFloor.Some? {
        PatchKeepsObject(s.revisions[floor].document, ops);
      }
    } else if chain[n - 1].proposalId.Some? {
      PatchAlongChain(s, floor, chain, head, ops, n - 1);
      PastProposal(s, floor, chain, head, ops, n, start);
    } else {
      UndoneRevision(s, floor, chain, head, n);
      PatchAlongChain(s, floor, chain, head, ops, n - 2);
      PastUndo(s, floor, chain, head, ops, n, start);
    }
  }

  /** Rebase soundness across undos, in any reachable state. The base and the head lie on a chain of proposed and undoing
      revisions; the submission commutes with the proposals up to its base, and detection misses nothing in the later ones.
      Then a submission that is taken applies to its base, and what is stored is the chain with the submission made first:
      where a revision was undone, also below the base, its patch is gone from the stored document as from the head. */
  lemma SubmissionAcrossUndos(s: State, request: Request, actor: Actor, now: Time, validates: Json -> bool,
                              floor: Id, chain: seq<Revision>, m: nat)
    requires Inv(s) && WellFormed(s) && request.Propose? && AllApproved(request.operations)
    requires request.branchId in s.branches && request.proposalId !in s.proposals
    requires floor in s.revisions && StartsProposed(chain) && m <= |chain| && request.baseRevision == NameAt(floor, chain, m)
    requires ParentChain(s.revisions, floor, chain, Some(s.branches[request.branchId].headRevision))
    requires ProposalsCommute(s, request.operations, chain[..m])
    requires forall n :: m <= n < |chain| && chain[n].revision in s.patches ==> NothingMissed(s.patches[chain[n].revision])
    requires Taken(Submit(s, request, actor, now, validates).1)
    ensures request.baseRevision in s.revisions
    ensures ApplyAll(s.revisions[request.baseRevision].document, request.operations).Some?
    ensures var name := RevisionName(s.revisionSequence + 1);
            var onFloor := ApplyAll(s.revisions[floor].document, request.operations);
            && onFloor.Some?
            && var lifted := Lifted(s, onFloor.value, chain, |chain|);
            && lifted.Some? && lifted.value.Obj?
            && SubmittedDocument(Submit(s, request, actor, now, validates).0, request, name) == Some(Stamp(lifted.value, name))
  {
    var head, ops := s.branches[request.branchId].headRevision, request.operations;
    ChainSuffix(s, floor, chain, Some(head), m);
    InterveningIsTheParentChain(s.revisions, Some(head), request.baseRevision);
    TakenSubmission(s, request, actor, now, validates, chain[m..]);
    NoConflictsReported(request.baseRevision, head, ops, ChangedPathLists(chain[m..]));
    forall n | 0 <= n < |chain| && chain[n].proposalId.Some? && chain[n].revision in s.patches
      ensures AllCommute(ops, s.patches[chain[n].revision]) {
      if n < m {
        assert chain[..m][n] == chain[n];
      } else {
        LaterCommutes(s, floor, chain, Some(head), ops, m, n);
      }
    }
    PatchAlongChain(s, floor, chain, Some(head), ops, |chain|);
    PatchAlongChain(s, floor, chain, Some(head), ops, m);
    ChainLinks(s, floor, chain, Some(head), |chain|);
  }

  lemma PassedPatchCommutes(ops: seq<Operation>, done: seq<Operation>)
    requires AllApproved(ops) && AllApproved(done) && NothingMissed(done)
    requires forall k :: 0 <= k < |ops| ==> ClearOf(ops[k], ChangedPaths(done))
    ensures AllCommute(ops, done)
  {
    forall op | op in ops ensures ClearOf(op, ChangedPaths(done)) {
      var k :| 0 <= k < |ops| && ops[k] == op;
    }
    DetectionImpliesCommuting(ops, done);
  }

  lemma LaterCommutes(s: State, floor: Id, chain: seq<Revision>, head: Option<Id>, ops: seq<Operation>, m: nat, n: nat)
    requires Inv(s) && ParentChain(s.revisions, floor, chain, head) && floor in s.revisions && m <= n < |chain|
    requires AllApproved(ops) && chain[n].proposalId.Some? && chain[n].revision in s.patches
    requires NothingMissed(s.patches[chain[n].revision])
    requires forall k, i :: 0 <= k < |ops| && 0 <= i < |chain[m..]| ==> ClearOf(ops[k], ChangedPathLists(chain[m..])[i])
    ensures AllCommute(ops, s.patches[chain[n].revision])
  {
    ChainLinks(s, floor, chain, head, n + 1);
    ProposedRevision(s, chain[n].revision);
    var later := ChangedPathLists(chain[m..]);
    assert chain[m..][n - m] == chain[n] && later[n - m] == chain[n].changedPaths;
    forall k | 0 <= k < |ops| ensures ClearOf(ops[k], chain[n].changedPaths) {
      assert ClearOf(ops[k], later[n - m]);
    }
    PassedPatchCommutes(ops, s.patches[chain[n].revision]);
  }
}
