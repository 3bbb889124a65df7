/** The host's validation covers every document the service keeps. */
module CollaborationValidity {
  import opened Wrappers
  import opened JsonPatch
  import opened CollaborationPatch
  import opened Collaboration
  import opened CollaborationInvariant
  import opened CollaborationRuns

  /** The host accepts every committed and every waiting document. */
  ghost predicate AllValid(s: State, validates: Json -> bool) {
    && (forall k :: k in s.revisions ==> validates(s.revisions[k].document))
    && (forall id :: id in s.candidates ==> validates(s.candidates[id].document))
  }

  lemma CommitStaysValid(s: State, proposal: Proposal, candidate: Candidate, now: Time, validates: Json -> bool)
    requires AllValid(s, validates) && validates(candidate.document)
    ensures AllValid(CommitProposal(s, proposal, candidate, now).0, validates)
  {
  }

  lemma RecordStaysValid(s: State, request: Request, actor: Actor, candidate: Candidate, now: Time, validates: Json -> bool)
    requires AllValid(s, validates) && validates(candidate.document) && request.Propose?
    ensures AllValid(RecordProposal(s, request, actor, candidate, now).0, validates)
  {
    if request.branchId in s.branches {
      var policy := s.branches[request.branchId].policy;
      var proposal := NewProposal(request, actor, candidate, policy, now);
      var stored := SetProposal(s, proposal).(candidates := s.candidates[request.proposalId := candidate],
                                              patches := s.patches[candidate.revision := request.operations]);
      var created := Emit(stored, ProposalCreated(request.proposalId, proposal.rebased, candidate.revision), actor,
                          request.branchId, request.meta.correlationId, now);
      CommitStaysValid(created, proposal, candidate, now, validates);
    }
  }

  lemma SubmitStaysValid(s: State, request: Request, actor: Actor, now: Time, validates: Json -> bool)
    requires WellFormed(s) && request.Propose? && AllValid(s, validates)
    ensures AllValid(Submit(s, request, actor, now, validates).0, validates)
  {
    if request.branchId in s.branches && s.branches[request.branchId].headRevision in s.revisions {
      var a, parent := Allocate(s), s.branches[request.branchId].headRevision;
      var name := RevisionName(a.revisionSequence);
      var applied := ApplyCollaborationPatch(s.revisions[parent].document, request.operations, name, validates);
      if applied.Patched? {
        var candidate := Candidate(actor, request.branchId, applied.changedPaths, request.meta.correlationId, applied.document, parent,
                                   applied.removedPaths, name, a.revisionSequence);
        RecordStaysValid(a, request, actor, candidate, now, validates);
      }
    }
  }

  lemma FinishStaysValid(s: State, proposal: Proposal, now: Time, validates: Json -> bool)
    requires AllValid(s, validates)
    ensures AllValid(FinishApproved(s, proposal, now).0, validates)
  {
    if proposal.proposalId in s.candidates {
      CommitStaysValid(s, proposal, s.candidates[proposal.proposalId], now, validates);
    }
  }

  lemma ApproveStaysValid(s: State, request: Request, actor: Actor, now: Time, validates: Json -> bool)
    requires WellFormed(s) && request.Approve? && AllValid(s, validates)
    ensures AllValid(ApproveProposal(s, request, actor, now).0, validates)
  {
    if request.proposalId in s.proposals {
      var t := RecordApproval(s, s.proposals[request.proposalId], request, actor, now);
      FinishStaysValid(t, t.proposals[request.proposalId], now, validates);
    }
  }

  lemma UndoStaysValid(s: State, request: Request, actor: Actor, now: Time, validates: Json -> bool)
    requires WellFormed(s) && request.Undo? && AllValid(s, validates)
    ensures AllValid(UndoRevision(s, request, actor, now, validates).0, validates)
  {
  }

  lemma CallStaysValid(s: State, request: Request, actor: Actor, now: Time, validates: Json -> bool)
    requires WellFormed(s) && AllValid(s, validates)
    ensures AllValid(Execute(s, request, actor, now, validates).0, validates)
  {
    match request
    case Propose(_, _, _, _, _, _) => SubmitStaysValid(s, request, actor, now, validates);
    case Approve(_, _, _) => ApproveStaysValid(s, request, actor, now, validates);
    case Undo(_, _, _, _) => UndoStaysValid(s, request, actor, now, validates);
    case _ =>
  }

  lemma {:induction false} RunStaysValid(s: State, commands: seq<Command>, validates: Json -> bool)
    requires Inv(s) && AllValid(s, validates)
    ensures AllValid(Run(s, commands, validates), validates)
    decreases |commands|
  {
    if commands != [] {
      InvWellFormed(s);
      if commands[0].Call? {
        CallStaysValid(s, commands[0].request, commands[0].actor, commands[0].now, validates);
      }
      RunStaysValid(Step(s, commands[0], validates), commands[1..], validates);
    }
  }

  /** From its first document on, the service keeps only documents that the host accepted. */
  lemma KeptDocumentsAreValid(tenantId: Id, document: Json, policy: Option<Policy>, now: Time, commands: seq<Command>,
                              validates: Json -> bool)
    requires document.Obj? && Initial(tenantId, document, policy, now, validates).Some?
    ensures Inv(Initial(tenantId, document, policy, now, validates).value)
    ensures AllValid(Run(Initial(tenantId, document, policy, now, validates).value, commands, validates), validates)
  {
    InitialInv(tenantId, document, policy, now, validates);
    RunStaysValid(Initial(tenantId, document, policy, now, validates).value, commands, validates);
  }
}
