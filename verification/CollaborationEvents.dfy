/** The log tells the changes: what the service emits for a command names exactly what the command changed. */
module CollaborationEvents {
  import opened Wrappers
  import opened JsonPatch
  import opened CollaborationPatch
  import opened Collaboration
  import opened CollaborationInvariant
  import opened CollaborationRuns
  import opened CollaborationAccess

  function Notices(events: seq<Event>): seq<Notice> {
    seq(|events|, k requires 0 <= k < |events| => events[k].notice)
  }

  predicate Committed(s: State, id: Id) {
    id in s.proposals && s.proposals[id].status.Committed?
  }

  /** The commit of a proposal is told when it was not committed before. */
  function CommitNotice(s: State, t: State, id: Id): seq<Notice> {
    if Committed(t, id) && !Committed(s, id) then [ProposalCommitted(id, t.proposals[id].candidateRevision)] else []
  }

  /** What there is to tell of the difference between two states. */
  function Told(s: State, t: State, command: Command): seq<Notice> {
    match command
    case OpenBranch(_, _, _) => []
    case Call(Propose(_, base, _, _, _, id), _, _) =>
      (if id in t.proposals && id !in s.proposals
       then [ProposalCreated(id, t.proposals[id].rebased, t.proposals[id].candidateRevision)] else [])
      + CommitNotice(s, t, id)
    case Call(Approve(_, expected, id), _, _) =>
      (if |ApprovalsOf(t, id)| > |ApprovalsOf(s, id)| then [ApprovalRecorded(id, expected)] else []) + CommitNotice(s, t, id)
    case Call(AddComment(_, _, id), _, _) =>
      if |CommentsOf(t, id)| > |CommentsOf(s, id)| then [CommentAdded(id, |CommentsOf(t, id)|)] else []
    case Call(Publish(_, b, k), _, _) =>
      if AskedBy(s, command, CanPublish) && b in s.branches && RevisionMayPublish(s.branches[b], ProposalOf(s, k), k)
      then [RevisionPublished(k)] else []
    case Call(Undo(_, b, _, target), _, _) =>
      if b in t.branches && b in s.branches && t.branches[b].headRevision != s.branches[b].headRevision
      then [CompensationCommitted(target, t.branches[b].headRevision)] else []
  }

  lemma OneMoreNotice(s: State, notice: Notice, actor: Actor, branchId: Id, correlationId: Id, now: Time)
    ensures Notices(Emit(s, notice, actor, branchId, correlationId, now).emitted) == Notices(s.emitted) + [notice]
  {
  }

  ghost predicate Tells(s: State, t: State, command: Command) {
    Notices(t.emitted) == Notices(s.emitted) + Told(s, t, command)
  }

  lemma CommitTells(s: State, proposal: Proposal, candidate: Candidate, now: Time)
    ensures var t := CommitProposal(s, proposal, candidate, now).0;
            && Notices(t.emitted) == Notices(s.emitted) + [ProposalCommitted(proposal.proposalId, candidate.revision)]
            && t.proposals == s.proposals[proposal.proposalId := proposal.(status := ProposalStatus.Committed)]
  {
    var revision := ToRevision(candidate, Some(proposal.proposalId), None, now);
    var moved := MoveHead(AddRevision(s, revision), proposal.branchId, revision.revision);
    var closed := SetProposal(moved, proposal.(status := ProposalStatus.Committed));
    var done := closed.(candidates := closed.candidates - {proposal.proposalId});
    OneMoreNotice(done, ProposalCommitted(proposal.proposalId, revision.revision), candidate.actor, proposal.branchId,
                  candidate.correlationId, now);
  }

  lemma RecordTells(s: State, request: Request, actor: Actor, candidate: Candidate, now: Time)
    requires request.Propose? && request.branchId in s.branches && request.proposalId !in s.proposals
    ensures Tells(s, RecordProposal(Allocate(s), request, actor, candidate, now).0, Call(request, actor, now))
  {
    var policy := s.branches[request.branchId].policy;
    var proposal := NewProposal(request, actor, candidate, policy, now);
    var stored := SetProposal(Allocate(s), proposal).(candidates := s.candidates[request.proposalId := candidate],
                                                      patches := s.patches[candidate.revision := request.operations]);
    var notice := ProposalCreated(request.proposalId, proposal.rebased, candidate.revision);
    OneMoreNotice(stored, notice, actor, request.branchId, request.meta.correlationId, now);
    if !policy.guarded {
      CommitTells(Emit(stored, notice, actor, request.branchId, request.meta.correlationId, now), proposal, candidate, now);
    }
  }

  lemma SubmitTells(s: State, request: Request, actor: Actor, now: Time, validates: Json -> bool)
    requires Inv(s) && WellFormed(s) && request.Propose?
    ensures Tells(s, Submit(s, request, actor, now, validates).0, Call(request, actor, now))
  {
    if request.branchId in s.branches && request.proposalId !in s.proposals {
      assert BranchOk(s, request.branchId);
      var parent, a := s.branches[request.branchId].headRevision, Allocate(s);
      var name := RevisionName(a.revisionSequence);
      var applied := ApplyCollaborationPatch(s.revisions[parent].document, request.operations, name, validates);
      if applied.Patched? {
        RecordTells(s, request, actor,
                    Candidate(actor, request.branchId, applied.changedPaths, request.meta.correlationId, applied.document, parent,
                              applied.removedPaths, name, a.revisionSequence), now);
      }
    }
  }

  lemma FinishTells(s: State, proposal: Proposal, now: Time)
    requires proposal.proposalId in s.proposals && s.proposals[proposal.proposalId] == proposal
    requires proposal.proposalId in s.candidates ==>
               s.candidates[proposal.proposalId].revision == proposal.candidateRevision && !proposal.status.Committed?
    ensures var t, id := FinishApproved(s, proposal, now).0, proposal.proposalId;
            && Notices(t.emitted) == Notices(s.emitted) + CommitNotice(s, t, id)
            && ApprovalsOf(t, id) == ApprovalsOf(s, id) && id in t.proposals
  {
    if proposal.proposalId in s.candidates && proposal.branchId in s.branches {
      var candidate := s.candidates[proposal.proposalId];
      if s.branches[proposal.branchId].headRevision == candidate.parentRevision {
        CommitTells(s, proposal, candidate, now);
      }
    }
  }

  lemma RecordingTells(s: State, proposal: Proposal, request: Request, actor: Actor, now: Time)
    requires request.Approve? && request.proposalId in s.proposals && s.proposals[request.proposalId] == proposal
    requires proposal.proposalId == request.proposalId
    ensures var t, id := RecordApproval(s, proposal, request, actor, now), request.proposalId;
            && Notices(t.emitted) == Notices(s.emitted) +
               (if |ApprovalsOf(t, id)| > |ApprovalsOf(s, id)| then [ApprovalRecorded(id, request.expectedRevision)] else [])
            && id in t.proposals && t.candidates == s.candidates
            && t.proposals[id] == proposal.(approvals := t.proposals[id].approvals)
  {
    if actor.actorId !in Approvers(proposal) {
      var approved := proposal.(approvals := proposal.approvals + [Approval(actor.actorId, now, request.expectedRevision)]);
      OneMoreNotice(SetProposal(s, approved), ApprovalRecorded(proposal.proposalId, request.expectedRevision), actor,
                    proposal.branchId, request.meta.correlationId, now);
    }
  }

  lemma ApproveTells(s: State, request: Request, actor: Actor, now: Time)
    requires Inv(s) && WellFormed(s) && request.Approve?
    ensures Tells(s, ApproveProposal(s, request, actor, now).0, Call(request, actor, now))
  {
    if request.proposalId in s.proposals && s.proposals[request.proposalId].branchId in s.branches {
      var proposal, policy := s.proposals[request.proposalId], s.branches[s.proposals[request.proposalId].branchId].policy;
      if ApprovalDiagnostic(policy, proposal, actor.actorId, request.expectedRevision, now).None? {
        RecordingTells(s, proposal, request, actor, now);
        var r := RecordApproval(s, proposal, request, actor, now);
        CandidateWaits(s, request.proposalId);
        if HasRequiredApprovals(policy, r.proposals[request.proposalId]) {
          FinishTells(r, r.proposals[request.proposalId], now);
        }
      }
    }
  }

  lemma CandidateWaits(s: State, id: Id)
    requires Inv(s) && id in s.proposals
    ensures id in s.candidates ==> s.candidates[id].revision == s.proposals[id].candidateRevision && !s.proposals[id].status.Committed?
  {
    if id in s.candidates {
      assert CandidateOk(s, id);
    }
  }

  lemma CommentTells(s: State, request: Request, actor: Actor, now: Time)
    requires WellFormed(s) && request.AddComment?
    ensures Tells(s, CommentOnProposal(s, request, actor, now).0, Call(request, actor, now))
  {
    if request.proposalId in s.proposals {
      var proposal := s.proposals[request.proposalId];
      var commented := proposal.(comments := proposal.comments + [Comment(actor.actorId, request.body, now)]);
      OneMoreNotice(SetProposal(s, commented), CommentAdded(proposal.proposalId, |commented.comments|), actor,
                    proposal.branchId, request.meta.correlationId, now);
    }
  }

  lemma UndoTells(s: State, request: Request, actor: Actor, now: Time, validates: Json -> bool)
    requires Inv(s) && WellFormed(s) && request.Undo?
    ensures Tells(s, UndoRevision(s, request, actor, now, validates).0, Call(request, actor, now))
  {
    NextNameIsFree(s);
    if request.branchId in s.branches {
      assert BranchOk(s, request.branchId);
      UndoMoves(s, request, actor, now, validates);
    }
  }

  lemma UndoMoves(s: State, request: Request, actor: Actor, now: Time, validates: Json -> bool)
    requires WellFormed(s) && request.Undo? && request.branchId in s.branches
    ensures var t, name := UndoRevision(s, request, actor, now, validates).0, RevisionName(s.revisionSequence + 1);
            && request.branchId in t.branches
            && ((t.branches == s.branches && t.emitted == s.emitted)
                || (t.branches[request.branchId].headRevision == name
                    && Notices(t.emitted) == Notices(s.emitted) + [CompensationCommitted(request.targetRevision, name)]))
  {
  }

  lemma OnceTells(s: State, request: Request, actor: Actor, now: Time, validates: Json -> bool)
    requires Inv(s) && WellFormed(s) && Idempotent(request)
    ensures Tells(s, ExecuteIdempotent(s, request, actor, now, validates).0, Call(request, actor, now))
  {
    if request.Propose? {
      SubmitTells(s, request, actor, now, validates);
    } else {
      UndoTells(s, request, actor, now, validates);
    }
  }

  /** For every command: the events it adds tell the proposal it made, the approval or comment it recorded, the commit, the
      publication or the undo, and nothing else. */
  lemma TheEventsTellTheChanges(s: State, command: Command, validates: Json -> bool)
    requires Inv(s)
    ensures Tells(s, Step(s, command, validates), command)
  {
    InvWellFormed(s);
    if command.Call? {
      if Authorized(s, command.request, command.actor) {
        CallTells(s, command.request, command.actor, command.now, validates);
      } else {
        RefusalTells(s, command.request, command.actor, command.now);
      }
    }
  }

  lemma RefusalTells(s: State, request: Request, actor: Actor, now: Time)
    requires !Authorized(s, request, actor)
    ensures Tells(s, s, Call(request, actor, now))
  {
  }

  lemma PublishTells(s: State, request: Request, actor: Actor, now: Time)
    requires request.Publish? && Authorized(s, request, actor)
    ensures Tells(s, PublishRevision(s, request, actor, now).0, Call(request, actor, now))
  {
  }

  lemma CallTells(s: State, request: Request, actor: Actor, now: Time, validates: Json -> bool)
    requires Inv(s) && WellFormed(s) && Authorized(s, request, actor)
    ensures Tells(s, Execute(s, request, actor, now, validates).0, Call(request, actor, now))
  {
    match request
    case Propose(_, _, _, _, _, _) => OnceTells(s, request, actor, now, validates);
    case Approve(_, _, _) => ApproveTells(s, request, actor, now);
    case AddComment(_, _, _) => CommentTells(s, request, actor, now);
    case Publish(_, _, _) => PublishTells(s, request, actor, now);
    case Undo(_, _, _, _) => OnceTells(s, request, actor, now, validates);
  }

  // ---------------------------------------------------------------------------------------------
  // Who, where and when.

  predicate Names(e: Event, actor: Actor, branchId: Id, correlationId: Id) {
    e.actorId == actor.actorId && e.tenantId == actor.tenantId && e.branchId == branchId && e.correlationId == correlationId
  }

  /** The branch a request is about. */
  function BranchOf(s: State, request: Request): Option<Id> {
    match request
    case Propose(_, _, branchId, _, _, _) => Some(branchId)
    case Publish(_, branchId, _) => Some(branchId)
    case Undo(_, branchId, _, _) => Some(branchId)
    case Approve(_, _, id) => if id in s.proposals then Some(s.proposals[id].branchId) else None
    case AddComment(_, _, id) => if id in s.proposals then Some(s.proposals[id].branchId) else None
  }

  /** The commit that an approval brings about is its proposer's, everything else its actor's. */
  predicate EventOk(s: State, e: Event, request: Request, actor: Actor) {
    if request.Approve? && e.notice.ProposalCommitted? then
      && request.proposalId in s.candidates
      && Names(e, s.candidates[request.proposalId].actor, s.candidates[request.proposalId].branchId,
               s.candidates[request.proposalId].correlationId)
    else BranchOf(s, request).Some? && Names(e, actor, BranchOf(s, request).value, request.meta.correlationId)
  }

  /** New events are numbered on, carry the time, and name actor, branch and correlation. */
  ghost predicate Signs(s: State, t: State, request: Request, actor: Actor, now: Time) {
    && s.emitted <= t.emitted
    && forall k :: |s.emitted| <= k < |t.emitted| ==>
         t.emitted[k].sequence == k + 1 && t.emitted[k].occurredAt == now && EventOk(s, t.emitted[k], request, actor)
  }

  lemma RecordSigns(s: State, request: Request, actor: Actor, candidate: Candidate, now: Time)
    requires request.Propose? && request.branchId in s.branches
    requires candidate.actor == actor && candidate.correlationId == request.meta.correlationId
    ensures Signs(s, RecordProposal(Allocate(s), request, actor, candidate, now).0, request, actor, now)
  {
  }

  lemma SubmitSigns(s: State, request: Request, actor: Actor, now: Time, validates: Json -> bool)
    requires WellFormed(s) && request.Propose?
    ensures Signs(s, Submit(s, request, actor, now, validates).0, request, actor, now)
  {
    if request.branchId in s.branches && s.branches[request.branchId].headRevision in s.revisions {
      var parent, a := s.branches[request.branchId].headRevision, Allocate(s);
      var name := RevisionName(a.revisionSequence);
      var applied := ApplyCollaborationPatch(s.revisions[parent].document, request.operations, name, validates);
      if applied.Patched? {
        RecordSigns(s, request, actor,
                    Candidate(actor, request.branchId, applied.changedPaths, request.meta.correlationId, applied.document, parent,
                              applied.removedPaths, name, a.revisionSequence), now);
      }
    }
  }

  lemma ApproveSigns(s: State, request: Request, actor: Actor, now: Time)
    requires Inv(s) && WellFormed(s) && request.Approve?
    ensures Signs(s, ApproveProposal(s, request, actor, now).0, request, actor, now)
  {
    if request.proposalId in s.proposals && s.proposals[request.proposalId].branchId in s.branches {
      assert request.proposalId in s.candidates ==> CandidateOk(s, request.proposalId);
      var r := RecordApproval(s, s.proposals[request.proposalId], request, actor, now);
      FinishSigns(s, r, r.proposals[request.proposalId], request, actor, now);
    }
  }

  lemma FinishSigns(s: State, r: State, proposal: Proposal, request: Request, actor: Actor, now: Time)
    requires request.Approve? && request.proposalId == proposal.proposalId && r.candidates == s.candidates
    requires proposal.proposalId in s.candidates ==> s.candidates[proposal.proposalId].branchId == proposal.branchId
    requires Signs(s, r, request, actor, now)
    ensures Signs(s, FinishApproved(r, proposal, now).0, request, actor, now)
  {
  }

  lemma UndoSigns(s: State, request: Request, actor: Actor, now: Time, validates: Json -> bool)
    requires WellFormed(s) && request.Undo?
    ensures Signs(s, UndoRevision(s, request, actor, now, validates).0, request, actor, now)
  {
  }

  lemma PublishSigns(s: State, request: Request, actor: Actor, now: Time)
    requires request.Publish?
    ensures Signs(s, PublishRevision(s, request, actor, now).0, request, actor, now)
  {
  }

  lemma CommentSigns(s: State, request: Request, actor: Actor, now: Time)
    requires request.AddComment? && WellFormed(s)
    ensures Signs(s, CommentOnProposal(s, request, actor, now).0, request, actor, now)
  {
  }

  lemma CallSigns(s: State, request: Request, actor: Actor, now: Time, validates: Json -> bool)
    requires Inv(s) && WellFormed(s)
    ensures Signs(s, Execute(s, request, actor, now, validates).0, request, actor, now)
  {
    if Authorized(s, request, actor) {
      match request
      case Propose(_, _, _, _, _, _) => SubmitSigns(s, request, actor, now, validates);
      case Approve(_, _, _) => ApproveSigns(s, request, actor, now);
      case AddComment(_, _, _) => CommentSigns(s, request, actor, now);
      case Publish(_, _, _) => PublishSigns(s, request, actor, now);
      case Undo(_, _, _, _) => UndoSigns(s, request, actor, now, validates);
    }
  }

  /** The events of every command are numbered on, carry its time, and name its actor, branch and correlation; only a commit
      that an approval brings about names those of the submission. */
  lemma TheEventsAreSigned(s: State, command: Command, validates: Json -> bool)
    requires Inv(s) && command.Call?
    ensures Signs(s, Step(s, command, validates), command.request, command.actor, command.now)
  {
    InvWellFormed(s);
    CallSigns(s, command.request, command.actor, command.now, validates);
  }
}
