/** Whole runs of the collaboration service: what holds after any sequence of commands. */
module CollaborationRuns {
  import opened Wrappers
  import opened JsonPatch
  import opened CollaborationPatch
  import opened Collaboration
  import opened CollaborationInvariant
  import opened CollaborationSteps

  datatype Command =
    | Call(request: Request, actor: Actor, now: Time)
    | OpenBranch(branchId: Id, fromRevision: Id, policy: Option<Policy>)

  /** A refused branch leaves the state alone; every other outcome is a response of `Execute`. */
  function Step(s: State, command: Command, validates: Json -> bool): (t: State)
    requires Inv(s)
    ensures Inv(t) && Extends(s, t)
  {
    InvWellFormed(s);
    match command
    case Call(request, actor, now) =>
      ExecuteKeeps(s, request, actor, now, validates);
      Execute(s, request, actor, now, validates).0
    case OpenBranch(branchId, fromRevision, policy) =>
      CreateBranchKeeps(s, branchId, fromRevision, policy);
      ExtendsReflexive(s);
      CreateBranch(s, branchId, fromRevision, policy).GetOr(s)
  }

  function Run(s: State, commands: seq<Command>, validates: Json -> bool): (t: State)
    requires Inv(s)
    ensures Inv(t)
    decreases |commands|
  {
    if commands == [] then s else Run(Step(s, commands[0], validates), commands[1..], validates)
  }

  lemma {:induction false} RunLast(s: State, commands: seq<Command>, last: Command, validates: Json -> bool)
    requires Inv(s)
    ensures Run(s, commands + [last], validates) == Step(Run(s, commands, validates), last, validates)
    decreases |commands|
  {
    if commands != [] {
      assert (commands + [last])[1..] == commands[1..] + [last];
      RunLast(Step(s, commands[0], validates), commands[1..], last, validates);
    } else {
      assert (commands + [last])[1..] == [];
    }
  }

  /** The service starts in a state that satisfies the invariant, so every run stays inside it. */
  lemma InitialInv(tenantId: Id, document: Json, policy: Option<Policy>, now: Time, validates: Json -> bool)
    requires document.Obj?
    ensures var s := Initial(tenantId, document, policy, now, validates);
            s.Some? ==> Inv(s.value)
  {
    var s := Initial(tenantId, document, policy, now, validates);
    if s.Some? {
      forall k | k in s.value.revisions ensures RevisionOk(s.value, k) {
      }
    }
  }

  /** Nothing committed is ever lost or altered: revisions are append-only, branches keep their policy, a proposal
      keeps its identity and approvals, and a verdict is final. */
  lemma {:induction false} RunExtends(s: State, commands: seq<Command>, validates: Json -> bool)
    requires Inv(s)
    ensures Extends(s, Run(s, commands, validates))
    decreases |commands|
  {
    if commands == [] {
      ExtendsReflexive(s);
    } else {
      var next := Step(s, commands[0], validates);
      RunExtends(next, commands[1..], validates);
      ExtendsTransitive(s, next, Run(s, commands, validates));
    }
  }

  // ---------------------------------------------------------------------------------------------
  // Verdicts.

  /** A proposal that went stale never reaches the revision graph, whatever happens later. */
  lemma StaleNeverCommits(s: State, commands: seq<Command>, validates: Json -> bool, id: Id)
    requires Inv(s) && id in s.proposals && s.proposals[id].status == Stale
    ensures var t := Run(s, commands, validates);
            && id in t.proposals && t.proposals[id].status == Stale
            && forall k :: k in t.revisions ==> t.revisions[k].proposalId != Some(id)
  {
    var t := Run(s, commands, validates);
    RunExtends(s, commands, validates);
    assert ProposalKept(s.proposals[id], t.proposals[id]);
    forall k | k in t.revisions ensures t.revisions[k].proposalId != Some(id) {
      assert RevisionOk(t, k);
    }
  }

  /** At most one revision ever carries a given proposal. */
  lemma CommittedOnce(s: State, j: Id, k: Id)
    requires Inv(s) && j in s.revisions && k in s.revisions
    requires s.revisions[j].proposalId.Some? && s.revisions[j].proposalId == s.revisions[k].proposalId
    ensures j == k
  {
    assert RevisionOk(s, j) && RevisionOk(s, k);
  }

  // ---------------------------------------------------------------------------------------------
  // Governance.

  /** On a guarded branch every proposal is open for a minute at least and thirty days at most, no approval is later than that,
      and it takes 1 to 16 approvals of at most 64 named reviewers, each of them named once. */
  lemma ApprovalWindow(s: State, commands: seq<Command>, validates: Json -> bool, id: Id)
    requires Inv(s) && id in Run(s, commands, validates).proposals
    ensures var t := Run(s, commands, validates);
            var p := t.proposals[id];
            && p.branchId in t.branches
            && var policy := t.branches[p.branchId].policy;
            && (p.expiresAt.Some? <==> policy.guarded)
            && (policy.guarded ==>
                  && 60_000 <= p.expiresAt.value - p.createdAt <= 2_592_000_000 && 1 <= policy.requiredApprovals <= 16
                  && (forall a :: a in p.approvals ==> a.approvedAt < p.createdAt + 2_592_000_000))
            && |policy.reviewerIds| <= 64
            && forall i, j :: 0 <= i < j < |policy.reviewerIds| ==> policy.reviewerIds[i] != policy.reviewerIds[j]
  {
    var t := Run(s, commands, validates);
    assert ProposalOk(t, id) && BranchOk(t, t.proposals[id].branchId);
  }

  /** Every proposed revision on a guarded branch was approved by enough distinct eligible actors, each naming exactly
      this revision before the proposal expired, and none of them its author when duties are separated. */
  lemma CommittedRevisionWasApproved(s: State, k: Id)
    requires Inv(s) && k in s.revisions && s.revisions[k].proposalId.Some?
    ensures ProposalOf(s, k).Some? && s.revisions[k].branchId in s.branches
    ensures var p, policy := ProposalOf(s, k).value, s.branches[s.revisions[k].branchId].policy;
            policy.guarded ==>
              && |p.approvals| >= policy.requiredApprovals >= 1
              && (forall i, j :: 0 <= i < j < |p.approvals| ==> p.approvals[i].actorId != p.approvals[j].actorId)
              && (forall i :: 0 <= i < |p.approvals| ==>
                    && p.approvals[i].revision == k
                    && p.approvals[i].approvedAt < p.createdAt + policy.approvalTtlMs
                    && IsReviewer(policy, p.approvals[i].actorId)
                    && (policy.separateAuthorAndReviewer ==> p.approvals[i].actorId != p.authorId))
  {
    assert RevisionOk(s, k);
    var id := s.revisions[k].proposalId.value;
    assert ProposalOk(s, id);
    var p := s.proposals[id];
    assert BranchOk(s, p.branchId);
    ApproverCount(p);
    assert forall i :: 0 <= i < |p.approvals| ==> ApprovalOk(s.branches[p.branchId].policy, p, p.approvals[i]);
  }

  lemma {:induction false} ApproverCount(p: Proposal)
    ensures |Approvers(p)| <= |p.approvals|
    decreases |p.approvals|
  {
    if p.approvals != [] {
      var n := |p.approvals| - 1;
      var shorter := p.(approvals := p.approvals[..n]);
      ApproverCount(shorter);
      assert Approvers(p) == Approvers(shorter) + {p.approvals[n].actorId};
    }
  }

  /** Every approval of the proposal is one the policy accepts: by a reviewer, in time, not by the author when duties are
      separated, and of exactly this revision. */
  ghost predicate Eligible(policy: Policy, p: Proposal, revision: Id) {
    forall i :: 0 <= i < |p.approvals| ==>
      && p.approvals[i].revision == revision
      && (p.expiresAt.Some? ==> p.approvals[i].approvedAt < p.expiresAt.value)
      && IsReviewer(policy, p.approvals[i].actorId)
      && (policy.separateAuthorAndReviewer ==> p.approvals[i].actorId != p.authorId)
  }

  /** A guarded branch only publishes its current head, and only with enough distinct approvals of that revision; where the
      revision was committed on this branch, every approval is eligible here. */
  lemma PublicationWasApproved(s: State, request: Request, actor: Actor, now: Time)
    requires Inv(s) && request.Publish?
    requires PublishRevision(s, request, actor, now).1.status == Accepted
    ensures request.branchId in s.branches && request.revision == s.branches[request.branchId].headRevision
    ensures PublishRevision(s, request, actor, now).0.branches[request.branchId].publishedRevision == Some(request.revision)
    ensures s.branches[request.branchId].policy.guarded ==>
              && ProposalOf(s, request.revision).Some?
              && var p := ProposalOf(s, request.revision).value;
              && |p.approvals| >= s.branches[request.branchId].policy.requiredApprovals >= 1
              && (forall i, j :: 0 <= i < j < |p.approvals| ==> p.approvals[i].actorId != p.approvals[j].actorId)
              && (forall i :: 0 <= i < |p.approvals| ==> p.approvals[i].revision == request.revision)
              && (s.revisions[request.revision].branchId == request.branchId ==>
                    Eligible(s.branches[request.branchId].policy, p, request.revision))
  {
    assert BranchOk(s, request.branchId);
    if s.branches[request.branchId].policy.guarded {
      CommittedRevisionWasApproved(s, request.revision);
      var p := ProposalOf(s, request.revision).value;
      assert ProposalOk(s, s.revisions[request.revision].proposalId.value);
      ApproverCount(p);
      assert forall i :: 0 <= i < |p.approvals| ==> ApprovalOk(s.branches[p.branchId].policy, p, p.approvals[i]);
    }
  }

  // ---------------------------------------------------------------------------------------------
  // Ancestry.

  /** `chain` is the parent chain from just after `base` up to `head`, oldest first. */
  ghost predicate ParentChain(revisions: map<Id, Revision>, base: Id, chain: seq<Revision>, head: Option<Id>) {
    if chain == [] then head == Some(base)
    else
      var last := chain[|chain| - 1];
      && head.Some? && head.value != base && head.value in revisions && revisions[head.value] == last
      && ParentChain(revisions, base, chain[..|chain| - 1], last.parentRevision)
  }

  /** The traversal finds exactly the parent chain, and finds one whenever there is one. */
  lemma {:induction false} InterveningIsTheParentChain(revisions: map<Id, Revision>, head: Option<Id>, base: Id)
    requires ParentsOlder(revisions)
    ensures Intervening(revisions, head, base).Some? ==>
              ParentChain(revisions, base, Intervening(revisions, head, base).value, head)
    ensures forall chain :: ParentChain(revisions, base, chain, head) ==> Intervening(revisions, head, base) == Some(chain)
    decreases Height(revisions, head)
  {
    if head == Some(base) {
    } else if head.Some? && head.value in revisions {
      var parent := revisions[head.value].parentRevision;
      InterveningIsTheParentChain(revisions, parent, base);
      if Intervening(revisions, parent, base).Some? {
        var older := Intervening(revisions, parent, base).value;
        assert (older + [revisions[head.value]])[..|older|] == older;
      }
      forall chain | ParentChain(revisions, base, chain, head) ensures Intervening(revisions, head, base) == Some(chain) {
        assert ParentChain(revisions, base, chain[..|chain| - 1], parent);
        assert chain == chain[..|chain| - 1] + [revisions[head.value]];
      }
    }
  }

  /** A longer history does not change an old chain. */
  lemma {:induction false} InterveningKept(s: State, t: State, head: Option<Id>, base: Id)
    requires Inv(s) && Inv(t) && Extends(s, t)
    requires ParentsOlder(s.revisions) && ParentsOlder(t.revisions)
    requires Intervening(s.revisions, head, base).Some?
    ensures Intervening(t.revisions, head, base) == Intervening(s.revisions, head, base)
    decreases Height(s.revisions, head)
  {
    if head != Some(base) {
      InterveningKept(s, t, s.revisions[head.value].parentRevision, base);
    }
  }

  ghost predicate HeadAdvances(s: State, t: State, b: Id)
    requires b in s.branches
  {
    && b in t.branches
    && var before, after := s.branches[b].headRevision, t.branches[b].headRevision;
    && (after == before
        || (&& after !in s.revisions && after in t.revisions && t.revisions[after].parentRevision == Some(before)
            && before in s.revisions && s.revisions[before].sequence < t.revisions[after].sequence))
  }

  ghost predicate HeadsAdvance(s: State, t: State) {
    forall b :: b in s.branches ==> HeadAdvances(s, t, b)
  }

  lemma CommitHeads(s: State, proposal: Proposal, candidate: Candidate, now: Time)
    requires Inv(s) && Committable(s, proposal, candidate)
    ensures HeadsAdvance(s, CommitProposal(s, proposal, candidate, now).0)
  {
    CommitKeeps(s, proposal, candidate, now);
  }

  /** A change that leaves heads and revisions alone can precede the advance. */
  lemma HeadsAfter(s: State, t: State, u: State)
    requires s.branches == t.branches && s.revisions == t.revisions && HeadsAdvance(t, u)
    ensures HeadsAdvance(s, u)
  {
    forall b | b in s.branches ensures HeadAdvances(s, u, b) {
      assert HeadAdvances(t, u, b);
    }
  }

  lemma RecordHeads(s: State, request: Request, actor: Actor, candidate: Candidate, now: Time)
    requires Inv(s) && request.Propose? && request.proposalId !in s.proposals
    requires candidate.branchId == request.branchId && FreshCandidate(s, candidate, request.operations)
    ensures HeadsAdvance(s, RecordProposal(s, request, actor, candidate, now).0)
  {
    var policy := s.branches[request.branchId].policy;
    var proposal := NewProposal(request, actor, candidate, policy, now);
    var stored := StoreProposal(s, proposal, candidate, request.operations);
    StoreProposalKeeps(s, stored, proposal, candidate, request.operations);
    var created := Emit(stored, ProposalCreated(request.proposalId, proposal.rebased, candidate.revision), actor,
                        request.branchId, request.meta.correlationId, now);
    BookkeepingKeeps(stored, created);
    if !policy.guarded {
      CommitHeads(created, proposal, candidate, now);
      HeadsAfter(s, created, CommitProposal(created, proposal, candidate, now).0);
    }
  }

  lemma CreateHeads(s: State, request: Request, actor: Actor, parent: Id, now: Time, validates: Json -> bool)
    requires Inv(s) && WellFormed(s) && request.Propose? && request.proposalId !in s.proposals
    requires request.branchId in s.branches && parent == s.branches[request.branchId].headRevision
    ensures HeadsAdvance(s, CreateProposal(s, request, actor, parent, now, validates).0)
  {
    var t := Allocate(s);
    NextNameIsFree(s);
    BookkeepingKeeps(s, t);
    assert BranchOk(s, request.branchId) && RevisionOk(s, parent);
    var name := RevisionName(t.revisionSequence);
    var applied := ApplyCollaborationPatch(t.revisions[parent].document, request.operations, name, validates);
    if applied.Patched? {
      PatchedIsMade(t.revisions[parent].document, request.operations, name, validates);
      var candidate := Candidate(actor, request.branchId, applied.changedPaths, request.meta.correlationId,
                                 applied.document, parent, applied.removedPaths, name, t.revisionSequence);
      assert FreshCandidate(t, candidate, request.operations);
      RecordHeads(t, request, actor, candidate, now);
      HeadsAfter(s, t, RecordProposal(t, request, actor, candidate, now).0);
    }
  }

  lemma SubmitHeads(s: State, request: Request, actor: Actor, now: Time, validates: Json -> bool)
    requires Inv(s) && WellFormed(s) && request.Propose?
    ensures HeadsAdvance(s, Submit(s, request, actor, now, validates).0)
  {
    if request.branchId in s.branches && request.proposalId !in s.proposals {
      CreateHeads(s, request, actor, s.branches[request.branchId].headRevision, now, validates);
    }
  }

  lemma FinishHeads(s: State, proposal: Proposal, now: Time)
    requires Inv(s) && proposal.proposalId in s.proposals && s.proposals[proposal.proposalId] == proposal
    requires proposal.branchId in s.branches && HasRequiredApprovals(s.branches[proposal.branchId].policy, proposal)
    ensures HeadsAdvance(s, FinishApproved(s, proposal, now).0)
  {
    if proposal.proposalId in s.candidates
       && s.branches[proposal.branchId].headRevision == s.candidates[proposal.proposalId].parentRevision {
      CommitHeads(s, proposal, s.candidates[proposal.proposalId], now);
    }
  }

  lemma ApproveHeads(s: State, request: Request, actor: Actor, now: Time)
    requires Inv(s) && WellFormed(s) && request.Approve?
    ensures HeadsAdvance(s, ApproveProposal(s, request, actor, now).0)
  {
    if request.proposalId in s.proposals && s.proposals[request.proposalId].branchId in s.branches {
      var proposal := s.proposals[request.proposalId];
      var policy := s.branches[proposal.branchId].policy;
      if ApprovalDiagnostic(policy, proposal, actor.actorId, request.expectedRevision, now).None? {
        ApprovalKeeps(s, proposal, request, actor, now);
        var t := RecordApproval(s, proposal, request, actor, now);
        var approved := t.proposals[request.proposalId];
        assert approved.proposalId == proposal.proposalId && approved.branchId == proposal.branchId;
        assert t.branches == s.branches && t.revisions == s.revisions;
        if HasRequiredApprovals(policy, approved) {
          FinishHeads(t, approved, now);
          HeadsAfter(s, t, FinishApproved(t, approved, now).0);
        }
      }
    }
  }

  lemma UndoHeads(s: State, request: Request, actor: Actor, now: Time, validates: Json -> bool)
    requires Inv(s) && WellFormed(s) && request.Undo?
    ensures HeadsAdvance(s, UndoRevision(s, request, actor, now, validates).0)
  {
    var t := UndoRevision(s, request, actor, now, validates).0;
    if t.branches != s.branches {
      NextNameIsFree(s);
      assert RevisionOk(s, request.targetRevision);
    }
  }

  /** One command moves a branch head only to a new child of the old head, with a strictly larger sequence. */
  lemma StepHeads(s: State, command: Command, validates: Json -> bool)
    requires Inv(s)
    ensures HeadsAdvance(s, Step(s, command, validates))
  {
    InvWellFormed(s);
    if command.Call? {
      var request, actor, now := command.request, command.actor, command.now;
      if request.Propose? {
        SubmitHeads(s, request, actor, now, validates);
      } else if request.Approve? {
        ApproveHeads(s, request, actor, now);
      } else if request.Undo? {
        UndoHeads(s, request, actor, now, validates);
      } else {
        QuietHeads(s, request, actor, now);
      }
      if Authorized(s, request, actor) && Idempotent(request) {
        IdempotentHeads(s, request, actor, now, validates);
      }
    }
  }

  lemma QuietHeads(s: State, request: Request, actor: Actor, now: Time)
    ensures request.AddComment? ==> HeadsAdvance(s, CommentOnProposal(s, request, actor, now).0)
    ensures request.Publish? ==> HeadsAdvance(s, PublishRevision(s, request, actor, now).0)
  {
  }

  lemma IdempotentHeads(s: State, request: Request, actor: Actor, now: Time, validates: Json -> bool)
    requires WellFormed(s) && Idempotent(request)
    requires HeadsAdvance(s, RunOnce(s, request, actor, now, validates).0)
    ensures HeadsAdvance(s, ExecuteIdempotent(s, request, actor, now, validates).0)
  {
    var ran := RunOnce(s, request, actor, now, validates).0;
    var t := ExecuteIdempotent(s, request, actor, now, validates).0;
    forall b | b in s.branches ensures HeadAdvances(s, t, b) {
      assert HeadAdvances(s, ran, b);
    }
  }

  /** Over any run the old head of a branch stays on the parent chain of its new head. */
  lemma {:induction false} HeadStaysAncestor(s: State, commands: seq<Command>, validates: Json -> bool, b: Id)
    requires Inv(s) && b in s.branches
    ensures var t := Run(s, commands, validates);
            && WellFormed(t) && b in t.branches
            && Intervening(t.revisions, Some(t.branches[b].headRevision), s.branches[b].headRevision).Some?
    decreases |commands|
  {
    InvWellFormed(s);
    if commands != [] {
      var next := Step(s, commands[0], validates);
      StepHeads(s, commands[0], validates);
      assert HeadAdvances(s, next, b);
      HeadStaysAncestor(next, commands[1..], validates, b);
      RunExtends(next, commands[1..], validates);
      AdvancedHeadIsAncestor(s, next, Run(s, commands, validates), b);
    }
  }

  lemma AdvancedHeadIsAncestor(s: State, next: State, t: State, b: Id)
    requires b in s.branches && HeadAdvances(s, next, b) && Extends(next, t) && WellFormed(t) && b in t.branches
    requires Intervening(t.revisions, Some(t.branches[b].headRevision), next.branches[b].headRevision).Some?
    ensures Intervening(t.revisions, Some(t.branches[b].headRevision), s.branches[b].headRevision).Some?
  {
    ChainsCompose(t.revisions, Some(t.branches[b].headRevision), next.branches[b].headRevision, s.branches[b].headRevision);
  }

  lemma {:induction false} ChainsCompose(revisions: map<Id, Revision>, head: Option<Id>, middle: Id, base: Id)
    requires ParentsOlder(revisions)
    requires Intervening(revisions, head, middle).Some?
    requires Intervening(revisions, Some(middle), base).Some?
    ensures Intervening(revisions, head, base).Some?
    decreases Height(revisions, head)
  {
    if head != Some(middle) && head != Some(base) {
      ChainsCompose(revisions, revisions[head.value].parentRevision, middle, base);
    }
  }

  // ---------------------------------------------------------------------------------------------
  // Idempotency.

  predicate NoSeparator(s: string) {
    '\0' !in s
  }

  lemma {:induction false} LastSeparator(a: string, b: string, c: string, d: string)
    requires a + "\0" + b == c + "\0" + d && NoSeparator(b) && NoSeparator(d)
    ensures a == c && b == d
  {
    var s := a + "\0" + b;
    assert s[|a|] == '\0' && s[|c|] == '\0';
    assert forall k :: |a| < k < |s| ==> s[k] == b[k - |a| - 1];
    assert forall k :: |c| < k < |s| ==> s[k] == d[k - |c| - 1];
    assert |a| == |c|;
    assert s[..|a|] == a && s[..|c|] == c;
    assert s[|a| + 1..] == b && s[|c| + 1..] == d;
  }

  /** Within one tenant the stored key determines actor, operation and client key. */
  lemma IdempotencyKeysAreDistinct(a: Actor, b: Actor, operation: string, other: string, key: Id, otherKey: Id)
    requires a.tenantId == b.tenantId
    requires NoSeparator(operation) && NoSeparator(other) && NoSeparator(key) && NoSeparator(otherKey)
    requires IdempotencyKey(a, operation, key) == IdempotencyKey(b, other, otherKey)
    ensures a.actorId == b.actorId && operation == other && key == otherKey
  {
    var t := a.tenantId + "\0";
    LastSeparator(t + a.actorId + "\0" + operation, key, t + b.actorId + "\0" + other, otherKey);
    LastSeparator(t + a.actorId, operation, t + b.actorId, other);
    assert (t + a.actorId)[|t|..] == a.actorId && (t + b.actorId)[|t|..] == b.actorId;
  }

  ghost predicate EntriesKept(s: State, t: State) {
    forall key :: key in s.idempotency ==> key in t.idempotency && t.idempotency[key] == s.idempotency[key]
  }

  lemma RecordEntries(s: State, request: Request, actor: Actor, candidate: Candidate, now: Time)
    requires request.Propose?
    ensures RecordProposal(s, request, actor, candidate, now).0.idempotency == s.idempotency
  {
  }

  lemma SubmitEntries(s: State, request: Request, actor: Actor, now: Time, validates: Json -> bool)
    requires WellFormed(s) && request.Propose?
    ensures Submit(s, request, actor, now, validates).0.idempotency == s.idempotency
  {
    if request.branchId in s.branches {
      var t, parent := Allocate(s), s.branches[request.branchId].headRevision;
      if parent in t.revisions {
        var name := RevisionName(t.revisionSequence);
        var applied := ApplyCollaborationPatch(t.revisions[parent].document, request.operations, name, validates);
        if applied.Patched? {
          var candidate := Candidate(actor, request.branchId, applied.changedPaths, request.meta.correlationId,
                                     applied.document, parent, applied.removedPaths, name, t.revisionSequence);
          RecordEntries(t, request, actor, candidate, now);
        }
      }
    }
  }

  lemma UndoEntries(s: State, request: Request, actor: Actor, now: Time, validates: Json -> bool)
    requires WellFormed(s) && request.Undo?
    ensures UndoRevision(s, request, actor, now, validates).0.idempotency == s.idempotency
  {
  }

  lemma RunOnceEntries(s: State, request: Request, actor: Actor, now: Time, validates: Json -> bool)
    requires WellFormed(s) && Idempotent(request)
    ensures RunOnce(s, request, actor, now, validates).0.idempotency == s.idempotency
  {
    if request.Propose? {
      SubmitEntries(s, request, actor, now, validates);
    } else {
      UndoEntries(s, request, actor, now, validates);
    }
  }

  lemma StepEntries(s: State, command: Command, validates: Json -> bool)
    requires Inv(s)
    ensures EntriesKept(s, Step(s, command, validates))
  {
    InvWellFormed(s);
    if command.Call? && Idempotent(command.request) {
      RunOnceEntries(s, command.request, command.actor, command.now, validates);
      SameEntries(s, command.request, command.actor, command.now, validates);
    } else if command.Call? && command.request.Approve? {
      ApproveEntries(s, command.request, command.actor, command.now);
    } else if command.Call? {
      QuietEntries(s, command.request, command.actor, command.now);
    }
  }

  lemma SameEntries(s: State, request: Request, actor: Actor, now: Time, validates: Json -> bool)
    requires WellFormed(s) && Idempotent(request)
    requires RunOnce(s, request, actor, now, validates).0.idempotency == s.idempotency
    ensures EntriesKept(s, ExecuteIdempotent(s, request, actor, now, validates).0)
  {
  }

  lemma FinishEntries(s: State, proposal: Proposal, now: Time)
    ensures FinishApproved(s, proposal, now).0.idempotency == s.idempotency
  {
  }

  lemma ApproveEntries(s: State, request: Request, actor: Actor, now: Time)
    requires WellFormed(s) && request.Approve?
    ensures ApproveProposal(s, request, actor, now).0.idempotency == s.idempotency
  {
    if request.proposalId in s.proposals && s.proposals[request.proposalId].branchId in s.branches {
      var t := RecordApproval(s, s.proposals[request.proposalId], request, actor, now);
      FinishEntries(t, t.proposals[request.proposalId], now);
    }
  }

  lemma QuietEntries(s: State, request: Request, actor: Actor, now: Time)
    ensures request.AddComment? ==> CommentOnProposal(s, request, actor, now).0.idempotency == s.idempotency
    ensures request.Publish? ==> PublishRevision(s, request, actor, now).0.idempotency == s.idempotency
  {
  }

  lemma {:induction false} RunEntries(s: State, commands: seq<Command>, validates: Json -> bool)
    requires Inv(s)
    ensures EntriesKept(s, Run(s, commands, validates))
    decreases |commands|
  {
    if commands != [] {
      StepEntries(s, commands[0], validates);
      RunEntries(Step(s, commands[0], validates), commands[1..], validates);
    }
  }

  /** A key is executed at most once. After its first use, and whatever ran in between, the same request is answered
      with the stored response and any other request under the key is refused; neither changes the state. */
  lemma ExecutedAtMostOnce(s: State, first: Request, actor: Actor, now: Time, commands: seq<Command>,
                           again: Request, sameActor: Actor, later: Time, validates: Json -> bool)
    requires Inv(s) && WellFormed(s) && Idempotent(first) && Authorized(s, first, actor)
    requires KeyOf(first, actor) !in s.idempotency
    requires Idempotent(again) && KeyOf(again, sameActor) == KeyOf(first, actor)
    ensures var response := Execute(s, first, actor, now, validates).1;
            var t := Run(Step(s, Call(first, actor, now), validates), commands, validates);
            && WellFormed(t)
            && (Authorized(t, again, sameActor) ==>
                  Execute(t, again, sameActor, later, validates) ==
                  (t, if again == first then response.(status := Replayed) else Failure(Invalid, IdempotencyConflict)))
  {
    var next := Step(s, Call(first, actor, now), validates);
    RunEntries(next, commands, validates);
    InvWellFormed(Run(next, commands, validates));
    assert KeyOf(first, actor) in next.idempotency;
    assert next.idempotency[KeyOf(first, actor)] == Entry(first, Execute(s, first, actor, now, validates).1);
  }
}
