# Unifold verification project

A Dafny 4.11 model of the stateful and algorithmic core of Unifold, with proofs of what that core is for. One module
per component; `dafny verify dfyconfig.toml` checks all of it.

## What is modelled

**Collaboration.** JSON Pointers and their codec (`Pointer`, over `Text` and `Decimal`), JSON documents and the six
patch operations with their exchange laws (`JsonPatch`) and what each does to what a reader finds (`OperationMeaning`),
the patch policy and changed paths (`CollaborationPatch`), conflict detection (`Conflict`) and what its report says
(`ConflictReport`), and the rebase theorem with its exact limits: what commutes (`Rebase`), what array edits
shift (`ArrayShifts`), when detection is enough (`DetectionLimits`, over `SiblingPointers`; `MissedShifts`), what an undo
hides (`RebaseLimits`, `UndoLimits`). The service is a state machine (`Collaboration`): branches, proposals, approvals,
publication, undo, idempotency and events. Its invariant (`CollaborationInvariant`, `CollaborationSteps`) carries the
theorems about whole runs (`CollaborationRuns`): about rebased submissions and undo (`CollaborationRebase`,
`CollaborationUndo`), publication across branches (`PublicationLimits`), who asked for what (`CollaborationAccess`), what
the events tell (`CollaborationEvents`) and what the host accepted (`CollaborationValidity`). `CollaborationService` is the
service object, whose methods make exactly the steps of the state machine; `EventLog` (over `Retention`) is its bounded log.

**Control plane.** The leased outbox (`Outbox`) and when it hands a delivery out (`OutboxRuns`), the realtime client cursor
(`RealtimeCursor`), and the tenant store with optimistic commits, effect leases, backup and restore (`Store`, `StoreRuns`,
`StoreService`), with what its documents, messages and audits tell of a run (`StoreLog`).

**Compositions.** Expanded ids and their codec (`Identity`); the expander as a function (`Expansion`), what a silent
expansion means (`ExpansionMeaning`), which value every reference gets (`ParameterMeaning`), where an instance's nodes and
slot content are found (`ExpansionContent`), what its checks demand (`InstanceChecks`), what it refuses
(`ExpansionNesting`), whose a node is (`ExpansionOwners`), why ids never collide (`ExpansionIds`), why exports and controls
resolve (`ExpansionNames`), and the expander as it runs over its shared context (`ExpansionRun`); the definition graph
search (`DefinitionCycles`) and what it guarantees the expander (`NestingGraph`); control topologies and mounting
(`ControlTopology`, `ControlMount`).

**Proposals of a model.** The worklist walk over untrusted values and what it accepts (`ProposalSafety`), and risk
classification (`Risk`).

**Calendar.** Day numbers, their order and the date constraint (`Calendar`; section 5.6 and Appendix C of RFC 3339).

## What the proofs found

- The collaboration documentation (docs/collaboration.md) says that structural array changes conflict with their
  array; the code widens only the submitted side (packages/collaboration/src/conflict.ts:40-44). `DetectionIsExactly`
  says for which committed operations its comparison is enough: exactly those that shift no array element a passing
  pointer leads through, which can be told from the operation alone (`MissesMeaning`). Edits of object members,
  replacements, copies out of an array and moves onto themselves are among them; `ShiftIsMissed` has a proposal and a
  document for every other, the removal of any array element for one (`RemovalIsMissed`). Inside one array
  `ArrayRebaseExactly` says when the outcomes agree.
- An undo revision records the path `/`, which addresses the member named by the empty string and not the document
  (packages/collaboration/src/revision-operations.ts:185), so undos are invisible to conflict detection
  (`UndoIsInvisible`). Proposals that commute with what was undone are safe (`SubmissionAcrossUndos`); the others are
  not: `UndoDetectionIsExactly` says which operations can be undone without harm to an unreported proposal.
- Publishing on a guarded branch counts approvals that were judged under the policy of the proposal's own branch
  (packages/collaboration/src/governance.ts:42-53). On one branch every approver is eligible (`PublicationWasApproved`);
  across branches that holds when the one policy is contained in the other, and containment is exactly what makes
  approvals carry over (`ApprovalsCarryOver`). Without it a run reaches a publication with an approver who is not eligible
  (`ForeignPublicationIsReached`), and a branch may publish what none of its reviewers saw
  (`StrangersRevisionIsPublished`).
- A mount only refuses array targets (packages/compositions/src/composition-control-mount.ts:164-175); a plain control
  as target breaks the rule that parents are aggregates (`MountKeepsAggregatesUnlessControl`, `MountOnControlIsSilent`),
  and a key already taken below the target breaks the rule that sibling keys differ (`MountKeepsSiblingKeysExactly`,
  `MountOnTakenKeyIsSilent`). The expander is silent about both; the later validation of the compiled document checks
  parents and sibling keys again (packages/ir/src/control-topology-validation.ts:170-178, 204-219) and reports them there.
- Slot content is expanded while its host is on the stack, so a definition nested in a slot of itself is a cycle for
  the expander although the definition graph has none (`SelfInOwnSlotIsACycle`). `CyclesAreRepetitions` says exactly when
  a cycle is reported, `AcyclicNestingNeverCycles` which graph rules it out.
- The depth limit may be infinite (packages/compositions/src/expander.ts:163-165); the finite registry then ends every
  expansion (`StackIsBounded`, `TheRegistryIsLimitEnough`).
- An outbox with retention 0 never reports a gap (`NoRetentionHidesGaps`).
- Completing an effect twice overwrites the stored result (packages/control-plane/src/reference-store.ts:276-299;
  `SecondCompletionOverwrites`); what is replayed is always the last completion (`LastCompletionIsReplayed`).
- The risk of a copy or move ignores what it copies, and a value written at `/revision` is not looked at
  (packages/ai/src/risk.ts:107-111). `CoversExactly` says when the risk covers what is written; the policy refuses copies
  and moves, so the gate as a whole holds beside the revision member (`UnapprovedIsPresentational`).

## Model

| member | source | states |
|---|---|---|
| `Pointer.TwoPassDecodeIsOnePass` | packages/collaboration/src/pointer.ts:69-72 | On every token without a bad escape the two `replaceAll` passes of the decoder compute what a single left-to-right pass does (section 4 of RFC 6901) |
| `Pointer.TokenRoundTrip` | packages/collaboration/src/pointer.ts:69-76 | Decoding an encoded token gives the token back, for every token, and encodings contain no separator |
| `Pointer.TokenCanonical` | packages/collaboration/src/pointer.ts:69-76 | A text the decoder accepts is the one encoding of its token |
| `Pointer.EncodeDecodePointer` | packages/collaboration/src/pointer.ts:5-16 | An accepted pointer has 1 to 64 tokens and is the only text for them |
| `Pointer.DecodeEncodePointer` | packages/collaboration/src/pointer.ts:5-16 | Every token list within the length and token limits survives encoding and decoding |
| `Pointer.OverlapIsPrefix` | packages/collaboration/src/pointer.ts:41-47 | Two pointers overlap exactly when one of them does not decode or one token list is a prefix of the other |
| `Pointer.TokenPrefixIsTextPrefix` | packages/collaboration/src/pointer.ts:41-47 | For accepted pointers a token prefix is a text prefix, so of two overlapping pointers the longer text is the deeper one |
| `Pointer.ArrayParentMeaning` | packages/collaboration/src/pointer.ts:49-63 | There is an array parent exactly for pointers ending in an index; with two tokens or more it decodes to the enclosing array, with one token to the member named by the empty string |
| `JsonPatch.UpdatesCommute` | packages/collaboration/src/patch.ts:79-90 | Two deep edits whose footprints neither overlap nor shift each other, on the document at hand, can be exchanged, and neither decides whether the other succeeds (arrays included) |
| `JsonPatch.LookupPastUpdate` | packages/collaboration/src/patch.ts:79-90 | Reading outside an edit's footprint is not disturbed by the edit |
| `JsonPatch.EditPastOperation` | packages/collaboration/src/patch.ts:79-90 | A deep edit can be moved past any of the six operations with a disjoint footprint (section 4 of RFC 6902) |
| `JsonPatch.OperationsCommute` | packages/collaboration/src/patch.ts:79-90 | Any two operations with disjoint footprints can be exchanged when the one already made is not a test |
| `JsonPatch.ChangesHaveTheEffect` | packages/collaboration/src/patch.ts:79-90 | Leaving the tests out of a patch that applies does not change its result |
| `OperationMeaning.TestMeaning` | packages/collaboration/src/patch.ts:79-90 | A test passes exactly when replacing the value by the expected one would change nothing, that is when the value stands there, and it changes nothing itself |
| `OperationMeaning.ReplaceMeaning` | packages/collaboration/src/patch.ts:79-90 | A replacement needs a value in place; afterwards the new one reads there and nothing beside it has changed |
| `OperationMeaning.AddMeaning` | packages/collaboration/src/patch.ts:79-90 | An addition needs its container: an object then reads the value at the member; an array has it in front of the named element or at the end, the others in their order; outside nothing changes |
| `OperationMeaning.RemoveMeaning` | packages/collaboration/src/patch.ts:79-90 | A removal needs the value; it takes exactly that member, or exactly that element with the others in their order, and changes nothing outside |
| `OperationMeaning.CopyMeaning` | packages/collaboration/src/patch.ts:79-90 | A copy adds what reads at its source and fails without it |
| `OperationMeaning.MoveMeaning` | packages/collaboration/src/patch.ts:79-90 | A move is the removal and the addition of what reads at its source, and goes nowhere into itself |
| `CollaborationPatch.ChangedPathsMeaning` | packages/collaboration/src/pointer.ts:24-32 | A revision's changed paths are exactly the paths that its operations other than tests name, in strictly ascending order |
| `CollaborationPatch.ApprovedIsAddressable` | packages/collaboration/src/patch.ts:58-77 | Operations that pass the policy carry pointers that decode and never address the revision member |
| `CollaborationPatch.RefusedPointers` | packages/collaboration/src/pointer.ts:34-39 | The policy refuses exactly the pointers that do not decode, decode to the revision member, or end in a member named `id` |
| `CollaborationPatch.IdentitiesAreKept` | packages/collaboration/src/patch.ts:58-77 | Under every approved patch that applies, a member named `id` keeps its value unless the patch claims something around it or inside it |
| `CollaborationPatch.RemovedPathsMeaning` | packages/collaboration/src/patch.ts:92-96 | The removed paths of a patch are exactly the paths of its removals |
| `Conflict.UniqueConflicts` | packages/collaboration/src/conflict.ts:122-153 | The in-place merging loop computes the merge of all detected conflicts |
| `Conflict.UniqueConflictsRepresentAll` | packages/collaboration/src/conflict.ts:122-153 | Merging, for every list of conflicts: the result holds given conflicts only, no two in one area, and stands at or below every given conflict with the same current path |
| `Conflict.NoConflictsReported` | packages/collaboration/src/conflict.ts:10-44 | Nothing is reported exactly when no footprint of the proposal overlaps any path changed since its base |
| `ConflictReport.AllConflictsMeaning` | packages/collaboration/src/conflict.ts:10-61 | Detection finds a conflict exactly when its proposal path is a pointer that an operation claims, its current path is a path changed since the base, the two overlap, and it carries the base and the head asked for |
| `ConflictReport.ReportMeaning` | packages/collaboration/src/conflict.ts:10-61 | The merged report names real overlaps only, each with its two sides, and for addressable operations has, for every overlap, an entry about the same changed path at or below the claimed pointer |
| `Rebase.StampPastPatch` | packages/collaboration/src/patch.ts:38-56 | Stamping the revision member commutes with every policy-approved patch |
| `Rebase.PatchesCommute` | packages/collaboration/src/patch.ts:79-90 | Whole approved patches whose operations commute one by one can be exchanged on every document under service control: same success, same document |
| `Rebase.CommutingRebaseIsSound` | packages/collaboration/src/conflict.ts:10-44 | A proposal that commutes with every patch committed since its base applies to the head exactly when it applies to the base, and the result is the base with the proposal first and the intervening changes on top |
| `Rebase.RebaseIsSound` | packages/collaboration/src/conflict.ts:10-44 | The same from footprints alone: independence from every patch committed since the base is enough |
| `ArrayShifts.PassedCommutes` | packages/collaboration/src/conflict.ts:22-44 | Whatever the comparison of widened footprints with bare paths lets pass beside a committed patch commutes with each of its operations that shifts nothing on the way of what passes |
| `ArrayShifts.ObjectEditsMissNothing` | packages/collaboration/src/conflict.ts:40-44 | Operations that write and remove object members miss nothing, wherever they copy from |
| `ArrayShifts.NothingMissedTogether` | packages/collaboration/src/conflict.ts:22-44 | Operations that miss nothing on their own miss nothing together |
| `ArrayShifts.DetectionImpliesCommuting` | packages/collaboration/src/conflict.ts:22-44 | For whole patches: what is clear of the changed paths of a patch in which nothing is missed commutes with it; a path that names an array makes up for the shifts inside it |
| `ArrayShifts.ConflictFreeRebaseIsSound` | packages/collaboration/src/conflict.ts:10-44 | An empty conflict report makes the rebase sound for every history in which nothing is missed, object-member edits among them |
| `DetectionLimits.DetectionIsExactly` | packages/collaboration/src/conflict.ts:22-44 | For every committed operation: all approved patches that detection lets pass beside it can be rebased past it on every document, with the right success and result, exactly when no passing pointer leads through an array element the operation shifts (`Misses`) |
| `DetectionLimits.ShiftIsMissed` | packages/collaboration/src/conflict.ts:40-44 | For every pointer that passes beside a committed operation and leads through an element it shifts, an approved proposal that is not reported goes wrong on some document |
| `MissedShifts.MissesMeaning` | packages/collaboration/src/conflict.ts:22-44 | A test on the committed operation alone decides what detection misses: the first element it shifts and does not name, and whether a pointer to that element fits the length limit (`ShiftsUnseen`) |
| `MissedShifts.RemovalIsMissed` | packages/collaboration/src/conflict.ts:22-44 | The removal of any element of a top-level array is missed: the pointer to the next element passes, and an approved proposal that is not reported goes wrong on some document |
| `MissedShifts.SecondItemIsMissed` | packages/collaboration/src/conflict.ts:22-44 | The removal of `/items/0` is an instance |
| `RebaseLimits.ArrayRebaseExactly` | packages/collaboration/src/conflict.ts:40-44 | On every document, for an addition, removal or move in an array at any place beside a replacement of another element: the rebase agrees exactly when the element is not shifted, or the value stands at its index anyway, before and after |
| `RebaseLimits.UndoIsInvisible` | packages/collaboration/src/revision-operations.ts:175-193 | The path an undo records conflicts with exactly the proposals that touch the member named by the empty string, whatever the undo changed |
| `RebaseLimits.CommutingRebasesOverUndo` | packages/collaboration/src/revision-operations.ts:156-193 | A patch that commutes with the undone one applies to the undoing revision exactly when it applies to the undone one, and the two results differ by the undone patch and the stamp only |
| `UndoLimits.UndoDetectionIsExactly` | packages/collaboration/src/revision-operations.ts:175-193 | For every operation: all approved patches that the path of its undo does not report can be rebased over the undo, on every document, exactly when the operation is not exposed: it changes nothing, or nothing outside the member with the empty name (`Exposed` spells out copies and moves onto themselves) |
| `CollaborationRebase.ChainReplays` | packages/collaboration/src/proposal-operations.ts:141-181 | Along a chain of proposed revisions in a reachable state the head is the base with the patches of the chain replayed |
| `CollaborationRebase.TakenSubmission` | packages/collaboration/src/proposal-operations.ts:29-44 | A submission is taken exactly when it raises no conflict, its patch is approved and applies to the head, and the host accepts the result; that result is what is stored |
| `CollaborationRebase.GuardedSubmission` | packages/collaboration/src/proposal-operations.ts:29-44 | A submission that opens with a test is taken exactly when the head has the tested value, so that replacing it there would change nothing, and the rest could be taken |
| `CollaborationRebase.TakenTestsHold` | packages/collaboration/src/proposal-operations.ts:29-44 | Every test inside a submission that is taken holds of what the operations before it make of the head |
| `CollaborationRebase.RefusedSubmission` | packages/collaboration/src/proposal-operations.ts:141-161 | Without a conflict the diagnostic is that of an invalid patch exactly when the patch is not approved or does not apply to the head, and that of the host's schema exactly when it does and the host refuses the result |
| `CollaborationRebase.SubmissionReport` | packages/collaboration/src/proposal-operations.ts:29-44 | The answer to a submission reports exactly the overlaps between what it claims and what revisions since its base changed, on its base and the current head; with one, nothing changes |
| `CollaborationRebase.RebasedSubmission` | packages/collaboration/src/proposal-operations.ts:29-44 | In every reachable state a submission that commutes with the intervening proposals applies to the head exactly when it applies to its base, and stores the base with the submission first |
| `CollaborationRebase.ConflictFreeSubmission` | packages/collaboration/src/conflict.ts:10-44 | The same for every submission the service takes, when detection misses nothing in the intervening proposals, which `ShiftsUnseen` decides operation by operation |
| `CollaborationRebase.UndoRestores` | packages/collaboration/src/revision-operations.ts:47-61 | An accepted undo puts the document before the undone revision back at the head under a new name and deletes nothing |
| `CollaborationRebase.UndoOfUndo` | packages/collaboration/src/revision-operations.ts:156-193 | Undoing an undo brings the undone document back |
| `CollaborationUndo.PatchAlongChain` | packages/collaboration/src/revision-operations.ts:156-173 | All along a chain of proposed and undoing revisions a patch that commutes with the proposals applies where it applies to the start, and the outcome is the start with the patch first and the chain replayed, undone patches taken back |
| `CollaborationUndo.SubmissionAcrossUndos` | packages/collaboration/src/proposal-operations.ts:29-44 | In every reachable state, with undos of earlier revisions between base and head: a submission that commutes with the proposals up to its base, and is taken, applies to its base, and what is stored is the chain with the submission first, undone patches gone |
| `CollaborationInvariant.NamesAreDistinct` | packages/collaboration/src/reference-state.ts:92-95 | Different sequences give different revision names |
| `CollaborationInvariant.NextNameIsFree` | packages/collaboration/src/reference-state.ts:92-95 | In every state that satisfies the invariant the next revision name is used by no revision and no candidate |
| `CollaborationSteps.SubmitKeeps` | packages/collaboration/src/proposal-operations.ts:29-44 | Submitting keeps the service invariant and takes nothing back |
| `CollaborationSteps.ApproveKeeps` | packages/collaboration/src/proposal-operations.ts:46-75 | Approving, with its commit or stale verdict, keeps the invariant and takes nothing back |
| `CollaborationSteps.CommitKeeps` | packages/collaboration/src/proposal-operations.ts:102-121 | Committing a candidate on its parent keeps the invariant; the candidate was pending and its revision is new |
| `CollaborationSteps.FinishKeeps` | packages/collaboration/src/proposal-operations.ts:267-278 | Finishing an approved proposal either commits it on the unmoved head or marks it stale, within the invariant |
| `CollaborationSteps.PublishKeeps` | packages/collaboration/src/revision-operations.ts:25-45 | Publishing keeps the invariant, including that guarded branches only published approved revisions |
| `CollaborationSteps.UndoKeeps` | packages/collaboration/src/revision-operations.ts:47-61 | Undoing keeps the invariant and takes nothing back |
| `CollaborationSteps.CreateBranchKeeps` | packages/collaboration/src/reference-state.ts:118-134 | Opening a branch keeps the invariant and changes no other branch |
| `CollaborationSteps.ExecuteKeeps` | packages/collaboration/src/reference.ts:79-91 | Every request keeps the invariant: revisions are append-only, policies fixed, approvals only grow, verdicts final |
| `CollaborationRuns.InitialInv` | packages/collaboration/src/reference-state.ts:73-90 | The service starts inside the invariant |
| `CollaborationRuns.RunExtends` | packages/collaboration/src/reference-state.ts:97-116 | Over every run no revision is lost or altered, and proposals keep identity, approvals and verdict |
| `CollaborationRuns.StaleNeverCommits` | packages/collaboration/src/proposal-operations.ts:267-278 | A proposal once stale stays stale and no revision of any later state carries it |
| `CollaborationRuns.CommittedOnce` | packages/collaboration/src/proposal-operations.ts:102-121 | At most one revision carries a given proposal |
| `CollaborationRuns.CommittedRevisionWasApproved` | packages/collaboration/src/proposal-operations.ts:56-75 | Every proposed revision on a guarded branch has the required number of approvals, by distinct eligible actors, naming exactly that revision, before expiry and not by the author when duties are separated |
| `CollaborationRuns.ApprovalWindow` | packages/collaboration/src/reference-state.ts:118-134 | Over every run a proposal on a guarded branch is open for a minute at least and thirty days at most, no approval is later, and it takes 1 to 16 approvals of at most 64 reviewers, each named once |
| `CollaborationRuns.PublicationWasApproved` | packages/collaboration/src/governance.ts:25-53 | A guarded branch publishes only its current head, with enough distinct approvals of that revision; where the revision was committed on this branch every approver is eligible under its policy, separate from the author where duties are, and before expiry |
| `PublicationLimits.ApprovalsCarryOver` | packages/collaboration/src/governance.ts:64-104 | Whatever approval one branch accepts the other accepts too exactly when its reviewers are among the other's and the other separates duties only if it does |
| `PublicationLimits.ForeignPublicationIsEligible` | packages/collaboration/src/governance.ts:32-53 | In every reachable state, a publication from another branch finds reviewers enough under that branch's policy, and is eligible under the publishing branch's own policy whenever the other's policy is contained in it |
| `PublicationLimits.ForeignPublicationIsReached` | packages/collaboration/src/governance.ts:32-53 | Containment is necessary: for every policy that is not contained in a guarded one but has reviewers enough for both, a service that starts with it reaches a publication under the guarded policy with an approver who is not eligible there |
| `PublicationLimits.RevisionIsPublishedElsewhere` | packages/collaboration/src/governance.ts:32-53 | From every reachable state with an approved revision, a new branch with any policy that is content with the number of approvals publishes it |
| `PublicationLimits.StrangersRevisionIsPublished` | packages/collaboration/src/governance.ts:32-53 | From every reachable state with an approved revision, a new guarded branch whose only reviewer never saw it publishes it |
| `CollaborationRuns.InterveningIsTheParentChain` | packages/collaboration/src/reference-state.ts:150-163 | The traversal ends, finds exactly the parent chain after the base, oldest first, and finds one whenever there is one |
| `CollaborationRuns.StepHeads` | packages/collaboration/src/revision-operations.ts:156-173 | One command moves a branch head only to a new child of the old head with a strictly larger sequence |
| `CollaborationRuns.HeadStaysAncestor` | packages/collaboration/src/reference-state.ts:97-116 | Over every run the old head of a branch stays on the parent chain of its new head |
| `CollaborationRuns.IdempotencyKeysAreDistinct` | packages/collaboration/src/reference-state.ts:169-171 | Within a tenant the stored key determines actor, operation and client key when none of them contains the separator |
| `CollaborationRuns.ExecutedAtMostOnce` | packages/collaboration/src/reference.ts:107-140 | Whatever ran in between, a repeated request is answered with the stored response as replayed and any other request under its key is refused; neither changes the state |
| `CollaborationAccess.TheOthersChangeNothing` | packages/collaboration/src/reference.ts:25-45 | A request by an actor of another tenant, or without the capability for its kind of request, changes nothing |
| `CollaborationAccess.ApprovalsWereAskedFor` | packages/collaboration/src/reference.ts:25-45 | Every approval recorded in a run was asked for by an actor of the tenant who may approve, and carries that actor, that time and the revision named in the request |
| `CollaborationAccess.CommentsWereAskedFor` | packages/collaboration/src/reference.ts:25-45 | Every comment of a run was asked for by an actor of the tenant who may comment, and carries that actor, time and text |
| `CollaborationAccess.PublicationsWereAskedFor` | packages/collaboration/src/reference.ts:25-45 | What a branch shows as published after a run was published by a request of an actor of the tenant who may publish |
| `CollaborationAccess.ProposalsWereSubmitted` | packages/collaboration/src/proposal-operations.ts:199-221 | Every proposal of a run was submitted by an actor of the tenant who may propose; it carries that author, time, base and branch, and is marked as rebased exactly when its base was not the head at that moment |
| `CollaborationAccess.RevisionsWereAskedFor` | packages/collaboration/src/proposal-operations.ts:141-181 | Every revision of a run is an undo asked for by somebody who may undo, or the operations of a proposal submitted by somebody who may propose; it names that actor, branch and correlation, and the time of its commit, by the submission itself or by an approval of somebody who may approve |
| `CollaborationEvents.TheEventsTellTheChanges` | packages/collaboration/src/proposal-operations.ts:123-139 | For every command from every state with the invariant, the events it adds tell exactly what it changed, in order: the new proposal, approval or comment, the commit, the publication, the undo |
| `CollaborationEvents.TheEventsAreSigned` | packages/collaboration/src/proposal-operations.ts:102-139 | The events of every command are numbered on, carry its time, and name its actor, branch and correlation; only a commit that an approval brings about names those of the submission |
| `CollaborationValidity.KeptDocumentsAreValid` | packages/collaboration/src/patch.ts:38-56 | From its first document on, over every run, every committed and every waiting document is one that the host accepted |
| `CollaborationService.ReferenceCollaborationService.InterveningRevisions` | packages/collaboration/src/reference-state.ts:150-163 | The cursor loop returns the specified chain |
| `CollaborationService.ReferenceCollaborationService.SubmitProposal` | packages/collaboration/src/proposal-operations.ts:29-44 | The method over the service's maps makes exactly the specified submission step |
| `CollaborationService.ReferenceCollaborationService.ApproveProposal` | packages/collaboration/src/proposal-operations.ts:46-75 | The method makes exactly the specified approval step |
| `CollaborationService.ReferenceCollaborationService.CommitProposal` | packages/collaboration/src/proposal-operations.ts:102-121 | The method makes exactly the specified commit |
| `CollaborationService.ReferenceCollaborationService.CommentOnProposal` | packages/collaboration/src/proposal-operations.ts:77-100 | The method makes exactly the specified comment step |
| `CollaborationService.ReferenceCollaborationService.PublishRevision` | packages/collaboration/src/revision-operations.ts:25-45 | The method makes exactly the specified publication |
| `CollaborationService.ReferenceCollaborationService.UndoRevision` | packages/collaboration/src/revision-operations.ts:47-61 | The method makes exactly the specified undo |
| `CollaborationService.ReferenceCollaborationService.RunIdempotent` | packages/collaboration/src/reference.ts:107-140 | The method replays, refuses or runs and records as specified |
| `CollaborationService.ReferenceCollaborationService.Execute` | packages/collaboration/src/reference.ts:41-45 | One call is one specified step, with the event log holding the newest of all emitted events |
| `CollaborationService.ReferenceCollaborationService.CreateBranch` | packages/collaboration/src/reference-state.ts:118-134 | The method opens the branch or refuses as specified |
| `Retention.KeptAppend` | packages/collaboration/src/event-log.ts:36-50 | Appending and dropping the entry over capacity leaves exactly the newest entries of the longer history |
| `EventLog.CollaborationEventLog.Append` | packages/collaboration/src/event-log.ts:36-50 | The event gets the next sequence and joins the history; the buffer stays its newest part |
| `EventLog.CollaborationEventLog.Resume` | packages/collaboration/src/event-log.ts:52-75 | The answer is the one told from everything ever appended |
| `EventLog.ResumeIsExact` | packages/collaboration/src/event-log.ts:52-75 | For every position, ahead of the log included: a gap is reported exactly when an event after it was evicted or it is negative; otherwise the reader gets every later event of its tenant, once and in order |
| `EventLog.ReaderMissesNothing` | packages/collaboration/src/event-log.ts:36-75 | For every interleaving of appends and polls a reader holds exactly its tenant's events up to its cursor |
| `Outbox.RunConserves` | packages/control-plane/src/reference-outbox.ts:50-108 | Over every run each published sequence is either pending or was acknowledged exactly once |
| `Outbox.AcknowledgeConserves` | packages/control-plane/src/reference-outbox.ts:94-98 | Acknowledging removes exactly the named sequences under the worker's current lease and records each once |
| `Outbox.LeaseTakesTheOldest` | packages/control-plane/src/reference-outbox.ts:74-78 | A lease returns available pending sequences only, in publication order, and none is skipped before one it returns |
| `Outbox.LeasedIsHeld` | packages/control-plane/src/reference-outbox.ts:110-124 | Everything a lease returns is then held by that worker until the lease ends, with one more attempt |
| `Outbox.LeaseExcludes` | packages/control-plane/src/reference-outbox.ts:74-124 | After a lease until U no lease dated before U returns the sequence again, in any run in which the owner does not release it |
| `Outbox.PendingIsLeasedAgain` | packages/control-plane/src/reference-outbox.ts:74-124 | A delivery that may be leased is leased exactly when fewer older ones may be than the lease has room for, whatever else is pending, waiting or leased |
| `Outbox.EveryDeliveryIsReached` | packages/control-plane/src/reference-outbox.ts:74-124 | Delivery is at least once whatever the backlog: leases dated at one time reach every delivery that may be leased then as soon as together they have room for it and the older ones |
| `OutboxRuns.ExpiredIsTakenOver` | packages/control-plane/src/reference-outbox.ts:110-124 | After a lease until U and any run that does not touch the delivery, a lease with room for the older pending ones returns it exactly when it is dated U or later: an expired lease is taken over, with no reference to what may be leased |
| `OutboxRuns.ExpiredIsReached` | packages/control-plane/src/reference-outbox.ts:110-124 | The same for any number of leases dated U or later that have room together, whichever workers take them |
| `OutboxRuns.ReleasedIsHandedOut` | packages/control-plane/src/reference-outbox.ts:100-114 | After its owner released a delivery, it is handed out exactly from the time on that the release names |
| `OutboxRuns.PublicationIsHandedOut` | packages/control-plane/src/reference-outbox.ts:50-114 | A published message is handed out exactly from the time of its occurrence on |
| `OutboxRuns.OnlyTheHolderAcknowledges` | packages/control-plane/src/reference-outbox.ts:126-136 | Under a lease until U an acknowledgement removes the delivery exactly when it comes from the holder, no later than U |
| `OutboxRuns.OnlyTheHolderReleases` | packages/control-plane/src/reference-outbox.ts:100-107 | A release ends the lease exactly when it comes from the holder; from others it changes nothing |
| `OutboxRuns.AttemptsSincePublication` | packages/control-plane/src/reference-outbox.ts:116-124 | After every run the attempts of a pending delivery count the leases that returned it since its publication, and it carries the message published under its sequence |
| `Outbox.ReferenceControlPlaneOutbox.PublishMessage` | packages/control-plane/src/reference-outbox.ts:50-59 | Publishing makes the specified step and keeps buffer, deliveries and numbering in line |
| `Outbox.ReferenceControlPlaneOutbox.Resume` | packages/control-plane/src/reference-outbox.ts:61-72 | The answer is the one told from everything published |
| `Outbox.ReferenceControlPlaneOutbox.LeaseMessages` | packages/control-plane/src/reference-outbox.ts:74-78 | The loop leases exactly the specified deliveries and returns them in order |
| `Outbox.ReferenceControlPlaneOutbox.AcknowledgeMessages` | packages/control-plane/src/reference-outbox.ts:80-98 | The loop makes the specified step and counts what it removed |
| `Outbox.ReferenceControlPlaneOutbox.ReleaseMessages` | packages/control-plane/src/reference-outbox.ts:85-108 | The loop makes the specified step and counts what it released |
| `RealtimeCursor.Cursor.Poll` | packages/control-plane/src/realtime-transport.ts:69-81 | Only an accepted batch moves the cursor; gaps and rejected batches leave it |
| `RealtimeCursor.PollOutcome` | packages/control-plane/src/realtime-transport.ts:88-148 | With retention, for every cursor: a gap is seen exactly when a message after it was evicted, a batch is accepted exactly when it is whole, within the limit and well formed, and a client ahead of the outbox sees only invalid batches |
| `RealtimeCursor.NoRetentionHidesGaps` | packages/control-plane/src/reference-outbox.ts:61-72 | With retention 0 a client that is behind or ahead never sees a gap, only batches it must reject; a poll succeeds exactly when nothing is missing |
| `RealtimeCursor.CursorMissesNothing` | packages/control-plane/src/realtime-transport.ts:69-148 | For every start, interleaving with resets, retention and limit, the accepted batches concatenate to exactly the messages from the last start to the cursor; without a reset the cursor never goes back |
| `RealtimeCursor.AnyServerIsInSequence` | packages/control-plane/src/realtime-transport.ts:88-148 | Whatever the other side answers, the client holds one labelled message for every sequence from its start to its cursor, in order, and takes no batch over its limit |
| `StoreRuns.RunKeeps` | packages/control-plane/src/reference-store.ts:105-259 | Over every run documents stay within the quota, records carry their own names, finished effects have results, and backups stay intact |
| `StoreRuns.CommitIsOptimistic` | packages/control-plane/src/reference-store.ts:105-134 | A commit goes through exactly when it names the current revision, or none for a new object within the quota; it stores every submitted member with its value and no other beside the revision member, under the command's actor, time and object, follows that revision and changes no other document; a refused commit only adds an audit |
| `StoreRuns.NamesAreNeverReused` | packages/control-plane/src/reference-store.ts:336-338 | A tenant's revision numbers strictly increase over every run, backups and restores included |
| `StoreRuns.RevisionNamesIdentifyContent` | packages/control-plane/src/reference-store.ts:105-134 | If a tenant's object has the same revision at two moments of a run, restores in between or not, it has the same content: commits against a read revision replace what was read |
| `StoreLog.StoredWasSubmitted` | packages/control-plane/src/reference-store-helpers.ts:29-45 | After every run, restores included, what a tenant holds for an object is what a commit of the run submitted for it and was answered with |
| `StoreLog.TheLogTellsTheRun` | packages/control-plane/src/reference-store.ts:105-334 | Over every run a tenant's messages and audits are those that the outcomes of its own commands call for, in order and with their details |
| `StoreRuns.RestoreIsExact` | packages/control-plane/src/reference-store.ts:192-259 | Whatever happens after a backup, restoring it succeeds and puts back exactly the documents and effects of that moment, not the revision counter |
| `StoreRuns.OnlyTheOwnerRestores` | packages/control-plane/src/reference-store.ts:269-274 | Whatever happens after a backup, the tenant that made it can restore it and no other: to everybody else it does not exist, and the attempt leaves no trace |
| `StoreRuns.TenantsAreIsolated` | packages/control-plane/src/reference-store.ts:322-334 | No command changes the state or the backups of a tenant it does not name |
| `StoreRuns.OthersDoNotInterfere` | packages/control-plane/src/reference-store.ts:322-334 | For every run, backups and restores included, a tenant's documents, effects and revision counter are what its own commands alone lead to in a store of its own, up to the names of its backups |
| `StoreRuns.GrantedAtMostOnce` | packages/control-plane/src/reference-store.ts:95-103 | Between restores an effect key is granted at most once, and never once it is known |
| `StoreRuns.RepeatedKeysReplay` | packages/control-plane/src/reference-store.ts:341-351 | Over every run without a restore of its tenant, a known key is a conflict under another fingerprint, in progress until the first completion, and then replays the result completed last; asking changes nothing |
| `StoreRuns.LastCompletionIsReplayed` | packages/control-plane/src/reference-store.ts:276-299 | After a completion and any run without a restore, the same request replays that completion's result exactly when no later completion carries another one last |
| `StoreRuns.SecondCompletionOverwrites` | packages/control-plane/src/reference-store.ts:276-299 | A key completed with one result and then with another replays the other: the first result is lost |
| `StoreService.ReferenceControlPlaneStore.CommitDocument` | packages/control-plane/src/reference-store.ts:105-134 | The method makes exactly the specified step, gives its outcome and keeps the store invariant of all runs |
| `StoreService.ReferenceControlPlaneStore.BeginEffect` | packages/control-plane/src/reference-store.ts:95-103 | The method makes exactly the specified step, gives its outcome and keeps the invariant |
| `StoreService.ReferenceControlPlaneStore.FinishEffect` | packages/control-plane/src/reference-store.ts:276-299 | The method makes exactly the specified step; without a lease nothing changes; it keeps the invariant |
| `StoreService.ReferenceControlPlaneStore.TakeBackup` | packages/control-plane/src/reference-store.ts:192-213 | The method makes exactly the specified step under a fresh backup id and keeps the invariant |
| `StoreService.ReferenceControlPlaneStore.Restore` | packages/control-plane/src/reference-store.ts:215-259 | The method makes exactly the specified step, or refuses before touching any state, and keeps the invariant |
| `DefinitionCycles.DetectDefinitionCycles` | packages/compositions/src/definition-cycle-validation.ts:18-37 | The search ends on every graph; something is reported exactly when a definition can reach itself through known definitions, and every reported edge leads onto such a cycle |
| `DefinitionCycles.GraphState.VisitDefinition` | packages/compositions/src/definition-cycle-validation.ts:26-32 | A visit finishes its definition, keeps the search state consistent and never drops a report |
| `DefinitionCycles.OrderedIsAcyclic` | packages/compositions/src/definition-cycle-validation.ts:26-37 | A finishing order of all definitions rules out every cycle |
| `ControlTopology.ValidateTopology` | packages/compositions/src/composition-control-validation.ts:8-21 | No diagnostic is given exactly when ids are unique and local, there is one unkeyed root, parents are known aggregates, sibling keys differ and parent chains end |
| `ControlTopology.AcyclicMeansEnding` | packages/compositions/src/composition-control-validation.ts:141-165 | The visited-set walk from every node ends without a repetition exactly when the parent relation is acyclic |
| `ControlTopology.EveryNodeReachesTheRoot` | packages/compositions/src/composition-control-validation.ts:39-52 | An accepted topology is one tree: from every node the parents lead to the root |
| `ControlTopology.SiblingIdentityIsExact` | packages/compositions/src/composition-control-validation.ts:135-139 | Two sibling identities are equal only for the same parent and key, when parent ids do not contain the separator |
| `ControlTopology.IdentitiesTellSiblingsApart` | packages/compositions/src/composition-control-validation.ts:111-139 | The identity set of the validator rejects every topology with two equal keys below one parent, and, when parent ids do not contain the separator, no other for its keys |
| `ControlMount.MountingKeepsForest` | packages/compositions/src/composition-control-mount.ts:31-67 | Mounting accepted topologies without diagnostics keeps the expanded set a forest: unique ids, every parent present, no cycle |
| `ControlMount.AppendTree` | packages/compositions/src/composition-control-mount.ts:118-132 | Putting a tree below an existing node, or beside the others, keeps the forest |
| `ControlMount.MountTargetMeaning` | packages/compositions/src/composition-control-mount.ts:139-175 | A mount resolves exactly to the id that the caller's instance recorded for the name, or the name itself in the document, when that is a registered node and no array |
| `ControlMount.MountedNodes` | packages/compositions/src/composition-control-mount.ts:118-132 | After a silent mount the nodes are the earlier ones and the definition's under their expanded ids, the root below the mount's target with the mount's key |
| `ControlMount.MountKeepsAggregatesUnlessControl` | packages/compositions/src/composition-control-mount.ts:145-175 | The rule that parents are aggregates survives a silent mount exactly when the target is no plain control |
| `ControlMount.MountKeepsSiblingKeysExactly` | packages/compositions/src/composition-control-mount.ts:47-132 | After a silent mount siblings still have different keys exactly when nobody below the target goes by the mount's key, which the code does not check |
| `ControlMount.MountOnControlIsSilent` | packages/compositions/src/composition-control-mount.ts:145-175 | Mounting a group below a plain control of a form leaves no diagnostic and breaks the rule that parents are aggregates, whatever the ids and keys |
| `ControlMount.MountOnTakenKeyIsSilent` | packages/compositions/src/composition-control-mount.ts:47-132 | Mounting a group below a form under the key of a control there leaves no diagnostic and breaks the rule that sibling keys differ |
| `ControlMount.TopologyContext.FinalizeControlTopology` | packages/compositions/src/composition-control-mount.ts:47-132 | The method makes exactly the specified mounting step on nodes, ids, kinds and diagnostics |
| `ControlMount.TopologyContext.FinalizeTopologies` | packages/compositions/src/composition-control-mount.ts:31-33 | The loop over pending topologies makes exactly the specified steps in order |
| `Calendar.NextDayNumber` | packages/contracts/src/date.ts:109-135 | The day number grows by one from each calendar day to the next |
| `Calendar.StringOrderIsDayOrder` | packages/contracts/src/date.ts:75-81 | For valid dates the order of the strings is the order of the day numbers, and equal numbers mean equal strings |
| `Calendar.DayInRange` | packages/contracts/src/date.ts:109-114 | Every calendar date from 0001-01-01 to 9999-12-31 has a day number from 0 to 3652058 |
| `Calendar.EveryDayHasOneDate` | packages/contracts/src/date.ts:109-114 | Every number from 0 to 3652058 is the day number of exactly one date string |
| `Calendar.DayNumberInClosedForm` | packages/contracts/src/date.ts:109-135 | The day number is that of the closed formula with years counted from March, without month tables |
| `Calendar.MonthLengths` | packages/contracts/src/date.ts:2-3 | A month is as long as from its first day to the first day of the next |
| `Calendar.IssueMeaning` | packages/contracts/src/date.ts:20-86 | Which issue is reported, by day numbers: crossed bounds, a step with nothing to count from, a value before or behind the bounds, or one beside the steps, in this order |
| `Calendar.NoIssueMeans` | packages/contracts/src/date.ts:20-86 | For every numeric step, fractional and negative ones included: no issue is reported exactly when the structure is valid and the value is empty, or lies in range by day number and a whole number of steps from the base |
| `Identity.SegmentRoundTrip` | packages/compositions/src/identity.ts:8-23 | Every non-empty segment survives percent-encoding and canonical decoding (section 2.1 of RFC 3986, UTF-8) |
| `Identity.IdRoundTrip` | packages/compositions/src/identity.ts:76-106 | Decoding an expanded id returns exactly the node and slot segments it was built from |
| `Identity.RenderIsInjective` | packages/compositions/src/identity.ts:25-32 | Different segment paths never share an id |
| `Identity.DecodedIdIsCanonical` | packages/compositions/src/identity.ts:76-106 | Whatever decodes is the one text of its segments |
| `Identity.NamespacingAppends` | packages/compositions/src/identity.ts:25-32 | The two ways of extending an id each append one segment to its path |
| `Expansion.EmitsItsTree` | packages/compositions/src/node-expansion.ts:209-248 | The registered ids are exactly those of the produced tree, once each and in document order, with or without a depth limit |
| `Expansion.StackIsBounded` | packages/compositions/src/node-expansion.ts:77-87 | The stack holds known definitions, each once, so it never outgrows the registry: this ends every expansion whatever the depth limit, an infinite one included |
| `ExpansionOwners.ProvenanceFollowsThePath` | packages/compositions/src/manifest.ts:14-49 | The provenance of every node can be read off its path: the ancestry lists the instances it lies in, outermost first, the owner is the innermost, and the slot is the one whose content it belongs to |
| `ExpansionNesting.RefusalsAreTrails` | packages/compositions/src/node-expansion.ts:48-87 | An unknown definition, a cycle or too great a depth is reported exactly when a nesting of instances, template by template and slot by slot, leads from the view to such an instance |
| `ExpansionNesting.TheRegistryIsLimitEnough` | packages/compositions/src/expander.ts:163-165 | With no depth limit, or one no smaller than the registry, too great a depth is never reported |
| `ExpansionNesting.CyclesAreRepetitions` | packages/compositions/src/node-expansion.ts:77-87 | A cycle is reported exactly when a nesting of different definitions, within the limit, comes back to one of them |
| `NestingGraph.TemplateEdgesMeaning` | packages/compositions/src/definition-validation.ts:56-88 | The edges recorded from a template lead to exactly the definitions it instantiates outside slot content |
| `NestingGraph.EdgesHavePlaces` | packages/compositions/src/definition-validation.ts:56-88 | An edge is recorded for every instance of a template, with the place that leads to it, and for nothing else |
| `NestingGraph.AcyclicNestingNeverCycles` | packages/compositions/src/definition-cycle-validation.ts:18-37 | If the definition graph extended by an edge from host to guest for all slot content has no cycle, the expander reports none |
| `NestingGraph.SearchIsEnoughWithoutGuests` | packages/compositions/src/definition-cycle-validation.ts:18-37 | Where no instance is handed to another, an acyclic definition graph is enough |
| `NestingGraph.SelfInOwnSlotIsACycle` | packages/compositions/src/node-expansion.ts:77-87 | For every registry and view: an instance in the content of a slot that its host, of the same definition, places is a cycle, whatever the definition graph says |
| `ExpansionMeaning.SilentExpansionInlines` | packages/compositions/src/node-expansion.ts:48-114 | An expansion that reports nothing produces exactly the plain inlining, to any depth no smaller than the number of definitions still unopened: every instance replaced by its template, every placeholder by the content handed in, in order |
| `ExpansionMeaning.UsesCountPlaceholders` | packages/compositions/src/slots.ts:27-62 | The counter of a declared slot counts its placeholders in the template, and nothing else |
| `ExpansionMeaning.SilentInstanceFillsEverySlotOnce` | packages/compositions/src/slots.ts:27-79 | In an instance expanded without reports every declared slot has exactly one placeholder |
| `ExpansionMeaning.SubstitutionResolvesEverything` | packages/compositions/src/parameters.ts:39-58 | A clean value has no parameter reference left after substitution of scalar parameters (which value each gets: `ReferenceIsReplaced`) |
| `ExpansionMeaning.SubstitutionLeavesPlainValues` | packages/compositions/src/parameters.ts:39-48 | Values without references are left alone |
| `ParameterMeaning.ReferenceIsReplaced` | packages/compositions/src/parameters.ts:39-58 | Where a path first meets a reference to a known name, the substituted value reads as that parameter's value, and goes on inside it |
| `ParameterMeaning.TheRestIsKept` | packages/compositions/src/parameters.ts:39-58 | A path that meets no reference reads as before, container by container |
| `ParameterMeaning.ResolveMeaning` | packages/compositions/src/parameters.ts:61-94 | The resolved parameters hold, for exactly the declared names, the provided value unless it is absent or null, then the default |
| `ParameterMeaning.SubstitutionShows` | packages/compositions/src/parameters.ts:39-58 | On every path of a clean value: where it has a reference, the value given for that name; everything else as it stands |
| `ParameterMeaning.ShownIsUnique` | packages/compositions/src/parameters.ts:39-58 | What the paths show determines the value |
| `ExpansionContent.InstanceShowsItsTemplate` | packages/compositions/src/node-expansion.ts:89-114 | A silently expanded instance holds its template node by node, every reference replaced by the value given for it: the root under the instance's own path, other plain nodes under their ids, nested instances expanded in turn (with `ParameterMeaning.SubstitutionShows` for the values) |
| `ExpansionContent.InstanceShowsItsContent` | packages/compositions/src/node-expansion.ts:250-278 | Every plain node handed to a slot of a silently expanded instance is found in that slot's namespace as it was handed in |
| `InstanceChecks.CleanTemplateMeaning` | packages/compositions/src/parameters.ts:189-208 | A template is clean exactly when, in all its nodes, every object with a `$parameter` member is a reference to a name that has a value |
| `InstanceChecks.SetupIsSilentExactly` | packages/compositions/src/node-expansion.ts:134-157 | Setting up an instance reports nothing exactly when provided names are declared, parameters have values of their types where required, the template is clean, slots are declared once, content goes to declared slots and every slot has as much as it takes |
| `ExpansionNames.TemplateNamesResolve` | packages/compositions/src/expansion-scope.ts:30-32 | An instance records exactly its template's local ids, each resolved in its own namespace, so an export checked against the template always resolves |
| `ExpansionNames.ExpandedControlsResolve` | packages/compositions/src/composition-control-mount.ts:177-186 | Whatever the controls of a validated definition name, its expansion has recorded: mounting them meets no unknown local id |
| `ExpansionIds.ExpandedIdsNeverCollide` | packages/compositions/src/identity.ts:56-63 | When every template, every slot's content and the view name their own members apart, all expanded ids differ, however deep the nesting |
| `ExpansionIds.ExpandedIdsDecode` | packages/compositions/src/identity.ts:76-106 | The id of every expanded node decodes to the instances, slots and local id that lead to it |
| `ExpansionRun.ExpansionContext.ExpandNode` | packages/compositions/src/node-expansion.ts:34-46 | The recursive method on text ids and shared maps produces the specified nodes and adds the specified facts to the context |
| `ExpansionRun.ExpansionContext.ExpandComposition` | packages/compositions/src/node-expansion.ts:48-87 | Unknown, cyclic and too deep instances are reported and dropped; others are materialized as specified |
| `ExpansionRun.ExpansionContext.Materialize` | packages/compositions/src/node-expansion.ts:89-114 | Setting up, expanding and closing an instance adds the specified facts in order, the instance's names among them |
| `ExpansionRun.ExpansionContext.ExpandPlainNode` | packages/compositions/src/node-expansion.ts:209-231 | A plain node is registered under its namespaced id before its children are expanded |
| `ExpansionRun.ExpansionContext.ExpandChildren` | packages/compositions/src/node-expansion.ts:233-248 | The loop over children produces the specified nodes in order |
| `ExpansionRun.ExpansionContext.ExpandSlot` | packages/compositions/src/node-expansion.ts:250-278 | A placeholder is replaced by the slot's content, expanded in the slot's namespace |
| `ExpansionRun.ExpansionContext.RegisterNode` | packages/compositions/src/node-expansion.ts:285-297 | Ids are registered once, a repetition is reported, and provenance is recorded for owned nodes |
| `ExpansionRun.NothingReported` | packages/compositions/src/node-expansion.ts:285-297 | The context has no diagnostic exactly when no problem arose and no id was registered twice |
| `ExpansionRun.ProvenanceKeys` | packages/compositions/src/manifest.ts:39-49 | Provenance is kept for exactly the ids of nodes that a composition owns |
| `ExpansionRun.ProvenanceEntries` | packages/compositions/src/manifest.ts:39-49 | With distinct ids every owned node keeps its own provenance |
| `ExpansionRun.ExpandDocument` | packages/compositions/src/expander.ts:37-57 | The node expansion delivers a tree exactly when nothing is reported; it is then the plain inlining to every depth no smaller than the registry, with distinct ids and exact provenance |
| `ExpansionRun.TheDocumentDisplays` | packages/compositions/src/expander.ts:37-57 | Every node that the expansion holds is in the delivered document under the text of its path, with its properties |
| `ProposalSafety.ProposalIsSafe` | packages/ai/src/proposal-safety.ts:23-70 | The stack walk ends on every heap, cyclic ones included, and accepts exactly the values whose recursive totals are fine and within the depth, count, byte and sharing budgets |
| `ProposalSafety.AcceptanceMeaning` | packages/ai/src/proposal-safety.ts:23-192 | A value is accepted exactly when everything found along its paths is safe (finite numbers, texts of at most 65,536 bytes, plain objects without the three reserved keys) at a depth of at most 64, every object is reached along one path only, there are at most 50,000 places, and written out without escapes it takes at most 1,048,576 bytes |
| `ProposalSafety.InspectKeys` | packages/ai/src/proposal-safety.ts:135-170 | Keys are accepted exactly when none is unsafe and their bytes fit the budget |
| `ProposalSafety.SumConcat` | packages/ai/src/proposal-safety.ts:111-133 | Totals of grouped values add up, so the order of visits does not matter |
| `ProposalSafety.AcceptedIsATree` | packages/ai/src/proposal-safety.ts:100-109 | In an accepted value every object is reached along one path only: nothing is shared and nothing is cyclic |
| `Risk.ValueRisk` | packages/ai/src/risk.ts:133-165 | The stack walk finds the highest key risk of the whole tree up to 10,000 values and the top risk beyond |
| `Risk.EveryKeyIsCovered` | packages/ai/src/risk.ts:125-131 | No key of a tree ranks above the tree's risk |
| `Risk.SomeKeyExplains` | packages/ai/src/risk.ts:125-165 | A tree's risk is the risk of one of its keys, unless there is nothing to report |
| `Risk.EffectiveUiPatchRisk` | packages/ai/src/risk.ts:99-111 | The loop over operations gives the higher of the declared risk and the highest operation risk |
| `Risk.EffectiveRiskIsNeverTooLow` | packages/ai/src/risk.ts:99-131 | The effective risk is at least the declared one and the risk of every operation; except for tests and operations at the revision member it is at least what each changed path calls for, and at least what any key inside any added or replacing value calls for, whatever the sizes |
| `Risk.CoversExactly` | packages/ai/src/risk.ts:107-111 | On every document, the risk of an operation covers all keys it writes: always for additions and replacements other than at the revision member, there only when the value ranks no higher than presentation, and for copies and moves only under the top risk |
| `Risk.PathRiskMeaning` | packages/ai/src/risk.ts:113-131 | For every path by its tokens: data below semantics, otherwise the category that lists the lower-cased last token first, and presentation only for a listed presentation key |
| `Risk.UnapprovedPathsAreListed` | packages/ai/src/policy.ts:55-95 | What passes without approval ends, beside the revision member, in a listed presentation key |
| `Risk.UnapprovedIsPresentational` | packages/ai/src/policy.ts:55-95 | What the proposal policy lets through without approval writes, beside the revision member, no key and no path above presentation risk |
| `Risk.EffectiveRiskHasASource` | packages/ai/src/risk.ts:99-111 | An effective risk above the declared one is the risk of some operation |

## Left out

- Presence, member lookups and snapshots of the collaboration service: they change nothing the theorems are about.
- Request-shape validation, worker and tenant identity texts of outbox commands: well-formed requests are assumed.
- The clock: one reading per step, a parameter; the code reads it several times within one call.
- The validation port of the host is an opaque predicate on documents; request fingerprints are the request values
  themselves (digests are taken as injective), while a backup's digest is an arbitrary function.
- JSON Patch follows section 4 of RFC 6902; the library behind it is not part of this model. Moving a value into
  itself is refused.
- Conflict kinds, messages, source pointers, legacy identity aliases and the text of diagnostics.
- Characters: strings are sequences of code points, so lengths count code points and strings compare by code point where
  the code uses UTF-16 units; lone surrogates do not exist here. Lower-casing of risk keys is a parameter.
- Numbers: JSON numbers are reals, instants are integers; in the safety walk a number is known by its printed width.
- Aliasing: proposals, branches, deliveries and tenant records are values held in maps that the methods reassign, so
  updates through a shared reference are not captured; a map is visited in insertion order only where that is the
  ascending order of sequences.
- CollaborationRuns.PublicationWasApproved: promises eligibility for revisions committed on the publishing branch; for
  others the code does not meet it, and `PublicationLimits` says when it does.
- DetectionLimits.DetectionIsExactly, and `UndoDetectionIsExactly`: one committed operation beside patches of any length.
  Operations of one patch may undo each other's shifts, so for committed patches only the sufficient direction is stated
  (`DetectionImpliesCommuting`).
- CollaborationRebase.ConflictFreeSubmission: is stated for intervening proposals in which detection misses nothing, the
  exact condition by `DetectionIsExactly`; undos in between are the subject of `CollaborationUndo.SubmissionAcrossUndos`.
- Expansion.EmitsItsTree: templates are plain or composed nodes with at most the members the document schema allows; a
  plain node with a stray `$compose` member and a parameter object that is itself a single `$parameter` reference are
  not modelled. One report stands for all substitution reports of a template.
- ExpansionRun.ExpansionContext.ExpandNode, and the methods it calls: control registration and the sorted export records
  are kept apart from the node expansion; exports are covered by the names they resolve to.
- ExpansionRun.ExpansionContext.Materialize: registers no controls and keeps no sorted export record, as above.
- ExpansionRun.ExpandDocument: is the node expansion; the definition validation before it and the mounting of controls
  after it (`ControlMount`) also decide whether the code gives a result, and are separate here.
- Calendar.NoIssueMeans: steps are real numbers, so infinite and undefined ones are left out, and so is rounding.
- Risk.EffectiveRiskIsNeverTooLow: promises nothing about keys and paths for tests and for operations at the revision
  member, which the code does not look at; `CoversExactly` says what that leaves open.
- Risk.UnapprovedIsPresentational: of the proposal policy only the kinds of operations and the approval rule are modelled;
  its rules on paths, revisions and hashes only refuse more, so the statement holds of all that the policy lets through.
- Definition validation beyond cycles, exports and control topologies, layout authoring, and the layout and
  collaboration JSON walks, which repeat the shape of the proposal walk without its byte budget.
- StoreService.ReferenceControlPlaneStore.TakeBackup: digest and clone are one step, where the code awaits in between.
- HTTP, SQLite, encryption, telemetry, authorization services, providers, catalog, elements, studio and command line.
