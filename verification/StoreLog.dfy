/** What the store can be held to afterwards: every stored document was submitted, and the messages and audits of a tenant
    tell the outcomes of its commands. */
module StoreLog {
  import opened Store
  import opened StoreRuns
  import Outbox

  lemma {:induction false} RunLast(config: Config, s: State, commands: seq<Command>, last: Command)
    ensures Run(config, s, commands + [last]) == Step(config, Run(config, s, commands), last)
    decreases |commands|
  {
    if commands == [] {
      assert ([] + [last])[1..] == [];
    } else {
      assert (commands + [last])[1..] == commands[1..] + [last];
      RunLast(config, Step(config, s, commands[0]), commands[1..], last);
    }
  }

  // ---------------------------------------------------------------------------------------------
  // Documents.

  /** The record is what a commit of the run stored. */
  ghost predicate StoredBy(config: Config, commands: seq<Command>, record: Revision) {
    exists n :: 0 <= n < |commands| && Stores(config, commands, n, record)
  }

  ghost predicate Stores(config: Config, commands: seq<Command>, n: nat, record: Revision)
    requires n < |commands|
  {
    && commands[n].Commit? && Submitted(commands[n], record)
    && OutcomeOf(config, Run(config, INITIAL, commands[..n]), commands[n]) == Committed(record)
  }

  ghost predicate AllStored(config: Config, commands: seq<Command>, documents: map<Id, Revision>) {
    forall o :: o in documents ==> StoredBy(config, commands, documents[o])
  }

  lemma StoredStays(config: Config, commands: seq<Command>, last: Command, record: Revision)
    requires StoredBy(config, commands, record)
    ensures StoredBy(config, commands + [last], record)
  {
    var n :| 0 <= n < |commands| && Stores(config, commands, n, record);
    assert (commands + [last])[..n] == commands[..n];
    assert Stores(config, commands + [last], n, record);
  }

  lemma AllStoredStay(config: Config, commands: seq<Command>, last: Command, documents: map<Id, Revision>)
    requires AllStored(config, commands, documents)
    ensures AllStored(config, commands + [last], documents)
  {
    forall o | o in documents ensures StoredBy(config, commands + [last], documents[o]) {
      StoredStays(config, commands, last, documents[o]);
    }
  }

  lemma CommitStores(config: Config, commands: seq<Command>, last: Command, record: Revision)
    requires last.Commit? && OutcomeOf(config, Run(config, INITIAL, commands), last) == Committed(record)
    ensures StoredBy(config, commands + [last], record)
  {
    var s, whole := Run(config, INITIAL, commands), commands + [last];
    InitialInv(config);
    RunKeeps(config, INITIAL, commands);
    TenantIsOk(config, s, last.meta.tenantId);
    CommitIsOptimistic(config, TenantOf(s, last.meta.tenantId), last);
    assert whole[..|commands|] == commands && whole[|commands|] == last;
    assert Stores(config, whole, |commands|, record);
  }

  /** What a command leaves in the documents of its tenant was there, is in the backup it restores, or is what it commits. */
  lemma DocumentSource(config: Config, s: State, command: Command, o: Id)
    requires o in TenantOf(Step(config, s, command), command.meta.tenantId).documents
    ensures var record := TenantOf(Step(config, s, command), command.meta.tenantId).documents[o];
            var tenant := TenantOf(s, command.meta.tenantId);
            || (o in tenant.documents && record == tenant.documents[o])
            || (command.Commit? && OutcomeOf(config, s, command) == Committed(record))
            || (Restorable(config, s, command).Some? && o in Restorable(config, s, command).value.documents
                && record == Restorable(config, s, command).value.documents[o])
  {
    StepIsNext(config, s, command);
  }

  lemma StepStores(config: Config, commands: seq<Command>, last: Command, tenantId: Id)
    requires forall t :: AllStored(config, commands, TenantOf(Run(config, INITIAL, commands), t).documents)
    requires forall b :: b in Run(config, INITIAL, commands).backups ==>
                           AllStored(config, commands, Run(config, INITIAL, commands).backups[b].documents)
    ensures AllStored(config, commands + [last], TenantOf(Step(config, Run(config, INITIAL, commands), last), tenantId).documents)
  {
    var s := Run(config, INITIAL, commands);
    if last.meta.tenantId != tenantId {
      TenantsAreIsolated(config, s, last, tenantId);
      AllStoredStay(config, commands, last, TenantOf(s, tenantId).documents);
    } else {
      var documents := TenantOf(Step(config, s, last), tenantId).documents;
      forall o | o in documents ensures StoredBy(config, commands + [last], documents[o]) {
        DocumentSource(config, s, last, o);
        if last.Commit? && OutcomeOf(config, s, last) == Committed(documents[o]) {
          CommitStores(config, commands, last, documents[o]);
        } else {
          StoredStays(config, commands, last, documents[o]);
        }
      }
    }
  }

  lemma {:induction false} EverythingIsStored(config: Config, commands: seq<Command>)
    ensures forall t :: AllStored(config, commands, TenantOf(Run(config, INITIAL, commands), t).documents)
    ensures forall b :: b in Run(config, INITIAL, commands).backups ==>
                          AllStored(config, commands, Run(config, INITIAL, commands).backups[b].documents)
    decreases |commands|
  {
    if commands != [] {
      var front, last := commands[..|commands| - 1], commands[|commands| - 1];
      assert commands == front + [last];
      EverythingIsStored(config, front);
      RunLast(config, INITIAL, front, last);
      var s := Run(config, INITIAL, front);
      forall t ensures AllStored(config, commands, TenantOf(Step(config, s, last), t).documents) {
        StepStores(config, front, last, t);
      }
      forall b | b in Step(config, s, last).backups ensures AllStored(config, commands, Step(config, s, last).backups[b].documents) {
        BackupSource(config, s, last, b);
        AllStoredStay(config, front, last, Step(config, s, last).backups[b].documents);
      }
    }
  }

  /** Nothing is made up and nothing is lost: after every run, restores included, what a tenant holds for an object is what
      a commit of the run submitted for it, and was answered with. */
  lemma StoredWasSubmitted(config: Config, commands: seq<Command>, tenantId: Id, objectId: Id) returns (n: nat)
    requires objectId in TenantOf(Run(config, INITIAL, commands), tenantId).documents
    ensures var record := TenantOf(Run(config, INITIAL, commands), tenantId).documents[objectId];
            && n < |commands| && commands[n].Commit? && commands[n].meta.tenantId == tenantId && commands[n].objectId == objectId
            && Submitted(commands[n], record)
            && OutcomeOf(config, Run(config, INITIAL, commands[..n]), commands[n]) == Committed(record)
  {
    var s := Run(config, INITIAL, commands);
    var record := TenantOf(s, tenantId).documents[objectId];
    EverythingIsStored(config, commands);
    assert StoredBy(config, commands, record);
    n :| 0 <= n < |commands| && Stores(config, commands, n, record);
    InitialInv(config);
    RunKeeps(config, INITIAL, commands);
    TenantIsOk(config, s, tenantId);
    assert RecordOk(record, objectId, tenantId, TenantOf(s, tenantId).nextRevision);
  }

  // ---------------------------------------------------------------------------------------------
  // Messages and audits.

  /** The message that tells of an outcome. */
  function Announcement(command: Command, outcome: Outcome): seq<Outbox.Draft> {
    var meta := command.meta;
    if command.Commit? && outcome.Committed? then
      [Outbox.Draft(meta.correlationId, meta.at, map["objectId" := command.objectId, "revision" := outcome.revision.revision],
                    meta.tenantId, "document-committed")]
    else if command.Finish? && outcome.Finished? then
      [Outbox.Draft(meta.correlationId, meta.at,
                    map["effectId" := command.effectId, "objectId" := command.objectId,
                        "status" := if command.result.EffectFailed? then "failed" else "succeeded"],
                    meta.tenantId, "effect-completed")]
    else if command.RestoreBackup? && outcome.Restored? then
      [Outbox.Draft(meta.correlationId, meta.at, map["backupId" := command.backupId], meta.tenantId, "tenant-restored")]
    else []
  }

  /** The audit that tells of an outcome. */
  function Trail(command: Command, outcome: Outcome): seq<Audit> {
    var meta := command.meta;
    match outcome
    case Committed(record) =>
      [Audit(DocumentCommitted, meta.actorId, meta.correlationId, map["objectId" := record.objectId, "revision" := record.revision],
             meta.at, AuditSucceeded)]
    case DocumentConflict =>
      if !command.Commit? then []
      else [Audit(DocumentCommitted, meta.actorId, meta.correlationId, map["objectId" := command.objectId], meta.at, AuditFailed)]
    case TenantQuotaExceeded =>
      if !command.Commit? then []
      else [Audit(DocumentCommitted, meta.actorId, meta.correlationId, map["objectId" := command.objectId], meta.at, AuditDenied)]
    case Finished =>
      if !command.Finish? then []
      else [Audit(EffectInvoked, meta.actorId, meta.correlationId, map["effectId" := command.effectId, "objectId" := command.objectId],
                  meta.at, if command.result.EffectFailed? then AuditFailed else AuditSucceeded)]
    case BackedUp(id) => [Audit(BackupCreated, meta.actorId, meta.correlationId, map["backupId" := id], meta.at, AuditSucceeded)]
    case Restored =>
      if !command.RestoreBackup? then []
      else [Audit(BackupRestored, meta.actorId, meta.correlationId, map["backupId" := command.backupId], meta.at, AuditSucceeded)]
    case Done => if command.AppendAudit? then [command.entry] else []
    case _ => []
  }

  function Announcements(config: Config, s: State, commands: seq<Command>, tenantId: Id): seq<Outbox.Draft>
    decreases |commands|
  {
    if commands == [] then []
    else Announced(config, s, commands[0], tenantId) + Announcements(config, Step(config, s, commands[0]), commands[1..], tenantId)
  }

  function Trails(config: Config, s: State, commands: seq<Command>, tenantId: Id): seq<Audit>
    decreases |commands|
  {
    if commands == [] then []
    else Trailed(config, s, commands[0], tenantId) + Trails(config, Step(config, s, commands[0]), commands[1..], tenantId)
  }

  function Drafts(published: seq<Outbox.Message>): seq<Outbox.Draft> {
    seq(|published|, k requires 0 <= k < |published| => published[k].draft)
  }

  lemma OneMoreDraft(published: seq<Outbox.Message>, m: Outbox.Message)
    ensures Drafts(published + [m]) == Drafts(published) + [m.draft]
  {
  }

  lemma PublishAppends(tenant: Tenant, meta: Meta, payload: map<string, string>, kind: string)
    ensures Drafts(Publish(tenant, meta, payload, kind).outbox.published) ==
            Drafts(tenant.outbox.published) + [Outbox.Draft(meta.correlationId, meta.at, payload, meta.tenantId, kind)]
  {
    var draft := Outbox.Draft(meta.correlationId, meta.at, payload, meta.tenantId, kind);
    OneMoreDraft(tenant.outbox.published, Outbox.Message(draft, |tenant.outbox.published| + 1));
  }

  lemma {:induction false} DeliveryPublishesNothing(outbox: Outbox.State, sequences: seq<nat>, workerId: Id, at: Time)
    ensures Outbox.AcknowledgeAll(outbox, sequences, workerId, at).published == outbox.published
  {
    if sequences != [] {
      DeliveryPublishesNothing(outbox, sequences[..|sequences| - 1], workerId, at);
    }
  }

  lemma CommitTells(config: Config, tenant: Tenant, command: Command)
    requires command.Commit?
    ensures var outcome, after := CommitOutcome(config, tenant, command), AfterCommit(config, tenant, command);
            && Drafts(after.outbox.published) == Drafts(tenant.outbox.published) + Announcement(command, outcome)
            && after.audits == tenant.audits + Trail(command, outcome)
  {
    var outcome := CommitOutcome(config, tenant, command);
    if outcome.Committed? {
      PublishAppends(tenant, command.meta, map["objectId" := command.objectId, "revision" := outcome.revision.revision], "document-committed");
    }
  }

  lemma FinishTells(tenant: Tenant, command: Command)
    requires command.Finish? && command.key in tenant.effects
    ensures var after := AfterFinish(tenant, command);
            && Drafts(after.outbox.published) == Drafts(tenant.outbox.published) + Announcement(command, Finished)
            && after.audits == tenant.audits + Trail(command, Finished)
  {
    PublishAppends(tenant, command.meta,
                   map["effectId" := command.effectId, "objectId" := command.objectId,
                       "status" := if command.result.EffectFailed? then "failed" else "succeeded"], "effect-completed");
  }

  lemma RestoreTells(tenant: Tenant, backup: Backup, command: Command)
    requires command.RestoreBackup?
    ensures var after := AfterRestore(tenant, backup, command.meta, command.backupId);
            && Drafts(after.outbox.published) == Drafts(tenant.outbox.published) + Announcement(command, Restored)
            && after.audits == tenant.audits + Trail(command, Restored)
  {
    PublishAppends(tenant, command.meta, map["backupId" := command.backupId], "tenant-restored");
  }

  lemma StepTells(config: Config, s: State, command: Command)
    ensures var tenant, after := TenantOf(s, command.meta.tenantId), TenantOf(Step(config, s, command), command.meta.tenantId);
            var outcome := OutcomeOf(config, s, command);
            && Drafts(after.outbox.published) == Drafts(tenant.outbox.published) + Announcement(command, outcome)
            && after.audits == tenant.audits + Trail(command, outcome)
  {
    var tenant := TenantOf(s, command.meta.tenantId);
    StepIsNext(config, s, command);
    match command
    case Commit(_, _, _, _) => CommitTells(config, tenant, command);
    case Begin(_, _, _) =>
    case Finish(_, key, _, _, _) =>
      if key in tenant.effects {
        FinishTells(tenant, command);
      }
    case CreateBackup(_) =>
    case RestoreBackup(_, _) =>
      if Restorable(config, s, command).Some? {
        RestoreTells(tenant, Restorable(config, s, command).value, command);
      }
    case AppendAudit(_, _) =>
    case Deliver(_, delivery) =>
      if delivery.Acknowledge? {
        DeliveryPublishesNothing(tenant.outbox, delivery.sequences, delivery.workerId, delivery.at);
      }
  }

  function Announced(config: Config, s: State, command: Command, tenantId: Id): seq<Outbox.Draft> {
    if command.meta.tenantId == tenantId then Announcement(command, OutcomeOf(config, s, command)) else []
  }

  function Trailed(config: Config, s: State, command: Command, tenantId: Id): seq<Audit> {
    if command.meta.tenantId == tenantId then Trail(command, OutcomeOf(config, s, command)) else []
  }

  lemma StepTellsTenant(config: Config, s: State, command: Command, tenantId: Id)
    ensures var tenant, after := TenantOf(s, tenantId), TenantOf(Step(config, s, command), tenantId);
            && Drafts(after.outbox.published) == Drafts(tenant.outbox.published) + Announced(config, s, command, tenantId)
            && after.audits == tenant.audits + Trailed(config, s, command, tenantId)
  {
    if command.meta.tenantId == tenantId {
      StepTells(config, s, command);
    } else {
      TenantsAreIsolated(config, s, command, tenantId);
    }
  }

  lemma Chained<T>(start: seq<T>, first: seq<T>, middle: seq<T>, rest: seq<T>, end: seq<T>)
    requires middle == start + first && end == middle + rest
    ensures end == start + (first + rest)
  {
  }

  /** Over every run a tenant's messages and its audits are those that the outcomes of its own commands call for, in order. */
  lemma TheLogTellsTheRun(config: Config, s: State, commands: seq<Command>, tenantId: Id)
    ensures var t := Run(config, s, commands);
            && Drafts(TenantOf(t, tenantId).outbox.published) ==
               Drafts(TenantOf(s, tenantId).outbox.published) + Announcements(config, s, commands, tenantId)
            && TenantOf(t, tenantId).audits == TenantOf(s, tenantId).audits + Trails(config, s, commands, tenantId)
  {
    MessagesTellTheRun(config, s, commands, tenantId);
    AuditsTellTheRun(config, s, commands, tenantId);
  }

  lemma {:induction false} MessagesTellTheRun(config: Config, s: State, commands: seq<Command>, tenantId: Id)
    ensures Drafts(TenantOf(Run(config, s, commands), tenantId).outbox.published) ==
            Drafts(TenantOf(s, tenantId).outbox.published) + Announcements(config, s, commands, tenantId)
    decreases |commands|
  {
    if commands != [] {
      var next := Step(config, s, commands[0]);
      MessagesTellTheRun(config, next, commands[1..], tenantId);
      StepTellsTenant(config, s, commands[0], tenantId);
      Chained(Drafts(TenantOf(s, tenantId).outbox.published), Announced(config, s, commands[0], tenantId),
              Drafts(TenantOf(next, tenantId).outbox.published), Announcements(config, next, commands[1..], tenantId),
              Drafts(TenantOf(Run(config, s, commands), tenantId).outbox.published));
    }
  }

  lemma {:induction false} AuditsTellTheRun(config: Config, s: State, commands: seq<Command>, tenantId: Id)
    ensures TenantOf(Run(config, s, commands), tenantId).audits == TenantOf(s, tenantId).audits + Trails(config, s, commands, tenantId)
    decreases |commands|
  {
    if commands != [] {
      var next := Step(config, s, commands[0]);
      AuditsTellTheRun(config, next, commands[1..], tenantId);
      StepTellsTenant(config, s, commands[0], tenantId);
      Chained(TenantOf(s, tenantId).audits, Trailed(config, s, commands[0], tenantId), TenantOf(next, tenantId).audits,
              Trails(config, next, commands[1..], tenantId), TenantOf(Run(config, s, commands), tenantId).audits);
    }
  }
}
