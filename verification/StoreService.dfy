/** The in-memory store: its maps are reassigned step by step, and every method takes the model exactly one step. */
module StoreService {
  import opened Wrappers
  import opened Store
  import opened StoreRuns

  class ReferenceControlPlaneStore {
    const config: Config
    var backups: map<Id, Backup>
    var tenants: map<Id, Tenant>
    var nextBackup: nat

    function Model(): State
      reads this
    {
      State(tenants, backups, nextBackup)
    }

    /** The state is one that runs of the model lead to: quotas hold, records and backups are sound. */
    ghost predicate Valid()
      reads this
    {
      Inv(config, Model())
    }

    constructor (config: Config)
      ensures Valid() && Model() == INITIAL && this.config == config
    {
      this.config := config;
      backups, tenants, nextBackup := map[], map[], 1;
      new;
      InitialInv(config);
    }

    // What the store offers: every call is one step of the model and keeps the state valid.

    method CommitDocument(command: Command) returns (outcome: Outcome)
      requires Valid() && command.Commit?
      modifies this
      ensures Valid() && Model() == Step(config, old(Model()), command) && outcome == OutcomeOf(config, old(Model()), command)
    {
      StepKeeps(config, Model(), command);
      outcome := Commit(command);
    }

    method BeginEffect(command: Command) returns (outcome: Outcome)
      requires Valid() && command.Begin?
      modifies this
      ensures Valid() && Model() == Step(config, old(Model()), command) && outcome == OutcomeOf(config, old(Model()), command)
    {
      StepKeeps(config, Model(), command);
      outcome := Lease(command);
    }

    /** Completing without a lease fails and changes nothing. */
    method FinishEffect(command: Command) returns (outcome: Outcome)
      requires Valid() && command.Finish?
      modifies this
      ensures Valid() && Model() == Step(config, old(Model()), command) && outcome == OutcomeOf(config, old(Model()), command)
    {
      StepKeeps(config, Model(), command);
      outcome := Complete(command);
    }

    method TakeBackup(meta: Meta) returns (outcome: Outcome)
      requires Valid()
      modifies this
      ensures Valid() && Model() == Step(config, old(Model()), CreateBackup(meta))
      ensures outcome == OutcomeOf(config, old(Model()), CreateBackup(meta))
    {
      StepKeeps(config, Model(), CreateBackup(meta));
      outcome := Copy(meta);
    }

    method Restore(meta: Meta, backupId: Id) returns (outcome: Outcome)
      requires Valid()
      modifies this
      ensures Valid() && Model() == Step(config, old(Model()), RestoreBackup(meta, backupId))
      ensures outcome == OutcomeOf(config, old(Model()), RestoreBackup(meta, backupId))
    {
      StepKeeps(config, Model(), RestoreBackup(meta, backupId));
      outcome := PutBack(meta, backupId);
    }

    // How the maps are reassigned.

    /** The tenant's state, created on first use. */
    method StateFor(tenantId: Id) returns (state: Tenant)
      modifies this`tenants
      ensures state == old(TenantOf(Model(), tenantId)) && Model() == With(old(Model()), tenantId, state)
    {
      if tenantId !in tenants {
        tenants := tenants[tenantId := EMPTY_TENANT];
      }
      state := tenants[tenantId];
    }

    method RecordAudit(meta: Meta, action: Action, outcome: AuditOutcome, details: map<string, Id>)
      modifies this`tenants
      ensures Model() == With(old(Model()), meta.tenantId, Audited(old(TenantOf(Model(), meta.tenantId)), meta, action, outcome, details))
    {
      var state := StateFor(meta.tenantId);
      var audit := Audit(action, meta.actorId, meta.correlationId, details, meta.at, outcome);
      tenants := tenants[meta.tenantId := state.(audits := state.audits + [audit])];
    }

    method PublishMessage(meta: Meta, payload: map<string, string>, kind: string)
      modifies this`tenants
      ensures Model() == With(old(Model()), meta.tenantId, Publish(old(TenantOf(Model(), meta.tenantId)), meta, payload, kind))
    {
      var state := StateFor(meta.tenantId);
      var draft := Outbox.Draft(meta.correlationId, meta.at, payload, meta.tenantId, kind);
      tenants := tenants[meta.tenantId := state.(outbox := Outbox.Step(state.outbox, Outbox.Publish(draft)))];
    }

    method Commit(command: Command) returns (outcome: Outcome)
      requires command.Commit?
      modifies this
      ensures Model() == Step(config, old(Model()), command) && outcome == OutcomeOf(config, old(Model()), command)
    {
      var tenantId := command.meta.tenantId;
      var state := StateFor(tenantId);
      var current := if command.objectId in state.documents then Some(state.documents[command.objectId]) else None;
      if !MatchesExpected(current, command.expected) {
        RecordAudit(command.meta, DocumentCommitted, AuditFailed, map["objectId" := command.objectId]);
        return DocumentConflict;
      }
      if QuotaExceeded(current, |state.documents|, config.maxDocuments) {
        RecordAudit(command.meta, DocumentCommitted, AuditDenied, map["objectId" := command.objectId]);
        return TenantQuotaExceeded;
      }
      outcome := AcceptCommit(command, state, current);
    }

    method AcceptCommit(command: Command, state: Tenant, current: Option<Revision>) returns (outcome: Outcome)
      requires command.Commit? && state == TenantOf(Model(), command.meta.tenantId) && current == Current(state, command.objectId)
      requires CommitOutcome(config, state, command).Committed?
      modifies this`tenants
      ensures Model() == With(old(Model()), command.meta.tenantId, AfterCommit(config, state, command))
      ensures outcome == CommitOutcome(config, state, command)
    {
      var revision := RevisionName(state.nextRevision);
      var record := Record(command, revision, RevisionOf(current));
      var documents := state.documents[command.objectId := record];
      tenants := tenants[command.meta.tenantId := state.(documents := documents, nextRevision := state.nextRevision + 1)];
      var details := map["objectId" := command.objectId, "revision" := revision];
      PublishMessage(command.meta, details, "document-committed");
      RecordAudit(command.meta, DocumentCommitted, AuditSucceeded, details);
      outcome := Committed(record);
    }

    method Lease(command: Command) returns (outcome: Outcome)
      requires command.Begin?
      modifies this
      ensures Model() == Step(config, old(Model()), command) && outcome == OutcomeOf(config, old(Model()), command)
    {
      var state := StateFor(command.meta.tenantId);
      if command.key !in state.effects {
        var effects := state.effects[command.key := StoredEffect(command.fingerprint, true, None)];
        tenants := tenants[command.meta.tenantId := state.(effects := effects)];
        return Leased(Acquired);
      }
      var stored := state.effects[command.key];
      if stored.fingerprint != command.fingerprint {
        return Leased(LeaseConflict);
      }
      outcome := Leased(if stored.pending || stored.result.None? then InProgress else Replay(stored.result.value));
    }

    method Complete(command: Command) returns (outcome: Outcome)
      requires command.Finish?
      modifies this
      ensures Model() == Step(config, old(Model()), command) && outcome == OutcomeOf(config, old(Model()), command)
    {
      var state := StateFor(command.meta.tenantId);
      if command.key !in state.effects {
        return NoLease;
      }
      var stored := state.effects[command.key].(pending := false, result := Some(command.result));
      tenants := tenants[command.meta.tenantId := state.(effects := state.effects[command.key := stored])];
      var details := map["effectId" := command.effectId, "objectId" := command.objectId];
      PublishMessage(command.meta, details["status" := StatusOf(command.result)], "effect-completed");
      RecordAudit(command.meta, EffectInvoked, if command.result.Completed? then AuditSucceeded else AuditFailed, details);
      outcome := Finished;
    }

    method Copy(meta: Meta) returns (outcome: Outcome)
      modifies this
      ensures Model() == Step(config, old(Model()), CreateBackup(meta)) && outcome == OutcomeOf(config, old(Model()), CreateBackup(meta))
    {
      var state := StateFor(meta.tenantId);
      var backupId := BackupName(nextBackup);
      nextBackup := nextBackup + 1;
      var digest := config.digest(meta.tenantId, state.documents, state.effects);
      backups := backups[backupId := Backup(digest, state.documents, state.effects, meta.tenantId)];
      RecordAudit(meta, BackupCreated, AuditSucceeded, map["backupId" := backupId]);
      outcome := BackedUp(backupId);
    }

    method PutBack(meta: Meta, backupId: Id) returns (outcome: Outcome)
      modifies this
      ensures Model() == Step(config, old(Model()), RestoreBackup(meta, backupId))
      ensures outcome == OutcomeOf(config, old(Model()), RestoreBackup(meta, backupId))
    {
      if backupId !in backups || backups[backupId].tenantId != meta.tenantId {
        return BackupNotFound;
      }
      var backup := backups[backupId];
      if config.digest(meta.tenantId, backup.documents, backup.effects) != backup.digest {
        return BackupIntegrityFailed;
      }
      var state := StateFor(meta.tenantId);
      tenants := tenants[meta.tenantId := state.(documents := backup.documents, effects := backup.effects)];
      PublishMessage(meta, map["backupId" := backupId], "tenant-restored");
      RecordAudit(meta, BackupRestored, AuditSucceeded, map["backupId" := backupId]);
      outcome := Restored;
    }
  }
}
