/** The life of one delivery over runs: when leases return it, and what acknowledging and releasing it takes. */
module OutboxRuns {
  import opened Outbox

  /** Nobody leases the sequence in this run, and nobody names it in an acknowledgement or release. */
  ghost predicate Untouched(s: State, commands: seq<Command>, sequence: nat) {
    forall n :: 0 <= n < |commands| ==>
      && sequence !in Leased(Run(s, commands[..n]), commands[n])
      && (commands[n].Acknowledge? || commands[n].Release? ==> sequence !in commands[n].sequences)
  }

  /** The deliveries published before this one that are still pending. */
  function OlderPending(s: State, sequence: nat): set<nat> {
    set p | p in s.deliveries && p < sequence
  }

  /** A lease with room for everything older. */
  predicate Roomy(s: State, take: Command, sequence: nat) {
    take.Take? && ValidCommand(take) && |OlderPending(s, sequence)| < take.limit
  }

  lemma UntouchedFirst(s: State, commands: seq<Command>, sequence: nat)
    requires commands != [] && Untouched(s, commands, sequence)
    ensures sequence !in Leased(s, commands[0])
    ensures commands[0].Acknowledge? || commands[0].Release? ==> sequence !in commands[0].sequences
    ensures Untouched(Step(s, commands[0]), commands[1..], sequence)
  {
    assert commands[..0] == [];
    var t := Step(s, commands[0]);
    forall n | 0 <= n < |commands[1..]|
      ensures sequence !in Leased(Run(t, commands[1..][..n]), commands[1..][n])
      ensures commands[1..][n].Acknowledge? || commands[1..][n].Release? ==> sequence !in commands[1..][n].sequences
    {
      assert commands[..n + 1][1..] == commands[1..][..n] && commands[n + 1] == commands[1..][n];
      assert sequence !in Leased(Run(s, commands[..n + 1]), commands[n + 1]);
    }
  }

  lemma StepKeepsRecord(s: State, command: Command, sequence: nat)
    requires Conserved(s) && sequence in s.deliveries && sequence !in Leased(s, command)
    requires command.Acknowledge? || command.Release? ==> sequence !in command.sequences
    ensures sequence in Step(s, command).deliveries && Step(s, command).deliveries[sequence] == s.deliveries[sequence]
  {
    if command.Acknowledge? {
      AcknowledgeConserves(s, command.sequences, command.workerId, command.at);
    }
  }

  lemma {:induction false} UntouchedKeepsRecord(s: State, commands: seq<Command>, sequence: nat)
    requires Conserved(s) && sequence in s.deliveries && Untouched(s, commands, sequence)
    ensures Conserved(Run(s, commands))
    ensures sequence in Run(s, commands).deliveries && Run(s, commands).deliveries[sequence] == s.deliveries[sequence]
    decreases |commands|
  {
    if commands != [] {
      UntouchedFirst(s, commands, sequence);
      StepKeepsRecord(s, commands[0], sequence);
      StepConserves(s, commands[0]);
      UntouchedKeepsRecord(Step(s, commands[0]), commands[1..], sequence);
    }
  }

  lemma OlderAreFewer(s: State, sequence: nat, at: Time)
    ensures |OlderLeasable(s, sequence, at)| <= |OlderPending(s, sequence)|
  {
    Fewer(OlderLeasable(s, sequence, at), OlderPending(s, sequence));
  }

  // ---------------------------------------------------------------------------------------------
  // When a delivery is handed out.

  /** After a lease until U, and whatever happens to others, a lease with room for the older ones takes the delivery over
      exactly when it is dated U or later. */
  lemma ExpiredIsTakenOver(s: State, lease: Command, commands: seq<Command>, take: Command, sequence: nat)
    requires Conserved(s) && sequence in Leased(s, lease) && Untouched(Step(s, lease), commands, sequence)
    requires Roomy(Run(Step(s, lease), commands), take, sequence)
    ensures sequence in Leased(Run(Step(s, lease), commands), take) <==> take.leasedAt >= lease.leaseUntil
  {
    var t := Run(Step(s, lease), commands);
    LeaseTakesTheOldest(s, lease.leasedAt, lease.limit);
    LeasedIsHeld(s, lease, sequence);
    StepConserves(s, lease);
    UntouchedKeepsRecord(Step(s, lease), commands, sequence);
    LeaseTakesTheOldest(t, take.leasedAt, take.limit);
    if take.leasedAt >= lease.leaseUntil {
      OlderAreFewer(t, sequence, take.leasedAt);
      PendingIsLeasedAgain(t, take, sequence);
    }
  }

  /** The same for any number of leases, by whichever workers, that have room together: at-least-once delivery. */
  lemma ExpiredIsReached(s: State, lease: Command, commands: seq<Command>, takes: seq<Command>, at: Time, sequence: nat) returns (n: nat)
    requires Conserved(s) && sequence in Leased(s, lease) && Untouched(Step(s, lease), commands, sequence)
    requires TakesAt(takes, at) && at >= lease.leaseUntil
    requires |OlderPending(Run(Step(s, lease), commands), sequence)| < Room(takes)
    ensures n < |takes| && sequence in Leased(Run(Run(Step(s, lease), commands), takes[..n]), takes[n])
  {
    var t := Run(Step(s, lease), commands);
    LeaseTakesTheOldest(s, lease.leasedAt, lease.limit);
    LeasedIsHeld(s, lease, sequence);
    StepConserves(s, lease);
    UntouchedKeepsRecord(Step(s, lease), commands, sequence);
    OlderAreFewer(t, sequence, at);
    n := EveryDeliveryIsReached(t, takes, at, sequence);
  }

  /** What its owner released is handed out exactly from the time on that the release names, expired or not. */
  lemma ReleasedIsHandedOut(s: State, release: Command, commands: seq<Command>, take: Command, sequence: nat)
    requires Conserved(s) && release.Release? && ValidCommand(release) && sequence in release.sequences
    requires sequence in s.deliveries && s.deliveries[sequence].lease.Some? && s.deliveries[sequence].lease.value.owner == release.workerId
    requires Untouched(Step(s, release), commands, sequence) && Roomy(Run(Step(s, release), commands), take, sequence)
    ensures sequence in Leased(Run(Step(s, release), commands), take) <==> take.leasedAt >= release.availableAt
  {
    var t := Run(Step(s, release), commands);
    StepConserves(s, release);
    UntouchedKeepsRecord(Step(s, release), commands, sequence);
    LeaseTakesTheOldest(t, take.leasedAt, take.limit);
    if take.leasedAt >= release.availableAt {
      OlderAreFewer(t, sequence, take.leasedAt);
      PendingIsLeasedAgain(t, take, sequence);
    }
  }

  /** A publication is handed out exactly from the time of its occurrence on. */
  lemma PublicationIsHandedOut(s: State, draft: Draft, commands: seq<Command>, take: Command)
    requires Conserved(s) && Untouched(Step(s, Publish(draft)), commands, |s.published| + 1)
    requires Roomy(Run(Step(s, Publish(draft)), commands), take, |s.published| + 1)
    ensures |s.published| + 1 in Leased(Run(Step(s, Publish(draft)), commands), take) <==> take.leasedAt >= draft.occurredAt
  {
    var t, sequence := Run(Step(s, Publish(draft)), commands), |s.published| + 1;
    StepConserves(s, Publish(draft));
    UntouchedKeepsRecord(Step(s, Publish(draft)), commands, sequence);
    LeaseTakesTheOldest(t, take.leasedAt, take.limit);
    if take.leasedAt >= draft.occurredAt {
      OlderAreFewer(t, sequence, take.leasedAt);
      PendingIsLeasedAgain(t, take, sequence);
    }
  }

  // ---------------------------------------------------------------------------------------------
  // Who may acknowledge and release it.

  /** Under a lease until U an acknowledgement removes the delivery exactly when it comes from the worker that holds the
      lease, no later than U. */
  lemma OnlyTheHolderAcknowledges(s: State, lease: Command, commands: seq<Command>, acknowledge: Command, sequence: nat)
    requires Conserved(s) && sequence in Leased(s, lease) && Untouched(Step(s, lease), commands, sequence)
    requires acknowledge.Acknowledge? && ValidCommand(acknowledge) && sequence in acknowledge.sequences
    ensures var t := Run(Step(s, lease), commands);
            sequence !in Step(t, acknowledge).deliveries <==>
            acknowledge.workerId == lease.workerId && acknowledge.at <= lease.leaseUntil
  {
    var t := Run(Step(s, lease), commands);
    LeasedIsHeld(s, lease, sequence);
    StepConserves(s, lease);
    UntouchedKeepsRecord(Step(s, lease), commands, sequence);
    AcknowledgeConserves(t, acknowledge.sequences, acknowledge.workerId, acknowledge.at);
  }

  /** A release ends the lease exactly when it comes from the worker that holds it; from others it changes nothing. */
  lemma OnlyTheHolderReleases(s: State, lease: Command, commands: seq<Command>, release: Command, sequence: nat)
    requires Conserved(s) && sequence in Leased(s, lease) && Untouched(Step(s, lease), commands, sequence)
    requires release.Release? && ValidCommand(release) && sequence in release.sequences
    ensures var t := Run(Step(s, lease), commands);
            && sequence in t.deliveries && sequence in Step(t, release).deliveries
            && (Step(t, release).deliveries[sequence].lease.None? <==> release.workerId == lease.workerId)
            && (release.workerId != lease.workerId ==> Step(t, release).deliveries[sequence] == t.deliveries[sequence])
  {
    LeasedIsHeld(s, lease, sequence);
    StepConserves(s, lease);
    UntouchedKeepsRecord(Step(s, lease), commands, sequence);
  }

  // ---------------------------------------------------------------------------------------------
  // What a worker is told.

  /** How many leases of the run return the sequence. */
  function TimesLeased(s: State, commands: seq<Command>, sequence: nat): nat
    decreases |commands|
  {
    if commands == [] then 0
    else (if sequence in Leased(s, commands[0]) then 1 else 0) + TimesLeased(Step(s, commands[0]), commands[1..], sequence)
  }

  lemma {:induction false} PendingFromTheStart(s: State, commands: seq<Command>, sequence: nat)
    requires Conserved(s) && sequence in Run(s, commands).deliveries && sequence <= |s.published|
    ensures sequence in s.deliveries
  {
    RunConserves(s, commands);
  }

  /** A pending delivery counts its leases since its publication and carries the message published under its sequence. */
  lemma {:induction false} AttemptsCountLeases(s: State, commands: seq<Command>, sequence: nat)
    requires Conserved(s) && sequence in s.deliveries && sequence in Run(s, commands).deliveries
    ensures Run(s, commands).deliveries[sequence].attempts == s.deliveries[sequence].attempts + TimesLeased(s, commands, sequence)
    ensures Run(s, commands).deliveries[sequence].message == s.deliveries[sequence].message
    decreases |commands|
  {
    if commands != [] {
      var t := Step(s, commands[0]);
      StepConserves(s, commands[0]);
      PendingFromTheStart(t, commands[1..], sequence);
      if commands[0].Acknowledge? {
        AcknowledgeConserves(s, commands[0].sequences, commands[0].workerId, commands[0].at);
      }
      AttemptsCountLeases(t, commands[1..], sequence);
    }
  }

  /** From its publication on, the attempts of a pending delivery count the leases that returned it. */
  lemma AttemptsSincePublication(s: State, draft: Draft, commands: seq<Command>)
    requires Conserved(s) && |s.published| + 1 in Run(Step(s, Publish(draft)), commands).deliveries
    ensures var sequence, t := |s.published| + 1, Step(s, Publish(draft));
            && Run(t, commands).deliveries[sequence].attempts == TimesLeased(t, commands, sequence)
            && Run(t, commands).deliveries[sequence].message == Message(draft, sequence)
  {
    StepConserves(s, Publish(draft));
    AttemptsCountLeases(Step(s, Publish(draft)), commands, |s.published| + 1);
  }
}
