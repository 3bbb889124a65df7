/** The tenant outbox: leased at-least-once delivery beside a bounded realtime buffer. */
module Outbox {
  import opened Wrappers
  import opened Retention

  type Id = string
  /** Instants in milliseconds. */
  type Time = int

  datatype Draft = Draft(correlationId: Id, occurredAt: Time, payload: map<string, string>, tenantId: Id, kind: string)
  datatype Message = Message(draft: Draft, sequence: nat)
  datatype Delivery = Delivery(attempts: nat, availableAt: Time, lease: Option<Lease>, message: Message)
  datatype Lease = Lease(owner: Id, until: Time)
  datatype Entry = Entry(attempts: nat, message: Message)

  datatype Command =
    | Publish(draft: Draft)
    | Take(workerId: Id, leasedAt: Time, leaseUntil: Time, limit: int)
    | Acknowledge(workerId: Id, at: Time, sequences: seq<nat>)
    | Release(workerId: Id, availableAt: Time, sequences: seq<nat>)

  /** `published` and `acknowledged` are histories: every message ever published, every sequence acknowledged in
      order. The service itself keeps the newest messages, the pending deliveries and the next sequence. */
  datatype State = State(published: seq<Message>, deliveries: map<nat, Delivery>, acknowledged: seq<nat>)

  // ---------------------------------------------------------------------------------------------
  // Command validity.

  predicate DistinctNats(values: seq<nat>) {
    forall i, j :: 0 <= i < j < |values| ==> values[i] != values[j]
  }

  predicate ValidCommand(command: Command) {
    match command
    case Publish(_) => true
    case Take(_, at, until, limit) => until > at && 1 <= limit <= 100
    case Acknowledge(_, _, sequences) => ValidSequences(sequences)
    case Release(_, _, sequences) => ValidSequences(sequences)
  }

  predicate ValidSequences(sequences: seq<nat>) {
    1 <= |sequences| <= 100 && (forall k :: 0 <= k < |sequences| ==> sequences[k] > 0) && DistinctNats(sequences)
  }

  // ---------------------------------------------------------------------------------------------
  // Steps.

  function Published(s: State, draft: Draft): State {
    var message := Message(draft, |s.published| + 1);
    s.(published := s.published + [message],
       deliveries := s.deliveries[message.sequence := Delivery(0, draft.occurredAt, None, message)])
  }

  predicate CanLease(record: Delivery, at: Time) {
    record.availableAt <= at && (record.lease.None? || record.lease.value.until <= at)
  }

  /** The pending sequences below `bound` that a lease dated `at` may take, in publication order. */
  function Leasable(deliveries: map<nat, Delivery>, bound: nat, at: Time): seq<nat> {
    if bound == 0 then []
    else
      Leasable(deliveries, bound - 1, at)
      + if bound - 1 in deliveries && CanLease(deliveries[bound - 1], at) then [bound - 1] else []
  }

  function FirstOf(sequences: seq<nat>, limit: int): seq<nat>
    requires limit >= 0
  {
    if |sequences| <= limit then sequences else sequences[..limit]
  }

  function Chosen(s: State, at: Time, limit: int): seq<nat>
    requires limit >= 0
  {
    FirstOf(Leasable(s.deliveries, |s.published| + 1, at), limit)
  }

  function Acquired(record: Delivery, workerId: Id, until: Time): Delivery {
    record.(attempts := record.attempts + 1, lease := Some(Lease(workerId, until)))
  }

  function AcquireAll(deliveries: map<nat, Delivery>, chosen: seq<nat>, workerId: Id, until: Time): map<nat, Delivery> {
    map k | k in deliveries :: if k in chosen then Acquired(deliveries[k], workerId, until) else deliveries[k]
  }

  function Entries(deliveries: map<nat, Delivery>, chosen: seq<nat>): seq<Entry>
    requires forall k :: 0 <= k < |chosen| ==> chosen[k] in deliveries
  {
    seq(|chosen|, i requires 0 <= i < |chosen| => Entry(deliveries[chosen[i]].attempts, deliveries[chosen[i]].message))
  }

  predicate OwnsCurrentLease(deliveries: map<nat, Delivery>, sequence: nat, workerId: Id, at: Time) {
    && sequence in deliveries && deliveries[sequence].lease.Some?
    && deliveries[sequence].lease.value.owner == workerId && at <= deliveries[sequence].lease.value.until
  }

  function AcknowledgeAll(s: State, sequences: seq<nat>, workerId: Id, at: Time): State {
    if sequences == [] then s
    else
      var front := AcknowledgeAll(s, sequences[..|sequences| - 1], workerId, at);
      var last := sequences[|sequences| - 1];
      if OwnsCurrentLease(front.deliveries, last, workerId, at)
      then front.(deliveries := front.deliveries - {last}, acknowledged := front.acknowledged + [last])
      else front
  }

  predicate Owns(deliveries: map<nat, Delivery>, sequence: nat, workerId: Id) {
    sequence in deliveries && deliveries[sequence].lease.Some? && deliveries[sequence].lease.value.owner == workerId
  }

  function OwnedCount(deliveries: map<nat, Delivery>, sequences: seq<nat>, workerId: Id): nat {
    if sequences == [] then 0
    else OwnedCount(deliveries, sequences[..|sequences| - 1], workerId)
         + if Owns(deliveries, sequences[|sequences| - 1], workerId) then 1 else 0
  }

  /** Releasing does not check the lease's expiry, only its owner. */
  function ReleaseAll(deliveries: map<nat, Delivery>, sequences: seq<nat>, workerId: Id, availableAt: Time): map<nat, Delivery> {
    map k | k in deliveries ::
      if k in sequences && Owns(deliveries, k, workerId)
      then deliveries[k].(availableAt := availableAt, lease := None) else deliveries[k]
  }

  /** An invalid command is refused and changes nothing. */
  function Step(s: State, command: Command): State {
    if !ValidCommand(command) then s
    else
      match command
      case Publish(draft) => Published(s, draft)
      case Take(workerId, at, until, limit) =>
        s.(deliveries := AcquireAll(s.deliveries, Chosen(s, at, limit), workerId, until))
      case Acknowledge(workerId, at, sequences) => AcknowledgeAll(s, sequences, workerId, at)
      case Release(workerId, availableAt, sequences) =>
        s.(deliveries := ReleaseAll(s.deliveries, sequences, workerId, availableAt))
  }

  /** The sequences a command hands out. */
  function Leased(s: State, command: Command): seq<nat> {
    if command.Take? && ValidCommand(command) then Chosen(s, command.leasedAt, command.limit) else []
  }

  function Run(s: State, commands: seq<Command>): State
    decreases |commands|
  {
    if commands == [] then s else Run(Step(s, commands[0]), commands[1..])
  }

  // ---------------------------------------------------------------------------------------------
  // Conservation.

  /** Every published sequence is either pending or was acknowledged exactly once. */
  ghost predicate Conserved(s: State) {
    && (forall k :: 0 <= k < |s.published| ==> s.published[k].sequence == k + 1)
    && (forall q :: q in s.deliveries <==> 1 <= q <= |s.published| && q !in s.acknowledged)
    && (forall q :: q in s.deliveries ==> s.deliveries[q].message == s.published[q - 1])
    && (forall q :: q in s.acknowledged ==> 1 <= q <= |s.published|)
    && DistinctNats(s.acknowledged)
  }

  lemma {:induction false} LeasableMembers(deliveries: map<nat, Delivery>, bound: nat, at: Time)
    ensures forall q :: q in Leasable(deliveries, bound, at) <==> q < bound && q in deliveries && CanLease(deliveries[q], at)
    ensures forall i, j :: 0 <= i < j < |Leasable(deliveries, bound, at)| ==>
              Leasable(deliveries, bound, at)[i] < Leasable(deliveries, bound, at)[j]
  {
    if bound > 0 {
      LeasableMembers(deliveries, bound - 1, at);
      var shorter := Leasable(deliveries, bound - 1, at);
      forall i | 0 <= i < |shorter| ensures shorter[i] < bound - 1 {
        assert shorter[i] in shorter;
      }
    }
  }

  /** A lease takes the oldest leasable deliveries, as many as its limit allows, and nothing else. */
  lemma LeaseTakesTheOldest(s: State, at: Time, limit: int)
    requires Conserved(s) && limit >= 0
    ensures var chosen := Chosen(s, at, limit);
            && (forall i, j :: 0 <= i < j < |chosen| ==> chosen[i] < chosen[j])
            && (forall q :: q in chosen ==> q in s.deliveries && CanLease(s.deliveries[q], at))
            && |chosen| <= limit
            && (forall q :: q in s.deliveries && CanLease(s.deliveries[q], at) && q !in chosen ==>
                  |chosen| == limit && forall p :: p in chosen ==> p < q)
  {
    var all, chosen := Leasable(s.deliveries, |s.published| + 1, at), Chosen(s, at, limit);
    LeasableMembers(s.deliveries, |s.published| + 1, at);
    forall q | q in s.deliveries && CanLease(s.deliveries[q], at) && q !in chosen
      ensures |chosen| == limit && forall p :: p in chosen ==> p < q
    {
      assert forall i :: 0 <= i < |chosen| ==> all[i] == chosen[i] && all[i] in chosen;
      assert q in all;
      var j :| 0 <= j < |all| && all[j] == q;
      forall p | p in chosen ensures p < q {
        var i :| 0 <= i < |chosen| && chosen[i] == p;
        assert all[i] == p;
      }
    }
  }

  lemma {:induction false} AcknowledgeConserves(s: State, sequences: seq<nat>, workerId: Id, at: Time)
    requires Conserved(s)
    ensures var t := AcknowledgeAll(s, sequences, workerId, at);
            && Conserved(t) && t.published == s.published && s.acknowledged <= t.acknowledged
            && (forall q :: q in t.deliveries ==> q in s.deliveries && t.deliveries[q] == s.deliveries[q])
            && (forall q :: q in s.deliveries ==>
                  (q !in t.deliveries <==> q in sequences && OwnsCurrentLease(s.deliveries, q, workerId, at)))
            && (forall q :: q in t.acknowledged <==>
                  q in s.acknowledged || (q in sequences && OwnsCurrentLease(s.deliveries, q, workerId, at)))
    decreases |sequences|
  {
    if sequences != [] {
      var front, last := sequences[..|sequences| - 1], sequences[|sequences| - 1];
      AcknowledgeConserves(s, front, workerId, at);
      assert sequences == front + [last];
      if OwnsCurrentLease(AcknowledgeAll(s, front, workerId, at).deliveries, last, workerId, at) {
        AcknowledgeOne(AcknowledgeAll(s, front, workerId, at), last, workerId, at);
      }
    }
  }

  lemma AcknowledgeOne(s: State, sequence: nat, workerId: Id, at: Time)
    requires Conserved(s) && OwnsCurrentLease(s.deliveries, sequence, workerId, at)
    ensures Conserved(s.(deliveries := s.deliveries - {sequence}, acknowledged := s.acknowledged + [sequence]))
  {
  }

  lemma StepConserves(s: State, command: Command)
    requires Conserved(s)
    ensures Conserved(Step(s, command))
    ensures s.published <= Step(s, command).published && s.acknowledged <= Step(s, command).acknowledged
  {
    if command.Acknowledge? {
      AcknowledgeConserves(s, command.sequences, command.workerId, command.at);
    }
  }

  /** Over any run nothing published is lost and nothing is acknowledged twice. */
  lemma {:induction false} RunConserves(s: State, commands: seq<Command>)
    requires Conserved(s)
    ensures Conserved(Run(s, commands))
    ensures s.published <= Run(s, commands).published && s.acknowledged <= Run(s, commands).acknowledged
    decreases |commands|
  {
    if commands != [] {
      StepConserves(s, commands[0]);
      RunConserves(Step(s, commands[0]), commands[1..]);
    }
  }

  // ---------------------------------------------------------------------------------------------
  // Exclusion.

  /** No command of the run releases this sequence for this worker, and every lease is dated before `until`. */
  ghost predicate Undisturbed(commands: seq<Command>, sequence: nat, workerId: Id, until: Time) {
    forall k :: 0 <= k < |commands| ==>
      && (commands[k].Take? ==> commands[k].leasedAt < until)
      && (commands[k].Release? && commands[k].workerId == workerId ==> sequence !in commands[k].sequences)
  }

  /** The sequence is under this worker's lease, or already acknowledged. */
  ghost predicate Held(s: State, sequence: nat, workerId: Id, until: Time) {
    && 1 <= sequence <= |s.published|
    && (sequence in s.deliveries ==> s.deliveries[sequence].lease == Some(Lease(workerId, until)))
  }

  lemma HeldIsNotLeased(s: State, command: Command, sequence: nat, workerId: Id, until: Time)
    requires Conserved(s) && Held(s, sequence, workerId, until) && Undisturbed([command], sequence, workerId, until)
    ensures sequence !in Leased(s, command)
    ensures Held(Step(s, command), sequence, workerId, until)
  {
    assert [command][0] == command;
    if command.Take? && ValidCommand(command) {
      LeaseTakesTheOldest(s, command.leasedAt, command.limit);
    } else if command.Acknowledge? {
      AcknowledgeConserves(s, command.sequences, command.workerId, command.at);
    }
  }

  /** After a lease until U, no lease command dated before U returns the sequence again, in any run in which the
      owner does not release it. */
  lemma {:induction false} LeaseExcludes(s: State, commands: seq<Command>, sequence: nat, workerId: Id, until: Time, n: nat)
    requires Conserved(s) && Held(s, sequence, workerId, until) && Undisturbed(commands, sequence, workerId, until)
    requires n < |commands|
    ensures sequence !in Leased(Run(s, commands[..n]), commands[n])
    decreases |commands|
  {
    assert Undisturbed([commands[0]], sequence, workerId, until);
    HeldIsNotLeased(s, commands[0], sequence, workerId, until);
    StepConserves(s, commands[0]);
    if n > 0 {
      assert commands[..n][1..] == commands[1..][..n - 1];
      LeaseExcludes(Step(s, commands[0]), commands[1..], sequence, workerId, until, n - 1);
    }
  }

  /** The lease that starts the exclusion: everything a lease returns is held by its worker until its end. */
  lemma LeasedIsHeld(s: State, command: Command, sequence: nat)
    requires Conserved(s) && sequence in Leased(s, command)
    ensures Held(Step(s, command), sequence, command.workerId, command.leaseUntil)
    ensures sequence in s.deliveries && sequence in Step(s, command).deliveries
    ensures Step(s, command).deliveries[sequence].attempts == s.deliveries[sequence].attempts + 1
  {
    LeaseTakesTheOldest(s, command.leasedAt, command.limit);
  }

  // ---------------------------------------------------------------------------------------------
  // At-least-once delivery.

  /** The deliveries before this one that a lease dated `at` may take. */
  function OlderLeasable(s: State, sequence: nat, at: Time): set<nat> {
    set p | p in s.deliveries && p < sequence && CanLease(s.deliveries[p], at)
  }

  predicate Ascending(values: seq<nat>) {
    forall i, j :: 0 <= i < j < |values| ==> values[i] < values[j]
  }

  function Members(values: seq<nat>): set<nat> {
    if values == [] then {} else Members(values[..|values| - 1]) + {values[|values| - 1]}
  }

  lemma {:induction false} MembersMeaning(values: seq<nat>)
    ensures forall v :: v in Members(values) <==> v in values
  {
    if values != [] {
      MembersMeaning(values[..|values| - 1]);
      assert values == values[..|values| - 1] + [values[|values| - 1]];
    }
  }

  lemma {:induction false} MembersCount(values: seq<nat>)
    requires Ascending(values)
    ensures |Members(values)| == |values|
  {
    if values != [] {
      var front, last := values[..|values| - 1], values[|values| - 1];
      MembersCount(front);
      MembersMeaning(front);
      assert last !in front;
    }
  }

  lemma Fewer(a: set<nat>, b: set<nat>)
    requires a <= b
    ensures |a| <= |b| && |b - a| == |b| - |a|
  {
    assert b == a + (b - a);
  }

  /** What a lease takes is as many deliveries as it returns; a leasable one that it passes over comes after all of them. */
  lemma TakenMembers(s: State, take: Command, sequence: nat)
    requires Conserved(s) && take.Take? && ValidCommand(take)
    requires sequence in s.deliveries && CanLease(s.deliveries[sequence], take.leasedAt)
    ensures |Members(Leased(s, take))| == |Leased(s, take)| <= take.limit
    ensures sequence in Leased(s, take) ==> OlderLeasable(s, sequence, take.leasedAt) + {sequence} <= Members(Leased(s, take))
    ensures sequence !in Leased(s, take) ==>
              |Leased(s, take)| == take.limit && Members(Leased(s, take)) <= OlderLeasable(s, sequence, take.leasedAt)
  {
    LeaseTakesTheOldest(s, take.leasedAt, take.limit);
    MembersCount(Leased(s, take));
    MembersMeaning(Leased(s, take));
  }

  /** A delivery that may be leased is leased exactly when fewer older ones may be than the lease has room for, however many
      others are pending, waiting or leased to somebody else. */
  lemma PendingIsLeasedAgain(s: State, take: Command, sequence: nat)
    requires Conserved(s) && take.Take? && ValidCommand(take)
    requires sequence in s.deliveries && CanLease(s.deliveries[sequence], take.leasedAt)
    ensures sequence in Leased(s, take) <==> |OlderLeasable(s, sequence, take.leasedAt)| < take.limit
  {
    var older, taken := OlderLeasable(s, sequence, take.leasedAt), Members(Leased(s, take));
    TakenMembers(s, take, sequence);
    if sequence in Leased(s, take) {
      Fewer(older + {sequence}, taken);
    } else {
      Fewer(taken, older);
    }
  }

  ghost predicate TakesAt(takes: seq<Command>, at: Time) {
    forall k :: 0 <= k < |takes| ==> takes[k].Take? && ValidCommand(takes[k]) && takes[k].leasedAt == at
  }

  function Room(takes: seq<Command>): int
    requires forall k :: 0 <= k < |takes| ==> takes[k].Take?
  {
    if takes == [] then 0 else takes[0].limit + Room(takes[1..])
  }

  lemma LeasedAreGone(s: State, take: Command, sequence: nat)
    requires Conserved(s) && take.Take? && ValidCommand(take) && sequence !in Leased(s, take)
    ensures OlderLeasable(Step(s, take), sequence, take.leasedAt) ==
            OlderLeasable(s, sequence, take.leasedAt) - Members(Leased(s, take))
  {
    MembersMeaning(Leased(s, take));
  }

  lemma PassedOver(s: State, take: Command, sequence: nat)
    requires Conserved(s) && take.Take? && ValidCommand(take) && sequence !in Leased(s, take)
    requires sequence in s.deliveries && CanLease(s.deliveries[sequence], take.leasedAt)
    ensures var t := Step(s, take);
            && sequence in t.deliveries && CanLease(t.deliveries[sequence], take.leasedAt)
            && |OlderLeasable(t, sequence, take.leasedAt)| == |OlderLeasable(s, sequence, take.leasedAt)| - take.limit
  {
    TakenMembers(s, take, sequence);
    LeasedAreGone(s, take, sequence);
    Fewer(Members(Leased(s, take)), OlderLeasable(s, sequence, take.leasedAt));
  }

  /** No backlog hides a delivery: leases dated `at`, by whichever workers, reach every delivery that may be leased at that
      time as soon as together they have room for it and the older ones. */
  lemma {:induction false} EveryDeliveryIsReached(s: State, takes: seq<Command>, at: Time, sequence: nat) returns (n: nat)
    requires Conserved(s) && TakesAt(takes, at) && sequence in s.deliveries && CanLease(s.deliveries[sequence], at)
    requires |OlderLeasable(s, sequence, at)| < Room(takes)
    ensures n < |takes| && sequence in Leased(Run(s, takes[..n]), takes[n])
    decreases |takes|
  {
    if sequence in Leased(s, takes[0]) {
      n := 0;
      assert takes[..0] == [];
    } else {
      PassedOver(s, takes[0], sequence);
      StepConserves(s, takes[0]);
      var rest := EveryDeliveryIsReached(Step(s, takes[0]), takes[1..], at, sequence);
      n := rest + 1;
      assert takes[..n][1..] == takes[1..][..rest];
    }
  }

  // ---------------------------------------------------------------------------------------------
  // The outbox object.

  datatype Resumption =
    | Gap
    | Batch(latestSequence: nat, messages: seq<Message>, oldestAvailableSequence: nat)

  function After(position: int): Message -> bool {
    (m: Message) => m.sequence > position
  }

  /** A gap needs at least one kept message, so an outbox without retention never reports one. */
  function Resumed(published: seq<Message>, retention: nat, after: int): Resumption {
    var oldest := Evicted(published, retention) + 1;
    if Kept(published, retention) != [] && after < oldest - 1 then Gap
    else Batch(|published|, Filter(Kept(published, retention), After(after)), oldest)
  }

  /** Releasing one more of several different sequences. */
  lemma ReleaseStep(deliveries: map<nat, Delivery>, sequences: seq<nat>, n: nat, workerId: Id, availableAt: Time)
    requires DistinctNats(sequences) && n < |sequences|
    ensures var q, released := sequences[n], ReleaseAll(deliveries, sequences[..n], workerId, availableAt);
            && (Owns(released, q, workerId) <==> Owns(deliveries, q, workerId))
            && OwnedCount(deliveries, sequences[..n + 1], workerId) ==
               OwnedCount(deliveries, sequences[..n], workerId) + (if Owns(deliveries, q, workerId) then 1 else 0)
            && ReleaseAll(deliveries, sequences[..n + 1], workerId, availableAt) ==
               if Owns(released, q, workerId) then released[q := released[q].(availableAt := availableAt, lease := None)] else released
  {
    var q := sequences[n];
    assert q !in sequences[..n] && sequences[..n + 1] == sequences[..n] + [q];
    assert sequences[..n + 1][..n] == sequences[..n];
  }

  class ReferenceControlPlaneOutbox {
    const retention: nat
    var deliveries: map<nat, Delivery>
    var messages: seq<Message>
    var nextSequence: nat
    ghost var published: seq<Message>
    ghost var acknowledged: seq<nat>

    ghost function Model(): State
      reads this
    {
      State(published, deliveries, acknowledged)
    }

    ghost predicate Valid()
      reads this
    {
      && Conserved(Model())
      && messages == Kept(published, retention)
      && nextSequence == |published| + 1
    }

    constructor (retention: nat)
      ensures Valid() && Model() == State([], map[], []) && this.retention == retention
    {
      this.retention := retention;
      deliveries, messages, nextSequence := map[], [], 1;
      published, acknowledged := [], [];
    }

    method PublishMessage(draft: Draft)
      requires Valid()
      modifies this
      ensures Valid() && Model() == Step(old(Model()), Publish(draft))
    {
      var message := Message(draft, nextSequence);
      StepConserves(Model(), Publish(draft));
      KeptAppend(published, retention, message);
      nextSequence := nextSequence + 1;
      messages := messages + [message];
      deliveries := deliveries[message.sequence := Delivery(0, draft.occurredAt, None, message)];
      if |messages| > retention {
        messages := messages[1..];
      }
      published := published + [message];
    }

    method Resume(after: int) returns (result: Resumption)
      requires Valid()
      ensures result == Resumed(published, retention, after)
    {
      var oldest := if |messages| > 0 then messages[0].sequence else nextSequence;
      assert |messages| > 0 ==> messages[0] == published[Evicted(published, retention)];
      if |messages| > 0 && after < oldest - 1 {
        return Gap;
      }
      var later := [];
      for n := 0 to |messages|
        invariant later == Filter(messages[..n], After(after))
      {
        assert messages[..n + 1] == messages[..n] + [messages[n]];
        FilterConcat(messages[..n], [messages[n]], After(after));
        assert Filter([messages[n]], After(after)) == if After(after)(messages[n]) then [messages[n]] else [];
        if messages[n].sequence > after {
          later := later + [messages[n]];
        }
      }
      assert messages[..|messages|] == messages;
      result := Batch(nextSequence - 1, later, oldest);
    }

    /** Deliveries are visited in the order they were published. */
    method LeaseMessages(workerId: Id, leasedAt: Time, leaseUntil: Time, limit: int) returns (entries: Option<seq<Entry>>)
      requires Valid()
      modifies this`deliveries
      ensures Valid() && Model() == Step(old(Model()), Take(workerId, leasedAt, leaseUntil, limit))
      ensures entries.None? <==> !ValidCommand(Take(workerId, leasedAt, leaseUntil, limit))
      ensures entries.Some? ==>
                var chosen := Leased(old(Model()), Take(workerId, leasedAt, leaseUntil, limit));
                && (forall q :: q in chosen ==> q in deliveries)
                && entries.value == Entries(deliveries, chosen)
    {
      ghost var before := Model();
      ghost var command := Take(workerId, leasedAt, leaseUntil, limit);
      StepConserves(before, command);
      if leaseUntil <= leasedAt || limit < 1 || limit > 100 {
        return None;
      }
      var available := AvailableAt(leasedAt);
      var taken := if |available| <= limit then available else available[..limit];
      LeaseTakesTheOldest(before, leasedAt, limit);
      assert taken == Chosen(before, leasedAt, limit);
      var found := Acquire(taken, workerId, leaseUntil);
      entries := Some(found);
    }

    method AvailableAt(leasedAt: Time) returns (available: seq<nat>)
      ensures available == Leasable(deliveries, nextSequence, leasedAt)
    {
      available := [];
      for q := 0 to nextSequence
        invariant available == Leasable(deliveries, q, leasedAt)
      {
        if q in deliveries && CanLease(deliveries[q], leasedAt) {
          available := available + [q];
        }
      }
    }

    method Acquire(taken: seq<nat>, workerId: Id, leaseUntil: Time) returns (found: seq<Entry>)
      requires forall k :: 0 <= k < |taken| ==> taken[k] in deliveries
      requires DistinctNats(taken)
      modifies this`deliveries
      ensures deliveries == AcquireAll(old(deliveries), taken, workerId, leaseUntil)
      ensures (forall k :: 0 <= k < |taken| ==> taken[k] in deliveries) && found == Entries(deliveries, taken)
    {
      found := [];
      for n := 0 to |taken|
        invariant deliveries == AcquireAll(old(deliveries), taken[..n], workerId, leaseUntil)
        invariant |found| == n
        invariant forall i :: 0 <= i < n ==>
                    taken[i] in deliveries && found[i] == Entry(deliveries[taken[i]].attempts, deliveries[taken[i]].message)
      {
        var q := taken[n];
        assert q !in taken[..n] && taken[..n + 1] == taken[..n] + [q];
        var record := Acquired(deliveries[q], workerId, leaseUntil);
        deliveries := deliveries[q := record];
        found := found + [Entry(record.attempts, record.message)];
      }
      assert taken[..|taken|] == taken;
    }

    method AcknowledgeMessages(workerId: Id, at: Time, sequences: seq<nat>) returns (count: Option<nat>)
      requires Valid()
      modifies this`deliveries, this`acknowledged
      ensures Valid() && Model() == Step(old(Model()), Acknowledge(workerId, at, sequences))
      ensures count.None? <==> !ValidSequences(sequences)
      ensures count.Some? ==> |acknowledged| == |old(acknowledged)| + count.value
    {
      ghost var before := Model();
      StepConserves(before, Acknowledge(workerId, at, sequences));
      if !ValidSequences(sequences) {
        return None;
      }
      var done := 0;
      for n := 0 to |sequences|
        invariant Model() == AcknowledgeAll(before, sequences[..n], workerId, at)
        invariant |acknowledged| == |before.acknowledged| + done
      {
        assert sequences[..n + 1][..n] == sequences[..n];
        if OwnsCurrentLease(deliveries, sequences[n], workerId, at) {
          deliveries := deliveries - {sequences[n]};
          acknowledged := acknowledged + [sequences[n]];
          done := done + 1;
        }
      }
      assert sequences[..|sequences|] == sequences;
      count := Some(done);
    }

    method ReleaseMessages(workerId: Id, availableAt: Time, sequences: seq<nat>) returns (count: Option<nat>)
      requires Valid()
      modifies this`deliveries
      ensures Valid() && Model() == Step(old(Model()), Release(workerId, availableAt, sequences))
      ensures count.None? <==> !ValidSequences(sequences)
      ensures count.Some? ==> count.value == OwnedCount(old(deliveries), sequences, workerId)
    {
      ghost var before := Model();
      StepConserves(before, Release(workerId, availableAt, sequences));
      if !ValidSequences(sequences) {
        return None;
      }
      var done := ReleaseEach(workerId, availableAt, sequences);
      count := Some(done);
    }

    method ReleaseEach(workerId: Id, availableAt: Time, sequences: seq<nat>) returns (done: nat)
      requires DistinctNats(sequences)
      modifies this`deliveries
      ensures deliveries == ReleaseAll(old(deliveries), sequences, workerId, availableAt)
      ensures done == OwnedCount(old(deliveries), sequences, workerId)
    {
      done := 0;
      for n := 0 to |sequences|
        invariant deliveries == ReleaseAll(old(deliveries), sequences[..n], workerId, availableAt)
        invariant done == OwnedCount(old(deliveries), sequences[..n], workerId)
      {
        var q := sequences[n];
        ReleaseStep(old(deliveries), sequences, n, workerId, availableAt);
        if Owns(deliveries, q, workerId) {
          deliveries := deliveries[q := deliveries[q].(availableAt := availableAt, lease := None)];
          done := done + 1;
        }
      }
      assert sequences[..|sequences|] == sequences;
    }
  }
}
