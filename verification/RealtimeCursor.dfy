/** The client cursor that polls an outbox and accepts only contiguous batches. */
module RealtimeCursor {
  import opened Retention
  import opened Outbox

  datatype Outcome = Delivered(batch: Resumption) | GapReported | InvalidBatch | MessageLimitExceeded

  const DEFAULT_MAXIMUM := 1000

  predicate ValidMaximum(maximum: int) {
    1 <= maximum <= 10_000
  }

  predicate ValidMessage(m: Message) {
    m.draft.tenantId != "" && m.draft.correlationId != "" && m.draft.kind != ""
  }

  predicate ValidBatchSequence(batch: Resumption, cursor: nat)
    requires batch.Batch?
  {
    && batch.latestSequence >= cursor
    && 1 <= batch.oldestAvailableSequence <= cursor + 1
    && (if batch.messages == [] then batch.latestSequence == cursor
        else
          && (forall k :: 0 <= k < |batch.messages| ==>
                && batch.messages[k].sequence == cursor + k + 1
                && batch.messages[k].draft.tenantId == batch.messages[0].draft.tenantId)
          && batch.messages[|batch.messages| - 1].sequence == batch.latestSequence)
  }

  function Examine(result: Resumption, cursor: nat, maximum: nat): Outcome {
    match result
    case Gap => GapReported
    case Batch(latest, messages, oldest) =>
      if !(forall k :: 0 <= k < |messages| ==> ValidMessage(messages[k])) then InvalidBatch
      else if |messages| > maximum then MessageLimitExceeded
      else if !ValidBatchSequence(result, cursor) then InvalidBatch
      else Delivered(result)
  }

  class Cursor {
    const maximumMessages: nat
    var cursor: nat

    constructor (initialSequence: nat, maximumMessages: nat)
      requires ValidMaximum(maximumMessages)
      ensures cursor == initialSequence && this.maximumMessages == maximumMessages
    {
      this.maximumMessages := maximumMessages;
      cursor := initialSequence;
    }

    /** Only an accepted batch moves the cursor, to the latest sequence it announces. */
    method Poll(outbox: ReferenceControlPlaneOutbox) returns (outcome: Outcome)
      requires outbox.Valid()
      modifies this
      ensures outcome == Examine(Resumed(outbox.published, outbox.retention, old(cursor)), old(cursor), maximumMessages)
      ensures cursor == if outcome.Delivered? then outcome.batch.latestSequence else old(cursor)
    {
      var result := outbox.Resume(cursor);
      if result.Gap? {
        return GapReported;
      }
      for k := 0 to |result.messages|
        invariant forall i :: 0 <= i < k ==> ValidMessage(result.messages[i])
      {
        if !ValidMessage(result.messages[k]) {
          return InvalidBatch;
        }
      }
      if |result.messages| > maximumMessages {
        return MessageLimitExceeded;
      }
      if !ValidBatchSequence(result, cursor) {
        return InvalidBatch;
      }
      cursor := result.latestSequence;
      outcome := Delivered(result);
    }

    /** After an authoritative read the client may start over from any sequence. */
    method ResetAfterAuthoritativeRead(sequence: int) returns (accepted: bool)
      modifies this
      ensures accepted <==> sequence >= 0
      ensures cursor == if accepted then sequence else old(cursor)
    {
      if sequence < 0 {
        return false;
      }
      cursor := sequence;
      accepted := true;
    }
  }

  // ---------------------------------------------------------------------------------------------
  // Delivery over runs.

  ghost predicate Numbered(published: seq<Message>) {
    forall k :: 0 <= k < |published| ==> published[k].sequence == k + 1
  }

  lemma FilterAll(entries: seq<Message>, wanted: Message -> bool)
    requires forall k :: 0 <= k < |entries| ==> wanted(entries[k])
    ensures Filter(entries, wanted) == entries
  {
    if entries != [] {
      FilterAll(entries[1..], wanted);
    }
  }

  function Anyone(): Message -> bool {
    (m: Message) => true
  }

  /** Without a gap the outbox answers with everything published after the cursor. */
  lemma ResumedSuffix(published: seq<Message>, retention: nat, cursor: nat)
    requires Numbered(published) && Evicted(published, retention) <= cursor <= |published|
    ensures Resumed(published, retention, cursor) ==
            Batch(|published|, published[cursor..], Evicted(published, retention) + 1)
  {
    FilterAfter(published, retention, cursor, Anyone(), After(cursor));
    FilterAll(published[cursor..], Anyone());
  }

  /** Ahead of everything published there is nothing to resume. */
  lemma ResumedAhead(published: seq<Message>, retention: nat, cursor: nat)
    requires Numbered(published) && cursor > |published|
    ensures Resumed(published, retention, cursor) == Batch(|published|, [], Evicted(published, retention) + 1)
  {
    var kept := Kept(published, retention);
    forall k | 0 <= k < |kept| ensures !After(cursor)(kept[k]) {
      assert kept[k] == published[k + Evicted(published, retention)];
    }
    FilterNone(kept, After(cursor));
  }

  /** Everything the client can see of one poll, told from what was published, wherever the client stands. With retention,
      a gap is reported exactly when a message after the cursor was evicted; a client ahead of the outbox only sees batches
      it must reject. */
  lemma PollOutcome(published: seq<Message>, retention: nat, cursor: nat, maximum: nat)
    requires Numbered(published) && retention >= 1
    ensures var outcome := Examine(Resumed(published, retention, cursor), cursor, maximum);
            && (outcome.GapReported? <==> exists k :: cursor <= k < |published| && k < Evicted(published, retention)
                                                      && published[k].sequence > cursor)
            && (outcome.Delivered? <==>
                  && Evicted(published, retention) <= cursor <= |published|
                  && |published| - cursor <= maximum
                  && (forall k :: cursor <= k < |published| ==> ValidMessage(published[k]))
                  && (forall k :: cursor <= k < |published| ==> published[k].draft.tenantId == published[cursor].draft.tenantId))
            && (outcome.Delivered? ==> outcome.batch.messages == published[cursor..] && outcome.batch.latestSequence == |published|)
            && (cursor > |published| ==> outcome.InvalidBatch?)
  {
    if cursor < Evicted(published, retention) {
      assert published[cursor].sequence > cursor;
    } else if cursor > |published| {
      ResumedAhead(published, retention, cursor);
    } else {
      ResumedSuffix(published, retention, cursor);
      ExaminedSuffix(published, cursor, Evicted(published, retention) + 1, maximum);
    }
  }

  /** The client takes a batch that starts right after its cursor, up to its limits. */
  lemma ExaminedSuffix(published: seq<Message>, cursor: nat, oldest: nat, maximum: nat)
    requires Numbered(published) && cursor <= |published| && 1 <= oldest <= cursor + 1
    ensures var batch := Batch(|published|, published[cursor..], oldest);
            var outcome := Examine(batch, cursor, maximum);
            && (outcome.Delivered? <==>
                  && |published| - cursor <= maximum
                  && (forall k :: cursor <= k < |published| ==> ValidMessage(published[k]))
                  && (forall k :: cursor <= k < |published| ==> published[k].draft.tenantId == published[cursor].draft.tenantId))
            && (outcome.Delivered? ==> outcome.batch == batch) && !outcome.GapReported?
  {
    var rest := published[cursor..];
    assert forall k :: 0 <= k < |rest| ==> rest[k] == published[cursor + k];
    assert forall k :: cursor <= k < |published| ==> published[k] == rest[k - cursor];
  }

  /** An outbox that retains nothing never reports a gap: a client that is behind, or ahead, only ever sees batches it must
      reject, so the gap report is exact precisely when something is retained or nothing is missing. */
  lemma NoRetentionHidesGaps(published: seq<Message>, cursor: nat, maximum: nat)
    requires Numbered(published)
    ensures var outcome := Examine(Resumed(published, 0, cursor), cursor, maximum);
            && (outcome.Delivered? <==> cursor == |published|)
            && (cursor != |published| ==> outcome == InvalidBatch)
  {
    assert Kept(published, 0) == [];
  }

  datatype Action = Send(draft: Draft) | Poll | Reset(sequence: nat)

  /** A client, where it started or last started over, and what it accepted since. */
  datatype Reader = Reader(start: nat, cursor: nat, received: seq<Message>)

  function Observe(reader: Reader, outcome: Outcome): Reader {
    if outcome.Delivered? && outcome.batch.Batch?
    then reader.(cursor := outcome.batch.latestSequence, received := reader.received + outcome.batch.messages) else reader
  }

  /** Interleaves publications, polls and resets after authoritative reads. */
  function Follow(published: seq<Message>, retention: nat, maximum: nat, reader: Reader, actions: seq<Action>): (seq<Message>, Reader)
    decreases |actions|
  {
    if actions == [] then (published, reader)
    else
      match actions[0]
      case Send(draft) =>
        Follow(published + [Message(draft, |published| + 1)], retention, maximum, reader, actions[1..])
      case Poll =>
        var outcome := Examine(Resumed(published, retention, reader.cursor), reader.cursor, maximum);
        Follow(published, retention, maximum, Observe(reader, outcome), actions[1..])
      case Reset(sequence) =>
        Follow(published, retention, maximum, Reader(sequence, sequence, []), actions[1..])
  }

  /** The accepted batches concatenate to exactly the messages from the starting position up to the cursor; a client that
      starts ahead of the outbox has accepted nothing. */
  ghost predicate UpToCursor(published: seq<Message>, reader: Reader) {
    && reader.start <= reader.cursor
    && if reader.cursor <= |published| then reader.received == published[reader.start..reader.cursor]
       else reader.start == reader.cursor && reader.received == []
  }

  lemma DeliveredKeepsUp(published: seq<Message>, reader: Reader, outcome: Outcome)
    requires UpToCursor(published, reader) && outcome.Delivered? && outcome.batch.Batch? && reader.cursor <= |published|
    requires outcome.batch.messages == published[reader.cursor..] && outcome.batch.latestSequence == |published|
    ensures UpToCursor(published, Observe(reader, outcome))
  {
    assert published[reader.start..reader.cursor] + published[reader.cursor..] == published[reader.start..];
  }

  lemma PollKeepsUp(published: seq<Message>, retention: nat, maximum: nat, reader: Reader)
    requires Numbered(published) && UpToCursor(published, reader)
    ensures var outcome := Examine(Resumed(published, retention, reader.cursor), reader.cursor, maximum);
            UpToCursor(published, Observe(reader, outcome)) && reader.cursor <= Observe(reader, outcome).cursor
  {
    var outcome := Examine(Resumed(published, retention, reader.cursor), reader.cursor, maximum);
    if retention == 0 {
      NoRetentionHidesGaps(published, reader.cursor, maximum);
      assert Kept(published, 0) == [];
    } else {
      PollOutcome(published, retention, reader.cursor, maximum);
    }
    if outcome.Delivered? {
      DeliveredKeepsUp(published, reader, outcome);
    }
  }

  /** Delivery is in order and exactly once below the cursor, for any interleaving with resets, wherever the client starts,
      and for any retention and message limit; without a reset the cursor never goes back. */
  lemma {:induction false} CursorMissesNothing(published: seq<Message>, retention: nat, maximum: nat, reader: Reader,
                                               actions: seq<Action>)
    requires Numbered(published) && UpToCursor(published, reader)
    ensures var (grown, later) := Follow(published, retention, maximum, reader, actions);
            && published <= grown && Numbered(grown) && UpToCursor(grown, later)
            && ((forall k :: 0 <= k < |actions| ==> !actions[k].Reset?) ==>
                  later.start == reader.start && reader.cursor <= later.cursor)
    decreases |actions|
  {
    if actions != [] {
      match actions[0]
      case Send(draft) =>
        var grown := published + [Message(draft, |published| + 1)];
        assert reader.cursor <= |published| ==> grown[reader.start..reader.cursor] == published[reader.start..reader.cursor];
        CursorMissesNothing(grown, retention, maximum, reader, actions[1..]);
      case Poll =>
        PollKeepsUp(published, retention, maximum, reader);
        var outcome := Examine(Resumed(published, retention, reader.cursor), reader.cursor, maximum);
        CursorMissesNothing(published, retention, maximum, Observe(reader, outcome), actions[1..]);
      case Reset(sequence) =>
        CursorMissesNothing(published, retention, maximum, Reader(sequence, sequence, []), actions[1..]);
    }
  }

  // ---------------------------------------------------------------------------------------------
  // Any server.

  /** Polls that are answered by whatever is on the other side. */
  function Listen(reader: Reader, answers: seq<Resumption>, maximum: nat): Reader
    decreases |answers|
  {
    if answers == [] then reader
    else Listen(Observe(reader, Examine(answers[0], reader.cursor, maximum)), answers[1..], maximum)
  }

  /** The client holds one message for every sequence from its start up to its cursor, in order. */
  ghost predicate InSequence(reader: Reader) {
    && reader.start + |reader.received| == reader.cursor
    && forall k :: 0 <= k < |reader.received| ==> reader.received[k].sequence == reader.start + k + 1 && Labelled(reader.received[k].draft)
  }

  predicate Labelled(draft: Draft) {
    draft.tenantId != "" && draft.correlationId != "" && draft.kind != ""
  }

  /** Whatever the answers are, the client never skips, repeats or reorders a sequence, and takes no batch over its limit. */
  lemma {:induction false} AnyServerIsInSequence(reader: Reader, answers: seq<Resumption>, maximum: nat)
    requires InSequence(reader)
    ensures InSequence(Listen(reader, answers, maximum))
    ensures reader.received <= Listen(reader, answers, maximum).received
    ensures |Listen(reader, answers, maximum).received| <= |reader.received| + maximum * |answers|
    decreases |answers|
  {
    if answers != [] {
      var observed := Observe(reader, Examine(answers[0], reader.cursor, maximum));
      AnyServerIsInSequence(observed, answers[1..], maximum);
      assert maximum * |answers| == maximum + maximum * (|answers| - 1);
    }
  }
}
