/** The bounded event log of the collaboration service. */
module EventLog {
  import opened Collaboration
  import opened Retention

  datatype Resumption =
    | Gap(latestSequence: nat, oldestAvailableSequence: nat)
    | Batch(latestSequence: nat, messages: seq<Event>, oldestAvailableSequence: nat)

  predicate ValidCapacity(capacity: int) {
    10 <= capacity <= 10_000
  }

  /** Events are numbered by position, starting from one. */
  ghost predicate Numbered(history: seq<Event>) {
    forall k :: 0 <= k < |history| ==> history[k].sequence == k + 1
  }

  function OfTenant(tenantId: Id): Event -> bool {
    (e: Event) => e.tenantId == tenantId
  }

  function OfTenantAfter(tenantId: Id, after: int): Event -> bool {
    (e: Event) => e.tenantId == tenantId && e.sequence > after
  }

  /** What a reader of one tenant gets, told from everything ever appended. */
  function Resumed(history: seq<Event>, capacity: nat, tenantId: Id, after: int): Resumption {
    var oldest := Evicted(history, capacity) + 1;
    if after < oldest - 1 then Gap(|history|, oldest)
    else Batch(|history|, Filter(Kept(history, capacity), OfTenantAfter(tenantId, after)), oldest)
  }

  class CollaborationEventLog {
    const capacity: nat
    var events: seq<Event>
    var latestSequence: nat
    ghost var history: seq<Event>

    ghost predicate Valid()
      reads this
    {
      && ValidCapacity(capacity) && Numbered(history)
      && latestSequence == |history|
      && events == Kept(history, capacity)
    }

    constructor (capacity: nat)
      requires ValidCapacity(capacity)
      ensures Valid() && history == [] && this.capacity == capacity
    {
      this.capacity := capacity;
      events, latestSequence, history := [], 0, [];
    }

    method Append(notice: Notice, actor: Actor, branchId: Id, correlationId: Id, now: Time)
      requires Valid()
      modifies this
      ensures Valid()
      ensures history == old(history)
                         + [Event(actor.actorId, branchId, correlationId, notice, now, |old(history)| + 1, actor.tenantId)]
    {
      latestSequence := latestSequence + 1;
      var event := Event(actor.actorId, branchId, correlationId, notice, now, latestSequence, actor.tenantId);
      KeptAppend(history, capacity, event);
      events := events + [event];
      if |events| > capacity {
        events := events[1..];
      }
      history := history + [event];
    }

    method Resume(tenantId: Id, after: int) returns (result: Resumption)
      requires Valid()
      ensures result == Resumed(history, capacity, tenantId, after)
    {
      var oldest := if |events| > 0 then events[0].sequence else latestSequence + 1;
      assert oldest == Evicted(history, capacity) + 1 by {
        if |events| > 0 {
          assert events[0] == history[Evicted(history, capacity)];
        }
      }
      if after < oldest - 1 {
        return Gap(latestSequence, oldest);
      }
      var messages := [];
      for n := 0 to |events|
        invariant messages == Filter(events[..n], OfTenantAfter(tenantId, after))
      {
        var wanted := OfTenantAfter(tenantId, after);
        assert events[..n + 1] == events[..n] + [events[n]];
        FilterConcat(events[..n], [events[n]], wanted);
        assert Filter([events[n]], wanted) == if wanted(events[n]) then [events[n]] else [];
        if events[n].tenantId == tenantId && events[n].sequence > after {
          messages := messages + [events[n]];
        }
      }
      assert events[..|events|] == events;
      result := Batch(latestSequence, messages, oldest);
    }
  }

  /** A gap is reported exactly when an event after the reader's position was evicted, or the position is negative; otherwise
      the reader gets every later event of its tenant, each once and in order, and none when it stands ahead of the log. */
  lemma ResumeIsExact(history: seq<Event>, capacity: nat, tenantId: Id, after: int)
    requires Numbered(history)
    ensures Resumed(history, capacity, tenantId, after).Gap? <==>
            after < 0 || exists k :: 0 <= k < Evicted(history, capacity) && history[k].sequence > after
    ensures Resumed(history, capacity, tenantId, after).Batch? ==>
              Resumed(history, capacity, tenantId, after).messages ==
              if 0 <= after <= |history| then Filter(history[after..], OfTenant(tenantId)) else []
  {
    if 0 <= after < Evicted(history, capacity) {
      assert history[after].sequence > after;
    } else if after < 0 {
    } else if after > |history| {
      var kept := Kept(history, capacity);
      forall k | 0 <= k < |kept| ensures !OfTenantAfter(tenantId, after)(kept[k]) {
        assert kept[k] == history[k + Evicted(history, capacity)];
      }
      FilterNone(kept, OfTenantAfter(tenantId, after));
    } else {
      FilterAfter(history, capacity, after, (e: Event) => e.tenantId == tenantId,
                  OfTenantAfter(tenantId, after));
    }
  }

  // ---------------------------------------------------------------------------------------------
  // A reader that keeps resuming while the log grows.

  datatype Action = Append(event: Event) | Poll

  datatype Reader = Reader(cursor: nat, received: seq<Event>)

  function Observe(reader: Reader, result: Resumption): Reader {
    match result
    case Gap(_, _) => reader
    case Batch(latest, messages, _) => Reader(latest, reader.received + messages)
  }

  /** Interleaves appends and polls; the events appended are numbered by the log. */
  function Follow(history: seq<Event>, capacity: nat, tenantId: Id, reader: Reader, actions: seq<Action>): (seq<Event>, Reader)
    decreases |actions|
  {
    if actions == [] then (history, reader)
    else
      match actions[0]
      case Append(event) =>
        Follow(history + [event.(sequence := |history| + 1)], capacity, tenantId, reader, actions[1..])
      case Poll =>
        Follow(history, capacity, tenantId, Observe(reader, Resumed(history, capacity, tenantId, reader.cursor)), actions[1..])
  }

  /** The reader holds exactly its tenant's events from its starting position up to its cursor. */
  ghost predicate UpToCursor(history: seq<Event>, tenantId: Id, start: nat, reader: Reader) {
    && start <= reader.cursor <= |history|
    && reader.received == Filter(history[start..reader.cursor], OfTenant(tenantId))
  }

  lemma PollKeepsUp(history: seq<Event>, capacity: nat, tenantId: Id, start: nat, reader: Reader)
    requires Numbered(history) && UpToCursor(history, tenantId, start, reader)
    ensures var next := Observe(reader, Resumed(history, capacity, tenantId, reader.cursor));
            UpToCursor(history, tenantId, start, next) && reader.cursor <= next.cursor
  {
    ResumeIsExact(history, capacity, tenantId, reader.cursor);
    RestOfTheHistory(history, start, reader.cursor, tenantId);
  }

  lemma CutAt(history: seq<Event>, start: nat, cursor: nat)
    requires start <= cursor <= |history|
    ensures history[start..cursor] + history[cursor..] == history[start..|history|]
  {
  }

  lemma RestOfTheHistory(history: seq<Event>, start: nat, cursor: nat, tenantId: Id)
    requires start <= cursor <= |history|
    ensures Filter(history[start..cursor], OfTenant(tenantId)) + Filter(history[cursor..], OfTenant(tenantId)) ==
            Filter(history[start..|history|], OfTenant(tenantId))
  {
    FilterConcat(history[start..cursor], history[cursor..], OfTenant(tenantId));
    CutAt(history, start, cursor);
  }

  /** Whatever the interleaving and however much is evicted, no event of the tenant is lost or repeated below the
      reader's cursor. */
  lemma {:induction false} ReaderMissesNothing(history: seq<Event>, capacity: nat, tenantId: Id, start: nat, reader: Reader,
                                               actions: seq<Action>)
    requires Numbered(history) && UpToCursor(history, tenantId, start, reader)
    ensures var (grown, later) := Follow(history, capacity, tenantId, reader, actions);
            history <= grown && Numbered(grown) && UpToCursor(grown, tenantId, start, later) && reader.cursor <= later.cursor
    decreases |actions|
  {
    if actions != [] {
      match actions[0]
      case Append(event) =>
        var grown := history + [event.(sequence := |history| + 1)];
        assert grown[start..reader.cursor] == history[start..reader.cursor];
        ReaderMissesNothing(grown, capacity, tenantId, start, reader, actions[1..]);
      case Poll =>
        PollKeepsUp(history, capacity, tenantId, start, reader);
        var next := Observe(reader, Resumed(history, capacity, tenantId, reader.cursor));
        ReaderMissesNothing(history, capacity, tenantId, start, next, actions[1..]);
    }
  }
}
