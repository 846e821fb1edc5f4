/**
 * The transactional outbox table and its producer: events that must reach
 * the rest of the system are appended here and delivered later by the
 * consumer (module OutboxConsumer).
 */
module Outbox {
  import opened Base

  datatype Status = Pending | Sent

  /** A JSON object payload with string fields. */
  type Payload = map<string, string>

  datatype OutboxEvent = OutboxEvent(
    id: string,
    topic: string,
    payload: Payload,
    idempotencyKey: Option<string>,
    status: Status,
    attempts: nat,
    availableAt: int,
    error: Option<string>,
    sentAt: Option<int>,
    createdAt: int)

  function EventIds(events: seq<OutboxEvent>): set<string>
  {
    set e | e in events :: e.id
  }

  ghost predicate UniqueEventIds(events: seq<OutboxEvent>)
  {
    forall i, j :: 0 <= i < j < |events| ==> events[i].id != events[j].id
  }

  /**
   * The row `produceOutbox` inserts: topic, payload and key as given, and the
   * table's defaults — PENDING, no attempts, available from its creation.
   */
  function Queued(id: string, topic: string, payload: Payload, idempotencyKey: Option<string>, now: int): OutboxEvent
  {
    OutboxEvent(id, topic, payload, idempotencyKey, Pending, 0, now, None, None, now)
  }

  class OutboxLog {
    var events: seq<OutboxEvent>

    ghost predicate Valid()
      reads this
    {
      UniqueEventIds(events)
    }

    constructor ()
      ensures Valid() && events == []
    {
      events := [];
    }

    /**
     * Appends exactly one event carrying the given topic, payload and
     * (possibly absent) idempotency key; earlier events are untouched and the
     * key is not checked against them. `id` and `now` come from the store.
     */
    method ProduceOutbox(topic: string, payload: Payload, idempotencyKey: Option<string>, id: string, now: int)
      requires Valid()
      requires id !in EventIds(events)
      modifies this
      ensures Valid()
      ensures events == old(events) + [Queued(id, topic, payload, idempotencyKey, now)]
    {
      events := events + [Queued(id, topic, payload, idempotencyKey, now)];
    }
  }

  /**
   * Two productions with the same idempotency key leave two events: the key
   * is stored, never used for de-duplication.
   */
  method SameKeyTwice(log: OutboxLog, topic: string, payload: Payload, key: string,
                      first: string, second: string, now: int)
    requires log.Valid()
    requires first != second && first !in EventIds(log.events) && second !in EventIds(log.events)
    modifies log
    ensures log.Valid()
    ensures |log.events| == |old(log.events)| + 2
    ensures log.events[|log.events| - 2].idempotencyKey == log.events[|log.events| - 1].idempotencyKey == Some(key)
  {
    log.ProduceOutbox(topic, payload, Some(key), first, now);
    log.ProduceOutbox(topic, payload, Some(key), second, now);
  }
}
