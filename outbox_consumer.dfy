/**
 * One tick of the outbox consumer: claim up to 50 due PENDING events, oldest
 * first, run each one's handler and mark it SENT, or leave it PENDING with
 * one more attempt and a capped linear backoff.
 */
module OutboxConsumer {
  import opened Base
  import opened Outbox
  import Sorting

  const BatchSize := 50
  const BackoffStep := 2000
  const BackoffCap := 60000

  /** What awaiting a handler gives: it resolves, or throws (with `String(e)`). */
  datatype HandlerResult = Resolved | Threw(reason: string)

  type Handler = Payload -> HandlerResult

  /** Handlers by topic; a topic without an entry has no handler. */
  type Registry = map<string, Handler>

  /** The result text of `String(e)` for the TypeError a bare call of an inherited member raises. */
  const InheritedKeyError := "TypeError"

  /**
   * Members every object literal inherits from `Object.prototype` that
   * `handlers[evt.topic]` finds and whose call throws: the methods need an
   * object as `this` and are called without one (`isPrototypeOf` gets an
   * object payload), and `__proto__` is an object, not a function.
   */
  const ThrowingInheritedKeys: set<string> := ObjectPrototypeKeys - {"constructor", "toString"}

  const Resolving: Handler := (p: Payload) => Resolved
  const Throwing: Handler := (p: Payload) => Threw(InheritedKeyError)

  /**
   * The registry the source installs, as the object literal it is: its own
   * `chat.message.created` handler does nothing yet; `constructor` and
   * `toString` return when called bare; the other inherited keys throw.
   */
  const DefaultHandlers: Registry :=
    map["chat.message.created" := Resolving, "constructor" := Resolving, "toString" := Resolving,
        "valueOf" := Throwing, "hasOwnProperty" := Throwing, "isPrototypeOf" := Throwing,
        "propertyIsEnumerable" := Throwing, "toLocaleString" := Throwing,
        "__defineGetter__" := Throwing, "__defineSetter__" := Throwing,
        "__lookupGetter__" := Throwing, "__lookupSetter__" := Throwing, "__proto__" := Throwing]

  /** Retry delay in ms after a failure that follows `attempts` earlier ones. */
  function Backoff(attempts: nat): (d: nat)
    ensures BackoffStep <= d <= BackoffCap
    ensures attempts < 29 ==> d == (attempts + 1) * BackoffStep
    ensures attempts >= 29 ==> d == BackoffCap
  {
    if (attempts + 1) * BackoffStep < BackoffCap then (attempts + 1) * BackoffStep else BackoffCap
  }

  /** Later failures never wait less. */
  lemma BackoffMonotone(a: nat, b: nat)
    requires a <= b
    ensures Backoff(a) <= Backoff(b)
  {
  }

  predicate Due(e: OutboxEvent, now: int)
  {
    e.status == Pending && e.availableAt <= now
  }

  /** The due events, in table order. */
  function DueEvents(events: seq<OutboxEvent>, now: int): (r: seq<OutboxEvent>)
    ensures forall e :: e in r <==> e in events && Due(e, now)
    ensures UniqueEventIds(events) ==> UniqueEventIds(r)
  {
    if events == [] then []
    else
      var rest := DueEvents(events[1..], now);
      assert forall e :: e in events <==> e == events[0] || e in events[1..];
      assert UniqueEventIds(events) ==> UniqueEventIds(events[1..]) && forall e :: e in events[1..] ==> e.id != events[0].id by {
        if UniqueEventIds(events) {
          forall i, j | 0 <= i < j < |events[1..]| ensures events[1..][i].id != events[1..][j].id {
            assert events[1..][i] == events[i + 1] && events[1..][j] == events[j + 1];
          }
          forall e | e in events[1..] ensures e.id != events[0].id {
            var k :| 0 <= k < |events[1..]| && events[1..][k] == e;
            assert e == events[k + 1];
          }
        }
      }
      if Due(events[0], now) then [events[0]] + rest else rest
  }

  function IdOf(e: OutboxEvent): string
  {
    e.id
  }

  function CreationOrder(): (OutboxEvent, OutboxEvent) -> bool
  {
    (a: OutboxEvent, b: OutboxEvent) => a.createdAt <= b.createdAt
  }

  /** The due events by `createdAt` ascending, before the batch limit. */
  function DueInOrder(events: seq<OutboxEvent>, now: int): (r: seq<OutboxEvent>)
    ensures multiset(r) == multiset(DueEvents(events, now))
    ensures |r| == |DueEvents(events, now)|
    ensures Sorting.SortedBy(r, CreationOrder())
  {
    Sorting.SortBySorted(DueEvents(events, now), CreationOrder());
    Sorting.SortBy(DueEvents(events, now), CreationOrder())
  }

  /**
   * `findMany` of the tick: PENDING events with `availableAt <= now`, by
   * `createdAt` ascending, at most 50: the batch is full whenever 50 are
   * due, and no due event left out is older than one claimed, so it holds
   * the oldest due events.
   */
  function Claim(events: seq<OutboxEvent>, now: int): (batch: seq<OutboxEvent>)
    ensures |batch| <= BatchSize
    ensures |batch| == if |DueEvents(events, now)| < BatchSize then |DueEvents(events, now)| else BatchSize
    ensures forall e :: e in batch ==> e in events && Due(e, now)
    ensures forall i, j :: 0 <= i < j < |batch| ==> batch[i].createdAt <= batch[j].createdAt
    ensures forall e, b :: e in events && Due(e, now) && e !in batch && b in batch ==> b.createdAt <= e.createdAt
    ensures |DueEvents(events, now)| <= BatchSize ==> forall e :: e in events && Due(e, now) ==> e in batch
    ensures UniqueEventIds(events) ==> UniqueEventIds(batch)
  {
    var sorted := DueInOrder(events, now);
    ClaimFromDue(sorted, DueEvents(events, now));
    ClaimIsOldest(sorted, DueEvents(events, now));
    UniqueIdsRearranged(DueEvents(events, now), sorted);
    Sorting.Take(sorted, BatchSize)
  }

  lemma {:induction false} ClaimFromDue(sorted: seq<OutboxEvent>, due: seq<OutboxEvent>)
    requires Sorting.SortedBy(sorted, CreationOrder())
    requires multiset(sorted) == multiset(due)
    ensures forall e :: e in Sorting.Take(sorted, BatchSize) ==> e in due
    ensures forall i, j :: 0 <= i < j < |Sorting.Take(sorted, BatchSize)| ==>
              Sorting.Take(sorted, BatchSize)[i].createdAt <= Sorting.Take(sorted, BatchSize)[j].createdAt
    ensures |due| <= BatchSize ==> forall e :: e in due ==> e in Sorting.Take(sorted, BatchSize)
  {
    var batch := Sorting.Take(sorted, BatchSize);
    Sorting.SortedPrefix(sorted, BatchSize, CreationOrder());
    forall e | e in batch ensures e in due {
      assert e in multiset(sorted);
    }
    forall i, j | 0 <= i < j < |batch| ensures batch[i].createdAt <= batch[j].createdAt {
      assert CreationOrder()(batch[i], batch[j]);
    }
    if |due| <= BatchSize {
      assert |sorted| == |multiset(due)| == |due|;
      forall e | e in due ensures e in batch {
        assert e in multiset(sorted);
      }
    }
  }

  lemma {:induction false} ClaimIsOldest(sorted: seq<OutboxEvent>, due: seq<OutboxEvent>)
    requires Sorting.SortedBy(sorted, CreationOrder())
    requires multiset(sorted) == multiset(due)
    ensures forall e, b :: e in due && e !in Sorting.Take(sorted, BatchSize) && b in Sorting.Take(sorted, BatchSize) ==>
              b.createdAt <= e.createdAt
  {
    var batch := Sorting.Take(sorted, BatchSize);
    forall e, b | e in due && e !in batch && b in batch ensures b.createdAt <= e.createdAt {
      assert e in multiset(sorted);
      var k :| 0 <= k < |sorted| && sorted[k] == e;
      var i :| 0 <= i < |batch| && batch[i] == b;
      assert batch == sorted[..|batch|];
      assert batch[i] == sorted[i];
      assert k >= |batch|;
      assert CreationOrder()(sorted[i], sorted[k]);
    }
  }

  lemma {:induction false} UniqueIdsRearranged(a: seq<OutboxEvent>, b: seq<OutboxEvent>)
    requires multiset(a) == multiset(b)
    ensures UniqueEventIds(a) ==> UniqueEventIds(Sorting.Take(b, BatchSize))
  {
    if !UniqueEventIds(a) { return; }
    assert Sorting.UniqueBy(a, IdOf);
    Sorting.UniqueByRearranged(a, b, IdOf);
    Sorting.UniqueByPrefix(b, BatchSize, IdOf);
    var t := Sorting.Take(b, BatchSize);
    assert forall i, j :: 0 <= i < j < |t| ==> IdOf(t[i]) != IdOf(t[j]);
  }

  /** The handler's outcome; a topic with no handler counts as resolved. */
  function Dispatch(handlers: Registry, e: OutboxEvent): (r: HandlerResult)
    ensures e.topic !in handlers ==> r == Resolved
    ensures e.topic in handlers ==> r == handlers[e.topic](e.payload)
  {
    if e.topic in handlers then handlers[e.topic](e.payload) else Resolved
  }

  /** The update of one claimed event once its handler has settled. */
  function Settle(e: OutboxEvent, result: HandlerResult, now: int): (r: OutboxEvent)
    ensures r.id == e.id && r.topic == e.topic && r.payload == e.payload
    ensures r.idempotencyKey == e.idempotencyKey && r.createdAt == e.createdAt
    ensures result.Resolved? ==> r.status == Sent && r.sentAt == Some(now) && r.attempts == e.attempts
    ensures result.Threw? ==> && r.status == Pending && r.sentAt == e.sentAt && r.attempts == e.attempts + 1
                              && r.error == Some(result.reason) && now + BackoffStep <= r.availableAt <= now + BackoffCap
  {
    match result
    case Resolved => e.(status := Sent, sentAt := Some(now))
    case Threw(reason) =>
      e.(status := Pending, attempts := e.attempts + 1, error := Some(reason), availableAt := now + Backoff(e.attempts))
  }

  /** The table after settling every event whose id is in `claimed`, each on its own outcome. */
  function Processed(events: seq<OutboxEvent>, claimed: set<string>, handlers: Registry, now: int): (r: seq<OutboxEvent>)
    ensures |r| == |events|
    ensures forall k :: 0 <= k < |events| ==> r[k].id == events[k].id
  {
    seq(|events|, k requires 0 <= k < |events| =>
      if events[k].id in claimed then Settle(events[k], Dispatch(handlers, events[k]), now) else events[k])
  }

  /** The table after one tick. */
  function TickResult(events: seq<OutboxEvent>, handlers: Registry, now: int): seq<OutboxEvent>
  {
    Processed(events, EventIds(Claim(events, now)), handlers, now)
  }

  function IndexOfEvent(events: seq<OutboxEvent>, id: string): (k: nat)
    requires id in EventIds(events)
    ensures k < |events| && events[k].id == id
  {
    if events[0].id == id then 0
    else
      assert id in EventIds(events[1..]) by {
        var e :| e in events && e.id == id;
        assert e in events[1..];
      }
      1 + IndexOfEvent(events[1..], id)
  }

  /** `events` is `start` with exactly the events whose ids are in `done` settled. */
  ghost predicate SettledSoFar(events: seq<OutboxEvent>, start: seq<OutboxEvent>, done: set<string>, handlers: Registry, now: int)
  {
    && |events| == |start|
    && forall k :: 0 <= k < |start| ==>
         events[k] == (if start[k].id in done then Settle(start[k], Dispatch(handlers, start[k]), now) else start[k])
  }

  /** Settling one more claimed event, found by its id, keeps `SettledSoFar`. */
  lemma {:induction false} SettleStep(events: seq<OutboxEvent>, start: seq<OutboxEvent>, done: set<string>,
                                      handlers: Registry, now: int, evt: OutboxEvent)
    requires UniqueEventIds(start)
    requires SettledSoFar(events, start, done, handlers, now)
    requires evt in start && evt.id !in done
    ensures evt.id in EventIds(events)
    ensures var k := IndexOfEvent(events, evt.id);
            && events[k] == evt
            && SettledSoFar(events[k := Settle(evt, Dispatch(handlers, evt), now)], start, done + {evt.id}, handlers, now)
  {
    var j :| 0 <= j < |start| && start[j] == evt;
    assert events[j] == evt;
    var k := IndexOfEvent(events, evt.id);
    assert start[k].id == events[k].id;
    assert k == j;
  }

  /** Ids of the first `i` claimed events do not include the next one's. */
  lemma {:induction false} NextIdIsNew(batch: seq<OutboxEvent>, i: nat)
    requires UniqueEventIds(batch) && i < |batch|
    ensures batch[i].id !in EventIds(batch[..i])
    ensures EventIds(batch[..i + 1]) == EventIds(batch[..i]) + {batch[i].id}
  {
    assert batch[..i + 1] == batch[..i] + [batch[i]];
    forall e | e in batch[..i] ensures e.id != batch[i].id {
      var j :| 0 <= j < i && batch[j] == e;
    }
  }

  /**
   * One tick: every claimed event is settled on its own handler's outcome,
   * in order, and the table is left as `TickResult` describes.
   */
  method Tick(log: OutboxLog, handlers: Registry, now: int) returns (batch: seq<OutboxEvent>)
    requires log.Valid()
    modifies log
    ensures log.Valid()
    ensures batch == Claim(old(log.events), now)
    ensures log.events == TickResult(old(log.events), handlers, now)
  {
    batch := Claim(log.events, now);
    ghost var start := log.events;
    for i := 0 to |batch|
      invariant SettledSoFar(log.events, start, EventIds(batch[..i]), handlers, now)
    {
      var evt := batch[i];
      NextIdIsNew(batch, i);
      SettleStep(log.events, start, EventIds(batch[..i]), handlers, now, evt);
      var result := Dispatch(handlers, evt);
      var k := IndexOfEvent(log.events, evt.id);
      log.events := log.events[k := Settle(evt, result, now)];
    }
    assert batch[..|batch|] == batch;
    SettledAll(log.events, start, handlers, now);
  }

  /** Once every claimed event is settled, the table is the tick's result. */
  lemma {:induction false} SettledAll(events: seq<OutboxEvent>, start: seq<OutboxEvent>, handlers: Registry, now: int)
    requires UniqueEventIds(start)
    requires SettledSoFar(events, start, EventIds(Claim(start, now)), handlers, now)
    ensures UniqueEventIds(events)
    ensures events == TickResult(start, handlers, now)
  {
    SettledIsProcessed(events, start, EventIds(Claim(start, now)), handlers, now);
  }

  lemma {:induction false} SettledIsProcessed(events: seq<OutboxEvent>, start: seq<OutboxEvent>, done: set<string>,
                                              handlers: Registry, now: int)
    requires UniqueEventIds(start)
    requires SettledSoFar(events, start, done, handlers, now)
    ensures UniqueEventIds(events)
    ensures events == Processed(start, done, handlers, now)
  {
    var p := Processed(start, done, handlers, now);
    assert forall k :: 0 <= k < |start| ==> events[k].id == start[k].id;
    assert forall k :: 0 <= k < |start| ==> events[k] == p[k];
  }

  /**
   * Under the installed registry a claimed event is SENT unless its topic
   * names a throwing inherited member; then it stays PENDING with one more
   * attempt, and since the outcome depends on the topic alone, it fails the
   * same way on every retry.
   */
  lemma {:induction false} DefaultHandlersOutcome(events: seq<OutboxEvent>, now: int, k: nat)
    requires k < |events| && events[k] in Claim(events, now)
    ensures var e, e' := events[k], TickResult(events, DefaultHandlers, now)[k];
            && (Dispatch(DefaultHandlers, e).Resolved? <==> e.topic !in ThrowingInheritedKeys)
            && (e.topic !in ThrowingInheritedKeys ==> e'.status == Sent && e'.sentAt == Some(now))
            && (e.topic in ThrowingInheritedKeys ==>
                  && e'.status == Pending && e'.attempts == e.attempts + 1
                  && e'.error == Some(InheritedKeyError))
  {
    DefaultDispatch(events[k]);
    ClaimedOutcome(events, DefaultHandlers, now, k);
  }

  /** The installed registry's outcome for one event, by its topic alone. */
  lemma {:induction false} DefaultDispatch(e: OutboxEvent)
    ensures e.topic in ThrowingInheritedKeys ==> Dispatch(DefaultHandlers, e) == Threw(InheritedKeyError)
    ensures e.topic !in ThrowingInheritedKeys ==> Dispatch(DefaultHandlers, e) == Resolved
  {
    if e.topic in ThrowingInheritedKeys {
      assert e.topic in DefaultHandlers && DefaultHandlers[e.topic] == Throwing;
    } else if e.topic in DefaultHandlers {
      assert DefaultHandlers[e.topic] == Resolving;
    }
  }

  /** How a claimed event leaves the tick, by its handler's outcome. */
  lemma {:induction false} ClaimedOutcome(events: seq<OutboxEvent>, handlers: Registry, now: int, k: nat)
    requires k < |events| && events[k] in Claim(events, now)
    ensures var e, e' := events[k], TickResult(events, handlers, now)[k];
            && (Dispatch(handlers, e).Resolved? ==>
                  e' == e.(status := Sent, sentAt := Some(now)))
            && (e.topic !in handlers ==> e'.status == Sent && e'.sentAt == Some(now))
            && (Dispatch(handlers, e).Threw? ==>
                  && e'.status == Pending && e'.attempts == e.attempts + 1
                  && e'.error == Some(Dispatch(handlers, e).reason)
                  && e'.availableAt == now + Backoff(e.attempts) <= now + BackoffCap)
  {
    assert events[k].id in EventIds(Claim(events, now));
  }

  /** An event not claimed by the tick is left exactly as it was. */
  lemma {:induction false} UnclaimedUnchanged(events: seq<OutboxEvent>, handlers: Registry, now: int, k: nat)
    requires UniqueEventIds(events)
    requires k < |events| && events[k] !in Claim(events, now)
    ensures TickResult(events, handlers, now)[k] == events[k]
  {
    forall b | b in Claim(events, now) ensures b.id != events[k].id {
      var j :| 0 <= j < |events| && events[j] == b;
      assert j != k;
    }
  }

  /** SENT is terminal: a tick leaves every SENT event exactly as it was. */
  lemma {:induction false} SentIsTerminal(events: seq<OutboxEvent>, handlers: Registry, now: int, k: nat)
    requires UniqueEventIds(events)
    requires k < |events| && events[k].status == Sent
    ensures TickResult(events, handlers, now)[k] == events[k]
  {
    assert events[k] !in Claim(events, now);
    UnclaimedUnchanged(events, handlers, now, k);
  }

  /**
   * Failures are contained: an event's new state depends on its own
   * handler's outcome only, whatever the other handlers do.
   */
  lemma {:induction false} OutcomeIsPerEvent(events: seq<OutboxEvent>, h1: Registry, h2: Registry, now: int, k: nat)
    requires k < |events|
    requires Dispatch(h1, events[k]) == Dispatch(h2, events[k])
    ensures TickResult(events, h1, now)[k] == TickResult(events, h2, now)[k]
  {
  }

  /**
   * In any table, an event whose handler threw is not due, and so not
   * claimed, before `now + Backoff(attempts)`.
   */
  lemma {:induction false} RetryNotClaimedEarly(events: seq<OutboxEvent>, handlers: Registry, now: int, k: nat, later: int)
    requires k < |events| && events[k] in Claim(events, now)
    requires Dispatch(handlers, events[k]).Threw?
    requires later < now + Backoff(events[k].attempts)
    ensures !Due(TickResult(events, handlers, now)[k], later)
    ensures TickResult(events, handlers, now)[k] !in Claim(TickResult(events, handlers, now), later)
  {
    ClaimedOutcome(events, handlers, now, k);
  }

  /**
   * Retry timing for an event alone in the table: after its handler throws
   * it is not claimed again before `now + Backoff(attempts)` and is claimed
   * from then on; a tick whose handler resolves sends it.
   */
  lemma {:induction false} RetryTiming(e: OutboxEvent, handlers: Registry, now: int, later: int)
    requires Due(e, now)
    requires Dispatch(handlers, e).Threw?
    ensures var e' := TickResult([e], handlers, now)[0];
            && TickResult([e], handlers, now) == [e']
            && e'.status == Pending && e'.attempts == e.attempts + 1
            && (later < now + Backoff(e.attempts) ==> Claim([e'], later) == [])
            && (later >= now + Backoff(e.attempts) ==> Claim([e'], later) == [e'])
  {
    assert Claim([e], now) == [e] by {
      assert DueEvents([e], now) == [e];
    }
    var e' := TickResult([e], handlers, now)[0];
    assert TickResult([e], handlers, now) == [e'];
    if later < now + Backoff(e.attempts) {
      assert DueEvents([e'], later) == [];
    } else {
      assert DueEvents([e'], later) == [e'];
    }
  }

  /**
   * The retried delivery: an event whose handler throws twice and then
   * resolves, with each tick run when the event is due, ends SENT with two
   * recorded failures.
   */
  lemma {:induction false} SentAfterTwoFailures(e: OutboxEvent, failing: Registry, working: Registry, t0: int, t1: int, t2: int)
    requires Due(e, t0) && e.attempts == 0
    requires Dispatch(failing, e).Threw? && failing == working[e.topic := failing[e.topic]]
    requires e.topic in working && working[e.topic](e.payload) == Resolved
    requires t1 >= t0 + Backoff(0) && t2 >= t1 + Backoff(1)
    ensures var s1 := TickResult([e], failing, t0);
            var s2 := TickResult(s1, failing, t1);
            var s3 := TickResult(s2, working, t2);
            && |s3| == 1 && s3[0].status == Sent && s3[0].attempts == 2 && s3[0].sentAt == Some(t2)
  {
    RetryTiming(e, failing, t0, t1);
    var s1 := TickResult([e], failing, t0);
    var e1 := s1[0];
    assert Dispatch(failing, e1) == Dispatch(failing, e);
    RetryTiming(e1, failing, t1, t2);
    var s2 := TickResult(s1, failing, t1);
    var e2 := s2[0];
    assert Claim(s2, t2) == [e2];
    assert e2.id in EventIds(Claim(s2, t2));
    assert Dispatch(working, e2) == Resolved;
  }
}
