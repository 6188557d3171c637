/** client.go: SendMessage and the retry goroutine composed over the queue and the health counters.
    One action is one lock-held region or one send; every interleaving of any number of SendMessage
    calls, retries and Clears is a schedule. A call, and the message it sends, is known by a number.
    Whether the breaker admits a call, and how each send ends, is the schedule's choice here, so the
    results hold for any breaker; ClientRuns puts the program's own breaker in, step by step. */
module Delivery {
  import opened Common
  import Health = HealthMonitoring
  import Queue = RetryQueues

  /** Where a SendMessage call stands. */
  datatype CallPoint =
    | Refused    // the breaker said no
    | Admitted   // inside sendMessageDirect
    | Handed     // the channel took the message, RecordMessageSent is next
    | Counted    // RecordMessageSent done, RecordResult(nil) is next
    | Sent       // returned nil
    | Errored    // the direct send failed, Enqueue is next
    | Enqueued   // Enqueue done, RecordMessageFailed is next
    | Noted      // RecordMessageFailed done, RecordResult(err) is next
    | Failed     // returned the error

  /** Where a message picked up for a retry stands. */
  datatype RetryPoint =
    | Picked        // in readyMessages, sendFunc not called yet
    | RetryHanded   // the channel took it, RecordMessageSent is next
    | RetryCounted  // RecordMessageSent done, SuccessfulRetries is next
    | RetryErrored  // the send failed, TotalRetries is next
    | RetryNoted    // TotalRetries done, drop or re-queue is next

  datatype Flight = Flight(entry: Queue.Entry, point: RetryPoint)

  datatype Sys = Sys(
    queue: Queue.State,
    health: Health.Counters,
    calls: map<nat, CallPoint>,
    flights: map<nat, Flight>,
    channel: seq<nat>,         // every message handed to sendChan, in order
    tries: map<nat, nat>,      // calls of sendMessageDirect per message
    delivered: set<nat>,       // handed over by a retry, and counted
    dropped: set<nat>,         // given up, refused as not retriable, or cleared
    requeues: nat)

  const START := Sys(Queue.State([], Queue.Metrics(0, 0, 0, 0, 0)), Health.Counters(0, 0, 0, 0),
                     map[], map[], [], map[], {}, {}, 0)

  datatype Action =
    | Send(id: nat, admitted: bool)
    | DirectSend(id: nat, ok: bool)
    | CountSent(id: nat)
    | Enqueue(id: nat, retriable: bool, now: int)
    | NoteFailure(id: nat)
    | Return(id: nat, failed: bool)
    | PickReady(now: int)
    | RetrySend(id: nat, ok: bool)
    | CountRetrySent(id: nat)
    | CountRetrySuccess(id: nat)
    | NoteRetryFailure(id: nat)
    | GiveUp(id: nat)
    | Requeue(id: nat, now: int)
    | Clear

  predicate CallIs(s: Sys, id: nat, point: CallPoint) {
    id in s.calls && s.calls[id] == point
  }

  predicate FlightIs(s: Sys, id: nat, point: RetryPoint) {
    id in s.flights && s.flights[id].point == point
  }

  predicate Enabled(p: Queue.Policy, s: Sys, a: Action) {
    match a
    case Send(id, _) => id !in s.calls
    case DirectSend(id, _) => CallIs(s, id, Admitted)
    case CountSent(id) => CallIs(s, id, Handed)
    case Enqueue(id, _, _) => CallIs(s, id, Errored)
    case NoteFailure(id) => CallIs(s, id, Enqueued)
    case Return(id, failed) => CallIs(s, id, if failed then Noted else Counted)
    case PickReady(_) => true
    case RetrySend(id, _) => FlightIs(s, id, Picked)
    case CountRetrySent(id) => FlightIs(s, id, RetryHanded)
    case CountRetrySuccess(id) => FlightIs(s, id, RetryCounted)
    case NoteRetryFailure(id) => FlightIs(s, id, RetryErrored)
    case GiveUp(id) => FlightIs(s, id, RetryNoted) && Queue.GivesUp(p, s.flights[id].entry)
    case Requeue(id, _) => FlightIs(s, id, RetryNoted) && !Queue.GivesUp(p, s.flights[id].entry)
    case Clear => true
  }

  function Messages(q: seq<Queue.Entry>): set<nat> {
    set i | 0 <= i < |q| :: q[i].message
  }

  function TakenOff(flights: map<nat, Flight>, es: seq<Queue.Entry>): map<nat, Flight> {
    if es == [] then flights
    else
      var e := es[|es| - 1];
      TakenOff(flights, es[..|es| - 1])[e.message := Flight(e, Picked)]
  }

  function TriesOf(s: Sys, id: nat): nat {
    if id in s.tries then s.tries[id] else 0
  }

  function Step(p: Queue.Policy, s: Sys, a: Action): Sys
    requires Enabled(p, s, a)
  {
    match a
    case Send(id, admitted) =>
      s.(calls := s.calls[id := if admitted then Admitted else Refused])
    case DirectSend(id, ok) =>
      s.(calls := s.calls[id := if ok then Handed else Errored],
         channel := s.channel + (if ok then [id] else []),
         tries := s.tries[id := TriesOf(s, id) + 1])
    case CountSent(id) =>
      s.(calls := s.calls[id := Counted], health := Health.SentCounted(s.health))
    case Enqueue(id, retriable, now) =>
      s.(calls := s.calls[id := Enqueued],
         queue := Queue.Enqueued(p, s.queue, id, retriable, now),
         dropped := s.dropped + (if retriable then {} else {id}))
    case NoteFailure(id) =>
      s.(calls := s.calls[id := Noted], health := Health.FailedCounted(s.health))
    case Return(id, failed) =>
      s.(calls := s.calls[id := if failed then Failed else Sent])
    case PickReady(now) =>
      s.(queue := Queue.Picked(s.queue, now),
         flights := TakenOff(s.flights, Queue.Ready(s.queue.queue, now)))
    case RetrySend(id, ok) =>
      s.(flights := s.flights[id := Flight(Queue.Tried(s.flights[id].entry), if ok then RetryHanded else RetryErrored)],
         channel := s.channel + (if ok then [id] else []),
         tries := s.tries[id := TriesOf(s, id) + 1])
    case CountRetrySent(id) =>
      s.(flights := s.flights[id := s.flights[id].(point := RetryCounted)],
         health := Health.SentCounted(s.health))
    case CountRetrySuccess(id) =>
      s.(flights := s.flights - {id}, queue := Queue.SuccessCounted(s.queue), delivered := s.delivered + {id})
    case NoteRetryFailure(id) =>
      s.(flights := s.flights[id := s.flights[id].(point := RetryNoted)], queue := Queue.FailureCounted(s.queue))
    case GiveUp(id) =>
      s.(flights := s.flights - {id}, queue := Queue.DropCounted(s.queue), dropped := s.dropped + {id})
    case Requeue(id, now) =>
      s.(flights := s.flights - {id},
         queue := Queue.Requeued(p, s.queue, s.flights[id].entry, now),
         requeues := s.requeues + 1)
    case Clear =>
      s.(queue := Queue.Cleared(s.queue), dropped := s.dropped + Messages(s.queue.queue))
  }

  function Exec(p: Queue.Policy, schedule: seq<Action>): Option<Sys> {
    if schedule == [] then Some(START)
    else
      match Exec(p, schedule[..|schedule| - 1])
      case None => None
      case Some(s) =>
        var a := schedule[|schedule| - 1];
        if Enabled(p, s, a) then Some(Step(p, s, a)) else None
  }

  // --- counting ---

  function At<T(==)>(m: map<nat, T>, x: T): set<nat> {
    set id | id in m && m[id] == x
  }

  function CallsAt(calls: map<nat, CallPoint>, point: CallPoint): set<nat> {
    At(calls, point)
  }

  function FlightsAt(flights: map<nat, Flight>, point: RetryPoint): set<nat> {
    set id | id in flights && flights[id].point == point
  }

  function One(b: bool): int {
    if b then 1 else 0
  }

  lemma MoveAt<T>(m: map<nat, T>, id: nat, to: T, x: T)
    ensures |At(m[id := to], x)| == |At(m, x)| - One(id in m && m[id] == x) + One(to == x)
  {
    if to == x {
      assert At(m[id := to], x) == At(m, x) - {id} + {id};
    } else {
      assert At(m[id := to], x) == At(m, x) - {id};
    }
  }

  lemma MoveCall(calls: map<nat, CallPoint>, id: nat, to: CallPoint, point: CallPoint)
    ensures |CallsAt(calls[id := to], point)|
            == |CallsAt(calls, point)| - One(id in calls && calls[id] == point) + One(to == point)
  {
    MoveAt(calls, id, to, point);
  }

  lemma MoveFlight(flights: map<nat, Flight>, id: nat, to: Flight, point: RetryPoint)
    ensures |FlightsAt(flights[id := to], point)|
            == |FlightsAt(flights, point)| - One(id in flights && flights[id].point == point) + One(to.point == point)
  {
    var before, after := FlightsAt(flights, point), FlightsAt(flights[id := to], point);
    if to.point == point {
      assert after == before - {id} + {id};
    } else {
      assert after == before - {id};
    }
  }

  lemma LandFlight(flights: map<nat, Flight>, id: nat, point: RetryPoint)
    requires id in flights
    ensures |FlightsAt(flights - {id}, point)| == |FlightsAt(flights, point)| - One(flights[id].point == point)
  {
    assert FlightsAt(flights - {id}, point) == FlightsAt(flights, point) - {id};
  }

  /** RecordMessageFailed has run for these calls, RecordMessageSent for those. */
  function FailuresNoted(calls: map<nat, CallPoint>): nat {
    |CallsAt(calls, Noted)| + |CallsAt(calls, Failed)|
  }

  function DirectSends(calls: map<nat, CallPoint>): nat {
    |CallsAt(calls, Counted)| + |CallsAt(calls, Sent)|
  }

  lemma MoveCallSums(calls: map<nat, CallPoint>, id: nat, to: CallPoint)
    ensures FailuresNoted(calls[id := to])
            == FailuresNoted(calls) - One(id in calls && calls[id] in {Noted, Failed}) + One(to in {Noted, Failed})
    ensures DirectSends(calls[id := to])
            == DirectSends(calls) - One(id in calls && calls[id] in {Counted, Sent}) + One(to in {Counted, Sent})
  {
    MoveCall(calls, id, to, Noted);
    MoveCall(calls, id, to, Failed);
    MoveCall(calls, id, to, Counted);
    MoveCall(calls, id, to, Sent);
  }

  // --- exactly one place ---

  /** Messages whose direct send failed and was passed to Enqueue. */
  function Owed(calls: map<nat, CallPoint>): set<nat> {
    set id | id in calls && calls[id] in {Enqueued, Noted, Failed}
  }

  ghost predicate NoRepeats(q: seq<Queue.Entry>) {
    forall i, j :: 0 <= i < j < |q| ==> q[i].message != q[j].message
  }

  /** Every message that went to Enqueue is in exactly one of the queue, a retry, delivered, dropped. */
  ghost predicate OnePlace(s: Sys) {
    var queued, flying := Messages(s.queue.queue), s.flights.Keys;
    && NoRepeats(s.queue.queue)
    && queued !! flying !! s.delivered !! s.dropped
    && queued + flying + s.delivered + s.dropped == Owed(s.calls)
    && (forall id :: id in s.flights ==> s.flights[id].entry.message == id)
  }

  lemma {:induction false} MessagesCount(q: seq<Queue.Entry>)
    requires NoRepeats(q)
    ensures |Messages(q)| == |q|
  {
    if q != [] {
      var init, e := q[..|q| - 1], q[|q| - 1];
      MessagesCount(init);
      assert q == init + [e];
      MessagesAppend(init, e);
      assert e.message !in Messages(init);
    }
  }

  lemma MessagesAppend(q: seq<Queue.Entry>, e: Queue.Entry)
    ensures Messages(q + [e]) == Messages(q) + {e.message}
    ensures NoRepeats(q) && e.message !in Messages(q) ==> NoRepeats(q + [e])
  {
    var r := q + [e];
    forall m | m in Messages(q) + {e.message} ensures m in Messages(r) {
      if m == e.message {
        assert r[|q|].message == m;
      } else {
        var i :| 0 <= i < |q| && q[i].message == m;
        assert r[i].message == m;
      }
    }
  }

  /** The split of the queue by due time splits its messages. */
  lemma {:induction false} SplitMessages(q: seq<Queue.Entry>, now: int)
    requires NoRepeats(q)
    ensures var r, w := Queue.Ready(q, now), Queue.Waiting(q, now);
            && NoRepeats(r) && NoRepeats(w)
            && Messages(r) !! Messages(w)
            && Messages(r) + Messages(w) == Messages(q)
  {
    if q != [] {
      var init, e := q[..|q| - 1], q[|q| - 1];
      SplitMessages(init, now);
      assert q == init + [e];
      MessagesAppend(init, e);
      assert e.message !in Messages(init);
      MessagesAppend(Queue.Ready(init, now), e);
      MessagesAppend(Queue.Waiting(init, now), e);
      assert Queue.Ready(init, now) + [] == Queue.Ready(init, now);
      assert Queue.Waiting(init, now) + [] == Queue.Waiting(init, now);
    }
  }

  lemma {:induction false} TakenOffKeeps(flights: map<nat, Flight>, es: seq<Queue.Entry>)
    requires NoRepeats(es) && Messages(es) !! flights.Keys
    ensures var t := TakenOff(flights, es);
            && t.Keys == flights.Keys + Messages(es)
            && (forall id :: id in flights ==> t[id] == flights[id])
            && (forall id :: id in Messages(es) ==>
                  t[id].point == Picked && t[id].entry.message == id && t[id].entry in es)
            && (forall point :: point != Picked ==> FlightsAt(t, point) == FlightsAt(flights, point))
  {
    if es != [] {
      var init, e := es[..|es| - 1], es[|es| - 1];
      assert es == init + [e];
      MessagesAppend(init, e);
      TakenOffKeeps(flights, init);
      assert e.message !in Messages(init);
      forall point | point != Picked ensures FlightsAt(TakenOff(flights, es), point) == FlightsAt(flights, point) {
        assert e.message !in FlightsAt(flights, point);
        assert FlightsAt(TakenOff(flights, init), point) == FlightsAt(flights, point);
      }
    }
  }

  lemma OnePlaceKeptByEnqueue(p: Queue.Policy, s: Sys, a: Action)
    requires OnePlace(s) && Enabled(p, s, a) && a.Enqueue?
    ensures OnePlace(Step(p, s, a))
  {
    assert Owed(Step(p, s, a).calls) == Owed(s.calls) + {a.id};
    MessagesAppend(s.queue.queue, Queue.Entry(a.id, 0, a.now + p.initialDelay));
  }

  lemma OnePlaceKeptByPick(p: Queue.Policy, s: Sys, now: int)
    requires OnePlace(s)
    ensures OnePlace(Step(p, s, PickReady(now)))
  {
    SplitMessages(s.queue.queue, now);
    TakenOffKeeps(s.flights, Queue.Ready(s.queue.queue, now));
  }

  lemma OnePlaceKeptByRequeue(p: Queue.Policy, s: Sys, a: Action)
    requires OnePlace(s) && Enabled(p, s, a) && a.Requeue?
    ensures OnePlace(Step(p, s, a))
  {
    MessagesAppend(s.queue.queue, Queue.Rescheduled(p, s.flights[a.id].entry, a.now));
  }

  lemma OnePlaceKept(p: Queue.Policy, s: Sys, a: Action)
    requires OnePlace(s) && Enabled(p, s, a)
    ensures OnePlace(Step(p, s, a))
  {
    var t := Step(p, s, a);
    match a
    case Enqueue(_, _, _) => OnePlaceKeptByEnqueue(p, s, a);
    case PickReady(now) => OnePlaceKeptByPick(p, s, now);
    case Requeue(_, _) => OnePlaceKeptByRequeue(p, s, a);
    case CountRetrySuccess(id) =>
    case GiveUp(id) =>
    case Clear =>
      assert Messages(t.queue.queue) == {};
    case RetrySend(_, _) =>
    case CountRetrySent(_) =>
    case NoteRetryFailure(_) =>
    case _ =>
      assert Owed(t.calls) == Owed(s.calls);
  }

  // --- the counters ---

  ghost predicate Balanced(s: Sys) {
    var m := s.queue.metrics;
    && m.droppedMessages == |s.dropped|
    && m.successfulRetries == |s.delivered|
    && m.currentQueueSize == |s.queue.queue|
    && m.totalRetries == m.successfulRetries + m.failedRetries + s.requeues + |FlightsAt(s.flights, RetryNoted)|
    && s.health.failedMessages == s.health.consecutiveErrors == FailuresNoted(s.calls)
    && s.health.totalMessages == s.health.sentMessages
    && s.health.sentMessages == DirectSends(s.calls) + |s.delivered| + |FlightsAt(s.flights, RetryCounted)|
  }

  predicate ByCaller(a: Action) {
    a.Send? || a.DirectSend? || a.CountSent? || a.Enqueue? || a.NoteFailure? || a.Return?
  }

  lemma BalancedKeptBySending(p: Queue.Policy, s: Sys, a: Action)
    requires OnePlace(s) && Balanced(s) && Enabled(p, s, a)
    requires a.Send? || a.DirectSend? || a.CountSent?
    ensures Balanced(Step(p, s, a))
  {
    var t := Step(p, s, a);
    MoveCallSums(s.calls, a.id, t.calls[a.id]);
    assert t.calls == s.calls[a.id := t.calls[a.id]];
  }

  lemma BalancedKeptByEnqueue(p: Queue.Policy, s: Sys, a: Action)
    requires OnePlace(s) && Balanced(s) && Enabled(p, s, a)
    requires a.Enqueue?
    ensures Balanced(Step(p, s, a))
  {
    assert a.id !in Owed(s.calls);
    BalancedAfterEnqueue(p, s, a.id, a.retriable, a.now);
  }

  lemma BalancedAfterEnqueue(p: Queue.Policy, s: Sys, id: nat, retriable: bool, now: int)
    requires Balanced(s) && CallIs(s, id, Errored) && id !in s.dropped
    ensures Balanced(s.(calls := s.calls[id := Enqueued],
                        queue := Queue.Enqueued(p, s.queue, id, retriable, now),
                        dropped := s.dropped + (if retriable then {} else {id})))
  {
    MoveCallSums(s.calls, id, Enqueued);
    assert s.dropped + {} == s.dropped;
  }

  lemma BalancedKeptByReturning(p: Queue.Policy, s: Sys, a: Action)
    requires OnePlace(s) && Balanced(s) && Enabled(p, s, a)
    requires a.NoteFailure? || a.Return?
    ensures Balanced(Step(p, s, a))
  {
    var t := Step(p, s, a);
    MoveCallSums(s.calls, a.id, t.calls[a.id]);
    assert t.calls == s.calls[a.id := t.calls[a.id]];
  }

  lemma PickFlights(s: Sys, now: int, point: RetryPoint)
    requires OnePlace(s) && point != Picked
    ensures FlightsAt(TakenOff(s.flights, Queue.Ready(s.queue.queue, now)), point) == FlightsAt(s.flights, point)
  {
    SplitMessages(s.queue.queue, now);
    TakenOffKeeps(s.flights, Queue.Ready(s.queue.queue, now));
  }

  lemma BalancedAfterPick(s: Sys, now: int, flights: map<nat, Flight>)
    requires Balanced(s)
    requires FlightsAt(flights, RetryNoted) == FlightsAt(s.flights, RetryNoted)
    requires FlightsAt(flights, RetryCounted) == FlightsAt(s.flights, RetryCounted)
    ensures Balanced(s.(queue := Queue.Picked(s.queue, now), flights := flights))
  {
  }

  lemma BalancedAfterClear(s: Sys, cleared: set<nat>)
    requires Balanced(s) && |cleared| == |s.queue.queue| && s.dropped !! cleared
    ensures Balanced(s.(queue := Queue.Cleared(s.queue), dropped := s.dropped + cleared))
  {
  }

  lemma BalancedKeptInFlight(p: Queue.Policy, s: Sys, a: Action)
    requires OnePlace(s) && Balanced(s) && Enabled(p, s, a)
    requires a.RetrySend? || a.CountRetrySent? || a.NoteRetryFailure?
    ensures Balanced(Step(p, s, a))
  {
    var t := Step(p, s, a);
    MoveFlight(s.flights, a.id, t.flights[a.id], RetryNoted);
    MoveFlight(s.flights, a.id, t.flights[a.id], RetryCounted);
  }

  lemma BalancedAfterSuccess(s: Sys, id: nat)
    requires Balanced(s) && FlightIs(s, id, RetryCounted) && id !in s.delivered
    ensures Balanced(s.(flights := s.flights - {id},
                        queue := Queue.SuccessCounted(s.queue),
                        delivered := s.delivered + {id}))
  {
    LandFlight(s.flights, id, RetryNoted);
    LandFlight(s.flights, id, RetryCounted);
  }

  lemma BalancedAfterGivingUp(s: Sys, id: nat)
    requires Balanced(s) && FlightIs(s, id, RetryNoted) && id !in s.dropped
    ensures Balanced(s.(flights := s.flights - {id}, queue := Queue.DropCounted(s.queue), dropped := s.dropped + {id}))
  {
    LandFlight(s.flights, id, RetryNoted);
    LandFlight(s.flights, id, RetryCounted);
  }

  lemma BalancedAfterRequeue(p: Queue.Policy, s: Sys, id: nat, now: int)
    requires Balanced(s) && FlightIs(s, id, RetryNoted)
    ensures Balanced(s.(flights := s.flights - {id},
                        queue := Queue.Requeued(p, s.queue, s.flights[id].entry, now),
                        requeues := s.requeues + 1))
  {
    LandFlight(s.flights, id, RetryNoted);
    LandFlight(s.flights, id, RetryCounted);
  }

  // --- at most once ---

  /** Has the message been put into sendChan? */
  ghost predicate IsHandedOver(s: Sys, id: nat) {
    || (id in s.calls && s.calls[id] in {Handed, Counted, Sent})
    || (id in s.flights && s.flights[id].point in {RetryHanded, RetryCounted})
    || id in s.delivered
  }

  /** retryCount is one less than the sends so far, and within the budget. */
  ghost predicate TriesMatch(p: Queue.Policy, s: Sys) {
    && (forall i :: 0 <= i < |s.queue.queue| ==>
          && TriesOf(s, s.queue.queue[i].message) == s.queue.queue[i].retryCount + 1
          && 0 <= s.queue.queue[i].retryCount < Queue.Budget(p))
    && (forall id :: id in s.flights ==>
          && TriesOf(s, id) == s.flights[id].entry.retryCount + 1
          && 0 <= s.flights[id].entry.retryCount <= Queue.Budget(p)
          && (s.flights[id].point == Picked ==> s.flights[id].entry.retryCount < Queue.Budget(p)))
    && (forall id :: id in s.calls && s.calls[id] in {Refused, Admitted} ==> TriesOf(s, id) == 0)
    && (forall id :: id in s.calls && s.calls[id] == Errored ==> TriesOf(s, id) == 1)
    && (forall id :: TriesOf(s, id) <= 1 + Queue.Budget(p))
    && s.tries.Keys <= s.calls.Keys
  }

  ghost predicate HandedOnce(s: Sys) {
    && Distinct(s.channel)
    && (forall id :: id in s.channel <==> IsHandedOver(s, id))
  }

  lemma HandedOnceKeptBySend(p: Queue.Policy, s: Sys, a: Action)
    requires OnePlace(s) && HandedOnce(s) && Enabled(p, s, a)
    requires a.DirectSend? || a.RetrySend?
    ensures HandedOnce(Step(p, s, a))
  {
    var t := Step(p, s, a);
    assert a.RetrySend? <==> a.id in Owed(s.calls);
    assert !IsHandedOver(s, a.id);
    assert t.channel == s.channel || t.channel == s.channel + [a.id];
  }

  lemma HandedOnceKeptByPick(p: Queue.Policy, s: Sys, now: int)
    requires OnePlace(s) && HandedOnce(s)
    ensures HandedOnce(Step(p, s, PickReady(now)))
  {
    var t := Step(p, s, PickReady(now));
    SplitMessages(s.queue.queue, now);
    TakenOffKeeps(s.flights, Queue.Ready(s.queue.queue, now));
    forall id ensures id in t.channel <==> IsHandedOver(t, id) {
      assert id in s.channel <==> IsHandedOver(s, id);
    }
  }

  lemma HandedOnceKept(p: Queue.Policy, s: Sys, a: Action)
    requires OnePlace(s) && HandedOnce(s) && Enabled(p, s, a)
    ensures HandedOnce(Step(p, s, a))
  {
    match a
    case Send(id, _) => assert id !in Owed(s.calls);
    case DirectSend(_, _) => HandedOnceKeptBySend(p, s, a);
    case RetrySend(_, _) => HandedOnceKeptBySend(p, s, a);
    case PickReady(now) => HandedOnceKeptByPick(p, s, now);
    case _ =>
  }

  /** A retry under way in t was under way in s, no earlier on, or has just been picked off s's queue. */
  ghost predicate FlightCarried(s: Sys, id: nat, f: Flight) {
    || (id in s.flights && f.entry == s.flights[id].entry && (f.point == Picked ==> s.flights[id].point == Picked))
    || (f.point == Picked && f.entry.message == id && f.entry in s.queue.queue)
  }

  lemma TriesMatchCarried(p: Queue.Policy, s: Sys, t: Sys)
    requires TriesMatch(p, s) && t.tries == s.tries && t.calls == s.calls
    requires forall e :: e in t.queue.queue ==> e in s.queue.queue
    requires forall id :: id in t.flights ==> FlightCarried(s, id, t.flights[id])
    ensures TriesMatch(p, t)
  {
    assert forall id :: TriesOf(t, id) == TriesOf(s, id);
    assert forall i :: 0 <= i < |t.queue.queue| ==> t.queue.queue[i] in s.queue.queue;
  }

  /** A step that touches one message leaves the tries of the others alone. */
  lemma TriesMatchKeptByCalls(p: Queue.Policy, s: Sys, a: Action)
    requires OnePlace(s) && TriesMatch(p, s) && Enabled(p, s, a)
    requires ByCaller(a) && !a.Enqueue? && !a.DirectSend?
    ensures TriesMatch(p, Step(p, s, a))
  {
    var t := Step(p, s, a);
    assert a.Send? ==> a.id !in s.tries;
    assert forall id :: TriesOf(t, id) == TriesOf(s, id);
  }

  lemma TriesMatchKeptByDirectSend(p: Queue.Policy, s: Sys, a: Action)
    requires OnePlace(s) && TriesMatch(p, s) && Enabled(p, s, a)
    requires a.DirectSend?
    ensures TriesMatch(p, Step(p, s, a))
  {
    var t := Step(p, s, a);
    assert a.id !in Owed(s.calls);
    assert TriesOf(t, a.id) == 1;
    assert forall id :: id != a.id ==> TriesOf(t, id) == TriesOf(s, id);
  }

  lemma TriesMatchKeptByEnqueue(p: Queue.Policy, s: Sys, a: Action)
    requires OnePlace(s) && TriesMatch(p, s) && Enabled(p, s, a)
    requires a.Enqueue?
    ensures TriesMatch(p, Step(p, s, a))
  {
    var t := Step(p, s, a);
    assert forall id :: TriesOf(t, id) == TriesOf(s, id);
    assert forall i :: 0 <= i < |s.queue.queue| ==> t.queue.queue[i] == s.queue.queue[i];
  }

  lemma TriesMatchKeptByPick(p: Queue.Policy, s: Sys, now: int)
    requires OnePlace(s) && TriesMatch(p, s)
    ensures TriesMatch(p, Step(p, s, PickReady(now)))
  {
    var t := Step(p, s, PickReady(now));
    SplitMessages(s.queue.queue, now);
    Queue.SplitByDueTime(s.queue.queue, now);
    TakenOffKeeps(s.flights, Queue.Ready(s.queue.queue, now));
    TriesMatchCarried(p, s, t);
  }

  lemma TriesMatchKeptByRetrySend(p: Queue.Policy, s: Sys, a: Action)
    requires OnePlace(s) && TriesMatch(p, s) && Enabled(p, s, a)
    requires a.RetrySend?
    ensures TriesMatch(p, Step(p, s, a))
  {
    var t := Step(p, s, a);
    assert a.id in Owed(s.calls);
    assert forall id :: id != a.id ==> TriesOf(t, id) == TriesOf(s, id);
    assert forall i :: 0 <= i < |s.queue.queue| ==> s.queue.queue[i].message in Messages(s.queue.queue);
  }

  lemma TriesMatchKeptByCounting(p: Queue.Policy, s: Sys, a: Action)
    requires TriesMatch(p, s) && Enabled(p, s, a)
    requires a.CountRetrySent? || a.NoteRetryFailure? || a.CountRetrySuccess? || a.GiveUp? || a.Clear?
    ensures TriesMatch(p, Step(p, s, a))
  {
    var t := Step(p, s, a);
    assert t.queue.queue == s.queue.queue || t.queue.queue == [];
    TriesMatchCarried(p, s, t);
  }

  lemma TriesMatchKeptByRequeue(p: Queue.Policy, s: Sys, a: Action)
    requires TriesMatch(p, s) && Enabled(p, s, a) && OnePlace(s)
    requires a.Requeue?
    ensures TriesMatch(p, Step(p, s, a))
  {
    var t := Step(p, s, a);
    assert forall id :: TriesOf(t, id) == TriesOf(s, id);
    assert forall i :: 0 <= i < |s.queue.queue| ==> t.queue.queue[i] == s.queue.queue[i];
  }

  // --- every schedule ---

  ghost predicate Invariant(p: Queue.Policy, s: Sys) {
    OnePlace(s) && Balanced(s) && HandedOnce(s) && TriesMatch(p, s)
  }

  lemma BalancedKept(p: Queue.Policy, s: Sys, a: Action)
    requires OnePlace(s) && Balanced(s) && Enabled(p, s, a)
    ensures Balanced(Step(p, s, a))
  {
    match a
    case PickReady(now) =>
      PickFlights(s, now, RetryNoted);
      PickFlights(s, now, RetryCounted);
      BalancedAfterPick(s, now, TakenOff(s.flights, Queue.Ready(s.queue.queue, now)));
    case Clear =>
      MessagesCount(s.queue.queue);
      BalancedAfterClear(s, Messages(s.queue.queue));
    case Enqueue(_, _, _) => BalancedKeptByEnqueue(p, s, a);
    case CountRetrySuccess(id) => BalancedAfterSuccess(s, id);
    case GiveUp(id) => BalancedAfterGivingUp(s, id);
    case Requeue(id, now) => BalancedAfterRequeue(p, s, id, now);
    case _ =>
      if a.Send? || a.DirectSend? || a.CountSent? {
        BalancedKeptBySending(p, s, a);
      } else if a.NoteFailure? || a.Return? {
        BalancedKeptByReturning(p, s, a);
      } else if a.RetrySend? || a.CountRetrySent? || a.NoteRetryFailure? {
        BalancedKeptInFlight(p, s, a);
      }
  }

  lemma TriesMatchKept(p: Queue.Policy, s: Sys, a: Action)
    requires OnePlace(s) && TriesMatch(p, s) && Enabled(p, s, a)
    ensures TriesMatch(p, Step(p, s, a))
  {
    match a
    case DirectSend(_, _) => TriesMatchKeptByDirectSend(p, s, a);
    case Enqueue(_, _, _) => TriesMatchKeptByEnqueue(p, s, a);
    case PickReady(now) => TriesMatchKeptByPick(p, s, now);
    case RetrySend(_, _) => TriesMatchKeptByRetrySend(p, s, a);
    case Requeue(_, _) => TriesMatchKeptByRequeue(p, s, a);
    case _ =>
      if ByCaller(a) {
        TriesMatchKeptByCalls(p, s, a);
      } else {
        TriesMatchKeptByCounting(p, s, a);
      }
  }

  lemma StepKeepsInvariant(p: Queue.Policy, s: Sys, a: Action)
    requires Invariant(p, s) && Enabled(p, s, a)
    ensures Invariant(p, Step(p, s, a))
  {
    OnePlaceKept(p, s, a);
    BalancedKept(p, s, a);
    HandedOnceKept(p, s, a);
    TriesMatchKept(p, s, a);
  }

  lemma {:induction false} EveryScheduleKeepsInvariant(p: Queue.Policy, schedule: seq<Action>)
    requires Exec(p, schedule).Some?
    ensures Invariant(p, Exec(p, schedule).value)
  {
    if schedule != [] {
      var init := schedule[..|schedule| - 1];
      EveryScheduleKeepsInvariant(p, init);
      StepKeepsInvariant(p, Exec(p, init).value, schedule[|schedule| - 1]);
    }
  }

  lemma OwedCount(calls: map<nat, CallPoint>)
    ensures |Owed(calls)| == |CallsAt(calls, Enqueued)| + FailuresNoted(calls)
  {
    var e, n, f := CallsAt(calls, Enqueued), CallsAt(calls, Noted), CallsAt(calls, Failed);
    assert Owed(calls) == e + n + f;
    assert e !! n !! f;
  }

  lemma PlacesCount(s: Sys)
    requires OnePlace(s)
    ensures |Owed(s.calls)| == |s.queue.queue| + |s.flights| + |s.delivered| + |s.dropped|
  {
    MessagesCount(s.queue.queue);
    var queued, flying := Messages(s.queue.queue), s.flights.Keys;
    assert |s.flights| == |flying|;
    assert |queued + flying| == |queued| + |flying|;
    assert |queued + flying + s.delivered| == |queued| + |flying| + |s.delivered|;
  }

  /** The balances. The terms that count calls or retries caught between two lock-held regions
      are zero whenever nobody is between them. */
  predicate Conserved(s: Sys) {
    var m := s.queue.metrics;
    && s.health.failedMessages + |CallsAt(s.calls, Enqueued)|
       == m.successfulRetries + m.droppedMessages + |s.queue.queue| + |s.flights|
    && s.health.sentMessages == DirectSends(s.calls) + m.successfulRetries + |FlightsAt(s.flights, RetryCounted)|
    && m.currentQueueSize == |s.queue.queue|
    && m.totalRetries == m.successfulRetries + m.failedRetries + s.requeues + |FlightsAt(s.flights, RetryNoted)|
    && s.health.totalMessages == s.health.sentMessages && s.health.consecutiveErrors == s.health.failedMessages
  }

  /** End-to-end conservation after any schedule. */
  lemma Conservation(p: Queue.Policy, schedule: seq<Action>)
    requires Exec(p, schedule).Some?
    ensures Conserved(Exec(p, schedule).value)
  {
    EveryScheduleKeepsInvariant(p, schedule);
    var s := Exec(p, schedule).value;
    OwedCount(s.calls);
    PlacesCount(s);
  }

  /** What the invariant says of one message: a refused one was never tried, and one in the channel
      is never also queued, dropped, or about to be tried again. */
  ghost predicate HandedAtMostOnce(p: Queue.Policy, s: Sys, id: nat) {
    && Distinct(s.channel)
    && TriesOf(s, id) <= 1 + Queue.Budget(p)
    && (CallIs(s, id, Refused) ==> TriesOf(s, id) == 0 && id !in s.channel && id !in Owed(s.calls))
    && (id in s.channel ==> id !in Messages(s.queue.queue) && id !in s.dropped)
    && (id in s.channel && id in s.flights ==> s.flights[id].point in {RetryHanded, RetryCounted})
  }

  lemma OwedAndHanded(s: Sys, id: nat)
    requires OnePlace(s) && HandedOnce(s)
    ensures CallIs(s, id, Refused) ==> id !in Owed(s.calls) && id !in s.channel
    ensures id in s.channel ==> id !in Messages(s.queue.queue) && id !in s.dropped
    ensures id in s.channel && id in s.flights ==> s.flights[id].point in {RetryHanded, RetryCounted}
  {
    assert id in s.channel <==> IsHandedOver(s, id);
    assert id in Owed(s.calls)
           <==> id in Messages(s.queue.queue) || id in s.flights || id in s.delivered || id in s.dropped;
  }

  /** After any schedule every message passed to Enqueue is in exactly one place, and a message is in
      the channel at most once and was passed to sendMessageDirect at most 1 + max(1, maxRetries) times. */
  lemma AtMostOnce(p: Queue.Policy, schedule: seq<Action>, id: nat)
    requires Exec(p, schedule).Some?
    ensures OnePlace(Exec(p, schedule).value)
    ensures HandedAtMostOnce(p, Exec(p, schedule).value, id)
  {
    EveryScheduleKeepsInvariant(p, schedule);
    OwedAndHanded(Exec(p, schedule).value, id);
  }

  /** No SendMessage call and no retry is under way, and nothing is queued. */
  ghost predicate AtRest(s: Sys) {
    && (forall id :: id in s.calls ==> s.calls[id] in {Refused, Sent, Failed})
    && s.flights == map[] && s.queue.queue == []
  }

  function ToSet(ids: seq<nat>): set<nat> {
    set id | id in ids
  }

  lemma {:induction false} ToSetCount(ids: seq<nat>)
    requires Distinct(ids)
    ensures |ToSet(ids)| == |ids|
  {
    if ids != [] {
      var init := ids[..|ids| - 1];
      ToSetCount(init);
      assert ids == init + [ids[|ids| - 1]];
      assert ToSet(ids) == ToSet(init) + {ids[|ids| - 1]};
    }
  }

  /** At rest the channel holds the direct successes and the delivered retries. */
  lemma AtRestChannel(s: Sys)
    requires HandedOnce(s) && AtRest(s)
    ensures ToSet(s.channel) == CallsAt(s.calls, Sent) + s.delivered
  {
    forall id ensures id in ToSet(s.channel) <==> id in CallsAt(s.calls, Sent) + s.delivered {
      assert id in s.channel <==> IsHandedOver(s, id);
    }
  }

  lemma AtRestCounts(s: Sys)
    requires OnePlace(s) && Balanced(s) && AtRest(s)
    ensures CallsAt(s.calls, Failed) == Owed(s.calls) == s.delivered + s.dropped
    ensures s.health.sentMessages == |CallsAt(s.calls, Sent)| + |s.delivered|
    ensures s.health.failedMessages == |s.delivered| + |s.dropped|
  {
    assert Messages(s.queue.queue) == {};
    assert CallsAt(s.calls, Failed) == Owed(s.calls);
    assert CallsAt(s.calls, Noted) == {} && CallsAt(s.calls, Counted) == {} && FlightsAt(s.flights, RetryCounted) == {};
    assert |s.delivered + s.dropped| == |s.delivered| + |s.dropped|;
  }

  /** Every message the breaker let through was either put into the channel exactly once or dropped,
      never both, and the counters say how many of each. */
  ghost predicate AllSettled(s: Sys) {
    && Distinct(s.channel)
    && ToSet(s.channel) !! s.dropped
    && ToSet(s.channel) + s.dropped == s.calls.Keys - CallsAt(s.calls, Refused)
    && s.health.sentMessages == |s.channel|
    && s.queue.metrics.droppedMessages == |s.dropped|
    && s.health.failedMessages == s.queue.metrics.successfulRetries + s.queue.metrics.droppedMessages
  }

  /** Once everything is at rest, everything is settled. */
  lemma AtRestEverythingIsSettled(p: Queue.Policy, schedule: seq<Action>)
    requires Exec(p, schedule).Some? && AtRest(Exec(p, schedule).value)
    ensures AllSettled(Exec(p, schedule).value)
  {
    EveryScheduleKeepsInvariant(p, schedule);
    var s := Exec(p, schedule).value;
    AtRestChannel(s);
    AtRestCounts(s);
    ToSetCount(s.channel);
    AtRestSplit(s.calls, s.delivered, s.dropped);
  }

  lemma AtRestSplit(calls: map<nat, CallPoint>, delivered: set<nat>, dropped: set<nat>)
    requires forall id :: id in calls ==> calls[id] in {Refused, Sent, Failed}
    requires CallsAt(calls, Failed) == delivered + dropped && delivered !! dropped
    ensures var handed := CallsAt(calls, Sent) + delivered;
            && handed !! dropped
            && |handed| == |CallsAt(calls, Sent)| + |delivered|
            && handed + dropped == calls.Keys - CallsAt(calls, Refused)
  {
    var sent, failed := CallsAt(calls, Sent), CallsAt(calls, Failed);
    assert sent !! failed;
    forall id ensures id in sent + failed <==> id in calls.Keys - CallsAt(calls, Refused) {
    }
    assert sent + delivered + dropped == sent + failed;
  }
}
