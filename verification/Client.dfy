/** client.go: SendMessage over the live breaker, queue and health monitor, tied to the
    interleaved model in ClientRuns; and the chain of reconnection attempts (with connection.go). */
module Client {
  import opened Common
  import opened CircuitBreaking
  import opened RetryQueues
  import opened HealthMonitoring
  import opened Delivery
  import opened ClientRuns

  /** Which case of sendMessageDirect's select was taken. */
  datatype Selected = Accepted | ShuttingDown | TimedOut

  datatype SendError = BreakerOpen | NotRunning | ClientShuttingDown | SendTimeout

  /** The clock readings of one SendMessage. */
  datatype Clock = Clock(attempt: int, sent: int, enqueue: int, result: int)

  /** The breaker's steps of one CanAttempt without interruption. */
  function AttemptedAlone(cfg: Config, p: Policy, s: ClientRuns.State, id: nat, now: int): ClientRuns.State
    requires id !in s.gate.calls && id !in s.delivery.calls
  {
    var s1 := Moved(cfg, p, s, Breaker(Gate.Begin(id)));
    match s.gate.core.state
    case Closed => s1
    case HalfOpen => Moved(cfg, p, s1, Breaker(Gate.TakeSlot(id)))
    case Open =>
      var s2 := Moved(cfg, p, s1, Breaker(Gate.CheckTimeout(id, now)));
      if id in s2.gate.calls then Moved(cfg, p, s2, Breaker(Gate.EnterHalfOpen(id))) else s2
  }

  lemma AttemptedAloneIsAttempted(cfg: Config, p: Policy, s: ClientRuns.State, id: nat, now: int)
    requires id !in s.gate.calls && id !in s.delivery.calls
    ensures var (core, admitted) := Attempted(cfg, s.gate.core, now);
            var t := AttemptedAlone(cfg, p, s, id, now);
            && t.gate.core == core
            && t.delivery == s.delivery.(
                 calls := s.delivery.calls[id := if admitted then Delivery.Admitted else Delivery.Refused])
            && t.gate.calls - {id} == s.gate.calls
            && (admitted <==> id in t.gate.calls && t.gate.calls[id].Running?)
  {
  }

  /** The delivery steps of one protected function without interruption. */
  function SentDirectly(p: Policy, d: Sys, id: nat, ok: bool, retriable: bool, now: int): Sys
    requires CallIs(d, id, Delivery.Admitted)
  {
    var d1 := Step(p, d, Delivery.DirectSend(id, ok));
    if ok then Step(p, d1, Delivery.CountSent(id))
    else Step(p, Step(p, d1, Delivery.Enqueue(id, retriable, now)), Delivery.NoteFailure(id))
  }

  lemma SentDirectlyDoes(p: Policy, d: Sys, id: nat, ok: bool, retriable: bool, now: int)
    requires CallIs(d, id, Delivery.Admitted)
    ensures var t := SentDirectly(p, d, id, ok, retriable, now);
            && t.calls == d.calls[id := if ok then Delivery.Counted else Delivery.Noted]
            && t.flights == d.flights
            && t.queue == (if ok then d.queue else RetryQueues.Enqueued(p, d.queue, id, retriable, now))
            && t.health == (if ok then SentCounted(d.health) else FailedCounted(d.health))
            && t.channel == (if ok then d.channel + [id] else d.channel)
  {
    assert d.channel + [] == d.channel;
  }

  /** The breaker's steps of one RecordResult without interruption. */
  function ReportedAlone(cfg: Config, p: Policy, s: ClientRuns.State, id: nat, failed: bool, now: int): ClientRuns.State
    requires id in s.gate.calls && s.gate.calls[id].Running?
    requires CallIs(s.delivery, id, if failed then Delivery.Noted else Delivery.Counted)
  {
    Moved(cfg, p, Moved(cfg, p, s, Breaker(Gate.LoadForResult(id, failed))), Breaker(Gate.Record(id, now)))
  }

  lemma ReportedAloneIsRecorded(cfg: Config, p: Policy, s: ClientRuns.State, id: nat, failed: bool, now: int)
    requires id in s.gate.calls && s.gate.calls[id].Running?
    requires CallIs(s.delivery, id, if failed then Delivery.Noted else Delivery.Counted)
    ensures var t := ReportedAlone(cfg, p, s, id, failed, now);
            && t.gate.core == ResultRecorded(cfg, s.gate.core, s.gate.core.state, failed, now)
            && t.gate.calls == s.gate.calls - {id}
            && t.delivery == s.delivery.(
                 calls := s.delivery.calls[id := if failed then Delivery.Failed else Delivery.Sent])
  {
    var s1 := Moved(cfg, p, s, Breaker(Gate.LoadForResult(id, failed)));
    assert s1.gate.calls - {id} == s.gate.calls - {id};
  }

  /** What an admitted SendMessage still does, without interruption. */
  function FinishedAlone(cfg: Config, p: Policy, s: ClientRuns.State, id: nat, ok: bool, retriable: bool, c: Clock)
    : ClientRuns.State
    requires id in s.gate.calls && s.gate.calls[id].Running? && CallIs(s.delivery, id, Delivery.Admitted)
  {
    SentDirectlyDoes(p, s.delivery, id, ok, retriable, c.enqueue);
    var t := s.(delivery := SentDirectly(p, s.delivery, id, ok, retriable, c.enqueue));
    ReportedAlone(cfg, p, t, id, !ok, c.result)
  }

  lemma FinishedAloneDoes(cfg: Config, p: Policy, s: ClientRuns.State, id: nat, ok: bool, retriable: bool, c: Clock)
    requires id in s.gate.calls && s.gate.calls[id].Running? && CallIs(s.delivery, id, Delivery.Admitted)
    ensures var t := FinishedAlone(cfg, p, s, id, ok, retriable, c);
            && LiveOf(t) == SendEffect(cfg, p, LiveOf(s), s.gate.core, id, ok, retriable, c)
            && t.delivery.calls == s.delivery.calls[id := if ok then Delivery.Sent else Delivery.Failed]
            && t.gate.calls == s.gate.calls - {id} && t.delivery.flights == s.delivery.flights
  {
    SentDirectlyDoes(p, s.delivery, id, ok, retriable, c.enqueue);
    var t := s.(delivery := SentDirectly(p, s.delivery, id, ok, retriable, c.enqueue));
    ReportedAloneIsRecorded(cfg, p, t, id, !ok, c.result);
  }

  /** One SendMessage run to its end without interruption, as steps of the interleaved model. */
  function SentAlone(cfg: Config, p: Policy, s: ClientRuns.State, id: nat, ok: bool, retriable: bool, c: Clock)
    : ClientRuns.State
    requires id !in s.gate.calls && id !in s.delivery.calls
  {
    var s1 := AttemptedAlone(cfg, p, s, id, c.attempt);
    AttemptedAloneIsAttempted(cfg, p, s, id, c.attempt);
    if s1.delivery.calls[id] == Delivery.Refused then s1
    else FinishedAlone(cfg, p, s1, id, ok, retriable, c)
  }

  /** One retryMessage run to its end without interruption, as steps of the interleaved model. */
  function RetriedAlone(p: Policy, s: Sys, id: nat, a: Attempt): Sys
    requires FlightIs(s, id, Delivery.Picked)
  {
    var s1 := Step(p, s, Delivery.RetrySend(id, a.ok));
    if a.ok then
      Step(p, Step(p, s1, Delivery.CountRetrySent(id)), Delivery.CountRetrySuccess(id))
    else
      var s2 := Step(p, s1, Delivery.NoteRetryFailure(id));
      if GivesUp(p, s2.flights[id].entry) then Step(p, s2, Delivery.GiveUp(id))
      else Step(p, s2, Delivery.Requeue(id, a.at))
  }

  /** The steps of one uninterrupted retry do to the queue what MessageRetryQueue.RetryMessage
      does, and touch no SendMessage call; the breaker is not part of them at all. */
  lemma RetriedAloneIsRetried(p: Policy, s: Sys, id: nat, a: Attempt)
    requires FlightIs(s, id, Delivery.Picked)
    ensures var t := RetriedAlone(p, s, id, a);
            && t.queue == Retried(p, s.queue, s.flights[id].entry, a)
            && t.flights == s.flights - {id}
            && t.channel == s.channel + (if a.ok then [id] else [])
            && t.calls == s.calls
            && t.health == (if a.ok then SentCounted(s.health) else s.health)
  {
    if a.ok {
      RetryDelivered(p, s, id);
    } else {
      RetryFailed(p, s, id, a.at);
    }
  }

  lemma RetryDelivered(p: Policy, s: Sys, id: nat)
    requires FlightIs(s, id, Delivery.Picked)
    ensures RetriedAlone(p, s, id, Attempt(true, 0))
            == s.(flights := s.flights - {id}, queue := SuccessCounted(s.queue), channel := s.channel + [id],
                  tries := s.tries[id := TriesOf(s, id) + 1], health := SentCounted(s.health),
                  delivered := s.delivered + {id})
  {
    var s1 := Step(p, s, Delivery.RetrySend(id, true));
    var s2 := Step(p, s1, Delivery.CountRetrySent(id));
    assert s2.flights - {id} == s.flights - {id};
  }

  lemma RetryFailed(p: Policy, s: Sys, id: nat, at: int)
    requires FlightIs(s, id, Delivery.Picked)
    ensures var e := Tried(s.flights[id].entry);
            RetriedAlone(p, s, id, Attempt(false, at))
            == s.(flights := s.flights - {id}, tries := s.tries[id := TriesOf(s, id) + 1],
                  queue := if GivesUp(p, e) then DropCounted(FailureCounted(s.queue))
                           else Requeued(p, FailureCounted(s.queue), e, at),
                  dropped := if GivesUp(p, e) then s.dropped + {id} else s.dropped,
                  requeues := if GivesUp(p, e) then s.requeues else s.requeues + 1)
  {
    var s1 := Step(p, s, Delivery.RetrySend(id, false));
    assert s1.channel == s.channel;
    var s2 := Step(p, s1, Delivery.NoteRetryFailure(id));
    assert s2.flights - {id} == s.flights - {id};
  }

  /** The part of the interleaved model's state that lives in the client's objects. */
  datatype Live = Live(breaker: Core, queue: RetryQueues.State, health: Counters, channel: seq<nat>)

  function LiveOf(s: ClientRuns.State): Live {
    Live(s.gate.core, s.delivery.queue, s.delivery.health, s.delivery.channel)
  }

  /** What SendMessage does to them when the breaker admits it. */
  function SendEffect(cfg: Config, p: Policy, l: Live, admitted: Core, id: nat, ok: bool, retriable: bool, c: Clock)
    : Live
  {
    var core := ResultRecorded(cfg, admitted, admitted.state, !ok, c.result);
    if ok then Live(core, l.queue, SentCounted(l.health), l.channel + [id])
    else Live(core, RetryQueues.Enqueued(p, l.queue, id, retriable, c.enqueue), FailedCounted(l.health), l.channel)
  }

  /** NetworkClient.SendMessage and the steps of the interleaved model agree. */
  lemma SentAloneIsSendMessage(cfg: Config, p: Policy, s: ClientRuns.State, id: nat, ok: bool, retriable: bool,
                               c: Clock)
    requires id !in s.gate.calls && id !in s.delivery.calls
    ensures var (core, admitted) := Attempted(cfg, s.gate.core, c.attempt);
            var t := SentAlone(cfg, p, s, id, ok, retriable, c);
            && LiveOf(t) == (if admitted then SendEffect(cfg, p, LiveOf(s), core, id, ok, retriable, c) else LiveOf(s))
            && t.delivery.calls
               == s.delivery.calls[
                    id := if !admitted then Delivery.Refused else if ok then Delivery.Sent else Delivery.Failed]
            && t.gate.calls == s.gate.calls && t.delivery.flights == s.delivery.flights
  {
    var (core, admitted) := Attempted(cfg, s.gate.core, c.attempt);
    var s1 := AttemptedAlone(cfg, p, s, id, c.attempt);
    AttemptedAloneIsAttempted(cfg, p, s, id, c.attempt);
    if admitted {
      FinishedAloneDoes(cfg, p, s1, id, ok, retriable, c);
    }
  }

  class NetworkClient {
    const circuitBreaker: CircuitBreaker
    const retryQueue: MessageRetryQueue
    const healthMonitor: HealthMonitor
    var running: bool
    var sendChan: seq<nat>      // every message accepted so far, in order

    ghost predicate Valid()
      reads this, retryQueue
    {
      retryQueue.Valid()
    }

    function Value(): Live
      reads this, circuitBreaker, retryQueue, retryQueue.queue, healthMonitor
    {
      Live(circuitBreaker.Value(), retryQueue.Value(), healthMonitor.Value(), sendChan)
    }

    constructor ()
      ensures Valid() && Value() == LiveOf(INITIALLY) && !running
      ensures circuitBreaker.Cfg() == Config(3, 30 * SECOND, 1) && retryQueue.policy == DEFAULT_POLICY
      ensures fresh(circuitBreaker) && fresh(retryQueue) && fresh(healthMonitor)
    {
      circuitBreaker := new CircuitBreaker(3, 30 * SECOND);
      retryQueue := new MessageRetryQueue(DEFAULT_POLICY);
      healthMonitor := new HealthMonitor();
      running := false;
      sendChan := [];
    }

    method SendMessageDirect(message: nat, selected: Selected, now: int) returns (err: Option<SendError>)
      modifies this, healthMonitor
      ensures err == if !old(running) then Some(NotRunning)
                     else match selected
                       case Accepted => None
                       case ShuttingDown => Some(ClientShuttingDown)
                       case TimedOut => Some(SendTimeout)
      ensures running == old(running)
      ensures sendChan == old(sendChan) + (if err == None then [message] else [])
      ensures healthMonitor.Value() ==
                if err == None then SentCounted(old(healthMonitor.Value())) else old(healthMonitor.Value())
      ensures healthMonitor.lastMessageSent == if err == None then Some(now) else old(healthMonitor.lastMessageSent)
    {
      if !running {
        return Some(NotRunning);
      }
      match selected
      case Accepted =>
        sendChan := sendChan + [message];
        healthMonitor.RecordMessageSent(now);
        return None;
      case ShuttingDown => return Some(ClientShuttingDown);
      case TimedOut => return Some(SendTimeout);
    }

    method SendMessage(message: nat, selected: Selected, retriable: SendError -> bool, c: Clock)
      returns (err: Option<SendError>)
      requires Valid()
      modifies this, circuitBreaker, retryQueue, healthMonitor
      ensures Valid() && running == old(running)
      ensures healthMonitor.lastMessageSent == if err == None then Some(c.sent) else old(healthMonitor.lastMessageSent)
      ensures var (core, admitted) := Attempted(circuitBreaker.Cfg(), old(circuitBreaker.Value()), c.attempt);
              && (err == Some(BreakerOpen) <==> !admitted)
              && (err == None <==> admitted && old(running) && selected == Accepted)
              && Value() == if !admitted then old(Value())
                            else SendEffect(circuitBreaker.Cfg(), retryQueue.policy, old(Value()), core, message,
                                            err == None, err.Some? && retriable(err.value), c)
    {
      var admitted := circuitBreaker.CanAttempt(c.attempt);
      if !admitted {
        return Some(BreakerOpen);
      }
      err := SendMessageDirect(message, selected, c.sent);
      if err != None {
        retryQueue.Enqueue(message, retriable(err.value), c.enqueue);
        healthMonitor.RecordMessageFailed();
      }
      circuitBreaker.RecordResult(err != None, c.result);
    }
  }

  // --- reconnection ---

  class ReconnectionManager {
    var enabled: bool
    var attempts: int
    var maxAttempts: int

    predicate ShouldReconnect()
      reads this
    {
      enabled && attempts < maxAttempts
    }

    constructor (enabled: bool, maxAttempts: int)
      ensures this.enabled == enabled && this.maxAttempts == maxAttempts && attempts == 0
    {
      this.enabled := enabled;
      this.maxAttempts := maxAttempts;
      attempts := 0;
    }
  }

  function ExponentialBackoff(attempt: int): int {
    Min(Wrap(Wrap(attempt * 5) * SECOND), 60 * SECOND)
  }

  /** The time slept by n attempts, the first of them being number first. */
  function Slept(first: int, n: nat): int {
    if n == 0 then 0 else Slept(first, n - 1) + ExponentialBackoff(first + n - 1)
  }

  /** One chain of attemptReconnection calls, each spawned by the one before it; dial(k) says
      whether the k-th dial succeeds. recorded is the number of RecordReconnectAttempt calls. */
  method AttemptReconnection(r: ReconnectionManager, dial: nat -> bool)
    returns (dials: nat, slept: int, connected: bool, recorded: nat)
    modifies r
    ensures r.enabled == old(r.enabled) && r.maxAttempts == old(r.maxAttempts)
    ensures dials <= Max(0, r.maxAttempts - old(r.attempts))
    ensures slept == Slept(old(r.attempts) + 1, dials)
    ensures connected <==> dials > 0 && dial(dials - 1)
    ensures forall k :: 0 <= k < dials - 1 ==> !dial(k)
    ensures r.attempts == if connected then 0 else old(r.attempts) + dials
    ensures !connected && r.enabled ==> dials == Max(0, r.maxAttempts - old(r.attempts))
    ensures !r.enabled ==> dials == 0
    ensures recorded == Max(1, dials)
  {
    dials, slept, connected, recorded := 0, 0, false, 0;
    if !r.ShouldReconnect() {
      recorded := 1;
      return;
    }
    while true
      invariant r.ShouldReconnect() && r.enabled == old(r.enabled) && r.maxAttempts == old(r.maxAttempts)
      invariant r.attempts == old(r.attempts) + dials && recorded == dials
      invariant slept == Slept(old(r.attempts) + 1, dials)
      invariant forall k :: 0 <= k < dials ==> !dial(k)
      decreases r.maxAttempts - r.attempts
    {
      r.attempts := r.attempts + 1;
      slept := slept + ExponentialBackoff(r.attempts);
      dials, recorded := dials + 1, recorded + 1;
      if dial(dials - 1) {
        r.attempts := 0;
        connected := true;
        return;
      }
      if !r.ShouldReconnect() {
        return;
      }
    }
  }

  lemma WrapFitsBelow(x: int)
    requires 0 <= x <= 9_223_372_036_854_775_807
    ensures Wrap(x) == x
  {
  }

  lemma BackoffValue(n: nat)
    requires n <= 1_844_674_407
    ensures ExponentialBackoff(n) == Min(5 * n, 60) * SECOND
  {
    WrapFitsBelow(n * 5);
    WrapFitsBelow(n * 5 * SECOND);
  }

  /** The seconds a chain from zero attempts has slept after n dials. */
  function SleptSeconds(n: nat): int {
    if n <= 12 then 5 * (n * (n + 1) / 2) else 390 + 60 * (n - 12)
  }

  lemma SecondsStep(n: nat)
    requires n > 0
    ensures SleptSeconds(n) == SleptSeconds(n - 1) + Min(5 * n, 60)
  {
    Triangle(n);
    if n == 13 {
      assert SleptSeconds(12) == 390;
    }
  }

  /** A chain from zero attempts that has dialled n times has slept 5n(n+1)/2 seconds up to the
      twelfth dial, and a minute more for each dial after it, as long as attempt * 5s fits int64. */
  lemma {:induction false} SleptClosedForm(n: nat)
    requires n <= 1_844_674_407
    ensures Slept(1, n) == SleptSeconds(n) * SECOND
  {
    if n > 0 {
      SleptClosedForm(n - 1);
      BackoffValue(n);
      SecondsStep(n);
    }
  }

  lemma Triangle(n: nat)
    requires n > 0
    ensures n * (n + 1) / 2 == (n - 1) * n / 2 + n
  {
    assert n * (n + 1) == (n - 1) * n + 2 * n;
  }
}
