/** retry_queue.go: the queue of failed messages. Clocks and send outcomes are arguments;
    a message is known by a number. */
module RetryQueues {
  import opened Common
  import opened Backoff

  /** overflow is the platform's result for a float outside int64, see Backoff.ToDuration. */
  datatype Policy = Policy(maxRetries: int, initialDelay: int, maxDelay: int, backoffFactor: real, overflow: int)

  const DEFAULT_POLICY := Policy(3, SECOND, 30 * SECOND, 2.0, -0x8000_0000_0000_0000)

  datatype Entry = Entry(message: nat, retryCount: int, nextRetry: int)

  datatype Metrics = Metrics(
    totalRetries: int,
    successfulRetries: int,
    failedRetries: int,
    droppedMessages: int,
    currentQueueSize: int)

  datatype State = State(queue: seq<Entry>, metrics: Metrics)

  /** What one send and one reading of the clock gave. */
  datatype Attempt = Attempt(ok: bool, at: int)

  function WithQueue(s: State, queue: seq<Entry>): State {
    State(queue, s.metrics.(currentQueueSize := |queue|))
  }

  function Enqueued(p: Policy, s: State, message: nat, retriable: bool, now: int): State {
    if retriable then WithQueue(s, s.queue + [Entry(message, 0, now + p.initialDelay)])
    else s.(metrics := s.metrics.(droppedMessages := s.metrics.droppedMessages + 1))
  }

  function Ready(q: seq<Entry>, now: int): seq<Entry> {
    if q == [] then []
    else
      var e := q[|q| - 1];
      Ready(q[..|q| - 1], now) + (if now > e.nextRetry then [e] else [])
  }

  function Waiting(q: seq<Entry>, now: int): seq<Entry> {
    if q == [] then []
    else
      var e := q[|q| - 1];
      Waiting(q[..|q| - 1], now) + (if now > e.nextRetry then [] else [e])
  }

  /** The locked half of processReadyMessages. */
  function Picked(s: State, now: int): State {
    WithQueue(s, Waiting(s.queue, now))
  }

  function SuccessCounted(s: State): State {
    s.(metrics := s.metrics.(successfulRetries := s.metrics.successfulRetries + 1,
                             totalRetries := s.metrics.totalRetries + 1))
  }

  function FailureCounted(s: State): State {
    s.(metrics := s.metrics.(totalRetries := s.metrics.totalRetries + 1))
  }

  function DropCounted(s: State): State {
    s.(metrics := s.metrics.(failedRetries := s.metrics.failedRetries + 1,
                             droppedMessages := s.metrics.droppedMessages + 1))
  }

  function Tried(e: Entry): Entry {
    e.(retryCount := e.retryCount + 1)
  }

  predicate GivesUp(p: Policy, e: Entry) {
    e.retryCount >= p.maxRetries
  }

  function Rescheduled(p: Policy, e: Entry, now: int): Entry {
    e.(nextRetry := now + QueueDelay(p.initialDelay, p.backoffFactor, p.maxDelay, p.overflow, Max(0, e.retryCount - 1)))
  }

  function Requeued(p: Policy, s: State, e: Entry, now: int): State {
    WithQueue(s, s.queue + [Rescheduled(p, e, now)])
  }

  function Cleared(s: State): State {
    State([], s.metrics.(droppedMessages := s.metrics.droppedMessages + |s.queue|, currentQueueSize := 0))
  }

  /** retryMessage run to its end without interruption. */
  function Retried(p: Policy, s: State, e: Entry, a: Attempt): State {
    if a.ok then SuccessCounted(s)
    else if GivesUp(p, Tried(e)) then DropCounted(FailureCounted(s))
    else Requeued(p, FailureCounted(s), Tried(e), a.at)
  }

  function RetriedFrom(p: Policy, s: State, es: seq<Entry>, env: nat -> Attempt, k: nat): State
    decreases |es| - k
  {
    if k >= |es| then s
    else RetriedFrom(p, Retried(p, s, es[k], env(k)), es, env, k + 1)
  }

  /** processReadyMessages run to its end without interruption; env(k) is the outcome of the k-th send. */
  function Passed(p: Policy, s: State, now: int, env: nat -> Attempt): State {
    RetriedFrom(p, Picked(s, now), Ready(s.queue, now), env, 0)
  }

  class RetryableMessage {
    const message: nat
    var retryCount: int
    var nextRetry: int

    function Value(): Entry
      reads this
    {
      Entry(message, retryCount, nextRetry)
    }

    constructor (message: nat, nextRetry: int)
      ensures Value() == Entry(message, 0, nextRetry)
    {
      this.message := message;
      retryCount := 0;
      this.nextRetry := nextRetry;
    }
  }

  function Values(ms: seq<RetryableMessage>): seq<Entry>
    reads ms
  {
    seq(|ms|, i requires 0 <= i < |ms| reads ms => ms[i].Value())
  }

  class MessageRetryQueue {
    const policy: Policy
    var queue: seq<RetryableMessage>
    var totalRetries: int
    var successfulRetries: int
    var failedRetries: int
    var droppedMessages: int
    var currentQueueSize: int

    ghost predicate Valid()
      reads this
    {
      Distinct(queue)
    }

    function Value(): State
      reads this, queue
    {
      State(Values(queue), Metrics(totalRetries, successfulRetries, failedRetries, droppedMessages, currentQueueSize))
    }

    constructor (policy: Policy)
      ensures Valid() && this.policy == policy && queue == []
      ensures Value() == State([], Metrics(0, 0, 0, 0, 0))
    {
      this.policy := policy;
      queue := [];
      totalRetries, successfulRetries, failedRetries := 0, 0, 0;
      droppedMessages, currentQueueSize := 0, 0;
    }

    method Enqueue(message: nat, retriable: bool, now: int)
      requires Valid()
      modifies this
      ensures Valid() && fresh(set m | m in queue && m !in old(queue))
      ensures Value() == Enqueued(policy, old(Value()), message, retriable, now)
    {
      if !retriable {
        droppedMessages := droppedMessages + 1;
        return;
      }
      var retryMsg := new RetryableMessage(message, now + policy.initialDelay);
      queue := queue + [retryMsg];
      currentQueueSize := |queue|;
      assert Value().queue == old(Value()).queue + [retryMsg.Value()];
    }

    /** The locked half of processReadyMessages: splits the queue by due time. */
    method PickReady(now: int) returns (ready: seq<RetryableMessage>)
      requires Valid()
      modifies this
      ensures Valid() && Distinct(ready)
      ensures forall m :: m in ready ==> m in old(queue) && m !in queue
      ensures forall m :: m in queue ==> m in old(queue)
      ensures Value() == Picked(old(Value()), now)
      ensures Values(ready) == Ready(old(Value()).queue, now)
    {
      ghost var all := Values(queue);
      ready := [];
      var remaining: seq<RetryableMessage> := [];
      for i := 0 to |queue|
        invariant Values(ready) == Ready(all[..i], now)
        invariant Values(remaining) == Waiting(all[..i], now)
        invariant Distinct(ready) && Distinct(remaining)
        invariant forall m :: m in ready ==> m in queue[..i] && m !in remaining
        invariant forall m :: m in remaining ==> m in queue[..i]
      {
        var msg := queue[i];
        assert all[i] == Values(queue)[i] == msg.Value();
        assert all[..i + 1][..i] == all[..i] && all[..i + 1][i] == all[i];
        assert queue[..i + 1] == queue[..i] + [msg] && msg !in queue[..i];
        if now > msg.nextRetry {
          assert Values(ready + [msg]) == Values(ready) + [msg.Value()];
          ready := ready + [msg];
        } else {
          assert Values(remaining + [msg]) == Values(remaining) + [msg.Value()];
          remaining := remaining + [msg];
        }
      }
      assert all[..|queue|] == all;
      queue := remaining;
      currentQueueSize := |queue|;
    }

    method RetryMessage(m: RetryableMessage, a: Attempt)
      requires Valid() && m !in queue
      modifies this, m
      ensures Valid() && (queue == old(queue) || queue == old(queue) + [m])
      ensures Value() == Retried(policy, old(Value()), old(m.Value()), a)
    {
      m.retryCount := m.retryCount + 1;
      assert Values(queue) == old(Values(queue));
      if a.ok {
        successfulRetries := successfulRetries + 1;
        totalRetries := totalRetries + 1;
        return;
      }
      totalRetries := totalRetries + 1;
      if m.retryCount >= policy.maxRetries {
        failedRetries := failedRetries + 1;
        droppedMessages := droppedMessages + 1;
        return;
      }
      var delay := QueueBackoff(policy.initialDelay, policy.backoffFactor, policy.maxDelay, policy.overflow,
                                m.retryCount);
      m.nextRetry := a.at + delay;
      assert Values(queue) == old(Values(queue));
      queue := queue + [m];
      currentQueueSize := |queue|;
      assert Values(queue) == old(Values(queue)) + [m.Value()];
    }

    method ProcessReadyMessages(now: int, env: nat -> Attempt)
      requires Valid()
      modifies this, queue
      ensures Valid() && forall m :: m in queue ==> m in old(queue)
      ensures Value() == Passed(policy, old(Value()), now, env)
    {
      var ready := PickReady(now);
      ghost var es := Values(ready);
      ghost var rest := queue;
      for k := 0 to |ready|
        invariant Valid()
        invariant forall m :: m in queue ==> m in rest || m in ready[..k]
        invariant forall j :: k <= j < |ready| ==> ready[j].Value() == es[j]
        invariant RetriedFrom(policy, Value(), es, env, k) == Passed(policy, old(Value()), now, env)
      {
        assert ready[k] !in ready[..k];
        assert ready[k] in ready && ready[k] in old(queue);
        RetryMessage(ready[k], env(k));
      }
    }

    method Clear()
      requires Valid()
      modifies this
      ensures Valid() && queue == []
      ensures Value() == Cleared(old(Value()))
    {
      var dropped := |queue|;
      queue := [];
      droppedMessages := droppedMessages + dropped;
      currentQueueSize := 0;
    }
  }

  /** Under the shipped policy no delay ever overflows, whatever the platform does with floats out of
      range: an entry that is not given up is due one or two seconds later, the intended delay. */
  lemma ShippedDelays(e: Entry, now: int, overflow: int)
    requires !GivesUp(DEFAULT_POLICY, e)
    ensures var p, n := DEFAULT_POLICY, Max(0, e.retryCount - 1);
            var due := Rescheduled(p.(overflow := overflow), e, now).nextRetry;
            && due == now + ClosedForm(p.initialDelay, p.backoffFactor, p.maxDelay, n)
            && due == now + (if e.retryCount < 2 then SECOND else 2 * SECOND)
  {
    var n := Max(0, e.retryCount - 1);
    var x := SECOND as real;
    if n == 1 {
      Unfold(x, 2.0, 0);
    }
    QueueDelayExactly(SECOND, 2.0, 30 * SECOND, overflow, n);
  }

  // --- what every queue of the program satisfies ---

  /** The number of retries one message can get. */
  function Budget(p: Policy): int {
    Max(1, p.maxRetries)
  }

  ghost predicate InBudget(p: Policy, q: seq<Entry>) {
    forall i :: 0 <= i < |q| ==> 0 <= q[i].retryCount < Budget(p)
  }

  /** The retries the entries of q may still get. */
  function BudgetLeft(p: Policy, q: seq<Entry>): int {
    if q == [] then 0
    else BudgetLeft(p, q[..|q| - 1]) + Budget(p) - q[|q| - 1].retryCount
  }

  /** Messages accounted for as delivered, dropped or queued. */
  function Settled(s: State): int {
    s.metrics.successfulRetries + s.metrics.droppedMessages + |s.queue|
  }

  lemma BudgetLeftAppend(p: Policy, q: seq<Entry>, e: Entry)
    ensures BudgetLeft(p, q + [e]) == BudgetLeft(p, q) + Budget(p) - e.retryCount
  {
    assert (q + [e])[..|q + [e]| - 1] == q;
  }

  lemma {:induction false} SplitKeeps(p: Policy, q: seq<Entry>, now: int)
    ensures |Ready(q, now)| + |Waiting(q, now)| == |q|
    ensures BudgetLeft(p, Ready(q, now)) + BudgetLeft(p, Waiting(q, now)) == BudgetLeft(p, q)
  {
    if q != [] {
      var init, e := q[..|q| - 1], q[|q| - 1];
      SplitKeeps(p, init, now);
      if now > e.nextRetry {
        BudgetLeftAppend(p, Ready(init, now), e);
        assert Waiting(init, now) + [] == Waiting(init, now);
      } else {
        BudgetLeftAppend(p, Waiting(init, now), e);
        assert Ready(init, now) + [] == Ready(init, now);
      }
    }
  }

  /** The split moves entries, unchanged, to the side their due time says. */
  lemma {:induction false} SplitByDueTime(q: seq<Entry>, now: int)
    ensures forall i :: 0 <= i < |Ready(q, now)| ==> Ready(q, now)[i] in q && now > Ready(q, now)[i].nextRetry
    ensures forall i :: 0 <= i < |Waiting(q, now)| ==> Waiting(q, now)[i] in q && now <= Waiting(q, now)[i].nextRetry
  {
    if q != [] {
      var init := q[..|q| - 1];
      SplitByDueTime(init, now);
      assert forall e :: e in init ==> e in q;
    }
  }

  function DueBefore(now: int): Entry -> bool {
    (e: Entry) => now > e.nextRetry
  }

  function NotDueBefore(now: int): Entry -> bool {
    (e: Entry) => now <= e.nextRetry
  }

  /** The due entries are picked in the queue's order, and all of them. */
  lemma {:induction false} ReadyInOrder(q: seq<Entry>, now: int) returns (at: seq<nat>)
    ensures Selects(Ready(q, now), q, DueBefore(now), at)
  {
    at := [];
    if q != [] {
      var init, e := q[..|q| - 1], q[|q| - 1];
      at := ReadyInOrder(init, now);
      SelectsNext(Ready(init, now), init, DueBefore(now), at, e);
      assert init + [e] == q;
      at := at + (if DueBefore(now)(e) then [|init|] else []);
    }
  }

  /** So are the others left, in the queue's order. */
  lemma {:induction false} WaitingInOrder(q: seq<Entry>, now: int) returns (at: seq<nat>)
    ensures Selects(Waiting(q, now), q, NotDueBefore(now), at)
  {
    at := [];
    if q != [] {
      var init, e := q[..|q| - 1], q[|q| - 1];
      at := WaitingInOrder(init, now);
      SelectsNext(Waiting(init, now), init, NotDueBefore(now), at, e);
      assert init + [e] == q;
      at := at + (if NotDueBefore(now)(e) then [|init|] else []);
    }
  }

  /** A message enqueued at one time is picked up by a pass at another exactly when more than the
      initial delay has passed, and otherwise waits at the end of the queue. */
  lemma EnqueuedIsDueExactly(p: Policy, s: State, message: nat, at: int, now: int)
    ensures var e := Entry(message, 0, at + p.initialDelay);
            var q := Enqueued(p, s, message, true, at).queue;
            && Ready(q, now) == Ready(s.queue, now) + (if now - at > p.initialDelay then [e] else [])
            && Waiting(q, now) == Waiting(s.queue, now) + (if now - at > p.initialDelay then [] else [e])
  {
    var q := Enqueued(p, s, message, true, at).queue;
    assert q[..|q| - 1] == s.queue;
  }

  /** The backoff the policy promises for a retry: min(maxDelay, initialDelay * factor^(retry - 1)). */
  function PromisedDelay(p: Policy, retry: int): int
    requires retry >= 1
  {
    Min(p.maxDelay, (p.initialDelay as real * Power(p.backoffFactor, retry - 1)).Floor)
  }

  lemma DelayIsPromised(p: Policy, retry: int)
    requires 0 <= p.initialDelay <= p.maxDelay <= MAX_INT64 && p.backoffFactor >= 1.0 && retry >= 1
    ensures QueueDelay(p.initialDelay, p.backoffFactor, p.maxDelay, p.overflow, retry - 1) == PromisedDelay(p, retry)
            <==> p.initialDelay as real * Power(p.backoffFactor, retry - 1) < TWO63 || p.overflow >= p.maxDelay
  {
    ProductIsPower(p.initialDelay as real, p.backoffFactor, retry - 1);
    QueueDelayExactly(p.initialDelay, p.backoffFactor, p.maxDelay, p.overflow, retry - 1);
  }

  /** A message re-queued at one time is picked up by a pass at another exactly when more than the
      promised backoff of its retry has passed, as long as that backoff fits int64 or clamps. */
  lemma RequeuedIsDueExactly(p: Policy, s: State, e: Entry, at: int, now: int)
    requires 0 <= p.initialDelay <= p.maxDelay <= MAX_INT64 && p.backoffFactor >= 1.0 && e.retryCount >= 1
    requires p.initialDelay as real * Power(p.backoffFactor, e.retryCount - 1) < TWO63 || p.overflow >= p.maxDelay
    ensures var delay := PromisedDelay(p, e.retryCount);
            Ready(Requeued(p, s, e, at).queue, now)
            == Ready(s.queue, now) + (if now - at > delay then [e.(nextRetry := at + delay)] else [])
  {
    DelayIsPromised(p, e.retryCount);
    RequeuedIsDue(p, s, e, at, now, PromisedDelay(p, e.retryCount));
  }

  lemma RequeuedIsDue(p: Policy, s: State, e: Entry, at: int, now: int, delay: int)
    requires e.retryCount >= 1
    requires delay == QueueDelay(p.initialDelay, p.backoffFactor, p.maxDelay, p.overflow, e.retryCount - 1)
    ensures Ready(Requeued(p, s, e, at).queue, now)
            == Ready(s.queue, now) + (if now - at > delay then [e.(nextRetry := at + delay)] else [])
  {
    var q := Requeued(p, s, e, at).queue;
    assert q[..|q| - 1] == s.queue;
  }

  /** How far one entry's retries have got, and when it is next due. */
  ghost predicate Aged(p: Policy, q: seq<Entry>, age: int, dueBy: int) {
    forall i :: 0 <= i < |q| ==> age <= q[i].retryCount < Budget(p) && q[i].nextRetry <= dueBy
  }

  lemma AgedAt(p: Policy, q: seq<Entry>, age: int, dueBy: int, i: int)
    requires Aged(p, q, age, dueBy) && 0 <= i < |q|
    ensures age <= q[i].retryCount < Budget(p)
  {
  }

  lemma {:induction false} AllDue(q: seq<Entry>, now: int)
    requires forall i :: 0 <= i < |q| ==> q[i].nextRetry < now
    ensures Waiting(q, now) == []
  {
    if q != [] {
      AllDue(q[..|q| - 1], now);
    }
  }

  lemma RetriedKeeps(p: Policy, s: State, e: Entry, a: Attempt)
    requires 0 <= e.retryCount < Budget(p)
    ensures var t := Retried(p, s, e, a);
            && Settled(t) == Settled(s) + 1
            && t.metrics.totalRetries == s.metrics.totalRetries + 1
            && BudgetLeft(p, t.queue) < BudgetLeft(p, s.queue) + Budget(p) - e.retryCount
            && (t.queue == s.queue
                || exists f: Entry :: t.queue == s.queue + [f] && f.retryCount == e.retryCount + 1 < Budget(p)
                                      && f.nextRetry <= a.at + p.maxDelay)
  {
    if !a.ok && !GivesUp(p, Tried(e)) {
      var f := Rescheduled(p, Tried(e), a.at);
      BudgetLeftAppend(p, s.queue, f);
      assert Retried(p, s, e, a).queue == s.queue + [f];
    }
  }

  function BudgetLeftFrom(p: Policy, es: seq<Entry>, k: nat): int
    decreases |es| - k
  {
    if k >= |es| then 0 else Budget(p) - es[k].retryCount + BudgetLeftFrom(p, es, k + 1)
  }

  lemma {:induction false} BudgetLeftFromStart(p: Policy, es: seq<Entry>, k: nat)
    requires k <= |es|
    ensures BudgetLeft(p, es[..k]) + BudgetLeftFrom(p, es, k) == BudgetLeft(p, es)
    decreases |es| - k
  {
    if k == |es| {
      assert es[..k] == es;
    } else {
      BudgetLeftFromStart(p, es, k + 1);
      assert es[..k + 1] == es[..k] + [es[k]];
      BudgetLeftAppend(p, es[..k], es[k]);
    }
  }

  lemma {:induction false} RetriedFromKeeps(p: Policy, s: State, es: seq<Entry>, env: nat -> Attempt, k: nat,
                                             age: nat, end: int)
    requires k <= |es|
    requires forall i :: 0 <= i < |es| ==> age <= es[i].retryCount < Budget(p)
    ensures var t := RetriedFrom(p, s, es, env, k);
            && Settled(t) == Settled(s) + |es| - k
            && t.metrics.totalRetries == s.metrics.totalRetries + |es| - k
            && t.metrics.totalRetries + BudgetLeft(p, t.queue)
               <= s.metrics.totalRetries + BudgetLeft(p, s.queue) + BudgetLeftFrom(p, es, k)
            && (InBudget(p, s.queue) ==> InBudget(p, t.queue))
            && (Aged(p, s.queue, age + 1, end + p.maxDelay) && (forall i: nat :: env(i).at <= end)
                ==> Aged(p, t.queue, age + 1, end + p.maxDelay))
    decreases |es| - k
  {
    if k < |es| {
      RetriedKeeps(p, s, es[k], env(k));
      RetriedFromKeeps(p, Retried(p, s, es[k], env(k)), es, env, k + 1, age, end);
    }
  }

  /** One pass, whenever it runs and however its sends end: no message is lost or doubled, no
      entry outlives its budget, and every retry made is paid for out of the queue's budget. */
  lemma PassKeeps(p: Policy, s: State, now: int, env: nat -> Attempt)
    requires InBudget(p, s.queue)
    ensures var t := Passed(p, s, now, env);
            && InBudget(p, t.queue)
            && Settled(t) == Settled(s)
            && t.metrics.totalRetries == s.metrics.totalRetries + |Ready(s.queue, now)|
            && t.metrics.totalRetries + BudgetLeft(p, t.queue) <= s.metrics.totalRetries + BudgetLeft(p, s.queue)
  {
    SplitKeeps(p, s.queue, now);
    SplitByDueTime(s.queue, now);
    var es := Ready(s.queue, now);
    RetriedFromKeeps(p, Picked(s, now), es, env, 0, 0, 0);
    BudgetLeftFromStart(p, es, 0);
  }

  // --- what a pass leaves in the queue, and in which order ---

  predicate GoesBack(p: Policy, es: seq<Entry>, env: nat -> Attempt, k: nat)
    requires k < |es|
  {
    !env(k).ok && Tried(es[k]).retryCount < p.maxRetries
  }

  /** The entries of es at these places, after their retry. */
  function SentBack(p: Policy, es: seq<Entry>, env: nat -> Attempt, at: seq<nat>): seq<Entry>
    requires forall i :: 0 <= i < |at| ==> at[i] < |es|
  {
    if at == [] then []
    else [Rescheduled(p, Tried(es[at[0]]), env(at[0]).at)] + SentBack(p, es, env, at[1..])
  }

  lemma {:induction false} RetriedFromSendsBack(p: Policy, s: State, es: seq<Entry>, env: nat -> Attempt, k: nat)
    returns (at: seq<nat>)
    requires k <= |es|
    ensures forall i :: 0 <= i < |at| ==> k <= at[i] < |es|
    ensures forall i, j :: 0 <= i < j < |at| ==> at[i] < at[j]
    ensures forall j :: k <= j < |es| ==> (GoesBack(p, es, env, j) <==> j in at)
    ensures RetriedFrom(p, s, es, env, k).queue == s.queue + SentBack(p, es, env, at)
    decreases |es| - k
  {
    if k == |es| {
      at := [];
    } else {
      var t := Retried(p, s, es[k], env(k));
      var rest := RetriedFromSendsBack(p, t, es, env, k + 1);
      if GoesBack(p, es, env, k) {
        at := [k] + rest;
        assert at[1..] == rest;
        OneSentBack(p, s.queue, es, env, at);
      } else {
        at := rest;
      }
    }
  }

  lemma OneSentBack(p: Policy, q: seq<Entry>, es: seq<Entry>, env: nat -> Attempt, at: seq<nat>)
    requires at != [] && forall i :: 0 <= i < |at| ==> at[i] < |es|
    ensures q + SentBack(p, es, env, at)
            == q + [Rescheduled(p, Tried(es[at[0]]), env(at[0]).at)] + SentBack(p, es, env, at[1..])
  {
  }

  /** After a pass the queue holds the entries that were not due, and after them those of the due
      ones whose send failed with retries left, each side in its old order. */
  lemma PassSendsBackInOrder(p: Policy, s: State, now: int, env: nat -> Attempt) returns (at: seq<nat>)
    ensures var es := Ready(s.queue, now);
            && (forall i :: 0 <= i < |at| ==> at[i] < |es|)
            && (forall i, j :: 0 <= i < j < |at| ==> at[i] < at[j])
            && (forall j :: 0 <= j < |es| ==> (GoesBack(p, es, env, j) <==> j in at))
            && Passed(p, s, now, env).queue == Waiting(s.queue, now) + SentBack(p, es, env, at)
  {
    at := RetriedFromSendsBack(p, Picked(s, now), Ready(s.queue, now), env, 0);
  }

  // --- draining ---

  datatype Pass = Pass(start: int, end: int, env: nat -> Attempt)

  function AllPassed(p: Policy, s: State, passes: seq<Pass>): State
    decreases |passes|
  {
    if passes == [] then s
    else AllPassed(p, Passed(p, s, passes[0].start, passes[0].env), passes[1..])
  }

  /** Every clock reading of a pass is at most its end, and each pass starts more than maxDelay
      after the one before it ended. */
  ghost predicate Spaced(p: Policy, passes: seq<Pass>) {
    && (forall i, k: nat :: 0 <= i < |passes| ==> passes[i].env(k).at <= passes[i].end)
    && (forall i :: 0 <= i < |passes| - 1 ==> passes[i].end + p.maxDelay < passes[i + 1].start)
  }

  lemma {:induction false} DrainsFrom(p: Policy, s: State, passes: seq<Pass>, age: nat)
    requires passes != [] ==> Aged(p, s.queue, age, passes[0].start - 1)
    requires passes == [] ==> s.queue == []
    requires age + |passes| >= Budget(p) && Spaced(p, passes)
    ensures var t := AllPassed(p, s, passes);
            t.queue == [] && Settled(t) == Settled(s)
    decreases |passes|
  {
    if passes != [] {
      var now, env, end := passes[0].start, passes[0].env, passes[0].end;
      PassKeeps(p, s, now, env);
      SplitByDueTime(s.queue, now);
      var es := Ready(s.queue, now);
      AllDue(s.queue, now);
      RetriedFromKeeps(p, Picked(s, now), es, env, 0, age, end);
      var t := Passed(p, s, now, env);
      assert Aged(p, t.queue, age + 1, end + p.maxDelay);
      var rest := passes[1..];
      if rest == [] {
        if t.queue != [] {
          AgedAt(p, t.queue, age + 1, end + p.maxDelay, 0);
        }
      } else {
        assert passes[1] == rest[0];
        assert forall i :: 0 <= i < |rest| ==> rest[i] == passes[i + 1];
      }
      DrainsFrom(p, t, rest, age + 1);
    }
  }

  /** With no new Enqueue, max(1, maxRetries) spaced passes empty the queue, the first starting
      after every entry is due; every entry ends delivered or dropped. */
  lemma QueueDrains(p: Policy, s: State, passes: seq<Pass>)
    requires InBudget(p, s.queue)
    requires |passes| >= Budget(p) && Spaced(p, passes)
    requires forall i :: 0 <= i < |s.queue| ==> s.queue[i].nextRetry < passes[0].start
    ensures var t := AllPassed(p, s, passes);
            && t.queue == []
            && t.metrics.successfulRetries + t.metrics.droppedMessages
               == s.metrics.successfulRetries + s.metrics.droppedMessages + |s.queue|
  {
    DrainsFrom(p, s, passes, 0);
  }

  datatype Request = Request(message: nat, at: int)

  /** An empty queue after these messages, all retriable, have been enqueued. */
  function Filled(p: Policy, requests: seq<Request>): State {
    if requests == [] then State([], Metrics(0, 0, 0, 0, 0))
    else
      var last := requests[|requests| - 1];
      Enqueued(p, Filled(p, requests[..|requests| - 1]), last.message, true, last.at)
  }

  lemma {:induction false} FilledIs(p: Policy, requests: seq<Request>)
    ensures var s := Filled(p, requests);
            && |s.queue| == |requests|
            && s.metrics.successfulRetries == s.metrics.droppedMessages == 0
            && forall i :: 0 <= i < |requests| ==>
                 s.queue[i] == Entry(requests[i].message, 0, requests[i].at + p.initialDelay)
  {
    if requests != [] {
      FilledIs(p, requests[..|requests| - 1]);
    }
  }

  /** However the queue was filled, max(1, maxRetries) spaced passes empty it when the first of them
      starts more than the initial delay after the last message came; every message is then either
      delivered or dropped. */
  lemma FilledQueueDrains(p: Policy, requests: seq<Request>, latest: int, passes: seq<Pass>)
    requires forall i :: 0 <= i < |requests| ==> requests[i].at <= latest
    requires |passes| >= Budget(p) && Spaced(p, passes) && passes[0].start - latest > p.initialDelay
    ensures var t := AllPassed(p, Filled(p, requests), passes);
            t.queue == [] && t.metrics.successfulRetries + t.metrics.droppedMessages == |requests|
  {
    FilledIs(p, requests);
    QueueDrains(p, Filled(p, requests), passes);
  }

  ghost predicate NotOlder(q: seq<Entry>, age: int) {
    forall i :: 0 <= i < |q| ==> q[i].retryCount <= age
  }

  lemma {:induction false} FailingRetriesKeep(p: Policy, s: State, es: seq<Entry>, env: nat -> Attempt, k: nat,
                                               age: int)
    requires k <= |es| && age + 1 < Budget(p) && age >= 0
    requires NotOlder(es, age) && NotOlder(s.queue, age + 1)
    requires forall i: nat :: !env(i).ok
    ensures var t := RetriedFrom(p, s, es, env, k);
            |t.queue| == |s.queue| + |es| - k && NotOlder(t.queue, age + 1)
    decreases |es| - k
  {
    if k < |es| {
      FailingRetriesKeep(p, Retried(p, s, es[k], env(k)), es, env, k + 1, age);
    }
  }

  /** The bound on passes is the least one: while every send fails, no entry leaves the queue in
      fewer than max(1, maxRetries) passes, whenever they run. */
  lemma {:induction false} FewerPassesDoNotDrain(p: Policy, s: State, passes: seq<Pass>, age: nat)
    requires NotOlder(s.queue, age) && age + |passes| < Budget(p)
    requires forall i, k: nat :: 0 <= i < |passes| ==> !passes[i].env(k).ok
    ensures |AllPassed(p, s, passes).queue| == |s.queue|
    decreases |passes|
  {
    if passes != [] {
      var now, env := passes[0].start, passes[0].env;
      SplitKeeps(p, s.queue, now);
      SplitByDueTime(s.queue, now);
      FailingRetriesKeep(p, Picked(s, now), Ready(s.queue, now), env, 0, age);
      var rest := passes[1..];
      assert forall i :: 0 <= i < |rest| ==> rest[i] == passes[i + 1];
      FewerPassesDoNotDrain(p, Passed(p, s, now, env), rest, age + 1);
    }
  }

  /** Any number of passes, at any times: the retries they make never exceed the budget the
      queue started with. */
  lemma {:induction false} RetriesWithinBudget(p: Policy, s: State, passes: seq<Pass>)
    requires InBudget(p, s.queue)
    ensures var t := AllPassed(p, s, passes);
            && InBudget(p, t.queue) && Settled(t) == Settled(s)
            && t.metrics.totalRetries - s.metrics.totalRetries <= BudgetLeft(p, s.queue) - BudgetLeft(p, t.queue)
            && BudgetLeft(p, t.queue) >= |t.queue|
    decreases |passes|
  {
    if passes == [] {
      BudgetLeftCovers(p, s.queue);
    } else {
      PassKeeps(p, s, passes[0].start, passes[0].env);
      RetriesWithinBudget(p, Passed(p, s, passes[0].start, passes[0].env), passes[1..]);
    }
  }

  lemma {:induction false} BudgetLeftCovers(p: Policy, q: seq<Entry>)
    requires InBudget(p, q)
    ensures BudgetLeft(p, q) >= |q|
  {
    if q != [] {
      BudgetLeftCovers(p, q[..|q| - 1]);
    }
  }
}
