/** circuit_breaker.go: the breaker's fields, and each of its lock-held regions.
    The functions give the value each region computes; the class updates the fields
    the way the source does and is proved against them. */
module CircuitBreaking {
  import opened Common

  datatype CircuitState = Closed | Open | HalfOpen

  datatype Config = Config(maxFailures: int, resetTimeout: int, halfOpenRequests: int)

  /** lastFailTime is None for the zero time.Time. */
  datatype Core = Core(
    state: CircuitState,
    failures: int,
    successCount: int,
    halfOpenAttempts: int,
    lastFailTime: Option<int>)

  const INITIAL := Core(Closed, 0, 0, 0, None)

  /** The number of recorded failures at which a closed breaker trips: a non-positive
      maxFailures trips at the first one. */
  function Threshold(cfg: Config): (t: int)
    ensures t >= 1
  {
    Max(1, cfg.maxFailures)
  }

  /** time.Since saturates at the largest duration, which is what the zero time yields. */
  function Since(t: Option<int>, now: int): int {
    match t
    case None => MAX_INT64
    case Some(v) => Min(now - v, MAX_INT64)
  }

  function Transitioned(b: Core, to: CircuitState): Core {
    if b.state == to then b
    else if to == HalfOpen then b.(state := to, halfOpenAttempts := 0, successCount := 0)
    else b.(state := to)
  }

  predicate ShouldReset(cfg: Config, b: Core, now: int) {
    Since(b.lastFailTime, now) > cfg.resetTimeout
  }

  /** The region of recordFailure; seen is the state RecordResult loaded before taking the lock. */
  function FailureRecorded(cfg: Config, b: Core, seen: CircuitState, now: int): Core {
    var b1 := b.(failures := b.failures + 1, lastFailTime := Some(now));
    match seen
    case Closed => if b1.failures >= cfg.maxFailures then Transitioned(b1, Open) else b1
    case HalfOpen => Transitioned(b1, Open).(halfOpenAttempts := 0)
    case Open => b1
  }

  /** The region of recordSuccess. */
  function SuccessRecorded(cfg: Config, b: Core, seen: CircuitState): Core {
    match seen
    case HalfOpen =>
      var b1 := b.(successCount := b.successCount + 1);
      if b1.successCount >= cfg.halfOpenRequests
      then Transitioned(b1.(failures := 0, successCount := 0, halfOpenAttempts := 0), Closed)
      else b1
    case Closed => if b.failures > 0 then b.(failures := 0) else b
    case Open => b
  }

  function ResultRecorded(cfg: Config, b: Core, seen: CircuitState, failed: bool, now: int): Core {
    if failed then FailureRecorded(cfg, b, seen, now) else SuccessRecorded(cfg, b, seen)
  }

  /** CanAttempt run without interruption: the new fields and the verdict. */
  function Attempted(cfg: Config, b: Core, now: int): (Core, bool) {
    match b.state
    case Closed => (b, true)
    case Open => if ShouldReset(cfg, b, now) then (Transitioned(b, HalfOpen), true) else (b, false)
    case HalfOpen =>
      if b.halfOpenAttempts < cfg.halfOpenRequests
      then (b.(halfOpenAttempts := b.halfOpenAttempts + 1), true)
      else (b, false)
  }

  class CircuitBreaker {
    const maxFailures: int
    const resetTimeout: int
    const halfOpenRequests: int

    var state: CircuitState
    var failures: int
    var successCount: int
    var lastFailTime: Option<int>
    var halfOpenAttempts: int

    function Cfg(): Config {
      Config(maxFailures, resetTimeout, halfOpenRequests)
    }

    function Value(): Core
      reads this
    {
      Core(state, failures, successCount, halfOpenAttempts, lastFailTime)
    }

    constructor (maxFailures: int, resetTimeout: int)
      ensures Value() == INITIAL
      ensures Cfg() == Config(maxFailures, resetTimeout, 1)
    {
      this.maxFailures := maxFailures;
      this.resetTimeout := resetTimeout;
      halfOpenRequests := 1;
      state := Closed;
      failures, successCount, halfOpenAttempts := 0, 0, 0;
      lastFailTime := None;
    }

    method TransitionToLocked(newState: CircuitState)
      modifies this
      ensures Value() == Transitioned(old(Value()), newState)
    {
      if state == newState {
        return;
      }
      state := newState;
      if newState == HalfOpen {
        halfOpenAttempts := 0;
        successCount := 0;
      }
    }

    method CanAttempt(now: int) returns (admitted: bool)
      modifies this
      ensures (Value(), admitted) == Attempted(Cfg(), old(Value()), now)
    {
      match state
      case Closed =>
        return true;
      case Open =>
        if Since(lastFailTime, now) > resetTimeout {
          TransitionToLocked(HalfOpen);
          return true;
        }
        return false;
      case HalfOpen =>
        if halfOpenAttempts < halfOpenRequests {
          halfOpenAttempts := halfOpenAttempts + 1;
          return true;
        }
        return false;
    }

    method RecordFailure(currentState: CircuitState, now: int)
      modifies this
      ensures Value() == FailureRecorded(Cfg(), old(Value()), currentState, now)
    {
      failures := failures + 1;
      lastFailTime := Some(now);
      match currentState
      case Closed =>
        if failures >= maxFailures {
          TransitionToLocked(Open);
        }
      case HalfOpen =>
        TransitionToLocked(Open);
        halfOpenAttempts := 0;
      case Open =>
    }

    method RecordSuccess(currentState: CircuitState)
      modifies this
      ensures Value() == SuccessRecorded(Cfg(), old(Value()), currentState)
    {
      match currentState
      case HalfOpen =>
        successCount := successCount + 1;
        if successCount >= halfOpenRequests {
          failures := 0;
          successCount := 0;
          halfOpenAttempts := 0;
          TransitionToLocked(Closed);
        }
      case Closed =>
        if failures > 0 {
          failures := 0;
        }
      case Open =>
    }

    method RecordResult(failed: bool, now: int)
      modifies this
      ensures Value() == ResultRecorded(Cfg(), old(Value()), old(state), failed, now)
    {
      var seen := state;
      if failed {
        RecordFailure(seen, now);
      } else {
        RecordSuccess(seen);
      }
    }

    method Reset()
      modifies this
      ensures Value() == INITIAL
    {
      failures := 0;
      successCount := 0;
      halfOpenAttempts := 0;
      lastFailTime := None;
      state := Closed;
    }
  }
}

/** Histories in which CanAttempt and RecordResult each run as one step, with any number
    of admitted calls outstanding between them. */
module BreakerHistory {
  import opened Common
  import opened CircuitBreaking

  datatype Event =
    | Attempt(now: int)
    | Result(failed: bool, now: int)
    | Reset

  function Apply(cfg: Config, b: Core, e: Event): Core {
    match e
    case Attempt(now) => Attempted(cfg, b, now).0
    case Result(failed, now) => ResultRecorded(cfg, b, b.state, failed, now)
    case Reset => INITIAL
  }

  function After(cfg: Config, h: seq<Event>): Core {
    if h == [] then INITIAL else Apply(cfg, After(cfg, h[..|h| - 1]), h[|h| - 1])
  }

  /** Does the last event of h admit a call? */
  predicate Admits(cfg: Config, h: seq<Event>)
    requires h != []
  {
    var e := h[|h| - 1];
    e.Attempt? && Attempted(cfg, After(cfg, h[..|h| - 1]), e.now).1
  }

  /** Admitted calls whose result has not been recorded. */
  function Outstanding(cfg: Config, h: seq<Event>): int {
    if h == [] then 0
    else Outstanding(cfg, h[..|h| - 1])
         + (if Admits(cfg, h) then 1 else 0)
         - (if h[|h| - 1].Result? then 1 else 0)
  }

  /** Only admitted calls report, and each reports once. */
  ghost predicate Possible(cfg: Config, h: seq<Event>) {
    forall i {:trigger h[..i]} :: 0 <= i <= |h| ==> Outstanding(cfg, h[..i]) >= 0
  }

  /** Failures recorded since the breaker last became Closed or saw a success while Closed. */
  function Streak(cfg: Config, h: seq<Event>): nat {
    if h == [] then 0
    else
      var before, after := After(cfg, h[..|h| - 1]), After(cfg, h);
      var e := h[|h| - 1];
      if e.Reset? || (before.state != Closed && after.state == Closed) then 0
      else if e.Result? && e.failed then Streak(cfg, h[..|h| - 1]) + 1
      else if e.Result? && before.state == Closed then 0
      else Streak(cfg, h[..|h| - 1])
  }

  /** Calls admitted since the breaker entered HalfOpen, the one that moved it there included. */
  function EpisodeAdmissions(cfg: Config, h: seq<Event>): nat {
    if h == [] || After(cfg, h).state != HalfOpen then 0
    else (if After(cfg, h[..|h| - 1]).state == HalfOpen then EpisodeAdmissions(cfg, h[..|h| - 1]) else 0)
         + (if Admits(cfg, h) then 1 else 0)
  }

  ghost predicate Invariant(cfg: Config, h: seq<Event>) {
    var b := After(cfg, h);
    && (b.state == Closed <==> b.failures < Threshold(cfg))
    && b.failures == Streak(cfg, h)
    && (b.state == Open ==> b.lastFailTime.Some?)
    && (b.state == HalfOpen ==>
          && 0 <= b.successCount < cfg.halfOpenRequests
          && 0 <= b.halfOpenAttempts <= cfg.halfOpenRequests
          && EpisodeAdmissions(cfg, h) == 1 + b.halfOpenAttempts
          && Outstanding(cfg, h) + b.successCount >= 1 + b.halfOpenAttempts)
  }

  lemma PrefixPossible(cfg: Config, h: seq<Event>)
    requires h != [] && Possible(cfg, h)
    ensures Possible(cfg, h[..|h| - 1])
    ensures Outstanding(cfg, h) >= 0 && Outstanding(cfg, h[..|h| - 1]) >= 0
  {
    var p := h[..|h| - 1];
    assert h[..|h|] == h;
    forall i {:trigger p[..i]} | 0 <= i <= |p| ensures Outstanding(cfg, p[..i]) >= 0 {
      assert p[..i] == h[..i];
    }
  }

  /** What every reachable breaker satisfies, whatever the clock does. */
  lemma {:induction false} ReachableInvariant(cfg: Config, h: seq<Event>)
    requires cfg.halfOpenRequests >= 1
    requires Possible(cfg, h)
    ensures Invariant(cfg, h)
  {
    if h != [] {
      PrefixPossible(cfg, h);
      ReachableInvariant(cfg, h[..|h| - 1]);
    }
  }

  /** A closed breaker trips on an event exactly when that event is the Threshold-th
      consecutive recorded failure. */
  lemma TripsExactly(cfg: Config, h: seq<Event>, e: Event)
    requires cfg.halfOpenRequests >= 1
    requires Possible(cfg, h) && After(cfg, h).state == Closed
    ensures After(cfg, h + [e]).state == Open
            <==> e.Result? && e.failed && Streak(cfg, h) + 1 == Threshold(cfg)
    ensures After(cfg, h + [e]).state != HalfOpen
  {
    assert (h + [e])[..|h + [e]| - 1] == h;
    ReachableInvariant(cfg, h);
  }

  /** With every outstanding result in, a half-open breaker admits the next call; and a
      breaker in any state admits once the reset timeout has passed. */
  lemma NeverWedges(cfg: Config, h: seq<Event>, now: int)
    requires cfg.halfOpenRequests >= 1 && Possible(cfg, h)
    requires Outstanding(cfg, h) == 0
    requires After(cfg, h).state == Open ==> ShouldReset(cfg, After(cfg, h), now)
    ensures Admits(cfg, h + [Attempt(now)])
  {
    assert (h + [Attempt(now)])[..|h + [Attempt(now)]| - 1] == h;
    ReachableInvariant(cfg, h);
  }

  /** A half-open episode admits up to halfOpenRequests + 1 calls: the call that leaves Open is
      not counted, so the attempt made at halfOpenAttempts == halfOpenRequests - 1 is one too many. */
  lemma EpisodeBound(cfg: Config, h: seq<Event>)
    requires cfg.halfOpenRequests >= 1 && Possible(cfg, h)
    ensures EpisodeAdmissions(cfg, h) <= cfg.halfOpenRequests + 1
    ensures EpisodeAdmissions(cfg, h) > cfg.halfOpenRequests
            <==> After(cfg, h).state == HalfOpen && After(cfg, h).halfOpenAttempts == cfg.halfOpenRequests
  {
    ReachableInvariant(cfg, h);
  }

  /** Who is admitted: everyone while closed; while open, whoever comes after the timeout; while half-open,
      whoever comes before the episode has admitted more than halfOpenRequests calls. */
  lemma AdmitsExactly(cfg: Config, h: seq<Event>, now: int)
    requires cfg.halfOpenRequests >= 1 && Possible(cfg, h)
    ensures var b := After(cfg, h);
            Admits(cfg, h + [Attempt(now)]) <==>
              match b.state
              case Closed => true
              case Open => ShouldReset(cfg, b, now)
              case HalfOpen => EpisodeAdmissions(cfg, h) <= cfg.halfOpenRequests
  {
    assert (h + [Attempt(now)])[..|h + [Attempt(now)]| - 1] == h;
    ReachableInvariant(cfg, h);
  }

  lemma Extend(cfg: Config, h: seq<Event>, e: Event)
    ensures After(cfg, h + [e]) == Apply(cfg, After(cfg, h), e)
    ensures Admits(cfg, h + [e]) <==> e.Attempt? && Attempted(cfg, After(cfg, h), e.now).1
    ensures Outstanding(cfg, h + [e]) ==
            Outstanding(cfg, h) + (if Admits(cfg, h + [e]) then 1 else 0) - (if e.Result? then 1 else 0)
    ensures Possible(cfg, h) && Outstanding(cfg, h + [e]) >= 0 ==> Possible(cfg, h + [e])
  {
    var g := h + [e];
    assert g[..|g| - 1] == h;
    if Possible(cfg, h) && Outstanding(cfg, g) >= 0 {
      forall i {:trigger g[..i]} | 0 <= i <= |g| ensures Outstanding(cfg, g[..i]) >= 0 {
        if i <= |h| {
          assert g[..i] == h[..i];
        } else {
          assert g[..i] == g;
        }
      }
    }
  }

  /** The shipped breaker (three failures, 30 seconds, one half-open request) does admit two. */
  lemma EpisodeBoundReached()
    ensures exists h :: var cfg := Config(3, 30 * SECOND, 1);
                        Possible(cfg, h) && EpisodeAdmissions(cfg, h) == 2
  {
    var cfg := Config(3, 30 * SECOND, 1);
    var fail, late := Result(true, 0), Attempt(31 * SECOND);
    var h: seq<Event> := [];
    var n := 0;
    while n < 3
      invariant 0 <= n <= 3
      invariant Possible(cfg, h) && After(cfg, h) == INITIAL && Outstanding(cfg, h) == n
    {
      Extend(cfg, h, Attempt(0));
      h, n := h + [Attempt(0)], n + 1;
    }
    while n > 0
      invariant 0 <= n <= 3
      invariant Possible(cfg, h) && Outstanding(cfg, h) == n
      invariant After(cfg, h) == (if n == 3 then INITIAL
                                  else Core(if n == 0 then Open else Closed, 3 - n, 0, 0, Some(0)))
    {
      Extend(cfg, h, fail);
      h, n := h + [fail], n - 1;
    }
    Extend(cfg, h, late);
    var h1 := h + [late];
    Extend(cfg, h1, late);
    var h2 := h1 + [late];
    assert h1[..|h1| - 1] == h && h2[..|h2| - 1] == h1;
    assert EpisodeAdmissions(cfg, h2) == 2;
  }

  // --- what a half-open episode leads to ---

  /** Successes recorded since the breaker last became half-open. */
  function EpisodeSuccesses(cfg: Config, h: seq<Event>): nat {
    if h == [] || After(cfg, h).state != HalfOpen || After(cfg, h[..|h| - 1]).state != HalfOpen then 0
    else EpisodeSuccesses(cfg, h[..|h| - 1]) + (if h[|h| - 1].Result? && !h[|h| - 1].failed then 1 else 0)
  }

  lemma {:induction false} SuccessCountIsEpisodes(cfg: Config, h: seq<Event>)
    requires After(cfg, h).state == HalfOpen
    ensures After(cfg, h).successCount == EpisodeSuccesses(cfg, h)
  {
    if h != [] && After(cfg, h[..|h| - 1]).state == HalfOpen {
      SuccessCountIsEpisodes(cfg, h[..|h| - 1]);
    }
  }

  /** A half-open breaker closes on an event exactly when that event is a Reset or the
      halfOpenRequests-th success of the episode, and opens exactly when it is a failure. */
  lemma HalfOpenIsLeftExactly(cfg: Config, h: seq<Event>, e: Event)
    requires cfg.halfOpenRequests >= 1
    requires Possible(cfg, h) && After(cfg, h).state == HalfOpen
    ensures After(cfg, h + [e]).state == Closed
            <==> e.Reset? || (e.Result? && !e.failed && EpisodeSuccesses(cfg, h) + 1 == cfg.halfOpenRequests)
    ensures After(cfg, h + [e]).state == Open <==> e.Result? && e.failed
  {
    assert (h + [e])[..|h + [e]| - 1] == h;
    ReachableInvariant(cfg, h);
    SuccessCountIsEpisodes(cfg, h);
  }

  /** An open breaker closes on a Reset only, and becomes half-open on an admitted attempt only. */
  lemma OpenIsLeftOnlyBy(cfg: Config, h: seq<Event>, e: Event)
    requires After(cfg, h).state == Open
    ensures After(cfg, h + [e]).state == Closed <==> e.Reset?
    ensures After(cfg, h + [e]).state == HalfOpen <==> Admits(cfg, h + [e])
  {
    assert (h + [e])[..|h + [e]| - 1] == h;
  }

  /** The history h, and then n calls at time now, one after the other, that all succeed. */
  function Probed(h: seq<Event>, now: int, n: nat): seq<Event> {
    if n == 0 then h else Probed(h, now, n - 1) + [Attempt(now)] + [Result(false, now)]
  }

  lemma PossibleEnds(cfg: Config, h: seq<Event>)
    requires Possible(cfg, h)
    ensures Outstanding(cfg, h) >= 0
  {
    assert h[..|h|] == h;
  }

  /** An open breaker b after n such calls. */
  function AfterProbes(cfg: Config, b: Core, n: nat): Core {
    if n == 0 then b
    else if n < cfg.halfOpenRequests then b.(state := HalfOpen, halfOpenAttempts := n - 1, successCount := n)
    else b.(state := Closed, failures := 0, halfOpenAttempts := 0, successCount := 0)
  }

  lemma OneProbe(cfg: Config, b: Core, now: int, n: nat)
    requires b.state == Open && ShouldReset(cfg, b, now) && n < cfg.halfOpenRequests
    ensures var (c, admitted) := Attempted(cfg, AfterProbes(cfg, b, n), now);
            admitted && Apply(cfg, c, Result(false, now)) == AfterProbes(cfg, b, n + 1)
  {
  }

  lemma ProbeSucceeds(cfg: Config, g: seq<Event>, b: Core, now: int, n: nat)
    requires b.state == Open && ShouldReset(cfg, b, now) && n < cfg.halfOpenRequests
    requires Possible(cfg, g) && After(cfg, g) == AfterProbes(cfg, b, n)
    ensures Admits(cfg, g + [Attempt(now)])
    ensures Possible(cfg, g + [Attempt(now)] + [Result(false, now)])
    ensures After(cfg, g + [Attempt(now)] + [Result(false, now)]) == AfterProbes(cfg, b, n + 1)
  {
    OneProbe(cfg, b, now, n);
    PossibleEnds(cfg, g);
    Extend(cfg, g, Attempt(now));
    Extend(cfg, g + [Attempt(now)], Result(false, now));
  }

  lemma ProbesSucceed(cfg: Config, h: seq<Event>, b: Core, now: int, n: nat)
    requires b.state == Open && ShouldReset(cfg, b, now) && n <= cfg.halfOpenRequests
    requires Possible(cfg, h) && After(cfg, h) == b
    ensures Possible(cfg, Probed(h, now, n)) && After(cfg, Probed(h, now, n)) == AfterProbes(cfg, b, n)
  {
    var g := h;
    for k := 0 to n
      invariant g == Probed(h, now, k)
      invariant Possible(cfg, g) && After(cfg, g) == AfterProbes(cfg, b, k)
    {
      ProbeSucceeds(cfg, g, b, now, k);
      g := g + [Attempt(now)] + [Result(false, now)];
    }
  }

  /** Recovery: whatever has happened before, once an open breaker's timeout has passed,
      halfOpenRequests calls that succeed are all admitted and close it with no failure counted. */
  lemma Recovers(cfg: Config, h: seq<Event>, now: int)
    requires cfg.halfOpenRequests >= 1
    requires Possible(cfg, h) && After(cfg, h).state == Open && ShouldReset(cfg, After(cfg, h), now)
    ensures forall n: nat :: n < cfg.halfOpenRequests ==> Admits(cfg, Probed(h, now, n) + [Attempt(now)])
    ensures var t := After(cfg, Probed(h, now, cfg.halfOpenRequests)); t.state == Closed && t.failures == 0
  {
    forall n: nat | n < cfg.halfOpenRequests ensures Admits(cfg, Probed(h, now, n) + [Attempt(now)]) {
      ProbesSucceed(cfg, h, After(cfg, h), now, n);
      ProbeSucceeds(cfg, Probed(h, now, n), After(cfg, h), now, n);
    }
    ProbesSucceed(cfg, h, After(cfg, h), now, cfg.halfOpenRequests);
  }

  // --- timing ---

  function Time(e: Event): int
    requires !e.Reset?
  {
    e.now
  }

  /** The readings of the clock never go back, and now is not before any of them. */
  ghost predicate Ordered(h: seq<Event>, now: int) {
    && (forall i, j :: 0 <= i < j < |h| && !h[i].Reset? && !h[j].Reset? ==> Time(h[i]) <= Time(h[j]))
    && (forall i :: 0 <= i < |h| && !h[i].Reset? ==> Time(h[i]) <= now)
  }

  predicate FailureSinceReset(h: seq<Event>, k: int)
    requires 0 <= k < |h|
  {
    && h[k].Result? && h[k].failed
    && (forall j :: k < j < |h| ==> !h[j].Reset?)
  }

  /** lastFailTime is the time of the latest failure since the last Reset. */
  lemma {:induction false} LastFailTimeIsLatest(cfg: Config, h: seq<Event>, now: int)
    requires Ordered(h, now)
    ensures var last := After(cfg, h).lastFailTime;
            && (forall k :: 0 <= k < |h| && FailureSinceReset(h, k) ==> last.Some? && h[k].now <= last.value)
            && (last.Some? ==> exists k :: 0 <= k < |h| && FailureSinceReset(h, k) && h[k].now == last.value)
  {
    if h != [] {
      var p, e := h[..|h| - 1], h[|h| - 1];
      LastFailTimeIsLatest(cfg, p, now);
      var last, before := After(cfg, h).lastFailTime, After(cfg, p).lastFailTime;
      forall k | 0 <= k < |h| && FailureSinceReset(h, k) ensures last.Some? && h[k].now <= last.value {
        if k < |p| {
          assert FailureSinceReset(p, k) && p[k] == h[k];
          assert Time(h[k]) == h[k].now;
        }
      }
      if last.Some? {
        if e.Result? && e.failed {
          assert FailureSinceReset(h, |h| - 1);
        } else {
          assert !e.Reset? && last == before;
          var k :| 0 <= k < |p| && FailureSinceReset(p, k) && p[k].now == before.value;
          assert FailureSinceReset(h, k) && h[k].now == last.value;
        }
      }
    }
  }

  /** From Open, an attempt moves to HalfOpen exactly when more than resetTimeout has passed
      since every failure recorded since the last Reset; otherwise it is refused and changes nothing. */
  lemma LeavesOpenExactly(cfg: Config, h: seq<Event>, now: int)
    requires cfg.halfOpenRequests >= 1 && cfg.resetTimeout < MAX_INT64
    requires Possible(cfg, h) && Ordered(h, now) && After(cfg, h).state == Open
    ensures var late := forall k :: 0 <= k < |h| && FailureSinceReset(h, k) ==> now - h[k].now > cfg.resetTimeout;
            After(cfg, h + [Attempt(now)]) ==
              if late then Transitioned(After(cfg, h), HalfOpen) else After(cfg, h)
    ensures After(cfg, h + [Attempt(now)]).state == HalfOpen <==> Admits(cfg, h + [Attempt(now)])
  {
    assert (h + [Attempt(now)])[..|h + [Attempt(now)]| - 1] == h;
    ReachableInvariant(cfg, h);
    LastFailTimeIsLatest(cfg, h, now);
  }
}
