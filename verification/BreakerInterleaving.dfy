/** circuit_breaker.go at the granularity of its atomic loads and lock-held regions: any number
    of goroutines are inside CanAttempt and RecordResult at once, and every interleaving of their
    steps is a schedule. */
module BreakerInterleaving {
  import opened Common
  import opened CircuitBreaking
  import History = BreakerHistory
  import Runs

  /** Where one goroutine stands. The episode numbers are not in the program: they say
      during which half-open episode the call was admitted. */
  datatype Phase =
    | SawOpen                     // loaded Open, has not read lastFailTime yet
    | TimeoutPassed               // found the timeout passed, has not taken the lock yet
    | SawHalfOpen                 // loaded HalfOpen, has not taken the lock yet
    | Running(episode: nat)       // admitted, the protected function has not returned
    | Finishing(episode: nat, failed: bool, seen: CircuitState) // loaded the state, has not taken the lock

  datatype Sys = Sys(core: Core, calls: map<nat, Phase>, episode: nat)

  datatype Action =
    | Begin(id: nat)
    | CheckTimeout(id: nat, now: int)
    | EnterHalfOpen(id: nat)
    | TakeSlot(id: nat)
    | LoadForResult(id: nat, failed: bool)
    | Record(id: nat, now: int)
    | ResetBreaker

  const START := Sys(INITIAL, map[], 0)

  predicate Enabled(s: Sys, a: Action) {
    match a
    case Begin(id) => id !in s.calls
    case CheckTimeout(id, _) => id in s.calls && s.calls[id].SawOpen?
    case EnterHalfOpen(id) => id in s.calls && s.calls[id].TimeoutPassed?
    case TakeSlot(id) => id in s.calls && s.calls[id].SawHalfOpen?
    case LoadForResult(id, _) => id in s.calls && s.calls[id].Running?
    case Record(id, _) => id in s.calls && s.calls[id].Finishing?
    case ResetBreaker => true
  }

  function Step(cfg: Config, s: Sys, a: Action): Sys
    requires Enabled(s, a)
  {
    match a
    case Begin(id) =>
      var phase := match s.core.state
        case Closed => Running(s.episode)
        case Open => SawOpen
        case HalfOpen => SawHalfOpen;
      s.(calls := s.calls[id := phase])
    case CheckTimeout(id, now) =>
      if ShouldReset(cfg, s.core, now)
      then s.(calls := s.calls[id := TimeoutPassed])
      else s.(calls := s.calls - {id})
    case EnterHalfOpen(id) =>
      var episode := if s.core.state == HalfOpen then s.episode else s.episode + 1;
      Sys(Transitioned(s.core, HalfOpen), s.calls[id := Running(episode)], episode)
    case TakeSlot(id) =>
      if s.core.halfOpenAttempts < cfg.halfOpenRequests
      then s.(core := s.core.(halfOpenAttempts := s.core.halfOpenAttempts + 1),
              calls := s.calls[id := Running(s.episode)])
      else s.(calls := s.calls - {id})
    case LoadForResult(id, failed) =>
      s.(calls := s.calls[id := Finishing(s.calls[id].episode, failed, s.core.state)])
    case Record(id, now) =>
      var call := s.calls[id];
      Sys(ResultRecorded(cfg, s.core, call.seen, call.failed, now), s.calls - {id}, s.episode)
    case ResetBreaker =>
      s.(core := INITIAL)
  }

  function Next(cfg: Config): (Sys, Action) -> Option<Sys> {
    (s: Sys, a: Action) => if Enabled(s, a) then Some(Step(cfg, s, a)) else None
  }

  /** The state a schedule leads to from s; None when some step of it was not enabled. */
  function ExecFrom(cfg: Config, s: Sys, schedule: seq<Action>): Option<Sys> {
    Runs.Exec(Next(cfg), s, schedule)
  }

  function Exec(cfg: Config, schedule: seq<Action>): Option<Sys> {
    ExecFrom(cfg, START, schedule)
  }

  /** The calls admitted in the current episode whose result has not been recorded. */
  function Due(s: Sys): set<nat> {
    set id | id in s.calls && (s.calls[id].Running? || s.calls[id].Finishing?)
             && s.calls[id].episode == s.episode
  }

  ghost predicate Invariant(cfg: Config, s: Sys) {
    && (forall id :: id in s.calls && (s.calls[id].Running? || s.calls[id].Finishing?)
                     ==> s.calls[id].episode <= s.episode)
    && (s.core.state == Open ==> s.core.lastFailTime.Some?)
    && (s.core.state == HalfOpen ==>
          && 0 <= s.core.successCount < cfg.halfOpenRequests
          && s.core.halfOpenAttempts >= 0
          && (forall id :: id in Due(s) && s.calls[id].Finishing? ==> s.calls[id].seen == HalfOpen)
          && |Due(s)| + s.core.successCount >= 1 + s.core.halfOpenAttempts)
  }

  lemma BeginKeepsInvariant(cfg: Config, s: Sys, a: Action)
    requires Invariant(cfg, s) && Enabled(s, a)
    requires a.Begin? || a.CheckTimeout?
    ensures Invariant(cfg, Step(cfg, s, a))
  {
    if a.CheckTimeout? || s.core.state == HalfOpen {
      assert Due(Step(cfg, s, a)) == Due(s);
    }
  }

  lemma EnterKeepsInvariant(cfg: Config, s: Sys, id: nat)
    requires cfg.halfOpenRequests >= 1
    requires Invariant(cfg, s) && Enabled(s, EnterHalfOpen(id))
    ensures Invariant(cfg, Step(cfg, s, EnterHalfOpen(id)))
  {
    var t := Step(cfg, s, EnterHalfOpen(id));
    if s.core.state == HalfOpen {
      assert Due(t) == Due(s) + {id};
    } else {
      assert Due(t) == {id};
    }
  }

  lemma TakeSlotKeepsInvariant(cfg: Config, s: Sys, id: nat)
    requires Invariant(cfg, s) && Enabled(s, TakeSlot(id))
    ensures Invariant(cfg, Step(cfg, s, TakeSlot(id)))
  {
    var t := Step(cfg, s, TakeSlot(id));
    if s.core.halfOpenAttempts < cfg.halfOpenRequests {
      assert Due(t) == Due(s) + {id};
    } else {
      assert Due(t) == Due(s);
    }
  }

  lemma LoadStepKeepsInvariant(cfg: Config, s: Sys, id: nat, failed: bool)
    requires Invariant(cfg, s) && Enabled(s, LoadForResult(id, failed))
    ensures Invariant(cfg, Step(cfg, s, LoadForResult(id, failed)))
  {
    assert Due(Step(cfg, s, LoadForResult(id, failed))) == Due(s);
  }

  lemma RecordStepKeepsInvariant(cfg: Config, s: Sys, id: nat, now: int)
    requires cfg.halfOpenRequests >= 1
    requires Invariant(cfg, s) && Enabled(s, Record(id, now))
    ensures Invariant(cfg, Step(cfg, s, Record(id, now)))
  {
    var t := Step(cfg, s, Record(id, now));
    assert t.episode == s.episode && t.calls == s.calls - {id};
    RecordEffect(cfg, s.core, s.calls[id].seen, s.calls[id].failed, now);
    assert Due(t) == Due(s) - {id};
  }

  /** What recording a result can do to a breaker that stays, or was, half-open. */
  lemma RecordEffect(cfg: Config, b: Core, seen: CircuitState, failed: bool, now: int)
    requires cfg.halfOpenRequests >= 1
    ensures var t := ResultRecorded(cfg, b, seen, failed, now);
            && (t.state == Open ==> t.lastFailTime.Some? || (b.state == Open && b.lastFailTime == t.lastFailTime))
            && (t.state == HalfOpen ==>
                  && b.state == HalfOpen
                  && t.halfOpenAttempts == b.halfOpenAttempts
                  && (if seen == HalfOpen then !failed && t.successCount == b.successCount + 1 < cfg.halfOpenRequests
                      else t.successCount == b.successCount))
  {
  }

  lemma StepKeepsInvariant(cfg: Config, s: Sys, a: Action)
    requires cfg.halfOpenRequests >= 1
    requires Invariant(cfg, s) && Enabled(s, a)
    ensures Invariant(cfg, Step(cfg, s, a))
  {
    match a
    case LoadForResult(id, failed) => LoadStepKeepsInvariant(cfg, s, id, failed);
    case Record(id, now) => RecordStepKeepsInvariant(cfg, s, id, now);
    case ResetBreaker =>
    case EnterHalfOpen(id) => EnterKeepsInvariant(cfg, s, id);
    case TakeSlot(id) => TakeSlotKeepsInvariant(cfg, s, id);
    case _ => BeginKeepsInvariant(cfg, s, a);
  }

  lemma {:induction false} EveryScheduleKeepsInvariant(cfg: Config, s: Sys, schedule: seq<Action>)
    requires cfg.halfOpenRequests >= 1
    requires Invariant(cfg, s) && ExecFrom(cfg, s, schedule).Some?
    ensures Invariant(cfg, ExecFrom(cfg, s, schedule).value)
    decreases |schedule|
  {
    if schedule != [] {
      StepKeepsInvariant(cfg, s, schedule[0]);
      EveryScheduleKeepsInvariant(cfg, Step(cfg, s, schedule[0]), schedule[1..]);
    }
  }

  /** One goroutine running CanAttempt to its end without interruption. */
  function Solo(cfg: Config, s: Sys, id: nat, now: int): Sys
    requires id !in s.calls
  {
    var s1 := Step(cfg, s, Begin(id));
    match s.core.state
    case Closed => s1
    case HalfOpen => Step(cfg, s1, TakeSlot(id))
    case Open =>
      var s2 := Step(cfg, s1, CheckTimeout(id, now));
      if id in s2.calls then Step(cfg, s2, EnterHalfOpen(id)) else s2
  }

  /** Run alone, the steps of CanAttempt are the one-step CanAttempt, and the call it admits
      is then running; a refused one leaves nothing behind. */
  lemma SoloIsAttempted(cfg: Config, s: Sys, id: nat, now: int)
    requires id !in s.calls
    ensures var (core, admitted) := Attempted(cfg, s.core, now);
            var t := Solo(cfg, s, id, now);
            && t.core == core
            && (admitted <==> id in t.calls && t.calls[id].Running?)
            && (!admitted ==> t.calls == s.calls)
            && t.calls - {id} == s.calls
  {
  }

  /** The schedule of one goroutine running CanAttempt to its end without interruption. */
  function SoloSchedule(cfg: Config, s: Sys, id: nat, now: int): seq<Action> {
    match s.core.state
    case Closed => [Begin(id)]
    case HalfOpen => [Begin(id), TakeSlot(id)]
    case Open =>
      if ShouldReset(cfg, s.core, now) then [Begin(id), CheckTimeout(id, now), EnterHalfOpen(id)]
      else [Begin(id), CheckTimeout(id, now)]
  }

  lemma SoloRuns(cfg: Config, s: Sys, id: nat, now: int)
    requires id !in s.calls
    ensures ExecFrom(cfg, s, SoloSchedule(cfg, s, id, now)) == Some(Solo(cfg, s, id, now))
  {
    match s.core.state
    case Closed => Runs.Once(Next(cfg), s, Begin(id));
    case HalfOpen => Runs.Twice(Next(cfg), s, Begin(id), TakeSlot(id));
    case Open =>
      if ShouldReset(cfg, s.core, now) {
        Runs.Thrice(Next(cfg), s, Begin(id), CheckTimeout(id, now), EnterHalfOpen(id));
      } else {
        Runs.Twice(Next(cfg), s, Begin(id), CheckTimeout(id, now));
      }
  }

  lemma {:induction false} Fresh(ids: set<nat>) returns (id: nat)
    ensures forall i :: i in ids ==> i < id
  {
    if ids == {} {
      id := 0;
    } else {
      var i :| i in ids;
      var rest := Fresh(ids - {i});
      id := Max(rest, i + 1);
      assert forall j :: j in ids ==> j == i || j in ids - {i};
    }
  }

  /** The histories of uninterrupted attempts and results are among the schedules: each is run by a
      schedule that ends with the same breaker and with as many calls running as are outstanding. */
  lemma {:induction false} HistoriesAreSchedules(cfg: Config, h: seq<History.Event>) returns (schedule: seq<Action>)
    requires History.Possible(cfg, h)
    ensures Exec(cfg, schedule).Some?
    ensures var s := Exec(cfg, schedule).value;
            && s.core == History.After(cfg, h)
            && |s.calls| == History.Outstanding(cfg, h)
            && forall id :: id in s.calls ==> s.calls[id].Running?
  {
    if h == [] {
      schedule := [];
    } else {
      var init, e := h[..|h| - 1], h[|h| - 1];
      History.PrefixPossible(cfg, h);
      assert init + [e] == h;
      History.Extend(cfg, init, e);
      var before := HistoriesAreSchedules(cfg, init);
      var s := Exec(cfg, before).value;
      var more := EventIsSchedule(cfg, s, e);
      Runs.Then(Next(cfg), START, before, more);
      schedule := before + more;
    }
  }

  /** One event of a history, as uninterrupted steps. */
  lemma EventIsSchedule(cfg: Config, s: Sys, e: History.Event) returns (more: seq<Action>)
    requires forall id :: id in s.calls ==> s.calls[id].Running?
    requires e.Result? ==> |s.calls| > 0
    ensures ExecFrom(cfg, s, more).Some?
    ensures var t := ExecFrom(cfg, s, more).value;
            && t.core == History.Apply(cfg, s.core, e)
            && (forall id :: id in t.calls ==> t.calls[id].Running?)
            && |t.calls| == |s.calls| + (if e.Attempt? && Attempted(cfg, s.core, e.now).1 then 1 else 0)
                            - (if e.Result? then 1 else 0)
  {
    match e
    case Attempt(now) =>
      var id := Fresh(s.calls.Keys);
      SoloIsAttempted(cfg, s, id, now);
      SoloRuns(cfg, s, id, now);
      more := SoloSchedule(cfg, s, id, now);
      OneApart(Solo(cfg, s, id, now).calls, s.calls, id);
    case Result(failed, now) =>
      assert s.calls.Keys != {};
      var id :| id in s.calls;
      more := [LoadForResult(id, failed), Record(id, now)];
      Runs.Twice(Next(cfg), s, LoadForResult(id, failed), Record(id, now));
      assert Step(cfg, s, LoadForResult(id, failed)).calls - {id} == s.calls - {id};
      OneApart(s.calls, s.calls - {id}, id);
    case Reset =>
      more := [ResetBreaker];
      Runs.Once(Next(cfg), s, ResetBreaker);
  }

  lemma OneApart(larger: map<nat, Phase>, smaller: map<nat, Phase>, id: nat)
    requires larger - {id} == smaller
    ensures |larger| == |smaller| + (if id in larger then 1 else 0)
    ensures forall i :: i in larger && i != id ==> i in smaller && larger[i] == smaller[i]
  {
    assert larger.Keys - {id} == smaller.Keys;
    assert |larger.Keys| == |larger| && |smaller.Keys| == |smaller|;
    forall i | i in larger && i != id ensures i in smaller && larger[i] == smaller[i] {
      assert i in larger - {id};
    }
  }

  /** The breaker never wedges, at the granularity the program really has: after any
      schedule at all, if no call of the current half-open episode still owes a result, the
      next goroutine to try alone is admitted (when Open, once the timeout has passed). */
  lemma NeverWedges(cfg: Config, schedule: seq<Action>, id: nat, now: int)
    requires cfg.halfOpenRequests >= 1
    requires Exec(cfg, schedule).Some?
    requires id !in Exec(cfg, schedule).value.calls
    requires Due(Exec(cfg, schedule).value) == {}
    requires var b := Exec(cfg, schedule).value.core; b.state == Open ==> ShouldReset(cfg, b, now)
    ensures var t := Solo(cfg, Exec(cfg, schedule).value, id, now);
            id in t.calls && t.calls[id].Running?
  {
    EveryScheduleKeepsInvariant(cfg, START, schedule);
    SoloIsAttempted(cfg, Exec(cfg, schedule).value, id, now);
  }

  // --- what interleaving does break ---

  function FailingCall(id: nat): seq<Action> {
    [Begin(id), LoadForResult(id, true), Record(id, 0)]
  }

  lemma FailingCallRuns(cfg: Config, core: Core, episode: nat)
    requires core.state == Closed
    ensures ExecFrom(cfg, Sys(core, map[], episode), FailingCall(0))
            == Some(Sys(FailureRecorded(cfg, core, Closed, 0), map[], episode))
  {
    var s := Sys(core, map[], episode);
    Runs.Thrice(Next(cfg), s, Begin(0), LoadForResult(0, true), Record(0, 0));
    var t := Step(cfg, Step(cfg, s, Begin(0)), LoadForResult(0, true));
    assert t.calls - {0} == map[];
  }

  // --- how many calls an episode admits ---

  /** Calls the current half-open episode has admitted, and how many of them were let in by an
      EnterHalfOpen that found the breaker half-open already; both zero outside an episode. */
  datatype Tally = Tally(admitted: nat, late: nat)

  /** Did the step of this goroutine admit its call? */
  predicate Admits(cfg: Config, s: Sys, a: Action)
    requires Enabled(s, a)
  {
    && !a.ResetBreaker?
    && a.id in Step(cfg, s, a).calls && Step(cfg, s, a).calls[a.id].Running?
    && !(a.id in s.calls && s.calls[a.id].Running?)
  }

  function Tallied(cfg: Config, s: Sys, a: Action, c: Tally): Tally
    requires Enabled(s, a)
  {
    if Step(cfg, s, a).core.state != HalfOpen then Tally(0, 0)
    else
      var before := if s.core.state == HalfOpen then c else Tally(0, 0);
      Tally(before.admitted + (if Admits(cfg, s, a) then 1 else 0),
            before.late + (if a.EnterHalfOpen? && s.core.state == HalfOpen then 1 else 0))
  }

  function TallyFrom(cfg: Config, s: Sys, schedule: seq<Action>, c: Tally): Tally
    requires ExecFrom(cfg, s, schedule).Some?
    decreases |schedule|
  {
    if schedule == [] then c
    else TallyFrom(cfg, Step(cfg, s, schedule[0]), schedule[1..], Tallied(cfg, s, schedule[0], c))
  }

  ghost predicate TallyMatches(cfg: Config, s: Sys, c: Tally) {
    s.core.state == HalfOpen ==>
      && 0 <= s.core.halfOpenAttempts <= Max(0, cfg.halfOpenRequests)
      && c.admitted == 1 + s.core.halfOpenAttempts + c.late
      && |Due(s)| <= c.admitted
  }

  lemma StepKeepsTally(cfg: Config, s: Sys, a: Action, c: Tally)
    requires cfg.halfOpenRequests >= 1
    requires Invariant(cfg, s) && TallyMatches(cfg, s, c) && Enabled(s, a)
    ensures TallyMatches(cfg, Step(cfg, s, a), Tallied(cfg, s, a, c))
  {
    if a.EnterHalfOpen? {
      EnterKeepsTally(cfg, s, a.id, c);
    } else if a.TakeSlot? {
      TakeSlotKeepsTally(cfg, s, a.id, c);
    } else if Step(cfg, s, a).core.state == HalfOpen {
      OthersAdmitNobody(cfg, s, a);
    }
  }

  lemma EnterKeepsTally(cfg: Config, s: Sys, id: nat, c: Tally)
    requires Invariant(cfg, s) && TallyMatches(cfg, s, c) && Enabled(s, EnterHalfOpen(id))
    ensures TallyMatches(cfg, Step(cfg, s, EnterHalfOpen(id)), Tallied(cfg, s, EnterHalfOpen(id), c))
  {
    var t := Step(cfg, s, EnterHalfOpen(id));
    assert Due(t) == if s.core.state == HalfOpen then Due(s) + {id} else {id};
  }

  lemma TakeSlotKeepsTally(cfg: Config, s: Sys, id: nat, c: Tally)
    requires TallyMatches(cfg, s, c) && Enabled(s, TakeSlot(id))
    ensures TallyMatches(cfg, Step(cfg, s, TakeSlot(id)), Tallied(cfg, s, TakeSlot(id), c))
  {
    var t := Step(cfg, s, TakeSlot(id));
    assert Due(t) == if s.core.halfOpenAttempts < cfg.halfOpenRequests then Due(s) + {id} else Due(s);
  }

  /** No other step admits a call while the breaker is half-open, or makes it so. */
  lemma OthersAdmitNobody(cfg: Config, s: Sys, a: Action)
    requires Enabled(s, a) && !a.EnterHalfOpen? && !a.TakeSlot? && Step(cfg, s, a).core.state == HalfOpen
    ensures s.core.state == HalfOpen && !Admits(cfg, s, a)
    ensures Step(cfg, s, a).core.halfOpenAttempts == s.core.halfOpenAttempts
    ensures Due(Step(cfg, s, a)) <= Due(s) && |Due(Step(cfg, s, a))| <= |Due(s)|
  {
    var t := Step(cfg, s, a);
    assert Due(t) == if a.Record? then Due(s) - {a.id} else Due(s);
  }

  lemma {:induction false} TallyKept(cfg: Config, s: Sys, schedule: seq<Action>, c: Tally)
    requires cfg.halfOpenRequests >= 1
    requires Invariant(cfg, s) && TallyMatches(cfg, s, c) && ExecFrom(cfg, s, schedule).Some?
    ensures TallyMatches(cfg, ExecFrom(cfg, s, schedule).value, TallyFrom(cfg, s, schedule, c))
    decreases |schedule|
  {
    if schedule != [] {
      StepKeepsInvariant(cfg, s, schedule[0]);
      StepKeepsTally(cfg, s, schedule[0], c);
      TallyKept(cfg, Step(cfg, s, schedule[0]), schedule[1..], Tallied(cfg, s, schedule[0], c));
    }
  }

  /** What a half-open episode has admitted, after any interleaving: one call, one for each slot
      taken, and one for each goroutine that entered late. So the bound of halfOpenRequests + 1 is
      passed exactly when more entered late than there are slots left. */
  lemma EpisodeAdmissionsExactly(cfg: Config, schedule: seq<Action>)
    requires cfg.halfOpenRequests >= 1 && Exec(cfg, schedule).Some?
    requires Exec(cfg, schedule).value.core.state == HalfOpen
    ensures var s, c := Exec(cfg, schedule).value, TallyFrom(cfg, START, schedule, Tally(0, 0));
            && c.admitted == 1 + s.core.halfOpenAttempts + c.late
            && |Due(s)| <= c.admitted <= cfg.halfOpenRequests + 1 + c.late
            && (c.admitted > cfg.halfOpenRequests + 1 <==> c.late > cfg.halfOpenRequests - s.core.halfOpenAttempts)
  {
    TallyKept(cfg, START, schedule, Tally(0, 0));
  }

  function UpTo(n: nat): (ids: set<nat>)
    ensures |ids| == n && forall i :: i in ids <==> 1 <= i <= n
  {
    if n == 0 then {} else UpTo(n - 1) + {n}
  }

  /** Goroutines 1 to n, the first k of them in one phase and the others in another. */
  function Crowd(n: nat, k: nat, done: Phase, todo: Phase): map<nat, Phase> {
    map i | i in UpTo(n) :: if i <= k then done else todo
  }

  lemma AndThen(cfg: Config, schedule: seq<Action>, s: Sys, a: Action)
    requires Exec(cfg, schedule) == Some(s) && Enabled(s, a)
    ensures Exec(cfg, schedule + [a]) == Some(Step(cfg, s, a))
  {
    Runs.Then(Next(cfg), START, schedule, [a]);
    Runs.Once(Next(cfg), s, a);
  }

  /** As many failing calls as it takes open the breaker. */
  lemma Tripped(cfg: Config) returns (schedule: seq<Action>, core: Core)
    ensures core.state == Open && core.lastFailTime == Some(0)
    ensures Exec(cfg, schedule) == Some(Sys(core, map[], 0))
  {
    schedule, core := [], INITIAL;
    while core.state == Closed
      invariant Exec(cfg, schedule) == Some(Sys(core, map[], 0))
      invariant if core.state == Closed then 0 <= core.failures < Threshold(cfg)
                else core.state == Open && core.lastFailTime == Some(0)
      decreases core.state == Closed, Threshold(cfg) - core.failures
    {
      FailingCallRuns(cfg, core, 0);
      Runs.Then(Next(cfg), START, schedule, FailingCall(0));
      schedule, core := schedule + FailingCall(0), FailureRecorded(cfg, core, Closed, 0);
    }
  }

  lemma AllBegin(cfg: Config, schedule: seq<Action>, core: Core, n: nat) returns (longer: seq<Action>)
    requires core.state == Open && Exec(cfg, schedule) == Some(Sys(core, map[], 0))
    ensures Exec(cfg, longer) == Some(Sys(core, Crowd(n, n, SawOpen, SawOpen), 0))
  {
    longer := schedule;
    assert Crowd(0, 0, SawOpen, SawOpen) == map[];
    for k := 0 to n
      invariant Exec(cfg, longer) == Some(Sys(core, Crowd(k, k, SawOpen, SawOpen), 0))
    {
      AndThen(cfg, longer, Sys(core, Crowd(k, k, SawOpen, SawOpen), 0), Begin(k + 1));
      assert Crowd(k, k, SawOpen, SawOpen)[k + 1 := SawOpen] == Crowd(k + 1, k + 1, SawOpen, SawOpen);
      longer := longer + [Begin(k + 1)];
    }
  }

  lemma AllCheck(cfg: Config, schedule: seq<Action>, core: Core, n: nat, now: int) returns (longer: seq<Action>)
    requires ShouldReset(cfg, core, now)
    requires Exec(cfg, schedule) == Some(Sys(core, Crowd(n, 0, TimeoutPassed, SawOpen), 0))
    ensures Exec(cfg, longer) == Some(Sys(core, Crowd(n, n, TimeoutPassed, SawOpen), 0))
  {
    longer := schedule;
    for k := 0 to n
      invariant Exec(cfg, longer) == Some(Sys(core, Crowd(n, k, TimeoutPassed, SawOpen), 0))
    {
      AndThen(cfg, longer, Sys(core, Crowd(n, k, TimeoutPassed, SawOpen), 0), CheckTimeout(k + 1, now));
      assert Crowd(n, k, TimeoutPassed, SawOpen)[k + 1 := TimeoutPassed] == Crowd(n, k + 1, TimeoutPassed, SawOpen);
      longer := longer + [CheckTimeout(k + 1, now)];
    }
  }

  lemma {:induction false} TallyThen(cfg: Config, s: Sys, first: seq<Action>, a: Action, c: Tally)
    requires ExecFrom(cfg, s, first).Some? && Enabled(ExecFrom(cfg, s, first).value, a)
    ensures ExecFrom(cfg, s, first + [a]) == Some(Step(cfg, ExecFrom(cfg, s, first).value, a))
    ensures TallyFrom(cfg, s, first + [a], c)
            == Tallied(cfg, ExecFrom(cfg, s, first).value, a, TallyFrom(cfg, s, first, c))
    decreases |first|
  {
    if first == [] {
      assert [] + [a] == [a] && [a][1..] == [];
      Runs.Once(Next(cfg), s, a);
    } else {
      assert (first + [a])[1..] == first[1..] + [a];
      TallyThen(cfg, Step(cfg, s, first[0]), first[1..], a, Tallied(cfg, s, first[0], c));
    }
  }

  lemma AllEnter(cfg: Config, schedule: seq<Action>, core: Core, n: nat) returns (longer: seq<Action>)
    requires n >= 1 && core.state == Open
    requires Exec(cfg, schedule) == Some(Sys(core, Crowd(n, 0, Running(1), TimeoutPassed), 0))
    ensures Exec(cfg, longer) == Some(Sys(Transitioned(core, HalfOpen), Crowd(n, n, Running(1), TimeoutPassed), 1))
    ensures TallyFrom(cfg, START, longer, Tally(0, 0)) == Tally(n, n - 1)
  {
    longer := schedule;
    for k := 0 to n
      invariant Exec(cfg, longer) == Some(
        if k == 0 then Sys(core, Crowd(n, 0, Running(1), TimeoutPassed), 0)
        else Sys(Transitioned(core, HalfOpen), Crowd(n, k, Running(1), TimeoutPassed), 1))
      invariant k > 0 ==> TallyFrom(cfg, START, longer, Tally(0, 0)) == Tally(k, k - 1)
    {
      TallyThen(cfg, START, longer, EnterHalfOpen(k + 1), Tally(0, 0));
      assert Crowd(n, k, Running(1), TimeoutPassed)[k + 1 := Running(1)] == Crowd(n, k + 1, Running(1), TimeoutPassed);
      longer := longer + [EnterHalfOpen(k + 1)];
    }
  }

  lemma CrowdCount(s: Sys, n: nat)
    requires s.episode == 1 && s.calls == Crowd(n, n, Running(1), TimeoutPassed)
    ensures |Due(s)| == n
  {
    assert Due(s) == UpTo(n);
  }

  /** The excess has no limit: whatever the configuration, any number n of goroutines that have all
      found the timeout passed can all be admitted to one half-open episode, all but the first of
      them by entering late and none of them by taking a slot. */
  lemma RacingAttemptsPassTheEpisodeBound(cfg: Config, n: nat)
    requires cfg.halfOpenRequests >= 1 && cfg.resetTimeout < MAX_INT64 && n >= 1
    ensures exists schedule ::
              && Exec(cfg, schedule).Some?
              && var s := Exec(cfg, schedule).value;
                 && s.core.state == HalfOpen && |Due(s)| == n && s.core.halfOpenAttempts == 0
                 && TallyFrom(cfg, START, schedule, Tally(0, 0)) == Tally(n, n - 1)
  {
    var now := Max(0, cfg.resetTimeout + 1);
    var schedule, core := Tripped(cfg);
    schedule := AllBegin(cfg, schedule, core, n);
    assert Crowd(n, n, SawOpen, SawOpen) == Crowd(n, 0, TimeoutPassed, SawOpen);
    schedule := AllCheck(cfg, schedule, core, n, now);
    assert Crowd(n, n, TimeoutPassed, SawOpen) == Crowd(n, 0, Running(1), TimeoutPassed);
    schedule := AllEnter(cfg, schedule, core, n);
    var s := Exec(cfg, schedule).value;
    CrowdCount(s, n);
    assert |Due(s)| == n;
  }

  // --- stale loads and "closed exactly below the threshold" ---

  /** "Closed exactly when failures < Threshold", which every atomic history keeps. */
  predicate Consistent(cfg: Config, b: Core) {
    && (b.state == Closed <==> b.failures < Threshold(cfg))
    && b.failures >= 0
  }

  /** A step that acts on a load gone stale in one of the four ways that matter: entering HalfOpen
      from Closed, or recording a result under a state the breaker has left. */
  predicate BreaksConsistency(cfg: Config, s: Sys, a: Action)
    requires Enabled(s, a)
  {
    match a
    case EnterHalfOpen(_) => s.core.state == Closed
    case Record(id, _) =>
      var b, seen, failed := s.core, s.calls[id].seen, s.calls[id].failed;
      || (failed && b.state == Closed && seen == HalfOpen && b.failures + 1 < Threshold(cfg))
      || (failed && b.state == Closed && seen == Open && b.failures + 1 == Threshold(cfg))
      || (!failed && b.state != Closed && seen == Closed)
    case _ => false
  }

  /** From a consistent breaker a step, whatever it is, leaves it consistent exactly when it is
      none of the four stale ones. */
  lemma StepKeepsConsistentExactly(cfg: Config, s: Sys, a: Action)
    requires Consistent(cfg, s.core) && Enabled(s, a)
    ensures Consistent(cfg, Step(cfg, s, a).core) <==> !BreaksConsistency(cfg, s, a)
  {
  }

  predicate AlwaysConsistent(cfg: Config, s: Sys, schedule: seq<Action>)
    requires ExecFrom(cfg, s, schedule).Some?
    decreases |schedule|
  {
    Consistent(cfg, s.core)
    && (schedule == [] || AlwaysConsistent(cfg, Step(cfg, s, schedule[0]), schedule[1..]))
  }

  predicate SomeStepBreaks(cfg: Config, s: Sys, schedule: seq<Action>)
    requires ExecFrom(cfg, s, schedule).Some?
    decreases |schedule|
  {
    schedule != []
    && (BreaksConsistency(cfg, s, schedule[0]) || SomeStepBreaks(cfg, Step(cfg, s, schedule[0]), schedule[1..]))
  }

  /** So a whole schedule stays consistent throughout exactly when it takes none of them. */
  lemma {:induction false} ConsistentThroughoutExactly(cfg: Config, s: Sys, schedule: seq<Action>)
    requires Consistent(cfg, s.core) && ExecFrom(cfg, s, schedule).Some?
    ensures AlwaysConsistent(cfg, s, schedule) <==> !SomeStepBreaks(cfg, s, schedule)
    decreases |schedule|
  {
    if schedule != [] {
      StepKeepsConsistentExactly(cfg, s, schedule[0]);
      if !BreaksConsistency(cfg, s, schedule[0]) {
        ConsistentThroughoutExactly(cfg, Step(cfg, s, schedule[0]), schedule[1..]);
      }
    }
  }

  // --- leaving Open early ---

  /** Records a success of a half-open call, the last it takes to close the breaker, in whatever state. */
  predicate ClosesLate(cfg: Config, s: Sys, a: Action)
    requires Enabled(s, a)
  {
    && a.Record? && !s.calls[a.id].failed && s.calls[a.id].seen == HalfOpen
    && s.core.successCount + 1 >= cfg.halfOpenRequests
  }

  /** The only steps that take the breaker out of Open. */
  lemma OpenIsLeftExactly(cfg: Config, s: Sys, a: Action)
    requires s.core.state == Open && Enabled(s, a)
    ensures Step(cfg, s, a).core.state != Open <==> a.EnterHalfOpen? || a.ResetBreaker? || ClosesLate(cfg, s, a)
  {
  }

  /** The only steps that take the breaker out of HalfOpen, and where they take it. */
  lemma HalfOpenIsLeftExactly(cfg: Config, s: Sys, a: Action)
    requires s.core.state == HalfOpen && Enabled(s, a)
    ensures Step(cfg, s, a).core.state == Closed <==> a.ResetBreaker? || ClosesLate(cfg, s, a)
    ensures Step(cfg, s, a).core.state == Open <==>
              && a.Record? && s.calls[a.id].failed
              && (s.calls[a.id].seen == HalfOpen
                  || (s.calls[a.id].seen == Closed && s.core.failures + 1 >= cfg.maxFailures))
  {
  }

  /** The only steps that take the breaker out of Closed, and where they take it. */
  lemma ClosedIsLeftExactly(cfg: Config, s: Sys, a: Action)
    requires s.core.state == Closed && Enabled(s, a)
    ensures Step(cfg, s, a).core.state == HalfOpen <==> a.EnterHalfOpen?
    ensures Step(cfg, s, a).core.state == Open <==>
              && a.Record? && s.calls[a.id].failed
              && (s.calls[a.id].seen == HalfOpen
                  || (s.calls[a.id].seen == Closed && s.core.failures + 1 >= cfg.maxFailures))
  {
  }

  /** Successes of half-open calls recorded since the breaker became half-open; n is the number before. */
  function SuccessesFrom(cfg: Config, s: Sys, schedule: seq<Action>, n: nat): nat
    requires ExecFrom(cfg, s, schedule).Some?
    decreases |schedule|
  {
    if schedule == [] then n
    else
      var a := schedule[0];
      var t := Step(cfg, s, a);
      SuccessesFrom(cfg, t, schedule[1..],
                    if s.core.state != HalfOpen || t.core.state != HalfOpen then 0
                    else if a.Record? && !s.calls[a.id].failed && s.calls[a.id].seen == HalfOpen then n + 1
                    else n)
  }

  /** After any interleaving a half-open breaker counts exactly the successes of its episode, so that
      it closes, Reset aside, on the halfOpenRequests-th of them. */
  lemma {:induction false} SuccessesAreCounted(cfg: Config, s: Sys, schedule: seq<Action>, n: nat)
    requires ExecFrom(cfg, s, schedule).Some?
    requires s.core.state == HalfOpen ==> s.core.successCount == n
    ensures var t := ExecFrom(cfg, s, schedule).value;
            t.core.state == HalfOpen ==> t.core.successCount == SuccessesFrom(cfg, s, schedule, n)
    decreases |schedule|
  {
    if schedule != [] {
      var a := schedule[0];
      var t := Step(cfg, s, a);
      SuccessesAreCounted(cfg, t, schedule[1..],
                          if s.core.state != HalfOpen || t.core.state != HalfOpen then 0
                          else if a.Record? && !s.calls[a.id].failed && s.calls[a.id].seen == HalfOpen then n + 1
                          else n);
    }
  }

  /** The clock starts at from, never goes back, and ends no later than now. */
  predicate Clocked(schedule: seq<Action>, from: int, now: int) {
    if schedule == [] then from <= now
    else match schedule[0]
      case CheckTimeout(_, t) => from <= t && Clocked(schedule[1..], t, now)
      case Record(_, t) => from <= t && Clocked(schedule[1..], t, now)
      case _ => Clocked(schedule[1..], from, now)
  }

  /** Since goroutine id last checked the timeout, has a failure been recorded that is at most
      resetTimeout old at the time now? recent answers it for the steps before. */
  predicate RecentFailure(cfg: Config, s: Sys, a: Action, id: nat, now: int, recent: bool)
    requires Enabled(s, a)
  {
    match a
    case CheckTimeout(i, _) => i != id && recent
    case Record(i, t) => recent || (s.calls[i].failed && now - t <= cfg.resetTimeout)
    case _ => recent
  }

  predicate RecentFailureFrom(cfg: Config, s: Sys, schedule: seq<Action>, id: nat, now: int, recent: bool)
    requires ExecFrom(cfg, s, schedule).Some?
    decreases |schedule|
  {
    if schedule == [] then recent
    else RecentFailureFrom(cfg, Step(cfg, s, schedule[0]), schedule[1..], id, now,
                           RecentFailure(cfg, s, schedule[0], id, now, recent))
  }

  ghost predicate TimeoutTracked(cfg: Config, s: Sys, id: nat, clock: int, now: int, recent: bool) {
    && (s.core.state == Open ==> s.core.lastFailTime.Some?)
    && (s.core.lastFailTime.Some? ==> s.core.lastFailTime.value <= clock)
    && (recent ==> now - clock <= cfg.resetTimeout)
    && (recent && s.core.lastFailTime.Some? ==> now - s.core.lastFailTime.value <= cfg.resetTimeout)
    && (id in s.calls && s.calls[id].TimeoutPassed? ==>
          cfg.resetTimeout < MAX_INT64 && (recent || ShouldReset(cfg, s.core, now)))
  }

  function Clock(a: Action, clock: int): int {
    match a
    case CheckTimeout(_, t) => t
    case Record(_, t) => t
    case _ => clock
  }

  lemma StepTracksTimeout(cfg: Config, s: Sys, a: Action, id: nat, clock: int, now: int, recent: bool)
    requires TimeoutTracked(cfg, s, id, clock, now, recent) && Enabled(s, a)
    requires clock <= Clock(a, clock) <= now
    ensures TimeoutTracked(cfg, Step(cfg, s, a), id, Clock(a, clock), now, RecentFailure(cfg, s, a, id, now, recent))
  {
  }

  lemma {:induction false} ClockedEnds(schedule: seq<Action>, from: int, now: int)
    requires Clocked(schedule, from, now)
    ensures from <= now
    ensures schedule != [] ==>
              from <= Clock(schedule[0], from) <= now && Clocked(schedule[1..], Clock(schedule[0], from), now)
  {
    if schedule != [] {
      ClockedEnds(schedule[1..], Clock(schedule[0], from), now);
    }
  }

  lemma {:induction false} TracksTimeout(cfg: Config, s: Sys, schedule: seq<Action>, id: nat, clock: int, now: int,
                                          recent: bool)
    returns (last: int)
    requires TimeoutTracked(cfg, s, id, clock, now, recent)
    requires ExecFrom(cfg, s, schedule).Some? && Clocked(schedule, clock, now)
    ensures last <= now && TimeoutTracked(cfg, ExecFrom(cfg, s, schedule).value, id, last, now,
                                          RecentFailureFrom(cfg, s, schedule, id, now, recent))
    decreases |schedule|
  {
    ClockedEnds(schedule, clock, now);
    if schedule == [] {
      last := clock;
    } else {
      var a := schedule[0];
      StepTracksTimeout(cfg, s, a, id, clock, now, recent);
      last := TracksTimeout(cfg, Step(cfg, s, a), schedule[1..], id, Clock(a, clock), now,
                            RecentFailure(cfg, s, a, id, now, recent));
    }
  }

  /** Since the last Reset, has a failure been recorded that is at most resetTimeout old at the time now? */
  predicate FailureWithinFrom(cfg: Config, s: Sys, schedule: seq<Action>, now: int, within: bool)
    requires ExecFrom(cfg, s, schedule).Some?
    decreases |schedule|
  {
    if schedule == [] then within
    else
      var a := schedule[0];
      FailureWithinFrom(cfg, Step(cfg, s, a), schedule[1..], now,
                        if a.ResetBreaker? then false
                        else within || (a.Record? && s.calls[a.id].failed && now - a.now <= cfg.resetTimeout))
  }

  lemma {:induction false} TracksFailure(cfg: Config, s: Sys, schedule: seq<Action>, clock: int, now: int, within: bool)
    requires ExecFrom(cfg, s, schedule).Some? && Clocked(schedule, clock, now)
    requires s.core.lastFailTime.Some? ==> s.core.lastFailTime.value <= clock
    requires within <==> s.core.lastFailTime.Some? && now - s.core.lastFailTime.value <= cfg.resetTimeout
    requires s.core.state == Open ==> s.core.lastFailTime.Some?
    ensures var last := ExecFrom(cfg, s, schedule).value.core.lastFailTime;
            FailureWithinFrom(cfg, s, schedule, now, within) <==> last.Some? && now - last.value <= cfg.resetTimeout
    ensures var core := ExecFrom(cfg, s, schedule).value.core; core.state == Open ==> core.lastFailTime.Some?
    decreases |schedule|
  {
    ClockedEnds(schedule, clock, now);
    if schedule != [] {
      var a := schedule[0];
      TracksFailure(cfg, Step(cfg, s, a), schedule[1..], Clock(a, clock), now,
                    if a.ResetBreaker? then false
                    else within || (a.Record? && s.calls[a.id].failed && now - a.now <= cfg.resetTimeout));
    }
  }

  /** An entry that finds the breaker open: after any interleaving, when a goroutine that found the
      timeout passed moves an open breaker to HalfOpen at time now, the timeout has not passed then
      exactly when, between its check and its entry, a failure at most resetTimeout old was recorded. */
  lemma EntersEarlyExactly(cfg: Config, schedule: seq<Action>, id: nat, from: int, now: int)
    requires Exec(cfg, schedule).Some? && Clocked(schedule, from, now)
    requires var s := Exec(cfg, schedule).value;
             s.core.state == Open && id in s.calls && s.calls[id].TimeoutPassed?
    ensures Step(cfg, Exec(cfg, schedule).value, EnterHalfOpen(id)).core.state == HalfOpen
    ensures !ShouldReset(cfg, Exec(cfg, schedule).value.core, now)
            <==> RecentFailureFrom(cfg, START, schedule, id, now, false)
  {
    var last := TracksTimeout(cfg, START, schedule, id, from, now, false);
  }

  /** After any interleaving, a step at time now takes the breaker out of Open before the timeout has
      passed exactly when it is an entry and a failure still within the timeout was recorded since
      that goroutine's check; or a Reset or a half-open success recorded late, and a failure still
      within the timeout was recorded since the last Reset. */
  lemma LeavesOpenEarlyExactly(cfg: Config, schedule: seq<Action>, a: Action, from: int, now: int)
    requires cfg.resetTimeout < MAX_INT64
    requires Exec(cfg, schedule).Some? && Clocked(schedule, from, now)
    requires var s := Exec(cfg, schedule).value; s.core.state == Open && Enabled(s, a)
    ensures var s := Exec(cfg, schedule).value;
            Step(cfg, s, a).core.state != Open && !ShouldReset(cfg, s.core, now)
            <==>
            || (a.EnterHalfOpen? && RecentFailureFrom(cfg, START, schedule, a.id, now, false))
            || ((a.ResetBreaker? || ClosesLate(cfg, s, a)) && FailureWithinFrom(cfg, START, schedule, now, false))
  {
    OpenIsLeftExactly(cfg, Exec(cfg, schedule).value, a);
    TracksFailure(cfg, START, schedule, from, now, false);
    if a.EnterHalfOpen? {
      EntersEarlyExactly(cfg, schedule, a.id, from, now);
    }
  }

  /** Goroutine 1 enters HalfOpen, goroutine 2 takes a slot and loads the state for its result, and then
      1 reports, so that 2's load has gone stale. */
  function SecondLoadsEarly(failed: bool): seq<Action> {
    [Begin(1), CheckTimeout(1, 11), EnterHalfOpen(1)] + [Begin(2), TakeSlot(2), LoadForResult(2, failed)]
    + [LoadForResult(1, !failed), Record(1, 12), Record(2, 12)]
  }

  lemma SecondLoads(cfg: Config, core: Core, failed: bool)
    requires cfg.resetTimeout == 10 && cfg.halfOpenRequests == 1
    requires core.state == Open && core.lastFailTime == Some(0)
    ensures ExecFrom(cfg, Sys(core, map[], 0),
                     [Begin(1), CheckTimeout(1, 11), EnterHalfOpen(1)]
                     + [Begin(2), TakeSlot(2), LoadForResult(2, failed)])
            == Some(Sys(Core(HalfOpen, core.failures, 0, 1, Some(0)),
                        map[1 := Running(1), 2 := Finishing(1, failed, HalfOpen)], 1))
  {
    var s, stale := Sys(core, map[], 0), Finishing(1, failed, HalfOpen);
    var enter := [Begin(1), CheckTimeout(1, 11), EnterHalfOpen(1)];
    var load := [Begin(2), TakeSlot(2), LoadForResult(2, failed)];
    var s1 := Sys(Core(HalfOpen, core.failures, 0, 0, Some(0)), map[1 := Running(1)], 1);
    Runs.Thrice(Next(cfg), s, Begin(1), CheckTimeout(1, 11), EnterHalfOpen(1));
    assert s.calls[1 := SawOpen][1 := TimeoutPassed][1 := Running(1)] == s1.calls;
    assert ExecFrom(cfg, s, enter) == Some(s1);
    Runs.Thrice(Next(cfg), s1, Begin(2), TakeSlot(2), LoadForResult(2, failed));
    assert s1.calls[2 := SawHalfOpen][2 := Running(1)][2 := stale] == map[1 := Running(1), 2 := stale];
    Runs.Then(Next(cfg), s, enter, load);
  }

  lemma BothReport(cfg: Config, s: Sys, failed: bool)
    requires cfg.halfOpenRequests == 1
    requires s.core == Core(HalfOpen, s.core.failures, 0, 1, Some(0)) && s.episode == 1
    requires s.calls == map[1 := Running(1), 2 := Finishing(1, failed, HalfOpen)]
    ensures var first := ResultRecorded(cfg, s.core, HalfOpen, !failed, 12);
            && ExecFrom(cfg, s, [LoadForResult(1, !failed), Record(1, 12)])
               == Some(Sys(first, map[2 := Finishing(1, failed, HalfOpen)], 1))
            && ExecFrom(cfg, s, [LoadForResult(1, !failed), Record(1, 12), Record(2, 12)]).Some?
            && ExecFrom(cfg, s, [LoadForResult(1, !failed), Record(1, 12), Record(2, 12)]).value.core
               == ResultRecorded(cfg, first, HalfOpen, failed, 12)
  {
    Runs.Twice(Next(cfg), s, LoadForResult(1, !failed), Record(1, 12));
    assert s.calls[1 := Finishing(1, !failed, HalfOpen)] - {1} == map[2 := Finishing(1, failed, HalfOpen)];
    Runs.Thrice(Next(cfg), s, LoadForResult(1, !failed), Record(1, 12), Record(2, 12));
  }

  lemma SecondReportsStale(cfg: Config, trip: seq<Action>, core: Core, failed: bool)
    requires cfg.resetTimeout == 10 && cfg.halfOpenRequests == 1
    requires core.state == Open && core.lastFailTime == Some(0) && Exec(cfg, trip) == Some(Sys(core, map[], 0))
    ensures var half := Core(HalfOpen, core.failures, 0, 1, Some(0));
            && Exec(cfg, trip + SecondLoadsEarly(failed)).Some?
            && Exec(cfg, trip + SecondLoadsEarly(failed)).value.core
               == ResultRecorded(cfg, ResultRecorded(cfg, half, HalfOpen, !failed, 12), HalfOpen, failed, 12)
  {
    var s := Sys(core, map[], 0);
    var load := [Begin(1), CheckTimeout(1, 11), EnterHalfOpen(1)] + [Begin(2), TakeSlot(2), LoadForResult(2, failed)];
    SecondLoads(cfg, core, failed);
    BothReport(cfg, ExecFrom(cfg, s, load).value, failed);
    Runs.Then(Next(cfg), s, load, [LoadForResult(1, !failed), Record(1, 12), Record(2, 12)]);
    Runs.Then(Next(cfg), START, trip, SecondLoadsEarly(failed));
  }

  /** A stale load breaks "Closed exactly when failures < maxFailures": with maxFailures == 2 the
      breaker is Open after one failure since it closed. */
  lemma StaleLoadTripsEarly()
    ensures exists schedule ::
              && Exec(Config(2, 10, 1), schedule).Some?
              && var b := Exec(Config(2, 10, 1), schedule).value.core; b.state == Open && b.failures == 1
  {
    var cfg := Config(2, 10, 1);
    FailingCallRuns(cfg, INITIAL, 0);
    FailingCallRuns(cfg, Core(Closed, 1, 0, 0, Some(0)), 0);
    Runs.Then(Next(cfg), START, FailingCall(0), FailingCall(0));
    var trip := FailingCall(0) + FailingCall(0);
    SecondReportsStale(cfg, trip, Core(Open, 2, 0, 0, Some(0)), true);
    assert Exec(cfg, trip + SecondLoadsEarly(true)).Some?;
  }

  /** The racing start of the two schedules below: after one failing call, goroutines 1 and 2 both
      find the timeout passed, and 1 enters HalfOpen and finishes with a fresh load. */
  function RaceThenResult(failed: bool): seq<Action> {
    FailingCall(0) + [Begin(1), Begin(2), CheckTimeout(1, 11)]
    + [CheckTimeout(2, 11), EnterHalfOpen(1), LoadForResult(1, failed)] + [Record(1, 12)]
  }

  lemma RaceThenResultRuns(failed: bool)
    ensures Exec(Config(1, 10, 1), RaceThenResult(failed))
            == Some(Sys(if failed then Core(Open, 2, 0, 0, Some(12)) else Core(Closed, 0, 0, 0, Some(0)),
                        map[2 := TimeoutPassed], 1))
  {
    var cfg := Config(1, 10, 1);
    FailingCallRuns(cfg, INITIAL, 0);
    var s0 := Sys(Core(Open, 1, 0, 0, Some(0)), map[], 0);
    var race := [Begin(1), Begin(2), CheckTimeout(1, 11)];
    Runs.Thrice(Next(cfg), s0, Begin(1), Begin(2), CheckTimeout(1, 11));
    var s1 := Sys(Core(Open, 1, 0, 0, Some(0)), map[1 := TimeoutPassed, 2 := SawOpen], 0);
    assert s0.calls[1 := SawOpen][2 := SawOpen][1 := TimeoutPassed] == s1.calls;
    assert ExecFrom(cfg, s0, race) == Some(s1);
    RaceFinishes(cfg, s1, failed);
    var finish := [CheckTimeout(2, 11), EnterHalfOpen(1), LoadForResult(1, failed)];
    Runs.Then(Next(cfg), START, FailingCall(0), race);
    Runs.Then(Next(cfg), START, FailingCall(0) + race, finish);
    Runs.Then(Next(cfg), START, FailingCall(0) + race + finish, [Record(1, 12)]);
  }

  lemma RaceFinishes(cfg: Config, s: Sys, failed: bool)
    requires cfg == Config(1, 10, 1)
    requires s == Sys(Core(Open, 1, 0, 0, Some(0)), map[1 := TimeoutPassed, 2 := SawOpen], 0)
    ensures var finish := [CheckTimeout(2, 11), EnterHalfOpen(1), LoadForResult(1, failed)];
            var t := Sys(Core(HalfOpen, 1, 0, 0, Some(0)),
                         map[1 := Finishing(1, failed, HalfOpen), 2 := TimeoutPassed], 1);
            ExecFrom(cfg, s, finish) == Some(t)
            && ExecFrom(cfg, t, [Record(1, 12)])
               == Some(Sys(if failed then Core(Open, 2, 0, 0, Some(12)) else Core(Closed, 0, 0, 0, Some(0)),
                           map[2 := TimeoutPassed], 1))
  {
    Runs.Thrice(Next(cfg), s, CheckTimeout(2, 11), EnterHalfOpen(1), LoadForResult(1, failed));
    var t := Sys(Core(HalfOpen, 1, 0, 0, Some(0)), map[1 := Finishing(1, failed, HalfOpen), 2 := TimeoutPassed], 1);
    assert s.calls[2 := TimeoutPassed][1 := Running(1)][1 := Finishing(1, failed, HalfOpen)] == t.calls;
    Runs.Once(Next(cfg), t, Record(1, 12));
    assert t.calls - {1} == map[2 := TimeoutPassed];
  }

  /** A stale entry opens the closed breaker half: no result was recorded under a stale state, and
      yet the breaker ends HalfOpen without a failure. */
  lemma StaleEntryHalfOpensClosed()
    ensures exists schedule ::
              && Exec(Config(1, 10, 1), schedule).Some?
              && var b := Exec(Config(1, 10, 1), schedule).value.core; b.state == HalfOpen && b.failures == 0
  {
    RaceThenResultRuns(false);
    var cfg := Config(1, 10, 1);
    AndThen(cfg, RaceThenResult(false), Exec(cfg, RaceThenResult(false)).value, EnterHalfOpen(2));
  }

  /** A stale entry takes the breaker out of Open at the very time of the failure that opened it. */
  lemma StaleEntryLeavesOpenEarly()
    ensures exists schedule ::
              && Exec(Config(1, 10, 1), schedule).Some? && Clocked(schedule, 0, 12)
              && var s := Exec(Config(1, 10, 1), schedule).value;
                 && s.core.state == Open && s.core.lastFailTime == Some(12)
                 && Enabled(s, EnterHalfOpen(2)) && Step(Config(1, 10, 1), s, EnterHalfOpen(2)).core.state == HalfOpen
  {
    RaceThenResultRuns(true);
    RaceIsClocked();
  }

  lemma {:induction false} ClockedThen(first: seq<Action>, next: seq<Action>, from: int, mid: int, now: int)
    requires Clocked(first, from, mid) && Clocked(next, mid, now)
    ensures Clocked(first + next, from, now)
  {
    if first == [] {
      assert first + next == next;
      ClockedFromEarlier(next, from, mid, now);
    } else {
      assert (first + next)[1..] == first[1..] + next;
      ClockedThen(first[1..], next, Clock(first[0], from), mid, now);
    }
  }

  lemma {:induction false} ClockedFromEarlier(schedule: seq<Action>, from: int, mid: int, now: int)
    requires from <= mid && Clocked(schedule, mid, now)
    ensures Clocked(schedule, from, now)
  {
    if schedule != [] && !schedule[0].CheckTimeout? && !schedule[0].Record? {
      ClockedFromEarlier(schedule[1..], from, mid, now);
    }
  }

  lemma ClockedThree(a: Action, b: Action, c: Action, from: int)
    requires from <= Clock(a, from) <= Clock(b, Clock(a, from)) <= Clock(c, Clock(b, Clock(a, from)))
    ensures Clocked([a, b, c], from, Clock(c, Clock(b, Clock(a, from))))
  {
    assert [a, b, c][1..] == [b, c] && [b, c][1..] == [c] && [c][1..] == [];
    assert Clocked([c], Clock(b, Clock(a, from)), Clock(c, Clock(b, Clock(a, from))));
    assert Clocked([b, c], Clock(a, from), Clock(c, Clock(b, Clock(a, from))));
  }

  lemma RaceIsClocked()
    ensures Clocked(RaceThenResult(true), 0, 12)
  {
    var race := [Begin(1), Begin(2), CheckTimeout(1, 11)];
    var finish := [CheckTimeout(2, 11), EnterHalfOpen(1), LoadForResult(1, true)];
    ClockedThree(Begin(0), LoadForResult(0, true), Record(0, 0), 0);
    ClockedThree(Begin(1), Begin(2), CheckTimeout(1, 11), 0);
    ClockedThree(CheckTimeout(2, 11), EnterHalfOpen(1), LoadForResult(1, true), 11);
    assert Clocked([Record(1, 12)], 11, 12);
    ClockedThen(FailingCall(0), race, 0, 0, 11);
    ClockedThen(FailingCall(0) + race, finish, 0, 11, 11);
    ClockedThen(FailingCall(0) + race + finish, [Record(1, 12)], 0, 11, 12);
  }

  /** A half-open success recorded late closes the breaker at the very time of the failure that
      had just opened it. */
  lemma LateSuccessClosesEarly()
    ensures exists schedule ::
              && Exec(Config(1, 10, 1), schedule).Some? && Clocked(schedule, 0, 12)
              && var s := Exec(Config(1, 10, 1), schedule).value;
                 && s.core.state == Open && s.core.lastFailTime == Some(12)
                 && Enabled(s, Record(2, 12)) && Step(Config(1, 10, 1), s, Record(2, 12)).core.state == Closed
  {
    var schedule := ReopenedBeforeSuccess(Config(1, 10, 1), Core(Open, 1, 0, 0, Some(0)));
  }

  lemma ReopenedBeforeSuccess(cfg: Config, core: Core) returns (schedule: seq<Action>)
    requires cfg == Config(1, 10, 1) && core == Core(Open, 1, 0, 0, Some(0))
    ensures Exec(cfg, schedule) == Some(Sys(Core(Open, 2, 0, 0, Some(12)), map[2 := Finishing(1, false, HalfOpen)], 1))
    ensures Clocked(schedule, 0, 12)
  {
    var enter := [Begin(1), CheckTimeout(1, 11), EnterHalfOpen(1)];
    var load := [Begin(2), TakeSlot(2), LoadForResult(2, false)];
    var report := [LoadForResult(1, true), Record(1, 12)];
    schedule := FailingCall(0) + (enter + load) + report;
    LateSuccessIsClocked(FailingCall(0), enter, load, report);
    FailingCallRuns(cfg, INITIAL, 0);
    SecondLoads(cfg, core, false);
    var s := Sys(Core(HalfOpen, 1, 0, 1, Some(0)), map[1 := Running(1), 2 := Finishing(1, false, HalfOpen)], 1);
    BothReport(cfg, s, false);
    Runs.Then(Next(cfg), START, FailingCall(0), enter + load);
    assert Exec(cfg, FailingCall(0) + (enter + load)) == Some(s);
    Runs.Then(Next(cfg), START, FailingCall(0) + (enter + load), report);
  }

  lemma LateSuccessIsClocked(fail: seq<Action>, enter: seq<Action>, load: seq<Action>, report: seq<Action>)
    requires fail == FailingCall(0)
    requires enter == [Begin(1), CheckTimeout(1, 11), EnterHalfOpen(1)]
    requires load == [Begin(2), TakeSlot(2), LoadForResult(2, false)]
    requires report == [LoadForResult(1, true), Record(1, 12)]
    ensures Clocked(fail + (enter + load) + report, 0, 12)
  {
    ClockedThree(Begin(0), LoadForResult(0, true), Record(0, 0), 0);
    ClockedThree(Begin(1), CheckTimeout(1, 11), EnterHalfOpen(1), 0);
    ClockedThree(Begin(2), TakeSlot(2), LoadForResult(2, false), 11);
    assert report[1..] == [Record(1, 12)] && Clocked([Record(1, 12)], 11, 12);
    ClockedThen(enter, load, 0, 11, 11);
    ClockedThen(fail, enter + load, 0, 0, 11);
    ClockedThen(fail + (enter + load), report, 0, 11, 12);
  }
}
