/** supervisor.go: the restart loop of one goroutine, and the bookkeeping of running flags and the
    wait group over any run of starts, restarts and exits. */
module Supervision {
  import opened Common
  import opened Backoff
  import Runs

  datatype RestartPolicy = RestartPolicy(
    maxRestarts: int,
    restartDelay: int,
    backoffFactor: real,
    maxBackoffDelay: int,
    overflow: int)

  const DEFAULT_POLICY := RestartPolicy(5, SECOND, 2.0, 30 * SECOND, -0x8000_0000_0000_0000)

  /** How one turn of the loop ends. */
  datatype Turn =
    | Stopping           // the supervisor was seen stopping before the function ran
    | Cancelled          // the function returned with its context cancelled
    | Completed          // the function returned nil
    | Failing            // the function returned an error and the delay passed
    | FailingCancelled(waited: nat)   // it returned an error and was cancelled that far into the delay

  lemma {:induction false} DelayCapped(delay: int, factor: real, cap: int, overflow: int, n: nat)
    requires delay <= cap
    ensures SupervisorDelay(delay, factor, cap, overflow, n) <= cap
    decreases n
  {
    if n > 0 {
      var d := ToDuration(delay as real * factor, overflow);
      if d <= cap {
        DelayCapped(d, factor, cap, overflow, n - 1);
      }
    }
  }

  /** The wait before the restart with this number. */
  function WaitBefore(p: RestartPolicy, restart: int): int {
    Max(0, SupervisorDelay(p.restartDelay, p.backoffFactor, p.maxBackoffDelay, p.overflow, Max(0, restart - 1)))
  }

  /** The waits before the n restarts that follow the first ones. */
  function Waited(p: RestartPolicy, first: int, n: nat): int {
    if n == 0 then 0 else Waited(p, first, n - 1) + WaitBefore(p, first + n)
  }

  /** The loop was left because the supervisor was stopping, not after a turn of the function. */
  predicate StoppedFirst(turn: nat -> Turn, runs: nat, left: nat) {
    runs <= left && (runs == 0 || turn(runs - 1) == Failing)
  }

  /** What ended a loop after that many runs. */
  predicate EndedBy(turn: nat -> Turn, runs: nat, left: nat) {
    if StoppedFirst(turn, runs, left) then turn(runs) == Stopping
    else
      && 0 < runs <= left + 1 && turn(runs - 1) != Stopping
      && (turn(runs - 1) == Failing ==> runs == left + 1)
  }

  class SupervisedGoroutine {
    const restartPolicy: RestartPolicy
    var restartCount: int
    var running: bool

    constructor (restartPolicy: RestartPolicy)
      ensures this.restartPolicy == restartPolicy && restartCount == 0 && !running
    {
      this.restartPolicy := restartPolicy;
      restartCount := 0;
      running := false;
    }

    /** The loop of runGoroutine; turn(k) is how its k-th turn ends. Whatever the turns do, the loop
        ends: on the first turn that does not fail, or on the failure that uses up its restarts. It has
        waited the delay of every restart it made, and what it waited of a delay that was cancelled;
        at most the cap for each. */
    method RunGoroutine(turn: nat -> Turn) returns (runs: nat, slept: int)
      modifies this
      ensures !running
      ensures runs <= Max(0, restartPolicy.maxRestarts - old(restartCount)) + 1
      ensures restartCount ==
                old(restartCount) + (if runs > 0 && turn(runs - 1) in {Completed, Cancelled} then runs - 1 else runs)
      ensures forall k :: 0 <= k < runs - 1 ==> turn(k) == Failing
      ensures EndedBy(turn, runs, Max(0, restartPolicy.maxRestarts - old(restartCount)))
      ensures var p, first := restartPolicy, old(restartCount);
              var left := Max(0, p.maxRestarts - first);
              slept == if StoppedFirst(turn, runs, left) then Waited(p, first, runs)
                       else if turn(runs - 1).FailingCancelled? && runs <= left
                       then Waited(p, first, runs - 1) + Min(turn(runs - 1).waited, WaitBefore(p, first + runs))
                       else Waited(p, first, runs - 1)
      ensures 0 <= slept
      ensures restartPolicy.restartDelay <= restartPolicy.maxBackoffDelay ==>
                slept <= Max(0, restartPolicy.maxRestarts - old(restartCount)) * Max(0, restartPolicy.maxBackoffDelay)
    {
      runs, slept := 0, 0;
      ghost var left := Max(0, restartPolicy.maxRestarts - old(restartCount));
      ghost var cap := Max(0, restartPolicy.maxBackoffDelay);
      while true
        invariant 0 <= runs <= left && 0 <= slept == Waited(restartPolicy, old(restartCount), runs)
        invariant restartCount == old(restartCount) + runs
        invariant forall k :: 0 <= k < runs ==> turn(k) == Failing
        invariant restartPolicy.restartDelay <= restartPolicy.maxBackoffDelay ==> slept <= runs * cap
        decreases left - runs
      {
        var t := turn(runs);
        MulMonotone(runs, left, cap);
        if t == Stopping {
          running := false;
          return;
        }
        runs := runs + 1;
        if t == Cancelled || t == Completed {
          running := false;
          return;
        }
        restartCount := restartCount + 1;
        if restartCount > restartPolicy.maxRestarts {
          running := false;
          return;
        }
        var p := restartPolicy;
        var delay := SupervisorBackoff(p.restartDelay, p.backoffFactor, p.maxBackoffDelay, p.overflow, restartCount);
        if p.restartDelay <= p.maxBackoffDelay {
          DelayCapped(p.restartDelay, p.backoffFactor, p.maxBackoffDelay, p.overflow, Max(0, restartCount - 1));
        }
        MulMonotone(runs, left, cap);
        if t.FailingCancelled? {
          slept := slept + Min(t.waited, Max(0, delay));
          running := false;
          return;
        }
        slept := slept + Max(0, delay);
      }
    }
  }

  /** A function that always fails, under the shipped policy and on any platform: it runs six times, and
      the five restarts are spread over 31 seconds. */
  method AlwaysFails(g: SupervisedGoroutine) returns (runs: nat, slept: int)
    requires g.restartCount == 0 && g.restartPolicy == DEFAULT_POLICY.(overflow := g.restartPolicy.overflow)
    modifies g
    ensures runs == 6 && slept == 31 * SECOND
  {
    var always: nat -> Turn := _ => Failing;
    runs, slept := g.RunGoroutine(always);
    ShippedWaits(g.restartPolicy.overflow);
  }

  lemma ShippedWaits(overflow: int)
    ensures Waited(DEFAULT_POLICY.(overflow := overflow), 0, 5) == 31 * SECOND
  {
    var p := DEFAULT_POLICY.(overflow := overflow);
    ShippedDelays(1, overflow);
    ShippedDelays(2, overflow);
    ShippedDelays(3, overflow);
    ShippedDelays(4, overflow);
    ShippedDelays(5, overflow);
    assert Waited(p, 0, 1) == SECOND;
    assert Waited(p, 0, 2) == 3 * SECOND;
    assert Waited(p, 0, 3) == 7 * SECOND;
    assert Waited(p, 0, 4) == 15 * SECOND;
  }

  lemma MulMonotone(a: int, b: int, c: int)
    requires c >= 0
    ensures a <= b ==> a * c <= b * c
    ensures (a + 1) * c == a * c + c && (a - 1) * c == a * c - c
  {
    if a <= b {
      assert (b - a) * c >= 0;
    }
  }

  lemma Doublings(x: real)
    ensures Product(x, 2.0, 1) == 2.0 * x && Product(x, 2.0, 2) == 4.0 * x
    ensures Product(x, 2.0, 3) == 8.0 * x && Product(x, 2.0, 4) == 16.0 * x
  {
    Unfold(x, 2.0, 0);
    Unfold(x, 2.0, 1);
    Unfold(x, 2.0, 2);
    Unfold(x, 2.0, 3);
    Unfold(2.0 * x, 2.0, 0);
    Unfold(2.0 * x, 2.0, 1);
    Unfold(2.0 * x, 2.0, 2);
    Unfold(4.0 * x, 2.0, 0);
    Unfold(4.0 * x, 2.0, 1);
    Unfold(8.0 * x, 2.0, 0);
  }

  /** Under the shipped policy the five restarts wait 1, 2, 4, 8 and 16 seconds on any platform: the
      cap of 30 seconds is never reached. */
  lemma ShippedDelays(restartCount: int, overflow: int)
    requires 1 <= restartCount <= DEFAULT_POLICY.maxRestarts
    ensures var p := DEFAULT_POLICY;
            SupervisorDelay(p.restartDelay, p.backoffFactor, p.maxBackoffDelay, overflow, restartCount - 1)
            == [1, 2, 4, 8, 16][restartCount - 1] * SECOND
  {
    var n, x := restartCount - 1, SECOND as real;
    Doublings(x);
    assert n in {0, 1, 2, 3, 4};
    SupervisorDelayBounds(SECOND, 2.0, 30 * SECOND, overflow, n);
  }

  // --- flags, runners and the wait group ---

  /** starting says which id each call of startGoroutine that has found its flag down is about to
      start; exiting runners have cleared their flag and owe one wg.Done. */
  datatype Sys = Sys(
    flags: map<nat, bool>,
    starting: map<nat, nat>,
    live: multiset<nat>,
    exiting: multiset<nat>,
    wg: int)

  const START := Sys(map[], map[], multiset{}, multiset{}, 0)

  datatype Action =
    | Register(id: nat)
    | CheckFlag(start: nat, id: nat)   // startGoroutine, called by Start or RestartGoroutine, loads the flag
    | StoreFlag(start: nat)            // it stores the flag, counts the runner and spawns it
    | ClearFlag(id: nat)               // the first deferred call of a returning runner
    | Done(id: nat)                    // the second

  predicate Enabled(s: Sys, a: Action) {
    match a
    case Register(_) => true
    case CheckFlag(start, id) => id in s.flags && start !in s.starting
    case StoreFlag(start) => start in s.starting
    case ClearFlag(id) => id in s.live
    case Done(id) => id in s.exiting
  }

  function Step(s: Sys, a: Action): Sys
    requires Enabled(s, a)
  {
    match a
    case Register(id) => if id in s.flags then s else s.(flags := s.flags[id := false])
    case CheckFlag(start, id) => if s.flags[id] then s else s.(starting := s.starting[start := id])
    case StoreFlag(start) =>
      var id := s.starting[start];
      Sys(s.flags[id := true], s.starting - {start}, s.live + multiset{id}, s.exiting, s.wg + 1)
    case ClearFlag(id) =>
      s.(flags := s.flags[id := false], live := s.live - multiset{id}, exiting := s.exiting + multiset{id})
    case Done(id) => s.(exiting := s.exiting - multiset{id}, wg := s.wg - 1)
  }

  function Next(): (Sys, Action) -> Option<Sys> {
    (s: Sys, a: Action) => if Enabled(s, a) then Some(Step(s, a)) else None
  }

  function Exec(s: Sys, run: seq<Action>): Option<Sys> {
    Runs.Exec(Next(), s, run)
  }

  /** What every run keeps, racing starts or not: the wait group counts the runners that have not
      called Done. */
  lemma {:induction false} WaitGroupCountsRunners(s: Sys, run: seq<Action>)
    requires s.wg == |s.live| + |s.exiting| && Exec(s, run).Some?
    ensures var t := Exec(s, run).value; t.wg == |t.live| + |t.exiting|
    decreases |run|
  {
    if run != [] {
      WaitGroupCountsRunners(Step(s, run[0]), run[1..]);
    }
  }

  function RunningIds(flags: map<nat, bool>): set<nat> {
    set id | id in flags && flags[id]
  }

  /** Each id has at most one live runner, and its flag says whether it has one. */
  ghost predicate Matched(s: Sys) {
    s.live == multiset(RunningIds(s.flags))
  }

  /** The second of two racing starts stores a flag that is already up. */
  predicate Races(s: Sys, a: Action)
    requires Enabled(s, a)
  {
    a.StoreFlag? && s.starting[a.start] in s.flags && s.flags[s.starting[a.start]]
  }

  lemma StepKeepsMatchedExactly(s: Sys, a: Action)
    requires Matched(s) && Enabled(s, a)
    ensures Matched(Step(s, a)) <==> !Races(s, a)
  {
    var t := Step(s, a);
    match a
    case Register(id) => assert RunningIds(t.flags) == RunningIds(s.flags);
    case CheckFlag(_, _) =>
    case StoreFlag(start) => StoreKeepsMatchedExactly(s, start);
    case ClearFlag(id) => assert RunningIds(t.flags) == RunningIds(s.flags) - {id};
    case Done(_) =>
  }

  lemma StoreKeepsMatchedExactly(s: Sys, start: nat)
    requires Matched(s) && Enabled(s, StoreFlag(start))
    ensures Matched(Step(s, StoreFlag(start))) <==> !Races(s, StoreFlag(start))
  {
    var t, id := Step(s, StoreFlag(start)), s.starting[start];
    assert RunningIds(t.flags) == RunningIds(s.flags) + {id};
    assert t.live[id] == s.live[id] + 1;
  }

  ghost predicate AlwaysMatched(s: Sys, run: seq<Action>)
    requires Exec(s, run).Some?
    decreases |run|
  {
    Matched(s) && (run == [] || AlwaysMatched(Step(s, run[0]), run[1..]))
  }

  predicate SomeStartRaces(s: Sys, run: seq<Action>)
    requires Exec(s, run).Some?
    decreases |run|
  {
    run != [] && (Races(s, run[0]) || SomeStartRaces(Step(s, run[0]), run[1..]))
  }

  /** The flags match the runners throughout a run exactly when no two of its starts race. */
  lemma {:induction false} FlagsMatchRunners(s: Sys, run: seq<Action>)
    requires Matched(s) && Exec(s, run).Some?
    ensures AlwaysMatched(s, run) <==> !SomeStartRaces(s, run)
    decreases |run|
  {
    if run != [] {
      StepKeepsMatchedExactly(s, run[0]);
      if !Races(s, run[0]) {
        FlagsMatchRunners(Step(s, run[0]), run[1..]);
      }
    }
  }

  /** Every store comes directly after its own check: no start is interrupted. */
  predicate SoloStarts(previous: Option<Action>, run: seq<Action>)
    decreases |run|
  {
    run == []
    || (&& (run[0].StoreFlag? ==> previous.Some? && previous.value.CheckFlag? && previous.value.start == run[0].start)
        && SoloStarts(Some(run[0]), run[1..]))
  }

  predicate JustChecked(s: Sys, previous: Option<Action>) {
    previous.Some? && previous.value.CheckFlag? && previous.value.start in s.starting ==>
      var id := s.starting[previous.value.start];
      id in s.flags && !s.flags[id]
  }

  lemma {:induction false} SoloStartsDoNotRace(s: Sys, previous: Option<Action>, run: seq<Action>)
    requires JustChecked(s, previous) && SoloStarts(previous, run) && Exec(s, run).Some?
    ensures !SomeStartRaces(s, run)
    decreases |run|
  {
    if run != [] {
      SoloStartsDoNotRace(Step(s, run[0]), Some(run[0]), run[1..]);
    }
  }

  lemma {:induction false} EndsMatched(s: Sys, run: seq<Action>)
    requires Exec(s, run).Some? && AlwaysMatched(s, run)
    ensures Matched(Exec(s, run).value)
    decreases |run|
  {
    if run != [] {
      EndsMatched(Step(s, run[0]), run[1..]);
    }
  }

  /** From an empty supervisor, with uninterrupted starts: each id has at most one live runner, its
      flag says whether it has one, and the wait group counts the running flags and the runners that
      have still to call Done. */
  lemma RunsFromStart(run: seq<Action>)
    requires Exec(START, run).Some? && SoloStarts(None, run)
    ensures var s := Exec(START, run).value;
            && (forall id :: id in s.flags ==> s.live[id] == if s.flags[id] then 1 else 0)
            && s.wg == |RunningIds(s.flags)| + |s.exiting|
  {
    SoloStartsDoNotRace(START, None, run);
    assert RunningIds(START.flags) == {};
    FlagsMatchRunners(START, run);
    EndsMatched(START, run);
    WaitGroupCountsRunners(START, run);
  }

  /** Two starts that both find the flag down make two runners, and when one of them returns the flag
      is down although the other still runs. */
  lemma RacingStartsMakeTwoRunners()
    ensures exists run ::
              && Exec(START, run).Some?
              && var s := Exec(START, run).value; 0 in s.flags && !s.flags[0] && s.live[0] == 1 && s.wg == 2
  {
    var first, second := [Register(0), CheckFlag(0, 0)], [CheckFlag(1, 0), StoreFlag(0)];
    var third := [StoreFlag(1), ClearFlag(0)];
    Runs.Twice(Next(), START, Register(0), CheckFlag(0, 0));
    var s1 := Sys(map[0 := false], map[0 := 0], multiset{}, multiset{}, 0);
    assert Exec(START, first) == Some(s1);
    Runs.Twice(Next(), s1, CheckFlag(1, 0), StoreFlag(0));
    var s2 := Sys(map[0 := true], map[1 := 0], multiset{0}, multiset{}, 1);
    assert s1.starting[1 := 0] - {0} == s2.starting && s1.flags[0 := true] == s2.flags;
    assert s1.live + multiset{0} == s2.live;
    assert Exec(s1, second) == Some(s2);
    Runs.Twice(Next(), s2, StoreFlag(1), ClearFlag(0));
    Runs.Then(Next(), START, first, second);
    Runs.Then(Next(), START, first + second, third);
    assert Exec(START, first + second + third) == Exec(s2, third);
  }
}
