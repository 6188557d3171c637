/** client.go: chains of attemptReconnection calls that overlap. The reconnecting flag is cleared
    before a failed attempt spawns the next one, so another failure can start a chain of its own.
    The loads and stores of the flag and of the counter are single steps. */
module ReconnectionChains {
  import opened Common
  import Runs

  /** Where one call of attemptReconnection stands. */
  datatype Point =
    | Spawned   // has not read the counter yet
    | Checked   // found attempts below the maximum, has not counted its own yet
    | Dialling  // counted, asleep or dialling
    | Ending    // the deferred clearing of the flag is next

  datatype Sys = Sys(flag: bool, attempts: int, calls: map<nat, Point>)

  const START := Sys(false, 0, map[])

  datatype Action =
    | Trigger(id: nat)           // a read or ping failure that wins the flag
    | Check(id: nat)
    | Count(id: nat)
    | Fail(id: nat, next: nat)   // clears the flag and spawns the next attempt while any are left
    | Succeed(id: nat)
    | Clear(id: nat)

  predicate Enabled(s: Sys, a: Action) {
    match a
    case Trigger(id) => !s.flag && id !in s.calls
    case Check(id) => id in s.calls && s.calls[id] == Spawned
    case Count(id) => id in s.calls && s.calls[id] == Checked
    case Fail(id, next) => id in s.calls && s.calls[id] == Dialling && next !in s.calls
    case Succeed(id) => id in s.calls && s.calls[id] == Dialling
    case Clear(id) => id in s.calls && s.calls[id] == Ending
  }

  function Step(maxAttempts: int, s: Sys, a: Action): Sys
    requires Enabled(s, a)
  {
    match a
    case Trigger(id) => Sys(true, s.attempts, s.calls[id := Spawned])
    case Check(id) => s.(calls := s.calls[id := if s.attempts < maxAttempts then Checked else Ending])
    case Count(id) => s.(attempts := s.attempts + 1, calls := s.calls[id := Dialling])
    case Fail(id, next) =>
      if s.attempts < maxAttempts then Sys(false, s.attempts, s.calls[id := Ending][next := Spawned])
      else s.(calls := s.calls[id := Ending])
    case Succeed(id) => s.(attempts := 0, calls := s.calls[id := Ending])
    case Clear(id) => Sys(false, s.attempts, s.calls - {id})
  }

  function Next(maxAttempts: int): (Sys, Action) -> Option<Sys> {
    (s: Sys, a: Action) => if Enabled(s, a) then Some(Step(maxAttempts, s, a)) else None
  }

  function Exec(maxAttempts: int, s: Sys, run: seq<Action>): Option<Sys> {
    Runs.Exec(Next(maxAttempts), s, run)
  }

  /** The calls that have found an attempt left and not taken it yet. */
  function Pending(s: Sys): set<nat> {
    set id | id in s.calls && s.calls[id] == Checked
  }

  /** The most calls that were pending at once, in a run from s; peak is the most before it. */
  function Peak(maxAttempts: int, s: Sys, run: seq<Action>, peak: nat): nat
    requires Exec(maxAttempts, s, run).Some?
    decreases |run|
  {
    if run == [] then peak
    else
      var t := Step(maxAttempts, s, run[0]);
      Peak(maxAttempts, t, run[1..], Max(peak, |Pending(t)|))
  }

  /** Dials begun since the last success, in a run from s; dials is the number before it. */
  function Dials(maxAttempts: int, s: Sys, run: seq<Action>, dials: nat): nat
    requires Exec(maxAttempts, s, run).Some?
    decreases |run|
  {
    if run == [] then dials
    else Dials(maxAttempts, Step(maxAttempts, s, run[0]), run[1..],
               if run[0].Succeed? then 0 else if run[0].Count? then dials + 1 else dials)
  }

  ghost predicate Within(maxAttempts: int, s: Sys, peak: nat) {
    && s.attempts >= 0 && |Pending(s)| <= peak
    && (if peak == 0 then s.attempts == 0 else maxAttempts >= 1 && s.attempts + |Pending(s)| <= maxAttempts - 1 + peak)
  }

  lemma PendingAfter(maxAttempts: int, s: Sys, a: Action)
    requires Enabled(s, a)
    ensures var pending := Pending(Step(maxAttempts, s, a));
            && (a.Check? ==> pending == if s.attempts < maxAttempts then Pending(s) + {a.id} else Pending(s))
            && (a.Count? ==> a.id in Pending(s) && pending == Pending(s) - {a.id})
            && (!a.Check? && !a.Count? ==> pending == Pending(s))
  {
    var calls := s.calls;
    match a
    case Trigger(id) => assert Pending(s.(calls := calls[id := Spawned])) == Pending(s);
    case Fail(id, next) => assert Pending(s.(calls := calls[id := Ending][next := Spawned])) == Pending(s);
    case _ =>
  }

  lemma StepStaysWithin(maxAttempts: int, s: Sys, a: Action, peak: nat)
    requires Within(maxAttempts, s, peak) && Enabled(s, a)
    ensures Within(maxAttempts, Step(maxAttempts, s, a), Max(peak, |Pending(Step(maxAttempts, s, a))|))
  {
    PendingAfter(maxAttempts, s, a);
    if a.Check? {
      assert a.id !in Pending(s);
    }
  }

  lemma {:induction false} StaysWithin(maxAttempts: int, s: Sys, run: seq<Action>, peak: nat, dials: nat)
    requires Within(maxAttempts, s, peak) && s.attempts == dials && Exec(maxAttempts, s, run).Some?
    ensures Within(maxAttempts, Exec(maxAttempts, s, run).value, Peak(maxAttempts, s, run, peak))
    ensures Exec(maxAttempts, s, run).value.attempts == Dials(maxAttempts, s, run, dials)
    decreases |run|
  {
    if run != [] {
      var t := Step(maxAttempts, s, run[0]);
      StepStaysWithin(maxAttempts, s, run[0], peak);
      StaysWithin(maxAttempts, t, run[1..], Max(peak, |Pending(t)|),
                  if run[0].Succeed? then 0 else if run[0].Count? then dials + 1 else dials);
    }
  }

  /** However the chains overlap, the counter is the number of dials since the last success, and it
      passes the maximum by less than the number of calls that were ever between their check and
      their count at once; so never when no two were. */
  lemma OverlapBoundsAttempts(maxAttempts: int, run: seq<Action>)
    requires Exec(maxAttempts, START, run).Some?
    ensures var s, peak := Exec(maxAttempts, START, run).value, Peak(maxAttempts, START, run, 0);
            && s.attempts == Dials(maxAttempts, START, run, 0)
            && s.attempts <= Max(0, maxAttempts + Max(0, peak - 1))
            && (peak <= 1 ==> s.attempts <= Max(0, maxAttempts))
  {
    assert Pending(START) == {};
    StaysWithin(maxAttempts, START, run, 0, 0);
  }

  /** With no call under way the flag is down, so that the next failure starts a chain. */
  lemma {:induction false} FlagIsDownAtRest(maxAttempts: int, s: Sys, run: seq<Action>, id: nat)
    requires Exec(maxAttempts, s, run).Some? && (s.flag ==> s.calls != map[])
    ensures var t := Exec(maxAttempts, s, run).value;
            t.calls == map[] ==> !t.flag && Enabled(t, Trigger(id))
    decreases |run|
  {
    if run != [] {
      var t := Step(maxAttempts, s, run[0]);
      assert run[0].Trigger? ==> run[0].id in t.calls;
      assert run[0].Fail? || run[0].Succeed? || run[0].Check? || run[0].Count? ==> run[0].id in t.calls;
      FlagIsDownAtRest(maxAttempts, t, run[1..], id);
    }
  }

  predicate Alive(point: Point) {
    point != Ending
  }

  /** Some call is still to dial, or dialling. */
  ghost predicate Trying(s: Sys) {
    exists id :: id in s.calls && Alive(s.calls[id])
  }

  lemma StepKeepsTrying(maxAttempts: int, s: Sys, a: Action)
    requires Enabled(s, a) && !a.Succeed?
    requires Trying(s) || s.attempts >= maxAttempts || a.Trigger?
    ensures var t := Step(maxAttempts, s, a); Trying(t) || t.attempts >= maxAttempts
  {
    var t := Step(maxAttempts, s, a);
    if a.Trigger? || a.Check? || a.Count? {
      assert a.id in t.calls;
    } else if a.Fail? {
      assert s.attempts < maxAttempts ==> a.next in t.calls && Alive(t.calls[a.next]);
    } else if Trying(s) {
      var id :| id in s.calls && Alive(s.calls[id]);
      assert id in t.calls && Alive(t.calls[id]);
    }
  }

  /** Once a failure has started a chain, then until a dial succeeds some call is still trying, or the
      maximum has been reached: reconnection gives up at the maximum only. */
  lemma {:induction false} GivesUpOnlyAtTheMaximum(maxAttempts: int, s: Sys, run: seq<Action>)
    requires Exec(maxAttempts, s, run).Some? && forall i :: 0 <= i < |run| ==> !run[i].Succeed?
    requires Trying(s) || s.attempts >= maxAttempts || (run != [] && run[0].Trigger?)
    ensures var t := Exec(maxAttempts, s, run).value; Trying(t) || t.attempts >= maxAttempts
    decreases |run|
  {
    if run != [] {
      StepKeepsTrying(maxAttempts, s, run[0]);
      assert forall i :: 0 <= i < |run[1..]| ==> run[1..][i] == run[i + 1];
      GivesUpOnlyAtTheMaximum(maxAttempts, Step(maxAttempts, s, run[0]), run[1..]);
    }
  }

  // --- exactly when the maximum holds ---

  /** A check that finds an attempt left although the calls already pending will take it. */
  predicate Overcommits(maxAttempts: int, s: Sys, a: Action) {
    a.Check? && s.attempts < maxAttempts <= s.attempts + |Pending(s)|
  }

  /** While the pending calls fit below the maximum, a step keeps them so exactly when it is no such check. */
  lemma StepKeepsRoomExactly(maxAttempts: int, s: Sys, a: Action)
    requires 0 <= s.attempts && s.attempts + |Pending(s)| <= maxAttempts && Enabled(s, a)
    ensures var t := Step(maxAttempts, s, a);
            t.attempts + |Pending(t)| <= maxAttempts <==> !Overcommits(maxAttempts, s, a)
  {
    PendingAfter(maxAttempts, s, a);
    if a.Check? {
      assert a.id !in Pending(s);
    }
  }

  predicate RoomThroughout(maxAttempts: int, s: Sys, run: seq<Action>)
    requires Exec(maxAttempts, s, run).Some?
    decreases |run|
  {
    s.attempts + |Pending(s)| <= maxAttempts
    && (run == [] || RoomThroughout(maxAttempts, Step(maxAttempts, s, run[0]), run[1..]))
  }

  predicate SomeCheckOvercommits(maxAttempts: int, s: Sys, run: seq<Action>)
    requires Exec(maxAttempts, s, run).Some?
    decreases |run|
  {
    run != []
    && (Overcommits(maxAttempts, s, run[0])
        || SomeCheckOvercommits(maxAttempts, Step(maxAttempts, s, run[0]), run[1..]))
  }

  /** A whole run leaves room for its pending calls in every state exactly when none of its checks overcommits. */
  lemma {:induction false} RoomThroughoutExactly(maxAttempts: int, s: Sys, run: seq<Action>)
    requires 0 <= s.attempts && s.attempts + |Pending(s)| <= maxAttempts && Exec(maxAttempts, s, run).Some?
    ensures RoomThroughout(maxAttempts, s, run) <==> !SomeCheckOvercommits(maxAttempts, s, run)
    decreases |run|
  {
    if run != [] {
      StepKeepsRoomExactly(maxAttempts, s, run[0]);
      if !Overcommits(maxAttempts, s, run[0]) {
        RoomThroughoutExactly(maxAttempts, Step(maxAttempts, s, run[0]), run[1..]);
      }
    }
  }

  predicate OnlyCounts(run: seq<Action>) {
    forall i :: 0 <= i < |run| ==> run[i].Count?
  }

  /** Counts can only use up the pending calls. */
  lemma {:induction false} CountsStayWithin(maxAttempts: int, s: Sys, run: seq<Action>)
    requires OnlyCounts(run) && Exec(maxAttempts, s, run).Some?
    ensures Exec(maxAttempts, s, run).value.attempts <= s.attempts + |Pending(s)|
    decreases |run|
  {
    if run != [] {
      PendingAfter(maxAttempts, s, run[0]);
      assert forall i :: 0 <= i < |run[1..]| ==> run[1..][i] == run[i + 1];
      CountsStayWithin(maxAttempts, Step(maxAttempts, s, run[0]), run[1..]);
    }
  }

  /** All the pending calls count, one after another. */
  lemma {:induction false} AllCount(maxAttempts: int, s: Sys) returns (run: seq<Action>)
    ensures OnlyCounts(run) && Exec(maxAttempts, s, run).Some?
    ensures Exec(maxAttempts, s, run).value.attempts == s.attempts + |Pending(s)|
    decreases |Pending(s)|
  {
    if Pending(s) == {} {
      run := [];
    } else {
      var id :| id in Pending(s);
      PendingAfter(maxAttempts, s, Count(id));
      var rest := AllCount(maxAttempts, Step(maxAttempts, s, Count(id)));
      run := [Count(id)] + rest;
      assert run[1..] == rest;
    }
  }

  /** The calls pending in a state can take the counter past the maximum by counting alone exactly when,
      with them, it is past already. */
  lemma PendingCanPassExactly(maxAttempts: int, s: Sys)
    ensures (exists run :: OnlyCounts(run) && Exec(maxAttempts, s, run).Some?
                           && Exec(maxAttempts, s, run).value.attempts > maxAttempts)
            <==> s.attempts + |Pending(s)| > maxAttempts
  {
    var all := AllCount(maxAttempts, s);
    forall run | OnlyCounts(run) && Exec(maxAttempts, s, run).Some?
      ensures Exec(maxAttempts, s, run).value.attempts <= s.attempts + |Pending(s)|
    {
      CountsStayWithin(maxAttempts, s, run);
    }
  }

  predicate NeverPasses(maxAttempts: int, s: Sys, run: seq<Action>)
    requires Exec(maxAttempts, s, run).Some?
    decreases |run|
  {
    s.attempts <= maxAttempts
    && (run == [] || NeverPasses(maxAttempts, Step(maxAttempts, s, run[0]), run[1..]))
  }

  predicate SomeCountAtMaximum(maxAttempts: int, s: Sys, run: seq<Action>)
    requires Exec(maxAttempts, s, run).Some?
    decreases |run|
  {
    run != []
    && ((run[0].Count? && s.attempts == maxAttempts)
        || SomeCountAtMaximum(maxAttempts, Step(maxAttempts, s, run[0]), run[1..]))
  }

  /** A whole run keeps the counter within the maximum exactly when no count of it finds it there. */
  lemma {:induction false} NeverPassesExactly(maxAttempts: int, s: Sys, run: seq<Action>)
    requires 0 <= maxAttempts && s.attempts <= maxAttempts && Exec(maxAttempts, s, run).Some?
    ensures NeverPasses(maxAttempts, s, run) <==> !SomeCountAtMaximum(maxAttempts, s, run)
    decreases |run|
  {
    if run != [] && !(run[0].Count? && s.attempts == maxAttempts) {
      NeverPassesExactly(maxAttempts, Step(maxAttempts, s, run[0]), run[1..]);
    }
  }

  /** A run that never overcommits never passes the maximum, whatever the pending calls do next. */
  lemma {:induction false} RoomKeepsTheMaximum(maxAttempts: int, s: Sys, run: seq<Action>)
    requires 0 <= s.attempts && s.attempts + |Pending(s)| <= maxAttempts && Exec(maxAttempts, s, run).Some?
    requires !SomeCheckOvercommits(maxAttempts, s, run)
    ensures NeverPasses(maxAttempts, s, run)
    decreases |run|
  {
    if run != [] {
      StepKeepsRoomExactly(maxAttempts, s, run[0]);
      RoomKeepsTheMaximum(maxAttempts, Step(maxAttempts, s, run[0]), run[1..]);
    }
  }

  /** Two chains do pass the maximum: with two attempts allowed, a third is made. */
  lemma TwoChainsPassTheMaximum()
    ensures exists run :: Exec(2, START, run).Some? && Exec(2, START, run).value.attempts == 3
  {
    var first := [Trigger(0), Check(0)] + [Count(0), Fail(0, 1)];
    var second := [Trigger(2), Check(1)] + [Check(2), Count(1)] + [Count(2)];
    FirstChainFails();
    SecondChainOvertakes(Exec(2, START, first).value);
    Runs.Then(Next(2), START, first, second);
    assert Exec(2, START, first + second).value.attempts == 3;
  }

  lemma FirstChainFails()
    ensures Exec(2, START, [Trigger(0), Check(0)] + [Count(0), Fail(0, 1)])
            == Some(Sys(false, 1, map[0 := Ending, 1 := Spawned]))
  {
    var s := Sys(true, 0, map[0 := Checked]);
    Runs.Twice(Next(2), START, Trigger(0), Check(0));
    assert START.calls[0 := Spawned][0 := Checked] == s.calls;
    Runs.Twice(Next(2), s, Count(0), Fail(0, 1));
    assert s.calls[0 := Dialling][0 := Ending][1 := Spawned] == map[0 := Ending, 1 := Spawned];
    Runs.Then(Next(2), START, [Trigger(0), Check(0)], [Count(0), Fail(0, 1)]);
  }

  lemma SecondChainOvertakes(s: Sys)
    requires s == Sys(false, 1, map[0 := Ending, 1 := Spawned])
    ensures Exec(2, s, [Trigger(2), Check(1)] + [Check(2), Count(1)] + [Count(2)]).Some?
    ensures Exec(2, s, [Trigger(2), Check(1)] + [Check(2), Count(1)] + [Count(2)]).value.attempts == 3
  {
    var t := Sys(true, 1, map[0 := Ending, 1 := Checked, 2 := Spawned]);
    Runs.Twice(Next(2), s, Trigger(2), Check(1));
    assert s.calls[2 := Spawned][1 := Checked] == t.calls;
    Runs.Twice(Next(2), t, Check(2), Count(1));
    var u := Step(2, Step(2, t, Check(2)), Count(1));
    Runs.Once(Next(2), u, Count(2));
    Runs.Then(Next(2), s, [Trigger(2), Check(1)], [Check(2), Count(1)]);
    Runs.Then(Next(2), s, [Trigger(2), Check(1)] + [Check(2), Count(1)], [Count(2)]);
  }
}
