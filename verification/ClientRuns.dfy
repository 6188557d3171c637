/** The whole sending side of the client at the granularity the program really has: the breaker's
    atomic loads and lock-held regions (BreakerInterleaving) and the delivery steps (Delivery) in one
    schedule, over any number of SendMessage calls, retries and Clears. */
module ClientRuns {
  import opened Common
  import opened CircuitBreaking
  import Gate = BreakerInterleaving
  import opened Delivery

  datatype State = State(gate: Gate.Sys, delivery: Sys)

  const INITIALLY := State(Gate.START, START)

  /** A step of the breaker, by some SendMessage call, or a step of anything else. */
  datatype Move = Breaker(gate: Gate.Action) | Deliver(delivery: Action)

  /** What a step of the breaker settles for the call that makes it: admitted, refused or returned. */
  function Settles(cfg: Config, g: Gate.Sys, a: Gate.Action): Option<Action>
    requires Gate.Enabled(g, a)
  {
    match a
    case Begin(id) => Verdict(Gate.Step(cfg, g, a), id)
    case CheckTimeout(id, _) => Verdict(Gate.Step(cfg, g, a), id)
    case EnterHalfOpen(id) => Verdict(Gate.Step(cfg, g, a), id)
    case TakeSlot(id) => Verdict(Gate.Step(cfg, g, a), id)
    case LoadForResult(_, _) => None
    case Record(id, _) => Some(Return(id, g.calls[id].failed))
    case ResetBreaker => None
  }

  function Verdict(g: Gate.Sys, id: nat): Option<Action> {
    if id !in g.calls then Some(Send(id, false))
    else if g.calls[id].Running? then Some(Send(id, true))
    else None
  }

  /** A call begins once, and reports when its protected function has returned. */
  predicate Ready(s: State, a: Gate.Action) {
    && Gate.Enabled(s.gate, a)
    && (a.Begin? ==> a.id !in s.delivery.calls)
    && (a.LoadForResult? ==> CallIs(s.delivery, a.id, if a.failed then Noted else Counted))
  }

  predicate CanMove(cfg: Config, p: Queue.Policy, s: State, m: Move) {
    match m
    case Breaker(a) =>
      && Ready(s, a)
      && (Settles(cfg, s.gate, a).Some? ==> Enabled(p, s.delivery, Settles(cfg, s.gate, a).value))
    case Deliver(a) => !a.Send? && !a.Return? && Enabled(p, s.delivery, a)
  }

  function Moved(cfg: Config, p: Queue.Policy, s: State, m: Move): State
    requires CanMove(cfg, p, s, m)
  {
    match m
    case Breaker(a) =>
      State(Gate.Step(cfg, s.gate, a),
            match Settles(cfg, s.gate, a)
            case None => s.delivery
            case Some(d) => Step(p, s.delivery, d))
    case Deliver(a) => s.(delivery := Step(p, s.delivery, a))
  }

  function Run(cfg: Config, p: Queue.Policy, moves: seq<Move>): Option<State> {
    if moves == [] then Some(INITIALLY)
    else
      match Run(cfg, p, moves[..|moves| - 1])
      case None => None
      case Some(s) =>
        var m := moves[|moves| - 1];
        if CanMove(cfg, p, s, m) then Some(Moved(cfg, p, s, m)) else None
  }

  // --- the two halves stay in step ---

  predicate UnderWay(point: CallPoint) {
    point !in {Refused, Sent, Failed}
  }

  /** Where a call stands in the breaker fits where it stands in SendMessage. */
  predicate Fits(d: Sys, id: nat, phase: Gate.Phase) {
    match phase
    case Running(_) => id in d.calls && UnderWay(d.calls[id])
    case Finishing(_, failed, _) => CallIs(d, id, if failed then Noted else Counted)
    case _ => id !in d.calls
  }

  ghost predicate Linked(s: State) {
    && (forall id :: id in s.gate.calls ==> Fits(s.delivery, id, s.gate.calls[id]))
    && (forall id :: id in s.delivery.calls && UnderWay(s.delivery.calls[id]) ==>
          id in s.gate.calls && (s.gate.calls[id].Running? || s.gate.calls[id].Finishing?))
  }

  /** What a step of the breaker settles can always take place: nothing is excluded by asking for it. */
  lemma SettlesWhenReady(cfg: Config, p: Queue.Policy, s: State, a: Gate.Action)
    requires Linked(s) && Ready(s, a)
    ensures CanMove(cfg, p, s, Breaker(a))
  {
  }

  lemma BreakerMoveKeepsLinked(cfg: Config, p: Queue.Policy, s: State, a: Gate.Action)
    requires Linked(s) && CanMove(cfg, p, s, Breaker(a))
    ensures Linked(Moved(cfg, p, s, Breaker(a)))
  {
  }

  /** A step of SendMessage moves one call that is running, and leaves it under way. */
  lemma DeliveryMoveKeepsLinked(cfg: Config, p: Queue.Policy, s: State, a: Action)
    requires Linked(s) && CanMove(cfg, p, s, Deliver(a))
    ensures Linked(Moved(cfg, p, s, Deliver(a)))
  {
    var calls := Step(p, s.delivery, a).calls;
    if ByCaller(a) {
      assert s.gate.calls[a.id].Running?;
      assert calls == s.delivery.calls[a.id := calls[a.id]] && UnderWay(calls[a.id]);
    } else {
      assert calls == s.delivery.calls;
    }
  }

  function GateActions(moves: seq<Move>): seq<Gate.Action> {
    if moves == [] then []
    else
      var m := moves[|moves| - 1];
      GateActions(moves[..|moves| - 1]) + (if m.Breaker? then [m.gate] else [])
  }

  function Actions(cfg: Config, p: Queue.Policy, moves: seq<Move>): seq<Action>
    requires Run(cfg, p, moves).Some?
  {
    if moves == [] then []
    else
      var init := moves[..|moves| - 1];
      Actions(cfg, p, init) + Done(cfg, Run(cfg, p, init).value, moves[|moves| - 1])
  }

  /** The delivery step of a move, if it has one. */
  function Done(cfg: Config, s: State, m: Move): seq<Action>
    requires m.Breaker? ==> Gate.Enabled(s.gate, m.gate)
  {
    match m
    case Deliver(a) => [a]
    case Breaker(a) =>
      match Settles(cfg, s.gate, a)
      case None => []
      case Some(d) => [d]
  }

  lemma DeliveryFollows(cfg: Config, p: Queue.Policy, s: State, m: Move, done: seq<Action>)
    requires CanMove(cfg, p, s, m) && Exec(p, done) == Some(s.delivery)
    ensures Exec(p, done + Done(cfg, s, m)) == Some(Moved(cfg, p, s, m).delivery)
  {
    var more := Done(cfg, s, m);
    if more == [] {
      assert done + more == done;
    } else {
      assert (done + more)[..|done + more| - 1] == done;
    }
  }

  /** Every run of the client is a schedule of the breaker and a schedule of the delivery steps, so
      everything proved of either kind of schedule holds of it. */
  lemma {:induction false} RunsProject(cfg: Config, p: Queue.Policy, moves: seq<Move>)
    requires Run(cfg, p, moves).Some?
    ensures var s := Run(cfg, p, moves).value;
            && Linked(s)
            && Gate.Exec(cfg, GateActions(moves)) == Some(s.gate)
            && Exec(p, Actions(cfg, p, moves)) == Some(s.delivery)
  {
    if moves != [] {
      var init, m := moves[..|moves| - 1], moves[|moves| - 1];
      RunsProject(cfg, p, init);
      var s := Run(cfg, p, init).value;
      DeliveryFollows(cfg, p, s, m, Actions(cfg, p, init));
      match m
      case Breaker(a) =>
        BreakerMoveKeepsLinked(cfg, p, s, a);
        Gate.AndThen(cfg, GateActions(init), s.gate, a);
      case Deliver(a) =>
        DeliveryMoveKeepsLinked(cfg, p, s, a);
        assert GateActions(init) + [] == GateActions(init);
    }
  }

  // --- what the client promises ---

  /** Conservation, at most one hand-over of every message, and at rest everything settled, after any
      interleaving of the client's steps, stale loads of the breaker's state included. */
  lemma ClientDelivers(cfg: Config, p: Queue.Policy, moves: seq<Move>, id: nat)
    requires Run(cfg, p, moves).Some?
    ensures var d := Run(cfg, p, moves).value.delivery;
            Conserved(d) && OnePlace(d) && HandedAtMostOnce(p, d, id) && (AtRest(d) ==> AllSettled(d))
  {
    RunsProject(cfg, p, moves);
    var actions := Actions(cfg, p, moves);
    Conservation(p, actions);
    AtMostOnce(p, actions, id);
    if AtRest(Exec(p, actions).value) {
      AtRestEverythingIsSettled(p, actions);
    }
  }

  /** CanAttempt by one call without interruption. */
  function Attempt(g: Gate.Sys, id: nat, now: int): seq<Move> {
    match g.core.state
    case Closed => [Breaker(Gate.Begin(id))]
    case HalfOpen => [Breaker(Gate.Begin(id)), Breaker(Gate.TakeSlot(id))]
    case Open => [Breaker(Gate.Begin(id)), Breaker(Gate.CheckTimeout(id, now)), Breaker(Gate.EnterHalfOpen(id))]
  }

  lemma OneMore(cfg: Config, p: Queue.Policy, moves: seq<Move>, m: Move)
    requires Run(cfg, p, moves).Some? && CanMove(cfg, p, Run(cfg, p, moves).value, m)
    ensures Run(cfg, p, moves + [m]) == Some(Moved(cfg, p, Run(cfg, p, moves).value, m))
  {
    assert (moves + [m])[..|moves + [m]| - 1] == moves;
  }

  /** When every SendMessage call has returned, none owes the breaker a result. */
  lemma NothingUnderWayNothingDue(s: State)
    requires Linked(s) && forall id :: id in s.delivery.calls ==> !UnderWay(s.delivery.calls[id])
    ensures Gate.Due(s.gate) == {}
  {
    forall id ensures id !in Gate.Due(s.gate) {
      if id in s.gate.calls {
        assert Fits(s.delivery, id, s.gate.calls[id]);
      }
    }
  }

  lemma TwoMore(cfg: Config, p: Queue.Policy, moves: seq<Move>, a: Gate.Action, b: Gate.Action)
    requires Run(cfg, p, moves).Some?
    requires CanMove(cfg, p, Run(cfg, p, moves).value, Breaker(a))
    requires CanMove(cfg, p, Moved(cfg, p, Run(cfg, p, moves).value, Breaker(a)), Breaker(b))
    ensures Run(cfg, p, moves + [Breaker(a), Breaker(b)])
            == Some(Moved(cfg, p, Moved(cfg, p, Run(cfg, p, moves).value, Breaker(a)), Breaker(b)))
  {
    OneMore(cfg, p, moves, Breaker(a));
    OneMore(cfg, p, moves + [Breaker(a)], Breaker(b));
    assert moves + [Breaker(a)] + [Breaker(b)] == moves + [Breaker(a), Breaker(b)];
  }

  /** The client never wedges: after any run, if no call admitted to the current half-open episode still
      owes its result, the next SendMessage to try alone is admitted (from Open, once the timeout has
      passed), whatever loads have gone stale and whatever the retries have been doing. */
  lemma ClientNeverWedges(cfg: Config, p: Queue.Policy, moves: seq<Move>, id: nat, now: int)
    requires cfg.halfOpenRequests >= 1 && Run(cfg, p, moves).Some?
    requires var s := Run(cfg, p, moves).value;
             && id !in s.gate.calls && id !in s.delivery.calls && Gate.Due(s.gate) == {}
             && (s.gate.core.state == Open ==> ShouldReset(cfg, s.gate.core, now))
    ensures var longer := moves + Attempt(Run(cfg, p, moves).value.gate, id, now);
            Run(cfg, p, longer).Some? && CallIs(Run(cfg, p, longer).value.delivery, id, Admitted)
  {
    var s := Run(cfg, p, moves).value;
    RunsProject(cfg, p, moves);
    Gate.NeverWedges(cfg, GateActions(moves), id, now);
    SettlesWhenReady(cfg, p, s, Gate.Begin(id));
    var t := Moved(cfg, p, s, Breaker(Gate.Begin(id)));
    match s.gate.core.state
    case Closed =>
      OneMore(cfg, p, moves, Breaker(Gate.Begin(id)));
    case HalfOpen =>
      BreakerMoveKeepsLinked(cfg, p, s, Gate.Begin(id));
      SettlesWhenReady(cfg, p, t, Gate.TakeSlot(id));
      TwoMore(cfg, p, moves, Gate.Begin(id), Gate.TakeSlot(id));
    case Open =>
      BreakerMoveKeepsLinked(cfg, p, s, Gate.Begin(id));
      SettlesWhenReady(cfg, p, t, Gate.CheckTimeout(id, now));
      TwoMore(cfg, p, moves, Gate.Begin(id), Gate.CheckTimeout(id, now));
      var u := Moved(cfg, p, t, Breaker(Gate.CheckTimeout(id, now)));
      BreakerMoveKeepsLinked(cfg, p, t, Gate.CheckTimeout(id, now));
      SettlesWhenReady(cfg, p, u, Gate.EnterHalfOpen(id));
      OneMore(cfg, p, moves + [Breaker(Gate.Begin(id)), Breaker(Gate.CheckTimeout(id, now))],
              Breaker(Gate.EnterHalfOpen(id)));
      assert moves + [Breaker(Gate.Begin(id)), Breaker(Gate.CheckTimeout(id, now))] + [Breaker(Gate.EnterHalfOpen(id))]
             == moves + Attempt(s.gate, id, now);
  }
}
