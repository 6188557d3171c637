/** internal/services/alert_service.go: price alerts as shared heap objects in a slice that is
    appended to and shifted in place, and the checker that works on a copied snapshot. */
module Alerting {
  import opened Ascii
  import opened Common

  datatype Op = Above | Below | AtLeast | AtMost

  /** "==" and "=" get a message of their own. */
  datatype AddReply = InvalidOperator | UnknownOperator | InvalidValue | Added(index: nat)

  /** The trimmed operator text. */
  function ParseOp(op: string): Option<Op> {
    if op == ">" then Some(Above)
    else if op == "<" then Some(Below)
    else if op == ">=" then Some(AtLeast)
    else if op == "<=" then Some(AtMost)
    else None
  }

  predicate Satisfies(price: real, op: Op, value: real) {
    match op
    case Above => price > value
    case Below => price < value
    case AtLeast => price >= value
    case AtMost => price <= value
  }

  /** What each operator text means. */
  predicate Compares(op: string, price: real, value: real) {
    || (op == ">" && price > value)
    || (op == "<" && price < value)
    || (op == ">=" && price >= value)
    || (op == "<=" && price <= value)
  }

  lemma OperatorsMean(op: string, price: real, value: real)
    ensures ParseOp(op).Some? <==> op in [">", "<", ">=", "<="]
    ensures ParseOp(op).Some? ==> (Satisfies(price, ParseOp(op).value, value) <==> Compares(op, price, value))
  {
  }

  class PriceAlert {
    const symbol: string
    const op: Op
    const value: real
    var triggered: bool

    constructor (symbol: string, op: Op, value: real)
      ensures this.symbol == symbol && this.op == op && this.value == value && !triggered
    {
      this.symbol := symbol;
      this.op := op;
      this.value := value;
      triggered := false;
    }
  }

  class AlertService {
    var data: array<PriceAlert?>   // the slice's backing array
    var len: nat

    ghost predicate Valid()
      reads this, data
    {
      && len <= data.Length
      && (forall i :: 0 <= i < len ==> data[i] != null)
      && Distinct(Alerts())
    }

    ghost function Alerts(): seq<PriceAlert>
      requires len <= data.Length && forall i :: 0 <= i < len ==> data[i] != null
      reads this, data
    {
      seq(len, i requires 0 <= i < len reads this, data requires len <= data.Length && data[i] != null => data[i])
    }

    constructor ()
      ensures Valid() && fresh(data) && Alerts() == []
    {
      data := new PriceAlert?[0];
      len := 0;
    }

    /** value is what parsing the trimmed value text gave. A slice with room left takes the alert in place. */
    method Add(symbol: string, op: string, value: Option<real>) returns (reply: AddReply)
      requires Valid()
      modifies this, data
      ensures Valid() && (data == old(data) || fresh(data))
      ensures reply.Added? <==> ParseOp(TrimSpace(op)).Some? && value.Some?
      ensures reply == InvalidOperator <==> TrimSpace(op) in ["==", "="]
      ensures reply == InvalidValue <==> ParseOp(TrimSpace(op)).Some? && value == None
      ensures !reply.Added? ==> Alerts() == old(Alerts())
      ensures reply.Added? ==>
                && reply.index == |old(Alerts())|
                && |Alerts()| == |old(Alerts())| + 1 && Alerts()[..reply.index] == old(Alerts())
                && var a := Alerts()[reply.index];
                   && fresh(a) && a.symbol == Lowered(TrimSpace(symbol)) && !a.triggered
                   && Some(a.op) == ParseOp(TrimSpace(op)) && Some(a.value) == value
    {
      var trimmed := TrimSpace(op);
      if trimmed == "==" || trimmed == "=" {
        return InvalidOperator;
      }
      if ParseOp(trimmed) == None {
        return UnknownOperator;
      }
      if value == None {
        return InvalidValue;
      }
      var alert := new PriceAlert(Lowered(TrimSpace(symbol)), ParseOp(trimmed).value, value.value);
      Append(alert);
      return Added(len - 1);
    }

    /** Go's append of one alert. */
    method Append(alert: PriceAlert)
      requires Valid() && alert !in Alerts()
      modifies this, data
      ensures Valid() && (data == old(data) || fresh(data))
      ensures len == old(len) + 1 && Alerts() == old(Alerts()) + [alert]
    {
      ghost var before := Alerts();
      if len == data.Length {
        var bigger := new PriceAlert?[2 * len + 1];
        for i := 0 to len
          modifies bigger
          invariant forall j :: 0 <= j < i ==> bigger[j] == data[j]
        {
          bigger[i] := data[i];
        }
        data := bigger;
      }
      data[len] := alert;
      len := len + 1;
      assert Alerts() == before + [alert];
    }

    /** Shifts the tail down in the same backing array: the others keep their order and identity. */
    method Remove(index: int) returns (removed: bool)
      requires Valid()
      modifies this`len, data
      ensures Valid() && data == old(data)
      ensures removed <==> 0 <= index < |old(Alerts())|
      ensures Alerts() == if removed then old(Alerts())[..index] + old(Alerts())[index + 1..] else old(Alerts())
    {
      if index < 0 || index >= len {
        return false;
      }
      ghost var before := Alerts();
      for i := index to len - 1
        modifies data
        invariant forall j :: 0 <= j < index ==> data[j] == before[j]
        invariant forall j :: index <= j < i ==> data[j] == before[j + 1]
        invariant forall j :: i <= j < len ==> data[j] == before[j]
      {
        assert data[i + 1] == before[i + 1];
        data[i] := data[i + 1];
      }
      len := len - 1;
      assert Alerts() == before[..index] + before[index + 1..];
      return true;
    }

    method Clear()
      requires Valid()
      modifies this
      ensures Valid() && fresh(data) && Alerts() == []
    {
      data := new PriceAlert?[0];
      len := 0;
    }

    /** The locked first half of checkAlerts: a copy in an array of its own, which no method of the
        service may write. */
    method Snapshot() returns (copied: array<PriceAlert?>)
      requires Valid()
      ensures fresh(copied) && copied != data && copied.Length == |Alerts()|
      ensures forall i :: 0 <= i < copied.Length ==> copied[i] == Alerts()[i]
    {
      copied := new PriceAlert?[len];
      for i := 0 to len
        modifies copied
        invariant forall j :: 0 <= j < i ==> copied[j] == data[j]
      {
        copied[i] := data[i];
      }
    }

    /** One pass run without interruption. price(i) is what looking up the i-th alert's price gave. */
    method CheckAlerts(price: nat -> Option<real>)
      requires Valid()
      modifies set a | a in Alerts()
      ensures Valid() && Alerts() == old(Alerts())
      ensures forall i :: 0 <= i < |Alerts()| ==>
                var a := Alerts()[i];
                a.triggered == (old(a.triggered) || (price(i).Some? && Satisfies(price(i).value, a.op, a.value)))
    {
      var snapshot := Snapshot();
      ghost var all := Alerts();
      for i := 0 to snapshot.Length
        modifies set a | a in all
        invariant forall j :: 0 <= j < i ==>
                    all[j].triggered ==
                      (old(all[j].triggered)
                       || (price(j).Some? && Satisfies(price(j).value, all[j].op, all[j].value)))
        invariant forall j :: i <= j < |all| ==> all[j].triggered == old(all[j].triggered)
        invariant forall j :: 0 <= j < |all| ==> snapshot[j] == all[j]
      {
        var a := snapshot[i];
        assert a == all[i] && a in all;
        if !a.triggered && price(i).Some? && Satisfies(price(i).value, a.op, a.value) {
          a.triggered := true;
        }
      }
    }
  }

  /** An alert added with one of the four operators is triggered by the next pass exactly when its price
      is found and compares to its value as the operator says. */
  method AddedAlertFires(s: AlertService, symbol: string, op: string, value: Option<real>, price: nat -> Option<real>)
    returns (reply: AddReply)
    requires s.Valid()
    modifies s, s.data, set a | a in s.Alerts()
    ensures s.Valid() && (reply.Added? <==> TrimSpace(op) in [">", "<", ">=", "<="] && value.Some?)
    ensures reply.Added? ==>
              && reply.index < |s.Alerts()|
              && var p := price(reply.index);
                 s.Alerts()[reply.index].triggered <==> p.Some? && Compares(TrimSpace(op), p.value, value.value)
  {
    reply := s.Add(symbol, op, value);
    OperatorsMean(TrimSpace(op), 0.0, 0.0);
    if reply.Added? {
      var p := price(reply.index);
      if p.Some? {
        OperatorsMean(TrimSpace(op), p.value, value.value);
      }
      s.CheckAlerts(price);
    }
  }

  datatype Change = AddAlert(symbol: string, op: string, value: Option<real>) | RemoveAt(index: int) | ClearAll

  /** A pass under way is not disturbed: after any list of additions, in-place removals and
      clearings, the snapshot still holds what the slice held when it was taken. */
  method PassSurvivesChanges(s: AlertService, changes: seq<Change>) returns (snapshot: array<PriceAlert?>)
    requires s.Valid()
    modifies s, s.data
    ensures s.Valid() && snapshot.Length == |old(s.Alerts())|
    ensures forall i :: 0 <= i < snapshot.Length ==> snapshot[i] == old(s.Alerts())[i]
  {
    snapshot := s.Snapshot();
    ghost var first := s.data;
    for k := 0 to |changes|
      invariant s.Valid() && s.data != snapshot && (s.data == first || fresh(s.data))
      invariant forall i :: 0 <= i < snapshot.Length ==> snapshot[i] == old(s.Alerts())[i]
    {
      match changes[k]
      case AddAlert(symbol, op, value) =>
        var reply := s.Add(symbol, op, value);
      case RemoveAt(index) =>
        var removed := s.Remove(index);
      case ClearAll =>
        s.Clear();
    }
  }
}

/** Any interleaving of Add, Remove, Clear and checker passes. An alert is known by a number. */
module AlertRuns {
  import opened Ascii
  import opened Common
  import opened Alerting
  import Runs

  datatype Alert = Alert(op: Op, value: real)

  /** A checker is at snapshot[next]; looked says it has read that alert's flag as false. */
  datatype Pass = Pass(snapshot: seq<nat>, next: nat, looked: bool)

  datatype Firing = Firing(id: nat, price: real)

  datatype Sys = Sys(
    made: seq<Alert>,         // every alert ever added; its index is its number
    alerts: seq<nat>,         // the slice
    triggered: set<nat>,
    passes: map<nat, Pass>,   // by checker
    firings: seq<Firing>)

  const START := Sys([], [], {}, map[], [])

  datatype Action =
    | Add(alert: Alert)
    | Remove(index: int)
    | Clear
    | StartPass(checker: nat)
    | Look(checker: nat)                         // reads Triggered, skips if it is set
    | Price(checker: nat, price: Option<real>)   // the look-up, and setting Triggered
    | EndPass(checker: nat)

  predicate At(s: Sys, checker: nat, looked: bool) {
    && checker in s.passes
    && s.passes[checker].next < |s.passes[checker].snapshot|
    && s.passes[checker].looked == looked
  }

  predicate Enabled(s: Sys, a: Action) {
    match a
    case StartPass(checker) => checker !in s.passes
    case Look(checker) => At(s, checker, false)
    case Price(checker, _) => At(s, checker, true)
    case EndPass(checker) => checker in s.passes && s.passes[checker].next >= |s.passes[checker].snapshot|
    case _ => true
  }

  function Step(s: Sys, a: Action): Sys
    requires Enabled(s, a)
  {
    match a
    case Add(alert) => s.(made := s.made + [alert], alerts := s.alerts + [|s.made|])
    case Remove(index) =>
      if 0 <= index < |s.alerts| then s.(alerts := s.alerts[..index] + s.alerts[index + 1..]) else s
    case Clear => s.(alerts := [])
    case StartPass(checker) => s.(passes := s.passes[checker := Pass(s.alerts, 0, false)])
    case Look(checker) =>
      var p := s.passes[checker];
      var skip := p.snapshot[p.next] in s.triggered;
      s.(passes := s.passes[checker := if skip then p.(next := p.next + 1) else p.(looked := true)])
    case Price(checker, price) =>
      var p := s.passes[checker];
      var id := p.snapshot[p.next];
      var t := s.(passes := s.passes[checker := p.(next := p.next + 1, looked := false)]);
      if id < |s.made| && price.Some? && Satisfies(price.value, s.made[id].op, s.made[id].value)
      then t.(triggered := s.triggered + {id}, firings := s.firings + [Firing(id, price.value)])
      else t
    case EndPass(checker) => s.(passes := s.passes - {checker})
  }

  function Next(): (Sys, Action) -> Option<Sys> {
    (s: Sys, a: Action) => if Enabled(s, a) then Some(Step(s, a)) else None
  }

  function Exec(s: Sys, run: seq<Action>): Option<Sys> {
    Runs.Exec(Next(), s, run)
  }

  ghost predicate Made(s: Sys, ids: seq<nat>) {
    Distinct(ids) && forall i :: 0 <= i < |ids| ==> ids[i] < |s.made|
  }

  /** Every firing was at a price satisfying its alert's operator, and set its flag. */
  ghost predicate Justified(s: Sys) {
    && (forall i :: 0 <= i < |s.firings| ==>
          && s.firings[i].id in s.triggered && s.firings[i].id < |s.made|
          && Satisfies(s.firings[i].price, s.made[s.firings[i].id].op, s.made[s.firings[i].id].value))
    && Made(s, s.alerts)
    && (forall c :: c in s.passes ==> Made(s, s.passes[c].snapshot))
  }

  ghost predicate NoAlertTwice(firings: seq<Firing>) {
    forall i, j :: 0 <= i < j < |firings| ==> firings[i].id != firings[j].id
  }

  /** Nothing has fired twice, and nothing a checker is about to fire has fired. */
  ghost predicate FiredOnce(s: Sys) {
    && NoAlertTwice(s.firings)
    && (forall c :: c in s.passes && At(s, c, true) ==> s.passes[c].snapshot[s.passes[c].next] !in s.triggered)
  }

  lemma StepJustified(s: Sys, a: Action)
    requires Justified(s) && Enabled(s, a)
    ensures Justified(Step(s, a)) && s.triggered <= Step(s, a).triggered && s.firings <= Step(s, a).firings
  {
    var t := Step(s, a);
    assert s.made <= t.made;
  }

  /** Whatever the interleaving and however many checkers: a triggered flag never reverts, and every
      firing is at a price that satisfies the alert's operator. */
  lemma {:induction false} FiringsAreJustified(s: Sys, run: seq<Action>)
    requires Justified(s) && Exec(s, run).Some?
    ensures var t := Exec(s, run).value;
            Justified(t) && s.triggered <= t.triggered && s.firings <= t.firings
    decreases |run|
  {
    if run != [] {
      StepJustified(s, run[0]);
      FiringsAreJustified(Step(s, run[0]), run[1..]);
    }
  }

  predicate ByChecker(a: Action) {
    a.StartPass? || a.Look? || a.Price? || a.EndPass?
  }

  /** All the checker actions of the run are by these checkers. */
  predicate By(run: seq<Action>, checkers: set<nat>) {
    forall i :: 0 <= i < |run| && ByChecker(run[i]) ==> run[i].checker in checkers
  }

  /** With one checker, as the program starts it, each alert fires at most once. */
  lemma {:induction false} OneCheckerFiresOnce(s: Sys, run: seq<Action>, checker: nat)
    requires Justified(s) && FiredOnce(s) && s.passes.Keys <= {checker}
    requires By(run, {checker}) && Exec(s, run).Some?
    ensures FiredOnce(Exec(s, run).value)
    decreases |run|
  {
    if run != [] {
      StepJustified(s, run[0]);
      StepFiresOnce(s, run[0], checker);
      assert forall i :: 0 <= i < |run[1..]| ==> run[1..][i] == run[i + 1];
      OneCheckerFiresOnce(Step(s, run[0]), run[1..], checker);
    }
  }

  lemma StepFiresOnce(s: Sys, a: Action, checker: nat)
    requires Justified(s) && FiredOnce(s) && s.passes.Keys <= {checker} && Enabled(s, a)
    requires ByChecker(a) ==> a.checker == checker
    ensures FiredOnce(Step(s, a)) && Step(s, a).passes.Keys <= {checker}
  {
  }

  lemma RunsFromStart(run: seq<Action>, checker: nat)
    requires By(run, {checker}) && Exec(START, run).Some?
    ensures FiredOnce(Exec(START, run).value) && Justified(Exec(START, run).value)
  {
    FiringsAreJustified(START, run);
    OneCheckerFiresOnce(START, run, checker);
  }

  const ABOVE_ONE := Alert(Above, 1.0)

  /** Checkers c and d have both started a pass over one alert. */
  function BothStarted(c: nat, d: nat): seq<Action> {
    [Add(ABOVE_ONE), StartPass(c)] + [StartPass(d), Look(c)]
  }

  lemma BothStart(c: nat, d: nat)
    requires c != d
    ensures Exec(START, BothStarted(c, d))
            == Some(Sys([ABOVE_ONE], [0], {}, map[c := Pass([0], 0, true), d := Pass([0], 0, false)], []))
  {
    var s := Sys([ABOVE_ONE], [0], {}, map[c := Pass([0], 0, false)], []);
    Runs.Twice(Next(), START, Add(ABOVE_ONE), StartPass(c));
    assert Step(Step(START, Add(ABOVE_ONE)), StartPass(c)) == s by {
      assert START.made + [ABOVE_ONE] == [ABOVE_ONE] && START.alerts + [0] == [0];
    }
    Runs.Twice(Next(), s, StartPass(d), Look(c));
    assert s.passes[d := Pass([0], 0, false)][c := Pass([0], 0, true)]
           == map[c := Pass([0], 0, true), d := Pass([0], 0, false)];
    assert Exec(START, [Add(ABOVE_ONE), StartPass(c)]) == Some(s);
    Runs.Then(Next(), START, [Add(ABOVE_ONE), StartPass(c)], [StartPass(d), Look(c)]);
  }

  lemma BothFire(s: Sys, c: nat, d: nat)
    requires c != d
    requires s == Sys([ABOVE_ONE], [0], {}, map[c := Pass([0], 0, true), d := Pass([0], 0, false)], [])
    ensures var rest := [Look(d), Price(c, Some(2.0))] + [Price(d, Some(2.0))];
            && Exec(s, rest).Some?
            && Exec(s, rest).value.firings == [Firing(0, 2.0), Firing(0, 2.0)]
  {
    Runs.Twice(Next(), s, Look(d), Price(c, Some(2.0)));
    var t := Step(Step(s, Look(d)), Price(c, Some(2.0)));
    assert t.firings == [Firing(0, 2.0)];
    Runs.Once(Next(), t, Price(d, Some(2.0)));
    Runs.Then(Next(), s, [Look(d), Price(c, Some(2.0))], [Price(d, Some(2.0))]);
    assert [Firing(0, 2.0)] + [Firing(0, 2.0)] == [Firing(0, 2.0), Firing(0, 2.0)];
  }

  /** Two checkers can fire the same alert: both read the flag before either sets it. */
  lemma TwoCheckersFireTwice(c: nat, d: nat) returns (run: seq<Action>)
    requires c != d
    ensures By(run, {c, d}) && Exec(START, run).Some?
    ensures Exec(START, run).value.firings == [Firing(0, 2.0), Firing(0, 2.0)]
  {
    var rest := [Look(d), Price(c, Some(2.0))] + [Price(d, Some(2.0))];
    BothStart(c, d);
    BothFire(Exec(START, BothStarted(c, d)).value, c, d);
    Runs.Then(Next(), START, BothStarted(c, d), rest);
    run := BothStarted(c, d) + rest;
  }

  /** Given its checkers, a service fires every alert at most once in every run exactly when there is
      at most one of them. */
  lemma FiresOnceExactly(checkers: set<nat>)
    ensures (forall run :: By(run, checkers) && Exec(START, run).Some? ==> NoAlertTwice(Exec(START, run).value.firings))
            <==> |checkers| <= 1
  {
    if |checkers| <= 1 {
      var checker := Only(checkers);
      forall run | By(run, checkers) && Exec(START, run).Some? ensures NoAlertTwice(Exec(START, run).value.firings) {
        RunsFromStart(run, checker);
      }
    } else {
      var c :| c in checkers;
      assert |checkers - {c}| > 0;
      var d :| d in checkers - {c};
      var run := TwoCheckersFireTwice(c, d);
      var firings := Exec(START, run).value.firings;
      assert By(run, checkers) && firings[0].id == firings[1].id;
    }
  }

  lemma Only(checkers: set<nat>) returns (checker: nat)
    requires |checkers| <= 1
    ensures checkers <= {checker}
  {
    checker := 0;
    if checkers != {} {
      checker :| checker in checkers;
      assert |checkers - {checker}| == 0;
    }
  }

  // --- the heap methods are these steps ---

  /** made lists every alert object ever added, in the order of the model's numbers. */
  ghost predicate Represents(service: AlertService, made: seq<PriceAlert>, s: Sys)
    reads service, service.data, made
  {
    && service.Valid() && Distinct(made) && |made| == |s.made|
    && (forall i :: 0 <= i < |made| ==>
          made[i].op == s.made[i].op && made[i].value == s.made[i].value && (made[i].triggered <==> i in s.triggered))
    && |service.Alerts()| == |s.alerts|
    && (forall i :: 0 <= i < |s.alerts| ==> s.alerts[i] < |made| && service.Alerts()[i] == made[s.alerts[i]])
    && (forall id :: id in s.triggered ==> id < |made|)
  }

  function Changed(s: Sys, c: Change): Sys {
    match c
    case AddAlert(_, op, value) =>
      var parsed := ParseOp(TrimSpace(op));
      if parsed.Some? && value.Some? then Step(s, Add(Alert(parsed.value, value.value))) else s
    case RemoveAt(index) => Step(s, Remove(index))
    case ClearAll => Step(s, Clear)
  }

  method PerformAdd(service: AlertService, symbol: string, op: string, value: Option<real>,
                    ghost made: seq<PriceAlert>, ghost s: Sys)
    returns (ghost madeAfter: seq<PriceAlert>)
    requires Represents(service, made, s)
    modifies service, service.data
    ensures Represents(service, madeAfter, Changed(s, AddAlert(symbol, op, value))) && made <= madeAfter
    ensures service.data == old(service.data) || fresh(service.data)
  {
    var reply := service.Add(symbol, op, value);
    madeAfter := made;
    if reply.Added? {
      ghost var added := service.Alerts()[reply.index];
      madeAfter := made + [added];
      assert added !in made && forall i :: 0 <= i < |made| ==> madeAfter[i] == made[i];
    }
  }

  /** Add, Remove and Clear on the heap are the model's steps. */
  method Perform(service: AlertService, c: Change, ghost made: seq<PriceAlert>, ghost s: Sys)
    returns (ghost madeAfter: seq<PriceAlert>)
    requires Represents(service, made, s)
    modifies service, service.data
    ensures Represents(service, madeAfter, Changed(s, c)) && made <= madeAfter
  {
    match c
    case AddAlert(symbol, op, value) =>
      madeAfter := PerformAdd(service, symbol, op, value, made, s);
    case RemoveAt(index) =>
      var removed := service.Remove(index);
      madeAfter := made;
    case ClearAll =>
      service.Clear();
      madeAfter := made;
  }

  /** A checker's turn at one alert. */
  function Turn(s: Sys, checker: nat, price: Option<real>): (t: Sys)
    requires At(s, checker, false)
    ensures t.made == s.made && t.alerts == s.alerts
    ensures t.passes == s.passes[checker := s.passes[checker].(next := s.passes[checker].next + 1)]
    ensures t.triggered == s.triggered + Struck(s.made, s.passes[checker].snapshot[s.passes[checker].next], price)
  {
    var t := Step(s, Look(checker));
    if At(t, checker, true) then Step(t, Price(checker, price)) else t
  }

  predicate Fires(made: seq<Alert>, id: nat, price: Option<real>) {
    id < |made| && price.Some? && Satisfies(price.value, made[id].op, made[id].value)
  }

  function Struck(made: seq<Alert>, id: nat, price: Option<real>): set<nat> {
    if Fires(made, id, price) then {id} else {}
  }

  /** A pass run without interruption, up to its k-th turn. */
  function Turns(s: Sys, checker: nat, price: nat -> Option<real>, k: nat): (t: Sys)
    requires checker !in s.passes && k <= |s.alerts|
    ensures t.made == s.made && t.alerts == s.alerts
    ensures t.passes == s.passes[checker := Pass(s.alerts, k, false)]
    ensures t.triggered == TriggeredAfter(s, price, k)
  {
    if k == 0 then Step(s, StartPass(checker)) else Turn(Turns(s, checker, price, k - 1), checker, price(k - 1))
  }

  function PassAlone(s: Sys, checker: nat, price: nat -> Option<real>): Sys
    requires checker !in s.passes
  {
    Step(Turns(s, checker, price, |s.alerts|), EndPass(checker))
  }

  /** Does one of the first k turns find the alert's price satisfied? */
  ghost predicate FiresWithin(s: Sys, price: nat -> Option<real>, k: nat, id: nat)
    requires k <= |s.alerts|
  {
    exists j {:trigger s.alerts[j]} :: 0 <= j < k && s.alerts[j] == id && Fires(s.made, id, price(j))
  }

  lemma FiresWithinNext(s: Sys, price: nat -> Option<real>, k: nat, id: nat)
    requires 0 < k <= |s.alerts|
    ensures FiresWithin(s, price, k, id)
            <==> FiresWithin(s, price, k - 1, id) || (s.alerts[k - 1] == id && Fires(s.made, id, price(k - 1)))
  {
  }

  /** The flags up after k turns. */
  function TriggeredAfter(s: Sys, price: nat -> Option<real>, k: nat): set<nat>
    requires k <= |s.alerts|
  {
    if k == 0 then s.triggered
    else TriggeredAfter(s, price, k - 1)
         + Struck(s.made, s.alerts[k - 1], price(k - 1))
  }

  lemma {:induction false} FlagsSet(s: Sys, price: nat -> Option<real>, k: nat, id: nat)
    requires k <= |s.alerts|
    ensures id in TriggeredAfter(s, price, k) <==> id in s.triggered || FiresWithin(s, price, k, id)
  {
    if k > 0 {
      FlagsSet(s, price, k - 1, id);
      FiresWithinNext(s, price, k, id);
    }
  }

  /** A whole pass on the heap is the model's pass run without interruption. */
  method CheckAlone(service: AlertService, price: nat -> Option<real>, ghost checker: nat,
                    ghost made: seq<PriceAlert>, ghost s: Sys)
    requires Represents(service, made, s) && checker !in s.passes
    modifies set a | a in service.Alerts()
    ensures Represents(service, made, PassAlone(s, checker, price))
  {
    ghost var before := service.Alerts();
    service.CheckAlerts(price);
    ghost var t := PassAlone(s, checker, price);
    forall id | 0 <= id < |made| ensures made[id].triggered <==> id in t.triggered {
      FlagsSet(s, price, |s.alerts|, id);
      if made[id] in before {
        var j :| 0 <= j < |before| && before[j] == made[id];
        assert s.alerts[j] == id;
      }
    }
    forall id | id in t.triggered ensures id < |made| {
      FlagsSet(s, price, |s.alerts|, id);
    }
  }
}
