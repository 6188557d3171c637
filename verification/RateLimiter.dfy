/** coordinator.go: the sliding-window rate limiter of the task coordinator. */
module RateLimiting {
  import opened Common

  const MINUTE: int := 60 * SECOND

  datatype Limiter = Limiter(limit: int, timestamps: seq<int>)

  /** The elements of ts after t, in order. */
  function AfterTime(ts: seq<int>, t: int): seq<int> {
    if ts == [] then []
    else AfterTime(ts[..|ts| - 1], t) + (if ts[|ts| - 1] > t then [ts[|ts| - 1]] else [])
  }

  /** checkRateLimit: the new state and the verdict. */
  function Checked(l: Limiter, now: int): (Limiter, bool) {
    if l.limit == 0 then (l, true)
    else
      var valid := AfterTime(l.timestamps, now - MINUTE);
      if |valid| >= l.limit then (l.(timestamps := valid), false)
      else (l.(timestamps := valid + [now]), true)
  }

  class TaskCoordinator {
    var rateLimitPerMin: int
    var requestTimestamps: seq<int>

    function Value(): Limiter
      reads this
    {
      Limiter(rateLimitPerMin, requestTimestamps)
    }

    constructor ()
      ensures Value() == Limiter(0, [])
    {
      rateLimitPerMin := 0;
      requestTimestamps := [];
    }

    method SetRateLimit(tasksPerMinute: int)
      modifies this
      ensures Value() == old(Value()).(limit := tasksPerMinute)
    {
      rateLimitPerMin := tasksPerMinute;
    }

    method CheckRateLimit(now: int) returns (allowed: bool)
      modifies this
      ensures (Value(), allowed) == Checked(old(Value()), now)
    {
      if rateLimitPerMin == 0 {
        return true;
      }
      var oneMinuteAgo := now - MINUTE;
      var timestamps := requestTimestamps;
      var validTimestamps: seq<int> := [];
      for i := 0 to |timestamps|
        modifies {}
        invariant validTimestamps == AfterTime(timestamps[..i], oneMinuteAgo)
      {
        assert timestamps[..i + 1][..i] == timestamps[..i];
        if timestamps[i] > oneMinuteAgo {
          validTimestamps := validTimestamps + [timestamps[i]];
        }
      }
      assert timestamps[..|timestamps|] == timestamps;
      requestTimestamps := validTimestamps;
      if |requestTimestamps| >= rateLimitPerMin {
        return false;
      }
      requestTimestamps := requestTimestamps + [now];
      return true;
    }
  }

  // --- runs ---

  datatype Event = SetLimit(limit: int) | Check(now: int)

  /** A request accepted while a limit was in force, and that limit. */
  datatype Acceptance = Acceptance(at: int, limit: int)

  function After(run: seq<Event>): Limiter {
    if run == [] then Limiter(0, [])
    else
      var l := After(run[..|run| - 1]);
      match run[|run| - 1]
      case SetLimit(limit) => l.(limit := limit)
      case Check(now) => Checked(l, now).0
  }

  /** The history after one check: a metered acceptance is added to it. */
  function Recorded(l: Limiter, h: seq<Acceptance>, now: int): seq<Acceptance> {
    if l.limit != 0 && Checked(l, now).1 then h + [Acceptance(now, l.limit)] else h
  }

  /** Every metered acceptance of the run: the full history, never pruned. */
  function History(run: seq<Event>): seq<Acceptance> {
    if run == [] then []
    else
      var l, h := After(run[..|run| - 1]), History(run[..|run| - 1]);
      match run[|run| - 1]
      case SetLimit(_) => h
      case Check(now) => Recorded(l, h, now)
  }

  function Times(h: seq<Acceptance>): seq<int> {
    seq(|h|, i requires 0 <= i < |h| => h[i].at)
  }

  /** The clock of the run never goes back and now is not before any of its readings. */
  ghost predicate Ordered(run: seq<Event>, now: int) {
    && (forall i, j :: 0 <= i < j < |run| && run[i].Check? && run[j].Check? ==> run[i].now <= run[j].now)
    && (forall i :: 0 <= i < |run| && run[i].Check? ==> run[i].now <= now)
  }

  lemma {:induction false} AfterTimeTwice(ts: seq<int>, s: int, t: int)
    requires s <= t
    ensures AfterTime(AfterTime(ts, s), t) == AfterTime(ts, t)
  {
    if ts != [] {
      var init, last := ts[..|ts| - 1], ts[|ts| - 1];
      AfterTimeTwice(init, s, t);
      if last > s {
        AfterTimeAppend(AfterTime(init, s), last, t);
      } else {
        assert AfterTime(ts, s) == AfterTime(init, s);
        assert AfterTime(ts, t) == AfterTime(init, t);
      }
    }
  }

  lemma AfterTimeAppend(ts: seq<int>, x: int, t: int)
    ensures AfterTime(ts + [x], t) == AfterTime(ts, t) + (if x > t then [x] else [])
  {
    assert (ts + [x])[..|ts + [x]| - 1] == ts;
  }

  lemma TimesAppend(h: seq<Acceptance>, a: Acceptance)
    ensures Times(h + [a]) == Times(h) + [a.at]
  {
  }

  lemma {:induction false} HistoryInOrder(run: seq<Event>, now: int)
    requires Ordered(run, now)
    ensures forall i :: 0 <= i < |History(run)| ==> History(run)[i].at <= now
    ensures forall i, j :: 0 <= i < j < |History(run)| ==> History(run)[i].at <= History(run)[j].at
  {
    if run != [] {
      var init, e := run[..|run| - 1], run[|run| - 1];
      HistoryInOrder(init, if e.Check? then e.now else now);
    }
  }

  lemma CheckKeepsRefinement(l: Limiter, h: seq<Acceptance>, t: int, now: int)
    requires t <= now && l.limit != 0
    requires AfterTime(l.timestamps, now - MINUTE) == AfterTime(Times(h), now - MINUTE)
    ensures var (after, allowed) := Checked(l, t);
            var h' := if allowed then h + [Acceptance(t, l.limit)] else h;
            AfterTime(after.timestamps, now - MINUTE) == AfterTime(Times(h'), now - MINUTE)
  {
    AfterTimeTwice(l.timestamps, t - MINUTE, now - MINUTE);
    AfterTimeAppend(AfterTime(l.timestamps, t - MINUTE), t, now - MINUTE);
    TimesAppend(h, Acceptance(t, l.limit));
    AfterTimeAppend(Times(h), t, now - MINUTE);
  }

  /** The pruned list stands for the full history: for any later reading of the clock they agree
      on the last minute. */
  lemma {:induction false} PrunedListRefinesHistory(run: seq<Event>, now: int)
    requires Ordered(run, now)
    ensures AfterTime(After(run).timestamps, now - MINUTE) == AfterTime(Times(History(run)), now - MINUTE)
  {
    if run != [] {
      var init, e := run[..|run| - 1], run[|run| - 1];
      PrunedListRefinesHistory(init, now);
      if e.Check? && After(init).limit != 0 {
        CheckKeepsRefinement(After(init), History(init), e.now, now);
      }
    }
  }

  /** Right after a metered check the stored list is exactly the history of the last minute. */
  lemma PrunedListIsLastMinute(run: seq<Event>, now: int)
    requires Ordered(run, now) && After(run).limit != 0
    ensures var run' := run + [Check(now)];
            After(run').timestamps == AfterTime(Times(History(run')), now - MINUTE)
  {
    var run' := run + [Check(now)];
    assert run'[..|run'| - 1] == run;
    PrunedListRefinesHistory(run, now);
    AfterTimeAppend(Times(History(run)), now, now - MINUTE);
    TimesAppend(History(run), Acceptance(now, After(run).limit));
  }

  /** A request is refused exactly when a limit is in force and the full history of the last
      minute already holds that many acceptances. */
  lemma RefusedExactly(run: seq<Event>, now: int)
    requires Ordered(run, now)
    ensures !Checked(After(run), now).1
            <==> After(run).limit != 0 && |AfterTime(Times(History(run)), now - MINUTE)| >= After(run).limit
  {
    PrunedListRefinesHistory(run, now);
  }

  /** The number of acceptances among the first n of h that fall after t. */
  function CountAfter(h: seq<Acceptance>, n: nat, t: int): nat
    requires n <= |h|
  {
    if n == 0 then 0 else CountAfter(h, n - 1, t) + (if h[n - 1].at > t then 1 else 0)
  }

  lemma {:induction false} CountAfterIsLength(h: seq<Acceptance>, n: nat, t: int)
    requires n <= |h|
    ensures CountAfter(h, n, t) == |AfterTime(Times(h[..n]), t)|
  {
    if n > 0 {
      CountAfterIsLength(h, n - 1, t);
      assert h[..n] == h[..n - 1] + [h[n - 1]];
      TimesAppend(h[..n - 1], h[n - 1]);
      AfterTimeAppend(Times(h[..n - 1]), h[n - 1].at, t);
    }
  }

  /** The same, with the acceptances of the last minute counted one by one. */
  lemma RefusedByCount(run: seq<Event>, now: int)
    requires Ordered(run, now)
    ensures !Checked(After(run), now).1
            <==> After(run).limit != 0
                 && CountAfter(History(run), |History(run)|, now - 60 * SECOND) >= After(run).limit
  {
    var h := History(run);
    RefusedExactly(run, now);
    CountAfterIsLength(h, |h|, now - MINUTE);
    assert h[..|h|] == h;
  }

  function LaterThan(t: int): int -> bool {
    (x: int) => x > t
  }

  /** Pruning keeps the later elements, all of them and in their order. */
  lemma {:induction false} AfterTimeInOrder(ts: seq<int>, t: int) returns (at: seq<nat>)
    ensures Selects(AfterTime(ts, t), ts, LaterThan(t), at)
  {
    at := [];
    if ts != [] {
      var init, last := ts[..|ts| - 1], ts[|ts| - 1];
      at := AfterTimeInOrder(init, t);
      SelectsNext(AfterTime(init, t), init, LaterThan(t), at, last);
      assert init + [last] == ts;
      at := at + (if LaterThan(t)(last) then [|init|] else []);
    }
  }

  lemma {:induction false} CountAfterPrefix(h: seq<Acceptance>, a: Acceptance, n: nat, t: int)
    requires n <= |h|
    ensures CountAfter(h + [a], n, t) == CountAfter(h, n, t)
  {
    if n > 0 {
      CountAfterPrefix(h, a, n - 1, t);
    }
  }

  /** At every acceptance, the minute ending there holds at most the limit then in force. */
  ghost predicate WithinLimits(h: seq<Acceptance>) {
    forall j :: 0 <= j < |h| ==> CountAfter(h, j + 1, h[j].at - MINUTE) <= h[j].limit
  }

  lemma WithinLimitsAppend(h: seq<Acceptance>, a: Acceptance)
    requires WithinLimits(h) && CountAfter(h + [a], |h| + 1, a.at - MINUTE) <= a.limit
    ensures WithinLimits(h + [a])
  {
    forall j | 0 <= j < |h| + 1
      ensures CountAfter(h + [a], j + 1, (h + [a])[j].at - MINUTE) <= (h + [a])[j].limit
    {
      if j < |h| {
        CountAfterPrefix(h, a, j + 1, h[j].at - MINUTE);
      }
    }
  }

  lemma AcceptedWithinLimit(l: Limiter, h: seq<Acceptance>, now: int)
    requires AfterTime(l.timestamps, now - MINUTE) == AfterTime(Times(h), now - MINUTE)
    requires l.limit != 0 && Checked(l, now).1
    ensures CountAfter(h + [Acceptance(now, l.limit)], |h| + 1, now - MINUTE) <= l.limit
  {
    CountAfterIsLength(h, |h|, now - MINUTE);
    assert h[..|h|] == h;
    CountAfterPrefix(h, Acceptance(now, l.limit), |h|, now - MINUTE);
  }

  lemma RecordedWithinLimits(l: Limiter, h: seq<Acceptance>, now: int)
    requires WithinLimits(h) && AfterTime(l.timestamps, now - MINUTE) == AfterTime(Times(h), now - MINUTE)
    ensures WithinLimits(Recorded(l, h, now))
  {
    if l.limit != 0 && Checked(l, now).1 {
      AcceptedWithinLimit(l, h, now);
      WithinLimitsAppend(h, Acceptance(now, l.limit));
    }
  }

  /** Every acceptance of every run is within its limit. */
  lemma {:induction false} EachAcceptanceWithinLimit(run: seq<Event>, now: int)
    requires Ordered(run, now)
    ensures WithinLimits(History(run))
  {
    if run != [] {
      var init, e := run[..|run| - 1], run[|run| - 1];
      EachAcceptanceWithinLimit(init, if e.Check? then e.now else now);
      if e.Check? {
        PrunedListRefinesHistory(init, e.now);
        RecordedWithinLimits(After(init), History(init), e.now);
      }
    }
  }

  /** The acceptances of h among the first n that fall in the window the predicate describes. */
  function CountIn(h: seq<Acceptance>, n: nat, from: int, closedLeft: bool): nat
    requires n <= |h|
  {
    if n == 0 then 0
    else CountIn(h, n - 1, from, closedLeft) + (if InWindow(h[n - 1].at, from, closedLeft) then 1 else 0)
  }

  /** [from, from + minute) or (from, from + minute]. */
  predicate InWindow(t: int, from: int, closedLeft: bool) {
    if closedLeft then from <= t < from + MINUTE else from < t <= from + MINUTE
  }

  lemma {:induction false} WindowWithinMinute(h: seq<Acceptance>, n: nat, from: int, closedLeft: bool, t: int)
    requires n <= |h|
    requires forall x :: InWindow(x, from, closedLeft) ==> x > t - MINUTE
    ensures CountIn(h, n, from, closedLeft) <= CountAfter(h, n, t - MINUTE)
  {
    if n > 0 {
      WindowWithinMinute(h, n - 1, from, closedLeft, t);
    }
  }

  lemma {:induction false} NothingAfter(h: seq<Acceptance>, m: nat, n: nat, from: int, closedLeft: bool)
    requires m <= n <= |h|
    requires forall i :: m <= i < n ==> !InWindow(h[i].at, from, closedLeft)
    ensures CountIn(h, n, from, closedLeft) == CountIn(h, m, from, closedLeft)
  {
    if m < n {
      NothingAfter(h, m, n - 1, from, closedLeft);
    }
  }

  lemma WindowWithinLastMinute(h: seq<Acceptance>, from: int, closedLeft: bool, last: nat)
    requires last < |h| && InWindow(h[last].at, from, closedLeft)
    requires forall i :: last < i < |h| ==> !InWindow(h[i].at, from, closedLeft)
    ensures CountIn(h, |h|, from, closedLeft) <= CountAfter(h, last + 1, h[last].at - MINUTE)
  {
    NothingAfter(h, last + 1, |h|, from, closedLeft);
    WindowWithinMinute(h, last + 1, from, closedLeft, h[last].at);
  }

  /** Every half-open 60-second window of every run holds at most as many metered acceptances as
      the limit in force at the window's last one, however the limit is changed mid-run. */
  lemma EveryWindowWithinLimit(run: seq<Event>, now: int, from: int, closedLeft: bool, last: nat)
    requires Ordered(run, now) && last < |History(run)|
    requires InWindow(History(run)[last].at, from, closedLeft)
    requires forall i :: last < i < |History(run)| ==> !InWindow(History(run)[i].at, from, closedLeft)
    ensures CountIn(History(run), |History(run)|, from, closedLeft) <= History(run)[last].limit
  {
    WindowWithinLastMinute(History(run), from, closedLeft, last);
    EachAcceptanceWithinLimit(run, now);
  }

  /** The number of checks a run passed. */
  function Allowed(run: seq<Event>): nat {
    if run == [] then 0
    else Allowed(run[..|run| - 1])
         + (if run[|run| - 1].Check? && Checked(After(run[..|run| - 1]), run[|run| - 1].now).1 then 1 else 0)
  }

  /** No check of the run was made with the limit off. */
  ghost predicate AlwaysMetered(run: seq<Event>) {
    forall i {:trigger run[i]} :: 0 <= i < |run| && run[i].Check? ==> After(run[..i]).limit != 0
  }

  lemma AlwaysMeteredAppend(run: seq<Event>, e: Event)
    ensures AlwaysMetered(run + [e]) <==> AlwaysMetered(run) && (e.Check? ==> After(run).limit != 0)
  {
    var longer := run + [e];
    assert longer[..|run|] == run && longer[|run|] == e;
    assert forall i :: 0 <= i < |run| ==> longer[i] == run[i] && longer[..i] == run[..i];
  }

  /** Metered acceptances are all acceptances exactly when no check ran with the limit off. */
  lemma {:induction false} MeteredAreAll(run: seq<Event>)
    ensures |History(run)| <= Allowed(run)
    ensures |History(run)| == Allowed(run) <==> AlwaysMetered(run)
  {
    if run != [] {
      var init, e := run[..|run| - 1], run[|run| - 1];
      MeteredAreAll(init);
      assert run == init + [e];
      AlwaysMeteredAppend(init, e);
    }
  }
}
