/** health_monitor.go: the message counters and the latency window. */
module HealthMonitoring {
  import opened Common

  datatype Counters = Counters(totalMessages: int, sentMessages: int, failedMessages: int, consecutiveErrors: int)

  function SentCounted(c: Counters): Counters {
    c.(totalMessages := c.totalMessages + 1, sentMessages := c.sentMessages + 1)
  }

  function FailedCounted(c: Counters): Counters {
    c.(failedMessages := c.failedMessages + 1, consecutiveErrors := c.consecutiveErrors + 1)
  }

  /** int64 addition. */
  function Wrap(x: int): int {
    (x + 0x8000_0000_0000_0000) % 0x1_0000_0000_0000_0000 - 0x8000_0000_0000_0000
  }

  /** Go's integer division truncates toward zero. */
  function Quotient(a: int, b: int): int
    requires b > 0
  {
    if a >= 0 then a / b else -((-a) / b)
  }

  function Sum(s: seq<int>): int {
    if s == [] then 0 else Sum(s[..|s| - 1]) + s[|s| - 1]
  }

  /** The last min(n, |s|) elements of s. */
  function Last<T>(s: seq<T>, n: nat): seq<T> {
    if |s| <= n then s else s[|s| - n..]
  }

  class HealthMonitor {
    const maxLatencySamples: nat
    var totalMessages: int
    var sentMessages: int
    var failedMessages: int
    var consecutiveErrors: int
    var lastMessageSent: Option<int>   // None for the zero time.Time
    var latencyWindow: seq<int>
    var currentLatency: int
    var averageLatency: int

    function Value(): Counters
      reads this
    {
      Counters(totalMessages, sentMessages, failedMessages, consecutiveErrors)
    }

    /** history is every latency recorded so far. */
    ghost predicate Tracks(history: seq<int>)
      reads this
    {
      && maxLatencySamples > 0
      && latencyWindow == Last(history, maxLatencySamples)
    }

    constructor ()
      ensures Value() == Counters(0, 0, 0, 0)
      ensures maxLatencySamples == 100 && Tracks([])
    {
      maxLatencySamples := 100;
      totalMessages, sentMessages, failedMessages, consecutiveErrors := 0, 0, 0, 0;
      lastMessageSent := None;
      latencyWindow := [];
      currentLatency, averageLatency := 0, 0;
    }

    method RecordMessageSent(now: int)
      modifies this
      ensures Value() == SentCounted(old(Value())) && lastMessageSent == Some(now)
      ensures latencyWindow == old(latencyWindow)
    {
      lastMessageSent := Some(now);
      totalMessages := totalMessages + 1;
      sentMessages := sentMessages + 1;
    }

    method RecordMessageFailed()
      modifies this
      ensures Value() == FailedCounted(old(Value())) && latencyWindow == old(latencyWindow)
      ensures lastMessageSent == old(lastMessageSent)
    {
      failedMessages := failedMessages + 1;
      consecutiveErrors := consecutiveErrors + 1;
    }

    /** After any sequence of records the window is exactly the last maxLatencySamples of them. */
    method RecordLatency(latency: int, ghost history: seq<int>)
      requires Tracks(history)
      modifies this
      ensures Tracks(history + [latency])
      ensures Value() == old(Value()) && lastMessageSent == old(lastMessageSent) && currentLatency == latency
      ensures averageLatency == Quotient(Wrap(Sum(latencyWindow)), |latencyWindow|)
    {
      latencyWindow := latencyWindow + [latency];
      if |latencyWindow| > maxLatencySamples {
        latencyWindow := latencyWindow[|latencyWindow| - maxLatencySamples..];
      }
      SlidesOn(history, latency, maxLatencySamples);
      var average := Average(latencyWindow);
      currentLatency := latency;
      averageLatency := average;
    }
  }

  /** The loop that adds up the window, and the division. */
  method Average(window: seq<int>) returns (average: int)
    requires window != []
    ensures average == Quotient(Wrap(Sum(window)), |window|)
  {
    var total := 0;
    for i := 0 to |window|
      invariant total == Wrap(Sum(window[..i]))
    {
      NextSum(window, i);
      total := Wrap(total + window[i]);
    }
    assert window[..|window|] == window;
    average := Quotient(total, |window|);
  }

  /** Appending to the window and cutting its front is taking the last samples of the longer history. */
  lemma SlidesOn<T>(history: seq<T>, x: T, n: nat)
    requires n > 0
    ensures var w := Last(history, n) + [x];
            Last(history + [x], n) == if |w| > n then w[|w| - n..] else w
  {
  }

  lemma LastMeans<T>(s: seq<T>, n: nat)
    ensures |Last(s, n)| == Min(|s|, n)
    ensures forall i :: 0 <= i < |Last(s, n)| ==> Last(s, n)[i] == s[|s| - |Last(s, n)| + i]
  {
  }

  /** Wrap gives the number in int64 that differs by a multiple of 2^64. */
  lemma WrapMeans(x: int)
    ensures -0x8000_0000_0000_0000 <= Wrap(x) <= MAX_INT64
    ensures (x - Wrap(x)) % 0x1_0000_0000_0000_0000 == 0
  {
    var q := (x + 0x8000_0000_0000_0000) / 0x1_0000_0000_0000_0000;
    assert x - Wrap(x) == q * 0x1_0000_0000_0000_0000;
  }

  lemma {:induction false} SumMeans(s: seq<int>, t: seq<int>, x: int)
    ensures Sum([]) == 0 && Sum([x]) == x && Sum(s + t) == Sum(s) + Sum(t)
  {
    assert [x][..0] == [];
    if t == [] {
      assert s + t == s;
    } else {
      assert (s + t)[..|s + t| - 1] == s + t[..|t| - 1];
      SumMeans(s, t[..|t| - 1], x);
    }
  }

  lemma NextSum(window: seq<int>, i: nat)
    requires i < |window|
    ensures Wrap(Sum(window[..i + 1])) == Wrap(Wrap(Sum(window[..i])) + window[i])
  {
    assert window[..i + 1][..i] == window[..i];
    WrapStep(Sum(window[..i]), window[i]);
  }

  lemma WrapStep(a: int, b: int)
    ensures Wrap(Wrap(a) + b) == Wrap(a + b)
  {
    var q := (a + 0x8000_0000_0000_0000) / 0x1_0000_0000_0000_0000;
    assert Wrap(a) == a - q * 0x1_0000_0000_0000_0000;
  }

  lemma {:induction false} SumBounds(s: seq<int>, lo: int, hi: int)
    requires forall i :: 0 <= i < |s| ==> lo <= s[i] <= hi
    ensures |s| * lo <= Sum(s) <= |s| * hi
  {
    if s != [] {
      SumBounds(s[..|s| - 1], lo, hi);
      assert |s| * lo == (|s| - 1) * lo + lo && |s| * hi == (|s| - 1) * hi + hi;
    }
  }

  lemma Below(q: int, lo: int, b: int)
    requires b > 0 && q < lo
    ensures b * q + b <= b * lo
  {
    var d := lo - q - 1;
    assert d * b >= 0;
    assert b * lo == b * q + b + d * b;
  }

  lemma QuotientBounds(a: int, b: int, lo: int, hi: int)
    requires b > 0 && 0 <= lo && b * lo <= a <= b * hi
    ensures 0 <= a && lo <= Quotient(a, b) <= hi
  {
    assert b * lo >= 0;
    var q := a / b;
    assert a == b * q + a % b;
    if q < lo { Below(q, lo, b); }
    if q > hi { Below(hi, q, b); }
  }

  lemma WrapFits(x: int)
    requires 0 <= x <= MAX_INT64
    ensures Wrap(x) == x
  {
  }

  /** The stored average of a window of non-negative latencies whose sum fits int64 lies between
      the window's least and greatest sample. */
  lemma AverageWithinWindow(window: seq<int>, lo: int, hi: int)
    requires window != [] && 0 <= lo
    requires forall i :: 0 <= i < |window| ==> lo <= window[i] <= hi
    requires Sum(window) <= MAX_INT64
    ensures lo <= Quotient(Wrap(Sum(window)), |window|) <= hi
  {
    SumBounds(window, lo, hi);
    QuotientBounds(Sum(window), |window|, lo, hi);
    WrapFits(Sum(window));
  }

  /** The stored average is the true one exactly when the sum of the window fits int64. */
  lemma AverageExactly(window: seq<int>)
    requires 0 < |window| <= MAX_INT64
    requires forall i :: 0 <= i < |window| ==> window[i] >= 0
    ensures Quotient(Wrap(Sum(window)), |window|) == Sum(window) / |window| <==> Sum(window) <= MAX_INT64
  {
    SumNonNegative(window);
    var sum, n := Sum(window), |window|;
    if sum <= MAX_INT64 {
      WrapFits(sum);
    } else {
      WrapFalls(sum);
      QuotientFalls(Wrap(sum), sum, n);
    }
  }

  lemma {:induction false} SumNonNegative(s: seq<int>)
    requires forall i :: 0 <= i < |s| ==> s[i] >= 0
    ensures Sum(s) >= 0
  {
    if s != [] {
      SumNonNegative(s[..|s| - 1]);
    }
  }

  lemma WrapFalls(x: int)
    requires x > MAX_INT64
    ensures Wrap(x) <= x - 0x1_0000_0000_0000_0000
  {
  }

  lemma QuotientFalls(a: int, b: int, n: int)
    requires 0 < n <= MAX_INT64 < b && a <= b - 0x1_0000_0000_0000_0000
    ensures Quotient(a, n) < b / n
  {
    if a >= 0 {
      var q := a / n;
      assert a == n * q + a % n;
      assert n * (q + 1) == n * q + n;
      AtMostQuotient(q + 1, n, b);
    } else {
      AtMostQuotient(1, n, b);
      assert (-a) / n >= 0;
    }
  }

  lemma AtMostQuotient(m: int, n: int, b: int)
    requires n > 0 && n * m <= b
    ensures m <= b / n
  {
    var q := b / n;
    assert b == n * q + b % n;
    if q < m {
      Below(q, m, n);
    }
  }
}
