/** The two capped exponential backoffs: the retry queue's (retry_queue.go) multiplies all the
    way and clamps at the end, the supervisor's (supervisor.go) truncates and clamps each round.
    float64 products are exact reals here; the conversion back to int64 is modelled as Go
    leaves it: truncation in range, a platform-chosen value out of range. */
module Backoff {
  import opened Common

  const TWO63: real := 9223372036854775808.0

  function Truncate(x: real): int {
    if x >= 0.0 then x.Floor else -((-x).Floor)
  }

  /** time.Duration(x); overflow is what the platform gives for a value outside int64. */
  function ToDuration(x: real, overflow: int): int {
    if -TWO63 <= x < TWO63 then Truncate(x) else overflow
  }

  /** x multiplied by factor n times over. */
  function Product(x: real, factor: real, n: nat): real
    decreases n
  {
    if n == 0 then x else Product(x * factor, factor, n - 1)
  }

  function QueueDelay(start: int, factor: real, cap: int, overflow: int, n: nat): int {
    Min(ToDuration(Product(start as real, factor, n), overflow), cap)
  }

  function SupervisorDelay(delay: int, factor: real, cap: int, overflow: int, n: nat): int
    decreases n
  {
    if n == 0 then delay
    else
      var d := ToDuration(delay as real * factor, overflow);
      if d > cap then cap else SupervisorDelay(d, factor, cap, overflow, n - 1)
  }

  /** retry_queue.go calculateBackoff. */
  method QueueBackoff(initialDelay: int, factor: real, maxDelay: int, overflow: int, retryCount: int)
    returns (delay: int)
    ensures delay == QueueDelay(initialDelay, factor, maxDelay, overflow, Max(0, retryCount - 1))
    ensures delay <= maxDelay
  {
    var product := initialDelay as real;
    var i := 1;
    while i < retryCount
      invariant 1 <= i <= Max(1, retryCount)
      invariant Product(product, factor, Max(0, retryCount - i))
                == Product(initialDelay as real, factor, Max(0, retryCount - 1))
    {
      product := product * factor;
      i := i + 1;
    }
    if ToDuration(product, overflow) > maxDelay {
      return maxDelay;
    }
    return ToDuration(product, overflow);
  }

  /** supervisor.go calculateBackoff. */
  method SupervisorBackoff(restartDelay: int, factor: real, cap: int, overflow: int, restartCount: int)
    returns (delay: int)
    ensures delay == SupervisorDelay(restartDelay, factor, cap, overflow, Max(0, restartCount - 1))
  {
    delay := restartDelay;
    var i := 1;
    while i < restartCount
      invariant 1 <= i <= Max(1, restartCount)
      invariant SupervisorDelay(delay, factor, cap, overflow, Max(0, restartCount - i))
                == SupervisorDelay(restartDelay, factor, cap, overflow, Max(0, restartCount - 1))
    {
      delay := ToDuration(delay as real * factor, overflow);
      if delay > cap {
        return cap;
      }
      i := i + 1;
    }
  }

  /** The value both are meant to compute: min(cap, start * factor^n). */
  function ClosedForm(start: int, factor: real, cap: int, n: nat): int {
    Min(cap, Product(start as real, factor, n).Floor)
  }

  lemma Unfold(x: real, factor: real, n: nat)
    ensures Product(x, factor, n + 1) == Product(x * factor, factor, n)
  {
    assert n + 1 - 1 == n;
  }

  function Power(factor: real, n: nat): real {
    if n == 0 then 1.0 else factor * Power(factor, n - 1)
  }

  lemma {:induction false} ProductIsPower(x: real, factor: real, n: nat)
    ensures Product(x, factor, n) == x * Power(factor, n)
    decreases n
  {
    if n > 0 {
      ProductIsPower(x * factor, factor, n - 1);
      Associative(x, factor, Power(factor, n - 1));
    }
  }

  lemma Associative(a: real, b: real, c: real)
    ensures a * b * c == a * (b * c)
  {
  }

  lemma MulMono(a: real, b: real, c: real)
    requires a <= b && c >= 0.0
    ensures a * c <= b * c
  {
  }

  lemma Grows(x: real, factor: real)
    requires x >= 0.0 && factor >= 1.0
    ensures x * factor >= x
  {
    MulMono(1.0, factor, x);
  }

  lemma {:induction false} ProductMono(x: real, y: real, factor: real, n: nat)
    requires 0.0 <= x <= y && factor >= 1.0
    ensures x <= Product(x, factor, n) <= Product(y, factor, n)
    decreases n
  {
    if n > 0 {
      Grows(x, factor);
      MulMono(x, y, factor);
      ProductMono(x * factor, y * factor, factor, n - 1);
    }
  }

  lemma ProductGrows(x: real, factor: real, n: nat)
    requires x >= 0.0 && factor >= 1.0
    ensures x <= Product(x, factor, n) <= Product(x, factor, n + 1)
  {
    Grows(x, factor);
    ProductMono(x, x * factor, factor, n);
    Unfold(x, factor, n);
  }

  lemma FitsOrClamps(x: real, cap: int, overflow: int)
    requires x >= 0.0 && 0 <= cap <= MAX_INT64
    ensures Min(ToDuration(x, overflow), cap) == Min(cap, x.Floor) <==> x < TWO63 || overflow >= cap
  {
    if x >= TWO63 {
      assert x.Floor > cap;
    }
  }

  /** The queue's delay is the closed form exactly when the unclamped product fits int64 or the
      platform's out-of-range value happens to lie at or above the cap. */
  lemma QueueDelayExactly(start: int, factor: real, cap: int, overflow: int, n: nat)
    requires 0 <= start <= cap <= MAX_INT64 && factor >= 1.0
    ensures QueueDelay(start, factor, cap, overflow, n) == ClosedForm(start, factor, cap, n)
            <==> Product(start as real, factor, n) < TWO63 || overflow >= cap
  {
    ProductGrows(start as real, factor, n);
    FitsOrClamps(Product(start as real, factor, n), cap, overflow);
  }

  lemma FourDoublings(x: real, n: nat)
    ensures Product(x, 2.0, n + 4) == Product(16.0 * x, 2.0, n)
  {
    Unfold(x, 2.0, n + 3);
    Unfold(2.0 * x, 2.0, n + 2);
    Unfold(4.0 * x, 2.0, n + 1);
    Unfold(8.0 * x, 2.0, n);
  }

  lemma SixteenDoublings(x: real, n: nat)
    ensures Product(x, 2.0, n + 16) == Product(65536.0 * x, 2.0, n)
  {
    FourDoublings(x, n + 12);
    FourDoublings(16.0 * x, n + 8);
    FourDoublings(256.0 * x, n + 4);
    FourDoublings(4096.0 * x, n);
  }

  /** A policy with maxRetries above 35, a one-second delay, doubling and a 30-second cap, on a platform
      that converts out-of-range floats to the least int64: after the 35th failed retry the next is
      scheduled in the past. */
  lemma QueueDelayCanGoNegative()
    ensures QueueDelay(SECOND, 2.0, 30 * SECOND, -0x8000_0000_0000_0000, 34) < 0
  {
    var x := SECOND as real;
    SixteenDoublings(x, 18);
    SixteenDoublings(65536.0 * x, 2);
    ProductGrows(65536.0 * (65536.0 * x), 2.0, 0);
    ProductGrows(65536.0 * (65536.0 * x), 2.0, 1);
    Unfold(65536.0 * (65536.0 * x), 2.0, 1);
    Unfold(2.0 * (65536.0 * (65536.0 * x)), 2.0, 0);
  }

  /** Nothing from here on leaves int64: the whole product fits, or even one round from the cap does. */
  predicate Fits(x: real, factor: real, cap: real, n: nat) {
    Product(x, factor, n) < TWO63 || cap * factor < TWO63
  }

  /** One round of the supervisor's loop takes the delay x to the whole part of y. */
  lemma Round(x: real, factor: real, cap: real, n: nat, y: real)
    requires 0.0 <= x <= cap && factor >= 1.0 && y == x * factor
    requires Fits(x, factor, cap, n + 1)
    ensures x <= y < TWO63
    ensures 0.0 <= y.Floor as real <= y <= Product(x, factor, n + 1) == Product(y, factor, n)
    ensures Product(y.Floor as real, factor, n) <= Product(y, factor, n)
    ensures Fits(y.Floor as real, factor, cap, n)
  {
    Product1(x, factor, cap, y);
    ProductGrows(y, factor, n);
    FloorBelow(y);
    ProductMono(y.Floor as real, y, factor, n);
    Unfold(x, factor, n);
    if Product(x, factor, n + 1) >= TWO63 {
      assert y <= cap * factor;
    }
  }

  lemma Product1(x: real, factor: real, cap: real, y: real)
    requires 0.0 <= x <= cap && factor >= 1.0 && y == x * factor
    ensures x <= y <= cap * factor
  {
    Grows(x, factor);
    MulMono(x, cap, factor);
  }

  lemma FloorBelow(x: real)
    requires x >= 0.0
    ensures 0.0 <= x.Floor as real <= x
  {
  }

  lemma WholeProduct(delay: int, factor: real, y: real)
    requires factor == factor.Floor as real && y == delay as real * factor
    ensures y.Floor as real == y
  {
    assert y == (delay * factor.Floor) as real;
  }

  lemma Unrolled(delay: int, factor: real, cap: int, overflow: int, n: nat, y: real)
    requires y == delay as real * factor && 0 <= delay && delay as real <= y < TWO63
    ensures y.Floor >= delay
    ensures SupervisorDelay(delay, factor, cap, overflow, n + 1)
            == if y.Floor > cap then cap else SupervisorDelay(y.Floor, factor, cap, overflow, n)
  {
    assert ToDuration(y, overflow) == y.Floor;
  }

  /** Each round of the supervisor's loop loses at most a fraction, so it stays between the start
      and the closed form, and equals it when the factor is a whole number. */
  lemma {:induction false} SupervisorDelayBounds(delay: int, factor: real, cap: int, overflow: int, n: nat)
    requires 0 <= delay <= cap && factor >= 1.0
    requires Fits(delay as real, factor, cap as real, n)
    ensures delay <= SupervisorDelay(delay, factor, cap, overflow, n) <= ClosedForm(delay, factor, cap, n)
    ensures factor == factor.Floor as real ==>
              SupervisorDelay(delay, factor, cap, overflow, n) == ClosedForm(delay, factor, cap, n)
    decreases n
  {
    if n > 0 {
      var y := delay as real * factor;
      Round(delay as real, factor, cap as real, n - 1, y);
      Unrolled(delay, factor, cap, overflow, n - 1, y);
      if factor == factor.Floor as real {
        WholeProduct(delay, factor, y);
      }
      if y.Floor <= cap {
        SupervisorDelayBounds(y.Floor, factor, cap, overflow, n - 1);
      }
    }
  }

  lemma FitsEarlier(x: real, factor: real, cap: real, n: nat)
    requires x >= 0.0 && factor >= 1.0 && Fits(x, factor, cap, n + 1)
    ensures Fits(x, factor, cap, n)
  {
    ProductGrows(x, factor, n);
  }

  lemma {:induction false} SupervisorDelayNeverFalls(delay: int, factor: real, cap: int, overflow: int, n: nat)
    requires 0 <= delay <= cap && factor >= 1.0
    requires Fits(delay as real, factor, cap as real, n + 1)
    ensures SupervisorDelay(delay, factor, cap, overflow, n) <= SupervisorDelay(delay, factor, cap, overflow, n + 1)
    decreases n
  {
    var y := delay as real * factor;
    Round(delay as real, factor, cap as real, n, y);
    Unrolled(delay, factor, cap, overflow, n, y);
    if n > 0 {
      Unrolled(delay, factor, cap, overflow, n - 1, y);
      if y.Floor <= cap {
        SupervisorDelayNeverFalls(y.Floor, factor, cap, overflow, n - 1);
      }
    }
  }

  /** Both backoffs, whatever the (real) factor >= 1: within start..cap, non-decreasing, the
      supervisor's never above the queue's, and the same value for a whole-number factor. */
  lemma BackoffsAgree(start: int, factor: real, cap: int, overflow: int, n: nat)
    requires 0 <= start <= cap <= MAX_INT64 && factor >= 1.0
    requires Product(start as real, factor, n + 1) < TWO63
    ensures var q, s := QueueDelay(start, factor, cap, overflow, n), SupervisorDelay(start, factor, cap, overflow, n);
            && start <= s <= q == ClosedForm(start, factor, cap, n) <= cap
            && (factor == factor.Floor as real ==> s == q)
            && q <= QueueDelay(start, factor, cap, overflow, n + 1)
            && s <= SupervisorDelay(start, factor, cap, overflow, n + 1)
  {
    ProductGrows(start as real, factor, n);
    QueueDelayExactly(start, factor, cap, overflow, n);
    QueueDelayExactly(start, factor, cap, overflow, n + 1);
    FitsEarlier(start as real, factor, cap as real, n);
    SupervisorDelayBounds(start, factor, cap, overflow, n);
    SupervisorDelayNeverFalls(start, factor, cap, overflow, n);
  }

  /** No round the supervisor makes before it passes the cap leaves int64. */
  predicate NoRoundOverflows(start: real, factor: real, cap: real, n: nat) {
    forall k {:trigger Product(start, factor, k)} ::
      0 <= k < n && Product(start, factor, k) <= cap ==> Product(start, factor, k) * factor < TWO63
  }

  lemma RoundsShift(x: real, factor: real, cap: real, n: nat, y: real)
    requires n > 0 && x <= cap && y == x * factor
    ensures NoRoundOverflows(x, factor, cap, n) <==> y < TWO63 && NoRoundOverflows(y, factor, cap, n - 1)
  {
    assert Product(x, factor, 0) == x;
    forall k: nat | k < n - 1 ensures Product(y, factor, k) == Product(x, factor, k + 1) {
      Unfold(x, factor, k);
    }
    if NoRoundOverflows(x, factor, cap, n) {
      forall k {:trigger Product(y, factor, k)} | 0 <= k < n - 1 && Product(y, factor, k) <= cap
        ensures Product(y, factor, k) * factor < TWO63
      {
        assert Product(x, factor, k + 1) <= cap;
      }
    }
    if y < TWO63 && NoRoundOverflows(y, factor, cap, n - 1) {
      forall k {:trigger Product(x, factor, k)} | 0 <= k < n && Product(x, factor, k) <= cap
        ensures Product(x, factor, k) * factor < TWO63
      {
        if k > 0 {
          assert Product(y, factor, k - 1) == Product(x, factor, k);
        }
      }
    }
  }

  lemma AboveTheCap(y: real, factor: real, cap: real, n: nat)
    requires 0.0 <= cap < y && factor >= 1.0
    ensures NoRoundOverflows(y, factor, cap, n)
    ensures Product(y, factor, n) > cap
  {
    forall k: nat ensures Product(y, factor, k) >= y {
      ProductGrows(y, factor, k);
    }
  }

  lemma FloorAbove(x: real, cap: int)
    requires x > cap as real
    ensures Min(cap, x.Floor) == cap
  {
  }

  /** Once an overflow has made the delay non-positive it never recovers. */
  lemma {:induction false} StaysNonPositive(delay: int, factor: real, cap: int, overflow: int, n: nat)
    requires delay <= 0 && overflow <= 0 && 0 <= cap && factor >= 1.0
    ensures SupervisorDelay(delay, factor, cap, overflow, n) <= 0
    decreases n
  {
    if n > 0 {
      var y := delay as real * factor;
      MulMono(delay as real, 0.0, factor);
      assert ToDuration(y, overflow) <= 0;
      StaysNonPositive(ToDuration(y, overflow), factor, cap, overflow, n - 1);
    }
  }

  lemma ClosedFormRound(delay: int, factor: real, cap: int, n: nat, y: real)
    requires n > 0 && y == delay as real * factor
    ensures ClosedForm(delay, factor, cap, n) == Min(cap, Product(y, factor, n - 1).Floor)
  {
  }

  /** A round that takes the product past the cap. */
  lemma PastTheCap(delay: int, factor: real, cap: int, n: nat, y: real)
    requires 0 <= cap && factor >= 1.0 && n > 0 && y == delay as real * factor && y > cap as real
    ensures ClosedForm(delay, factor, cap, n) == cap
    ensures NoRoundOverflows(y, factor, cap as real, n - 1)
  {
    ClosedFormRound(delay, factor, cap, n, y);
    AboveTheCap(y, factor, cap as real, n - 1);
    FloorAbove(Product(y, factor, n - 1), cap);
  }

  /** A round that overflows: what the closed form is then. */
  lemma OverflowPastTheCap(delay: int, factor: real, cap: int, n: nat, y: real)
    requires 0 <= delay <= cap <= MAX_INT64 && factor >= 1.0 && n > 0
    requires y == delay as real * factor && y >= TWO63
    ensures ClosedForm(delay, factor, cap, n) == cap
    ensures !NoRoundOverflows(delay as real, factor, cap as real, n)
  {
    PastTheCap(delay, factor, cap, n, y);
    RoundsShift(delay as real, factor, cap as real, n, y);
  }

  lemma OneRound(delay: int, factor: real, cap: int, overflow: int, n: nat, y: real)
    requires n > 0 && y == delay as real * factor && y >= TWO63
    ensures SupervisorDelay(delay, factor, cap, overflow, n)
            == if overflow > cap then cap else SupervisorDelay(overflow, factor, cap, overflow, n - 1)
  {
    assert ToDuration(y, overflow) == overflow;
  }

  lemma PositiveCap(delay: int, factor: real, cap: int, y: real)
    requires 0 <= delay <= cap && y == delay as real * factor && y >= TWO63
    ensures cap > 0
  {
    assert delay == 0 ==> delay as real * factor == 0.0;
  }

  /** A round that overflows: what the loop makes of it. */
  lemma OverflowingRound(delay: int, factor: real, cap: int, overflow: int, n: nat, y: real)
    requires 0 <= delay <= cap && cap > 0 && factor >= 1.0 && n > 0
    requires overflow >= cap || overflow <= 0
    requires y == delay as real * factor && y >= TWO63
    requires overflow == cap ==> SupervisorDelay(cap, factor, cap, overflow, n - 1) == cap
    ensures SupervisorDelay(delay, factor, cap, overflow, n) == cap <==> overflow >= cap
  {
    var after := SupervisorDelay(overflow, factor, cap, overflow, n - 1);
    OneRound(delay, factor, cap, overflow, n, y);
    if overflow < cap {
      StaysNonPositive(overflow, factor, cap, overflow, n - 1);
      assert after <= 0;
    }
  }

  /** A round that fits takes the delay to the whole number d: past the cap, or one round on. */
  predicate FitsRound(delay: int, factor: real, cap: int, n: nat, d: int) {
    && 0 <= delay <= cap && delay <= d && factor >= 1.0 && n > 0
    && d as real == delay as real * factor && d as real < TWO63
  }

  lemma FittingDelay(delay: int, factor: real, cap: int, overflow: int, n: nat, d: int)
    requires FitsRound(delay, factor, cap, n, d)
    ensures SupervisorDelay(delay, factor, cap, overflow, n)
            == if d > cap then cap else SupervisorDelay(d, factor, cap, overflow, n - 1)
  {
    var y := d as real;
    assert y.Floor == d;
    Unrolled(delay, factor, cap, overflow, n - 1, y);
  }

  lemma FittingClosedForm(delay: int, factor: real, cap: int, n: nat, d: int)
    requires FitsRound(delay, factor, cap, n, d)
    ensures ClosedForm(delay, factor, cap, n) == if d > cap then cap else ClosedForm(d, factor, cap, n - 1)
  {
    ClosedFormRound(delay, factor, cap, n, d as real);
    if d > cap {
      PastTheCap(delay, factor, cap, n, d as real);
    }
  }

  lemma FittingRounds(delay: int, factor: real, cap: int, n: nat, d: int)
    requires FitsRound(delay, factor, cap, n, d)
    ensures NoRoundOverflows(delay as real, factor, cap as real, n)
            <==> d > cap || NoRoundOverflows(d as real, factor, cap as real, n - 1)
  {
    RoundsShift(delay as real, factor, cap as real, n, d as real);
    if d > cap {
      PastTheCap(delay, factor, cap, n, d as real);
    }
  }

  /** A whole-number factor, and a platform that converts out-of-range floats to a value at or above
      the cap or to one that is not positive (the least int64, or the greatest): the supervisor's
      delay is the closed form exactly when the former, or no round before the cap leaves int64. */
  lemma {:induction false} SupervisorDelayExactly(delay: int, factor: real, cap: int, overflow: int, n: nat)
    requires 0 <= delay <= cap <= MAX_INT64 && factor >= 1.0 && factor == factor.Floor as real
    requires overflow >= cap || overflow <= 0
    ensures SupervisorDelay(delay, factor, cap, overflow, n) == ClosedForm(delay, factor, cap, n)
            <==> overflow >= cap || NoRoundOverflows(delay as real, factor, cap as real, n)
    decreases n
  {
    if n > 0 {
      var y := delay as real * factor;
      Product1(delay as real, factor, cap as real, y);
      if y < TWO63 {
        WholeProduct(delay, factor, y);
        var d := y.Floor;
        FittingDelay(delay, factor, cap, overflow, n, d);
        FittingClosedForm(delay, factor, cap, n, d);
        FittingRounds(delay, factor, cap, n, d);
        if y.Floor <= cap {
          SupervisorDelayExactly(y.Floor, factor, cap, overflow, n - 1);
        }
      } else {
        if overflow == cap {
          SupervisorDelayExactly(cap, factor, cap, overflow, n - 1);
          ProductGrows(cap as real, factor, n - 1);
        }
        OverflowPastTheCap(delay, factor, cap, n, y);
        PositiveCap(delay, factor, cap, y);
        OverflowingRound(delay, factor, cap, overflow, n, y);
      }
    }
  }

  /** A start above the cap: the queue clamps it from the first retry on, the supervisor waits it once,
      unclamped, before it clamps. */
  lemma StartAboveTheCap(start: int, factor: real, cap: int, overflow: int, n: nat)
    requires 0 <= cap < start <= MAX_INT64 && factor >= 1.0
    requires start as real * factor < TWO63 && Product(start as real, factor, n) < TWO63
    ensures QueueDelay(start, factor, cap, overflow, n) == cap
    ensures SupervisorDelay(start, factor, cap, overflow, n) == if n == 0 then start else cap
  {
    var x := start as real;
    Grows(x, factor);
    ProductGrows(x, factor, n);
    if n > 0 {
      Unrolled(start, factor, cap, overflow, n - 1, x * factor);
    }
  }

  /** For a whole-number factor that takes the cap no further than int64 the two backoffs agree
      exactly when the queue's product fits or its out-of-range value lies at or above the cap. */
  lemma BackoffsAgreeExactly(start: int, factor: real, cap: int, overflow: int, n: nat)
    requires 0 <= start <= cap <= MAX_INT64 && factor >= 1.0 && factor == factor.Floor as real
    requires cap as real * factor < TWO63
    ensures QueueDelay(start, factor, cap, overflow, n) == SupervisorDelay(start, factor, cap, overflow, n)
            <==> Product(start as real, factor, n) < TWO63 || overflow >= cap
  {
    QueueDelayExactly(start, factor, cap, overflow, n);
    SupervisorDelayBounds(start, factor, cap, overflow, n);
  }
}
