/** internal/commands/trend.go: moving averages over a price history and the verdict drawn from
    them. Prices are exact reals. */
module Trends {
  import opened Common

  datatype Verdict = Bullish | Bearish | Mixed

  datatype Reply =
    | NoHistory
    | NoValidPoints
    | NotEnoughPoints
    | Trend(verdict: Verdict, ma7: real, ma30: real, ma90: real)

  function Sum(s: seq<real>): real {
    if s == [] then 0.0 else Sum(s[..|s| - 1]) + s[|s| - 1]
  }

  /** The mean of the last k prices, with k brought into 1..|prices|. */
  function TrailingAverage(prices: seq<real>, k: int): real
    requires prices != []
  {
    var w := Window(|prices|, k);
    Sum(prices[|prices| - w..]) / w as real
  }

  function Window(n: int, k: int): (w: int)
    requires n > 0
    ensures 1 <= w <= n
  {
    Min(n, Max(1, k))
  }

  function Averages(prices: seq<real>): (real, real, real)
    requires prices != []
  {
    var n := |prices|;
    (TrailingAverage(prices, n * 7 / 90), TrailingAverage(prices, n * 30 / 90), TrailingAverage(prices, n))
  }

  function Classify(ma7: real, ma30: real, ma90: real): Verdict {
    if ma7 > ma30 && ma30 > ma90 then Bullish
    else if ma7 < ma30 && ma30 < ma90 then Bearish
    else Mixed
  }

  function VerdictOn(prices: seq<real>): Verdict
    requires prices != []
  {
    var (a, b, c) := Averages(prices);
    Classify(a, b, c)
  }

  /** The second components of the two-element points. */
  function Extracted(points: seq<seq<real>>): seq<real> {
    if points == [] then []
    else
      var p := points[|points| - 1];
      Extracted(points[..|points| - 1]) + (if |p| == 2 then [p[1]] else [])
  }

  /** prices are the second components of the two-element points, all of them and in their order: at
      says where each stood. */
  ghost predicate Extracts(prices: seq<real>, points: seq<seq<real>>, at: seq<nat>) {
    && |at| == |prices|
    && (forall i :: 0 <= i < |at| ==> at[i] < |points| && |points[at[i]]| == 2 && prices[i] == points[at[i]][1])
    && (forall i, j :: 0 <= i < j < |at| ==> at[i] < at[j])
    && (forall j :: 0 <= j < |points| ==> (|points[j]| == 2 <==> j in at))
  }

  lemma ExtractsNext(prices: seq<real>, points: seq<seq<real>>, at: seq<nat>, p: seq<real>)
    requires Extracts(prices, points, at)
    ensures Extracts(prices + (if |p| == 2 then [p[1]] else []), points + [p],
                     at + (if |p| == 2 then [|points|] else []))
  {
    var longer := at + (if |p| == 2 then [|points|] else []);
    forall j | 0 <= j < |points| + 1 ensures |(points + [p])[j]| == 2 <==> j in longer {
      if j == |points| && |p| == 2 {
        assert longer[|at|] == j;
      } else if j < |points| {
        assert j in longer <==> j in at;
      }
    }
  }

  lemma {:induction false} ExtractedByIndex(points: seq<seq<real>>) returns (at: seq<nat>)
    ensures Extracts(Extracted(points), points, at)
  {
    at := [];
    if points != [] {
      var init, p := points[..|points| - 1], points[|points| - 1];
      at := ExtractedByIndex(init);
      ExtractsNext(Extracted(init), init, at, p);
      assert init + [p] == points;
      at := at + (if |p| == 2 then [|init|] else []);
    }
  }

  method ComputeTrailingAverage(prices: seq<real>, k: int) returns (average: real)
    requires prices != []
    ensures average == TrailingAverage(prices, k)
  {
    var n := |prices|;
    var w := k;
    if w <= 0 {
      w := 1;
    }
    if w > n {
      w := n;
    }
    var sum := 0.0;
    for i := n - w to n
      invariant sum == Sum(prices[n - w..i])
    {
      assert prices[n - w..i + 1][..i - (n - w)] == prices[n - w..i];
      sum := sum + prices[i];
    }
    assert prices[n - w..n] == prices[n - w..];
    average := sum / w as real;
  }

  /** CmdTrend from the decoded response on. */
  method CmdTrend(points: seq<seq<real>>) returns (reply: Reply)
    ensures var prices := Extracted(points);
            reply == if points == [] then NoHistory
                     else if prices == [] then NoValidPoints
                     else if |prices| < 10 then NotEnoughPoints
                     else var (a, b, c) := Averages(prices); Trend(Classify(a, b, c), a, b, c)
  {
    if points == [] {
      return NoHistory;
    }
    var prices: seq<real> := [];
    for i := 0 to |points|
      invariant prices == Extracted(points[..i])
    {
      assert points[..i + 1][..i] == points[..i];
      if |points[i]| == 2 {
        prices := prices + [points[i][1]];
      }
    }
    assert points[..|points|] == points;
    if prices == [] {
      return NoValidPoints;
    }
    var n := |prices|;
    if n < 10 {
      return NotEnoughPoints;
    }
    var ma7 := ComputeTrailingAverage(prices, n * 7 / 90);
    var ma30 := ComputeTrailingAverage(prices, n * 30 / 90);
    var ma90 := ComputeTrailingAverage(prices, n);
    var trend := Mixed;
    if ma7 > ma30 && ma30 > ma90 {
      trend := Bullish;
    } else if ma7 < ma30 && ma30 < ma90 {
      trend := Bearish;
    }
    reply := Trend(trend, ma7, ma30, ma90);
  }

  // --- sums ---

  lemma {:induction false} SumSplit(a: seq<real>, b: seq<real>)
    ensures Sum(a + b) == Sum(a) + Sum(b)
  {
    if b == [] {
      assert a + b == a;
    } else {
      assert (a + b)[..|a + b| - 1] == a + b[..|b| - 1];
      SumSplit(a, b[..|b| - 1]);
    }
  }

  lemma {:induction false} SumAbove(s: seq<real>, x: real)
    requires forall i :: 0 <= i < |s| ==> s[i] >= x
    ensures Sum(s) >= |s| as real * x
  {
    if s != [] {
      SumAbove(s[..|s| - 1], x);
      assert |s| as real * x == (|s| - 1) as real * x + x;
    }
  }

  lemma {:induction false} SumBelow(s: seq<real>, x: real)
    requires s != [] && forall i :: 0 <= i < |s| ==> s[i] < x
    ensures Sum(s) < |s| as real * x
  {
    var init := s[..|s| - 1];
    assert |s| as real * x == (|s| - 1) as real * x + x;
    if init != [] {
      SumBelow(init, x);
    }
  }

  /** The mean of the last w prices. */
  function MeanOfLast(prices: seq<real>, w: int): real
    requires 1 <= w <= |prices|
  {
    Sum(prices[|prices| - w..]) / w as real
  }

  /** Of n prices the short mean takes the last 7n/90, at least one, the middle one the last 30n/90, at
      least one, and the long one all; the verdict is Bullish exactly when they fall from the short to
      the long, Bearish exactly when they rise, and Mixed otherwise. */
  lemma VerdictExactly(prices: seq<real>)
    requires prices != []
    ensures var n := |prices|;
            var short := MeanOfLast(prices, if n * 7 < 90 then 1 else n * 7 / 90);
            var middle := MeanOfLast(prices, if n * 30 < 90 then 1 else n * 30 / 90);
            var long := MeanOfLast(prices, n);
            && Averages(prices) == (short, middle, long)
            && (VerdictOn(prices) == Bullish <==> short > middle > long)
            && (VerdictOn(prices) == Bearish <==> short < middle < long)
            && (VerdictOn(prices) == Mixed <==> !(short > middle > long) && !(short < middle < long))
  {
    var n := |prices|;
    assert Window(n, n * 7 / 90) == if n * 7 < 90 then 1 else n * 7 / 90;
    assert Window(n, n * 30 / 90) == if n * 30 < 90 then 1 else n * 30 / 90;
  }

  function Times(factor: real, x: real): real {
    factor * x
  }

  function Scaled(prices: seq<real>, factor: real): seq<real> {
    seq(|prices|, i requires 0 <= i < |prices| => Times(factor, prices[i]))
  }

  lemma {:induction false} SumScaled(s: seq<real>, factor: real)
    ensures Sum(Scaled(s, factor)) == Times(factor, Sum(s))
  {
    if s != [] {
      SumScaled(s[..|s| - 1], factor);
      assert Scaled(s, factor)[..|s| - 1] == Scaled(s[..|s| - 1], factor);
      Distribute(factor, Sum(s[..|s| - 1]), s[|s| - 1]);
    }
  }

  lemma Distribute(f: real, a: real, b: real)
    ensures Times(f, a + b) == Times(f, a) + Times(f, b)
  {
  }

  lemma DivideProduct(f: real, a: real, b: real)
    requires b > 0.0
    ensures Times(f, a) / b == Times(f, a / b)
  {
  }

  lemma AverageOfTail(prices: seq<real>, k: int, tail: seq<real>)
    requires prices != [] && tail == prices[|prices| - Window(|prices|, k)..]
    ensures TrailingAverage(prices, k) == Sum(tail) / |tail| as real
  {
  }

  lemma AverageScaled(prices: seq<real>, k: int, factor: real)
    requires prices != []
    ensures TrailingAverage(Scaled(prices, factor), k) == Times(factor, TrailingAverage(prices, k))
  {
    var tail := prices[|prices| - Window(|prices|, k)..];
    AverageOfTail(prices, k, tail);
    AverageOfTail(Scaled(prices, factor), k, Scaled(tail, factor));
    SumScaled(tail, factor);
    DivideProduct(factor, Sum(tail), |tail| as real);
  }

  // --- the verdict ---

  /** p is strictly above q and both divisors are positive: cross-multiplied comparison. */
  lemma Compare(p: real, m: real, q: real, n: real)
    requires m > 0.0 && n > 0.0 && p * n > q * m
    ensures p / m > q / n
  {
    var x, y, c := p / m, q / n, m * n;
    assert p == x * m && q == y * n;
    assert p * n == x * c && q * m == y * c;
    Cancel(x, y, c);
  }

  lemma Cancel(x: real, y: real, c: real)
    requires c > 0.0 && x * c > y * c
    ensures x > y
  {
    assert (x - y) * c > 0.0;
  }

  /** Of the last w1 + e prices, the mean of the last w1 is above x and of all of them below it. */
  lemma MeanOfLongerTail(early: seq<real>, late: seq<real>, x: real)
    requires early != [] && late != []
    requires forall i :: 0 <= i < |early| ==> early[i] < x
    requires forall i :: 0 <= i < |late| ==> late[i] >= x
    ensures Sum(late) / |late| as real > Sum(early + late) / |early + late| as real
  {
    SumSplit(early, late);
    SumAbove(late, x);
    SumBelow(early, x);
    CrossMeans(Sum(late), |late|, Sum(early), |early|, x);
  }

  lemma CrossMeans(p: real, m: int, q: real, n: int, x: real)
    requires m > 0 && n > 0
    requires p >= m as real * x && q < n as real * x
    ensures p / m as real > (q + p) / (n + m) as real
  {
    var a, b := m as real, n as real;
    assert p * b >= a * x * b by { Monotone(a * x, p, b); }
    assert q * a < b * x * a by { StrictlyMonotone(q, b * x, a); }
    assert p * (a + b) == p * a + p * b && (q + p) * a == q * a + p * a;
    assert a * x * b == b * x * a;
    Compare(p, a, q + p, a + b);
  }

  lemma Monotone(a: real, b: real, c: real)
    requires a <= b && c >= 0.0
    ensures a * c <= b * c
  {
  }

  lemma StrictlyMonotone(a: real, b: real, c: real)
    requires a < b && c > 0.0
    ensures a * c < b * c
  {
  }

  ghost predicate Increasing(s: seq<real>) {
    forall i, j :: 0 <= i < j < |s| ==> s[i] < s[j]
  }

  lemma TailsAround(prices: seq<real>, w: int, v: int)
    requires Increasing(prices) && 0 < w < v <= |prices|
    ensures var n := |prices|;
            var early, late := prices[n - v..n - w], prices[n - w..];
            && early + late == prices[n - v..]
            && (forall i :: 0 <= i < |early| ==> early[i] < prices[n - w])
            && (forall i :: 0 <= i < |late| ==> late[i] >= prices[n - w])
  {
    var n := |prices|;
    var late := prices[n - w..];
    forall i | 0 <= i < |late| ensures late[i] >= prices[n - w] {
      assert late[i] == prices[n - w + i];
    }
  }

  lemma LongerTailIsLower(prices: seq<real>, w: int, v: int)
    requires Increasing(prices) && 0 < w < v <= |prices|
    ensures Sum(prices[|prices| - w..]) / w as real > Sum(prices[|prices| - v..]) / v as real
  {
    var n := |prices|;
    var early, late := prices[n - v..n - w], prices[n - w..];
    TailsAround(prices, w, v);
    assert |late| == w && |early + late| == v;
    MeanOfLongerTail(early, late, prices[n - w]);
  }

  lemma ShorterTailIsHigher(prices: seq<real>, k: int, m: int)
    requires prices != [] && Increasing(prices)
    requires Window(|prices|, k) < Window(|prices|, m)
    ensures TrailingAverage(prices, k) > TrailingAverage(prices, m)
  {
    LongerTailIsLower(prices, Window(|prices|, k), Window(|prices|, m));
  }

  /** The three windows are strictly nested from ten points on. */
  lemma WindowsNest(n: int)
    requires n >= 10
    ensures Window(n, n * 7 / 90) < Window(n, n * 30 / 90) < Window(n, n)
  {
  }

  /** Strictly rising prices, ten or more, are always called bullish. */
  lemma RisingIsBullish(prices: seq<real>)
    requires |prices| >= 10 && Increasing(prices)
    ensures VerdictOn(prices) == Bullish
  {
    var n := |prices|;
    WindowsNest(n);
    ShorterTailIsHigher(prices, n * 7 / 90, n * 30 / 90);
    ShorterTailIsHigher(prices, n * 30 / 90, n);
  }

  function Flipped(v: Verdict): Verdict {
    match v
    case Bullish => Bearish
    case Bearish => Bullish
    case Mixed => Mixed
  }

  /** Multiplying every price by a positive constant leaves the verdict alone; by a negative one,
      turns it over. */
  lemma ScalingTheVerdict(prices: seq<real>, factor: real)
    requires prices != [] && factor != 0.0
    ensures VerdictOn(Scaled(prices, factor)) == if factor > 0.0 then VerdictOn(prices) else Flipped(VerdictOn(prices))
  {
    var n := |prices|;
    AverageScaled(prices, n * 7 / 90, factor);
    AverageScaled(prices, n * 30 / 90, factor);
    AverageScaled(prices, n, factor);
    var (a, b, c) := Averages(prices);
    ScaledOrder(a, b, factor);
    ScaledOrder(b, a, factor);
    ScaledOrder(b, c, factor);
    ScaledOrder(c, b, factor);
  }

  lemma ScaledOrder(a: real, b: real, factor: real)
    requires factor != 0.0
    ensures Times(factor, a) < Times(factor, b) <==> if factor > 0.0 then a < b else b < a
  {
    var d := b - a;
    assert factor * b - factor * a == factor * d;
  }

  /** Strictly falling prices, ten or more, are always called bearish. */
  lemma FallingIsBearish(prices: seq<real>)
    requires |prices| >= 10 && forall i, j :: 0 <= i < j < |prices| ==> prices[i] > prices[j]
    ensures VerdictOn(prices) == Bearish
  {
    RisingIsBullish(Scaled(prices, -1.0));
    ScalingTheVerdict(prices, -1.0);
  }
}
