/** The bounded window of heartbeat intervals behind the phi-accrual failure detector. */
module Phi {

  const WINDOW: nat := 200
  const MIN_SAMPLES: nat := 3

  function Sum(s: seq<real>): real {
    if s == [] then 0.0 else s[0] + Sum(s[1..])
  }

  function Sq(x: real): real {
    x * x
  }

  function SumSq(s: seq<real>): real {
    if s == [] then 0.0 else Sq(s[0]) + SumSq(s[1..])
  }

  /** The intervals a run of heartbeats contributes: those where the clock advanced past a set time. */
  function Intervals(beats: seq<int>): seq<real> {
    if |beats| <= 1 then []
    else
      var n := |beats| - 1;
      Intervals(beats[..n]) + Gap(beats[n - 1], beats[n])
  }

  function Gap(was: int, now: int): seq<real> {
    if was != 0 && now > was then [(now - was) as real] else []
  }

  /** The most recent intervals, at most WINDOW of them. */
  function Recent(s: seq<real>): seq<real> {
    if |s| <= WINDOW then s else s[|s| - WINDOW..]
  }

  lemma IntervalsMore(beats: seq<int>, last: int, now: int)
    requires last == if beats == [] then 0 else beats[|beats| - 1]
    ensures Intervals(beats + [now]) == Intervals(beats) + Gap(last, now)
  {
    hide Gap, Intervals;
    var more := beats + [now];
    if beats == [] {
      assert more == [now];
      FirstBeat(now);
    } else {
      LastInterval(more);
      assert more[..|more| - 1] == beats && more[|more| - 2] == last;
    }
  }

  lemma FirstBeat(now: int)
    ensures Intervals([now]) == Intervals([]) + Gap(0, now)
  {
  }

  lemma LastInterval(beats: seq<int>)
    requires |beats| > 1
    ensures Intervals(beats) == Intervals(beats[..|beats| - 1]) + Gap(beats[|beats| - 2], beats[|beats| - 1])
  {
    hide Gap;
  }

  lemma RecentMore(s: seq<real>, x: real)
    ensures |Recent(s)| < WINDOW ==> Recent(s + [x]) == Recent(s) + [x] && Recent(s) == s
    ensures |Recent(s)| == WINDOW ==> Recent(s + [x]) == Recent(s)[1..] + [x]
    ensures |Recent(s)| == if |s| < WINDOW then |s| else WINDOW
  {
  }

  /** Heartbeats at increasing instants contribute every gap between two of them. */
  lemma {:induction false} IntervalsOfIncreasing(beats: seq<int>)
    requires forall i | 0 <= i < |beats| :: beats[i] > 0
    requires forall i | 0 < i < |beats| :: beats[i - 1] < beats[i]
    ensures |Intervals(beats)| == if beats == [] then 0 else |beats| - 1
    ensures forall i | 0 <= i < |Intervals(beats)| :: Intervals(beats)[i] == (beats[i + 1] - beats[i]) as real
  {
    if |beats| > 1 {
      IntervalsOfIncreasing(beats[..|beats| - 1]);
    }
  }

  predicate AllPositive(s: seq<real>) {
    forall i | 0 <= i < |s| :: s[i] > 0.0
  }

  lemma {:induction false} IntervalsPositive(beats: seq<int>)
    ensures AllPositive(Intervals(beats))
  {
    if |beats| > 1 {
      IntervalsPositive(beats[..|beats| - 1]);
    }
  }

  lemma {:induction false} SumConcat(a: seq<real>, b: seq<real>)
    ensures Sum(a + b) == Sum(a) + Sum(b) && SumSq(a + b) == SumSq(a) + SumSq(b)
  {
    hide Sq;
    if a == [] {
      assert a + b == b;
    } else {
      assert (a + b)[1..] == a[1..] + b;
      SumConcat(a[1..], b);
    }
  }

  lemma SumSlide(w: seq<real>, x: real)
    requires w != []
    ensures Sum(w[1..] + [x]) == Sum(w) - w[0] + x
    ensures SumSq(w[1..] + [x]) == SumSq(w) - Sq(w[0]) + Sq(x)
  {
    hide Sq;
    SumConcat(w[1..], [x]);
    assert [x][1..] == [];
  }

  lemma SumMore(w: seq<real>, x: real)
    ensures Sum(w + [x]) == Sum(w) + x && SumSq(w + [x]) == SumSq(w) + Sq(x)
  {
    hide Sq;
    SumConcat(w, [x]);
    assert [x][1..] == [];
  }

  // ---- the variance is never negative -----------------------------------------------------

  /** The squared deviations from x, written out. */
  function Spread(s: seq<real>, x: real): real {
    if s == [] then 0.0 else Sq(s[0] - x) + Spread(s[1..], x)
  }

  /** The spread of n values with sum t and sum of squares q. */
  function SpreadOf(n: real, t: real, q: real, x: real): real {
    q - 2.0 * t * x + n * (x * x)
  }

  /** How far n times q exceeds the square of t. */
  function Excess(n: real, t: real, q: real): real {
    n * q - t * t
  }

  lemma SqNonNegative(y: real)
    ensures Sq(y) >= 0.0
  {
    if y < 0.0 {
      assert y * y == (-y) * (-y);
    }
  }

  lemma SpreadStep(n: real, t: real, q: real, x: real, a: real)
    ensures SpreadOf(n + 1.0, a + t, Sq(a) + q, x) == Sq(a - x) + SpreadOf(n, t, q, x)
    ensures Sq(a - x) >= 0.0 && SpreadOf(0.0, 0.0, 0.0, x) == 0.0
  {
    SqNonNegative(a - x);
    assert (a - x) * (a - x) == a * a - 2.0 * a * x + x * x;
    assert 2.0 * (a + t) * x == 2.0 * a * x + 2.0 * t * x;
    assert (n + 1.0) * (x * x) == n * (x * x) + x * x;
  }

  lemma ExcessStep(n: real, t: real, q: real, a: real)
    ensures Excess(n + 1.0, a + t, Sq(a) + q) == Excess(n, t, q) + SpreadOf(n, t, q, a)
    ensures Excess(0.0, 0.0, 0.0) == 0.0
  {
    assert (n + 1.0) * (a * a + q) == n * (a * a) + n * q + a * a + q;
    assert (a + t) * (a + t) == a * a + 2.0 * t * a + t * t;
  }

  lemma {:induction false} SpreadIs(s: seq<real>, x: real)
    ensures Spread(s, x) == SpreadOf(|s| as real, Sum(s), SumSq(s), x) >= 0.0
  {
    hide SpreadOf, Sq;
    SpreadStep(0.0, 0.0, 0.0, x, 0.0);
    if s != [] {
      SpreadIs(s[1..], x);
      SpreadStep(|s[1..]| as real, Sum(s[1..]), SumSq(s[1..]), x, s[0]);
      assert |s| as real == |s[1..]| as real + 1.0;
    }
  }

  /** n times the sum of squares is at least the square of the sum. */
  lemma {:induction false} VarianceNonNegative(s: seq<real>)
    ensures Excess(|s| as real, Sum(s), SumSq(s)) >= 0.0
  {
    hide SpreadOf, Excess, Sq;
    ExcessStep(0.0, 0.0, 0.0, 0.0);
    if s != [] {
      VarianceNonNegative(s[1..]);
      SpreadIs(s[1..], s[0]);
      ExcessStep(|s[1..]| as real, Sum(s[1..]), SumSq(s[1..]), s[0]);
      assert |s| as real == |s[1..]| as real + 1.0;
    }
  }

  lemma {:induction false} SumPositive(s: seq<real>)
    requires AllPositive(s) && s != []
    ensures Sum(s) > 0.0
  {
    if |s| > 1 {
      SumPositive(s[1..]);
    } else {
      assert s[1..] == [];
    }
  }

  function Variance(n: real, t: real, q: real): real
    requires n > 0.0
  {
    q / n - Sq(t / n)
  }

  /** It is the mean squared deviation from the mean. */
  lemma VarianceIsSpread(s: seq<real>)
    requires s != []
    ensures var n := |s| as real; n * Variance(n, Sum(s), SumSq(s)) == Spread(s, Sum(s) / n)
  {
    hide SpreadOf, Variance, Sum, SumSq, Spread;
    var n := |s| as real;
    SpreadIs(s, Sum(s) / n);
    SpreadAtMean(n, Sum(s), SumSq(s));
  }

  lemma SpreadAtMean(n: real, t: real, q: real)
    requires n > 0.0
    ensures n * Variance(n, t, q) == SpreadOf(n, t, q, t / n)
  {
    var m, d := t / n, q / n;
    assert t == m * n && q == d * n;
    assert n * (d - m * m) == d * n - n * (m * m);
    assert 2.0 * (m * n) * m == 2.0 * (n * (m * m));
  }

  lemma VarianceInReals(n: real, t: real, q: real)
    requires n > 0.0 && Excess(n, t, q) >= 0.0
    ensures Variance(n, t, q) >= 0.0
  {
    var m, d := t / n, q / n;
    assert t == m * n && q == d * n;
    ExcessScaled(n, m, d);
    SignOf(d - m * m, n);
  }

  lemma ExcessScaled(n: real, m: real, d: real)
    ensures Excess(n, m * n, d * n) == (d - m * m) * n * n
  {
    assert n * (d * n) == d * n * n;
    assert (m * n) * (m * n) == (m * m) * n * n;
  }

  lemma SignOf(a: real, n: real)
    requires n > 0.0 && a * n * n >= 0.0
    ensures a >= 0.0
  {
    if a < 0.0 {
      NegTimes(a, n);
      NegTimes(a * n, n);
    }
  }

  lemma NegTimes(a: real, n: real)
    requires a < 0.0 && n > 0.0
    ensures a * n < 0.0
  {
  }

  class PhiHistory {
    var intervals: seq<real>
    var next: nat
    var sum: real
    var sumSq: real
    var last: int
    ghost var beats: seq<int>

    /** The ring read from the oldest interval on. */
    function InOrder(): seq<real>
      requires next <= |intervals|
      reads this
    {
      intervals[next..] + intervals[..next]
    }

    /** The ring is exactly the recent intervals of all heartbeats, and the sums are theirs. */
    ghost predicate Valid()
      reads this
    {
      && next <= |intervals| <= WINDOW && next < WINDOW && (|intervals| < WINDOW ==> next == 0)
      && InOrder() == Recent(Intervals(beats))
      && sum == Sum(InOrder()) && sumSq == SumSq(InOrder())
      && last == (if beats == [] then 0 else beats[|beats| - 1])
    }

    constructor ()
      ensures Valid() && beats == []
    {
      intervals, next, sum, sumSq, last, beats := [], 0, 0.0, 0.0, 0, [];
    }

    method Record(now: int)
      requires Valid()
      modifies this
      ensures Valid() && beats == old(beats) + [now]
    {
      hide Sum, SumSq, Sq, Intervals, Recent;
      ghost var was := Intervals(beats);
      ghost var w := InOrder();
      IntervalsMore(beats, last, now);
      if last != 0 && now > last {
        var iv := (now - last) as real;
        RecentMore(was, iv);
        if |intervals| < WINDOW {
          SumMore(w, iv);
          intervals := intervals + [iv];
          assert InOrder() == w + [iv];
        } else {
          var oldest := intervals[next];
          SumSlide(w, iv);
          sum := sum - oldest;
          sumSq := sumSq - Sq(oldest);
          RingSlides(intervals, next, iv);
          intervals := intervals[next := iv];
          next := (next + 1) % WINDOW;
        }
        sum := sum + iv;
        sumSq := sumSq + Sq(iv);
      } else {
        assert was + [] == was;
      }
      last := now;
      beats := beats + [now];
    }

    method Warm() returns (r: bool)
      requires Valid()
      ensures r <==> |Intervals(beats)| >= MIN_SAMPLES
    {
      assert |InOrder()| == |intervals|;
      r := |intervals| >= MIN_SAMPLES;
    }

    /** mean and stdDev; root is any square root. */
    method StdDev(root: real -> real) returns (mean: real, sd: real)
      requires Valid() && |Intervals(beats)| >= MIN_SAMPLES
      requires forall x | x >= 0.0 :: root(x) >= 0.0 && root(x) * root(x) == x
      ensures var w := Recent(Intervals(beats));
              && mean == Sum(w) / (|w| as real) > 0.0
              && sd >= mean / 2.0 > 0.0
              && (|w| as real) * Variance(|w| as real, Sum(w), SumSq(w)) == Spread(w, mean)
              && Variance(|w| as real, Sum(w), SumSq(w)) >= 0.0
              && sd == Max(root(Variance(|w| as real, Sum(w), SumSq(w))), mean / 2.0)
    {
      hide Excess, Variance, Sum, SumSq, Spread, Intervals;
      ghost var w := Recent(Intervals(beats));
      IntervalsPositive(beats);
      RecentPositive(Intervals(beats));
      SumPositive(w);
      VarianceNonNegative(w);
      VarianceIsSpread(w);
      var n := |intervals| as real;
      VarianceInReals(n, sum, sumSq);
      MeanPositive(sum, n);
      mean := sum / n;
      var variance := Variance(n, sum, sumSq);
      if variance < 0.0 {
        variance := 0.0;
      }
      sd := root(variance);
      var floor := mean / 2.0;
      if sd < floor {
        sd := floor;
      }
    }
  }

  function Max(a: real, b: real): real {
    if a < b then b else a
  }

  lemma MeanPositive(t: real, n: real)
    requires t > 0.0 && n > 0.0
    ensures t / n > 0.0
  {
    var m := t / n;
    assert m * n == t;
    if m <= 0.0 {
      NotPositiveTimes(m, n);
    }
  }

  lemma NotPositiveTimes(a: real, n: real)
    requires a <= 0.0 && n > 0.0
    ensures a * n <= 0.0
  {
  }

  lemma RecentPositive(s: seq<real>)
    requires AllPositive(s)
    ensures AllPositive(Recent(s)) && (s != [] ==> Recent(s) != [])
  {
  }

  /** Overwriting the oldest slot and stepping past it drops the oldest and appends the newest. */
  lemma RingSlides(ring: seq<real>, next: nat, iv: real)
    requires |ring| == WINDOW && next < WINDOW
    ensures var ring' := ring[next := iv];
            var next' := (next + 1) % WINDOW;
            var w := ring[next..] + ring[..next];
            ring'[next'..] + ring'[..next'] == w[1..] + [iv] && w[0] == ring[next]
  {
    var ring' := ring[next := iv];
    if next + 1 < WINDOW {
      assert ring'[next + 1..] == ring[next + 1..];
      assert ring'[..next + 1] == ring[..next] + [iv];
    } else {
      assert ring' == ring[..next] + [iv];
      assert ring[next..] == [ring[next]];
    }
  }
}
