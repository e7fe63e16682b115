/** The two checks generated for every smoothed series: the instant check on
    the trend of its last two values and the long check on its trailing
    raising run. Each check becomes a named verdict instead of a synthesised
    unit test. */
module Verdicts {
  import opened Records
  import opened Smoothing
  import opened Seqs

  // ---------------------------------------------------------------------
  // The raising run: reversed(takewhile(rising, reversed(zip(v, v[1:]))))

  /** `zip(v, v[1:])`: each value paired with the next one. */
  function Deltas(v: seq<real>): (d: seq<(real, real)>)
    ensures |d| == if |v| == 0 then 0 else |v| - 1
    ensures forall i :: 0 <= i < |d| ==> d[i] == (v[i], v[i + 1])
  {
    if |v| < 2 then [] else [(v[0], v[1])] + Deltas(v[1..])
  }

  function Reverse(d: seq<(real, real)>): (r: seq<(real, real)>)
    ensures |r| == |d|
    ensures forall i :: 0 <= i < |d| ==> r[i] == d[|d| - 1 - i]
  {
    if d == [] then [] else [d[|d| - 1]] + Reverse(d[..|d| - 1])
  }

  /** The pair rises: `nxt > prv`. */
  predicate Rising(p: (real, real))
  {
    p.1 > p.0
  }

  /** `takewhile(rising, d)`: the longest prefix of rising pairs. */
  function TakeRising(d: seq<(real, real)>): (r: seq<(real, real)>)
    ensures |r| <= |d| && r == d[..|r|]
    ensures forall i :: 0 <= i < |r| ==> Rising(r[i])
    ensures |r| < |d| ==> !Rising(d[|r|])
  {
    if d == [] || !Rising(d[0]) then [] else [d[0]] + TakeRising(d[1..])
  }

  /** `reversed(takewhile(rising, reversed(d)))`. */
  function TrailingRising(d: seq<(real, real)>): seq<(real, real)>
  {
    Reverse(TakeRising(Reverse(d)))
  }

  /** Pair `i` of the trailing rising stretch is pair `|d| - k + i` of `d`,
      where `k` is the stretch's length, and it rises. */
  lemma TrailingRisingAt(d: seq<(real, real)>, i: nat)
    requires i < |TrailingRising(d)|
    ensures |TrailingRising(d)| <= |d|
    ensures TrailingRising(d)[i] == d[|d| - |TrailingRising(d)| + i]
    ensures Rising(TrailingRising(d)[i])
  {
    var rd := Reverse(d);
    var t := TakeRising(rd);
    var k := |t|;
    assert TrailingRising(d) == Reverse(t);
    assert Reverse(t)[i] == t[k - 1 - i];
    assert t[k - 1 - i] == rd[k - 1 - i];
  }

  /** The pair before the trailing rising stretch, when there is one, does not rise. */
  lemma TrailingRisingStop(d: seq<(real, real)>)
    ensures |TrailingRising(d)| <= |d|
    ensures |TrailingRising(d)| < |d| ==> !Rising(d[|d| - |TrailingRising(d)| - 1])
  {
    var n := |d|;
    var rd := Reverse(d);
    var k := |TakeRising(rd)|;
    assert |TrailingRising(d)| == k;
    if k < n {
      assert !Rising(rd[k]);
      assert rd[k] == d[n - 1 - k];
    }
  }

  lemma TrailingRisingIsSuffix(d: seq<(real, real)>)
    ensures |TrailingRising(d)| <= |d|
    ensures TrailingRising(d) == d[|d| - |TrailingRising(d)|..]
  {
    var r := TrailingRising(d);
    TrailingRisingStop(d);
    forall i | 0 <= i < |r| ensures r[i] == d[|d| - |r| + i] {
      TrailingRisingAt(d, i);
    }
  }

  /** The trailing rising stretch of `d`: a suffix of `d`, every pair of it
      rising, and the pair before it (if any) not rising. */
  lemma TrailingRisingSpec(d: seq<(real, real)>)
    ensures |TrailingRising(d)| <= |d|
    ensures TrailingRising(d) == d[|d| - |TrailingRising(d)|..]
    ensures forall i :: 0 <= i < |TrailingRising(d)| ==> Rising(TrailingRising(d)[i])
    ensures |TrailingRising(d)| < |d| ==> !Rising(d[|d| - |TrailingRising(d)| - 1])
  {
    TrailingRisingStop(d);
    TrailingRisingIsSuffix(d);
    forall i | 0 <= i < |TrailingRising(d)| ensures Rising(TrailingRising(d)[i]) {
      TrailingRisingAt(d, i);
    }
  }

  function RaisingRun(v: seq<real>): seq<(real, real)>
  {
    TrailingRising(Deltas(v))
  }

  /** The raising run is a trailing stretch of the steps of `v`, in their
      original order, and every step of it rises. */
  lemma RaisingRunSuffix(v: seq<real>)
    ensures |RaisingRun(v)| <= |Deltas(v)|
    ensures RaisingRun(v) == Deltas(v)[|Deltas(v)| - |RaisingRun(v)|..]
    ensures forall i :: 0 <= i < |RaisingRun(v)| ==> RaisingRun(v)[i].1 > RaisingRun(v)[i].0
  {
    var r := RaisingRun(v);
    TrailingRisingSpec(Deltas(v));
    forall i | 0 <= i < |r| ensures r[i].1 > r[i].0 {
      assert Rising(r[i]);
    }
  }

  /** The step before the raising run does not rise, and a non-empty raising
      run ends with the last step of `v`. */
  lemma RaisingRunEnds(v: seq<real>)
    ensures |RaisingRun(v)| < |Deltas(v)| ==>
      !(v[|Deltas(v)| - |RaisingRun(v)|] > v[|Deltas(v)| - |RaisingRun(v)| - 1])
    ensures RaisingRun(v) != [] ==> RaisingRun(v)[|RaisingRun(v)| - 1] == (v[|v| - 2], v[|v| - 1])
  {
    RaisingRunStop(v, Deltas(v), |RaisingRun(v)|);
    RaisingRunLast(v);
  }

  /** The step before the raising run does not rise. */
  lemma RaisingRunStop(v: seq<real>, d: seq<(real, real)>, k: nat)
    requires d == Deltas(v) && k == |TrailingRising(d)|
    ensures k < |d| ==> !(v[|d| - k] > v[|d| - k - 1])
  {
    TrailingRisingStop(d);
    if k < |d| {
      assert d[|d| - k - 1] == (v[|d| - k - 1], v[|d| - k]);
    }
  }

  /** A non-empty raising run ends with the last step of `v`. */
  lemma RaisingRunLast(v: seq<real>)
    ensures RaisingRun(v) != [] ==> RaisingRun(v)[|RaisingRun(v)| - 1] == (v[|v| - 2], v[|v| - 1])
  {
    var d := Deltas(v);
    TrailingRisingIsSuffix(d);
    RaisingRunBounds(v, d, TrailingRising(d));
  }

  /** The raising run is the longest trailing stretch of rising steps of `v`,
      in their original order, and when it is not empty it ends at the last
      value of `v`. */
  lemma RaisingRunSpec(v: seq<real>)
    ensures |RaisingRun(v)| <= |Deltas(v)|
    ensures RaisingRun(v) == Deltas(v)[|Deltas(v)| - |RaisingRun(v)|..]
    ensures forall i :: 0 <= i < |RaisingRun(v)| ==> RaisingRun(v)[i].1 > RaisingRun(v)[i].0
    ensures |RaisingRun(v)| < |Deltas(v)| ==>
      !(v[|Deltas(v)| - |RaisingRun(v)|] > v[|Deltas(v)| - |RaisingRun(v)| - 1])
    ensures RaisingRun(v) != [] ==> RaisingRun(v)[|RaisingRun(v)| - 1] == (v[|v| - 2], v[|v| - 1])
  {
    RaisingRunSuffix(v);
    RaisingRunEnds(v);
  }

  /** The step before a trailing stretch `r` of `d == Deltas(v)`, and its last pair. */
  lemma RaisingRunBounds(v: seq<real>, d: seq<(real, real)>, r: seq<(real, real)>)
    requires d == Deltas(v) && |r| <= |d| && r == d[|d| - |r|..]
    ensures |r| < |d| ==> d[|d| - |r| - 1] == (v[|d| - |r| - 1], v[|d| - |r|])
    ensures r != [] ==> |v| >= 2 && r[|r| - 1] == (v[|v| - 2], v[|v| - 1])
  {
    var n := |d|;
    if r != [] {
      assert n == |v| - 1;
      assert r[|r| - 1] == d[n - 1];
      assert d[n - 1] == (v[n - 1], v[n]);
    }
  }

  /** There is a raising run exactly when the series rose at its last step. */
  lemma RaisingRunIff(v: seq<real>)
    ensures RaisingRun(v) != [] <==> |v| >= 2 && v[|v| - 1] > v[|v| - 2]
  {
    var d := Deltas(v);
    var r := TrailingRising(d);
    TrailingRisingSpec(d);
    RaisingRunBounds(v, d, r);
    assert r == RaisingRun(v);
    if r != [] {
      assert Rising(r[|r| - 1]);
    } else if |v| >= 2 {
      assert |d| == |v| - 1;
      assert !Rising(d[|d| - 1]);
    }
  }

  /** The raising run has exactly `k` pairs when the last `k` steps of `v`
      rise and the one before them does not (or there is none). */
  lemma RaisingRunLength(v: seq<real>, k: nat)
    requires k < |v|
    requires forall i :: |v| - 1 - k <= i < |v| - 1 ==> v[i + 1] > v[i]
    requires k + 1 < |v| ==> !(v[|v| - 1 - k] > v[|v| - 2 - k])
    ensures |RaisingRun(v)| == k
  {
    RaisingRunSpec(v);
  }

  // ---------------------------------------------------------------------
  // The window of the long check

  function Min(v: seq<real>): (m: real)
    requires |v| >= 1
    ensures m in v
    ensures forall i :: 0 <= i < |v| ==> m <= v[i]
  {
    if |v| == 1 then v[0]
    else
      var rest := Min(v[1..]);
      assert forall i :: 1 <= i < |v| ==> v[i] == v[1..][i - 1];
      if v[0] <= rest then v[0] else rest
  }

  /** `v[-window:]`: the last `window` values, or all of them when there are
      fewer, or when `window` is 0 (`v[-0:]` is `v[0:]`). */
  function LastWindow(v: seq<real>, window: nat): (w: seq<real>)
    ensures |w| == if window == 0 || window >= |v| then |v| else window
    ensures w == v[|v| - |w|..]
  {
    if window == 0 || window >= |v| then v else v[|v| - window..]
  }

  // ---------------------------------------------------------------------
  // The checks

  /** What one generated test does: pass, fail its `assertLessEqual` with the
      percentage it measured, or raise before it gets there. */
  datatype Outcome = Passed | Failed(percent: real, threshold: real) | Errored

  const INSTANT_THRESHOLD: real := 3.0
  const LONG_THRESHOLD: real := 15.0

  /** `assertLessEqual(percent, threshold)`. */
  function AssertLessEqual(percent: real, threshold: real): (o: Outcome)
    ensures o == Passed <==> percent <= threshold
    ensures o != Passed ==> o == Failed(percent, threshold) && percent > threshold
  {
    if percent <= threshold then Passed else Failed(percent, threshold)
  }

  /** The instant check of a smoothed series: its trend, in percent, is at
      most 3. With fewer than two values `trend` cannot unpack its last two
      points and the test errors. */
  function InstantCheck(v: seq<real>): (o: Outcome)
    ensures o == Errored <==> |v| < 2
  {
    if |v| < 2 then Errored else AssertLessEqual(Trend(v) * 100.0, INSTANT_THRESHOLD)
  }

  /** The percentage the long check measures: the trend from the minimum of
      the last `window` values to the final value of the raising run. */
  function LongPercent(v: seq<real>, window: nat): real
    requires RaisingRun(v) != []
  {
    var run := RaisingRun(v);
    Trend([Min(LastWindow(v, window)), run[|run| - 1].1]) * 100.0
  }

  /** The long check: no raising run, nothing asserted and the test passes;
      otherwise its percentage is at most 15 (see `LongCheckIff`). */
  function LongCheck(v: seq<real>, window: nat): Outcome
  {
    if RaisingRun(v) == [] then Passed else AssertLessEqual(LongPercent(v, window), LONG_THRESHOLD)
  }

  lemma MulLe(a: real, x: real, y: real)
    requires a > 0.0
    ensures x <= y <==> a * x <= a * y
  {
    if x <= y {
      assert a * (y - x) >= 0.0;
    } else {
      assert a * (x - y) > 0.0;
    }
  }

  /** Against a positive baseline, a trend of at most `limit` percent means the
      last point is at most `limit` percent above the baseline. */
  lemma TrendPercentAtMost(p: seq<real>, limit: real)
    requires |p| >= 2 && p[|p| - 2] > 0.0
    ensures Trend(p) * 100.0 <= limit <==> p[|p| - 1] <= (1.0 + limit / 100.0) * p[|p| - 2]
  {
    var y1 := p[|p| - 2];
    var y2 := p[|p| - 1];
    TrendSign(p);
    var t := Trend(p);
    assert y1 * t == y2 - y1;
    MulLe(y1, t, limit / 100.0);
    assert t * 100.0 <= limit <==> t <= limit / 100.0;
    assert y1 * (limit / 100.0) + y1 == (1.0 + limit / 100.0) * y1;
  }

  /** Against a negative baseline the inequality flips: a trend of at most
      `limit` percent means the last point is at least `1 + limit/100` times
      the baseline, so a point that fell far enough below it counts as a rise. */
  lemma TrendPercentAtMostNegative(p: seq<real>, limit: real)
    requires |p| >= 2 && p[|p| - 2] < 0.0
    ensures Trend(p) * 100.0 <= limit <==> p[|p| - 1] >= (1.0 + limit / 100.0) * p[|p| - 2]
  {
    var y1 := p[|p| - 2];
    var y2 := p[|p| - 1];
    TrendSign(p);
    var t := Trend(p);
    assert y1 * t == y2 - y1;
    MulLe(-y1, t, limit / 100.0);
    assert t * 100.0 <= limit <==> t <= limit / 100.0;
    assert y1 * (limit / 100.0) + y1 == (1.0 + limit / 100.0) * y1;
  }

  /** The instant check passes iff the trend of the last two values is at
      most 3 percent. Spelled out by the sign of the last-but-one value: when
      it is positive, iff the last value is at most 3% above it; when it is
      negative, iff the last value is at least 1.03 times it (a fall below it
      fails); when it is zero, always. When it fails it reports its
      percentage against the threshold 3. */
  lemma InstantCheckIff(v: seq<real>)
    requires |v| >= 2
    ensures InstantCheck(v) == Passed <==> Trend(v) * 100.0 <= 3.0
    ensures v[|v| - 2] > 0.0 ==> (InstantCheck(v) == Passed <==> v[|v| - 1] <= 1.03 * v[|v| - 2])
    ensures v[|v| - 2] < 0.0 ==> (InstantCheck(v) == Passed <==> v[|v| - 1] >= 1.03 * v[|v| - 2])
    ensures v[|v| - 2] == 0.0 ==> InstantCheck(v) == Passed
    ensures InstantCheck(v) != Passed ==> InstantCheck(v) == Failed(Trend(v) * 100.0, 3.0)
  {
    if v[|v| - 2] > 0.0 {
      TrendPercentAtMost(v, 3.0);
    } else if v[|v| - 2] < 0.0 {
      TrendPercentAtMostNegative(v, 3.0);
    }
  }

  /** A series that falls from one negative value to a lower one fails the
      instant check: the relative change is taken against a negative base. */
  lemma FallingNegativeSeriesFails()
    ensures InstantCheck([-1.0, -2.0]) == Failed(100.0, 3.0)
  {
    InstantCheckIff([-1.0, -2.0]);
  }

  /** The long check measures from the minimum of the window to the final value. */
  lemma LongPercentIs(v: seq<real>, window: nat)
    requires RaisingRun(v) != []
    ensures LongPercent(v, window) == Trend([Min(LastWindow(v, window)), v[|v| - 1]]) * 100.0
  {
    RaisingRunSpec(v);
  }

  /** Against a positive window minimum the long percentage is never
      negative: the final value lies in the window, so it is not below the
      minimum. */
  lemma LongPercentNonNegative(v: seq<real>, window: nat)
    requires RaisingRun(v) != []
    requires Min(LastWindow(v, window)) > 0.0
    ensures LongPercent(v, window) >= 0.0
  {
    LongPercentIs(v, window);
    WindowMinAtMostLast(v, window);
    TrendNonNegative([Min(LastWindow(v, window)), v[|v| - 1]]);
  }

  /** The final value lies in every window, so the window minimum is not above it. */
  lemma WindowMinAtMostLast(v: seq<real>, window: nat)
    requires |v| >= 1
    ensures Min(LastWindow(v, window)) <= v[|v| - 1]
  {
    var w := LastWindow(v, window);
    assert |w| >= 1;
    assert w[|w| - 1] == v[|v| - 1];
  }

  lemma TrendNonNegative(p: seq<real>)
    requires |p| >= 2 && 0.0 < p[|p| - 2] <= p[|p| - 1]
    ensures Trend(p) >= 0.0
  {
    TrendSign(p);
  }

  /** The long check passes when the series did not rise at its last step;
      otherwise it passes iff its percentage is at most 15, which against a
      positive window minimum means the final value is at most 15% above that
      minimum; when it fails it reports its percentage against the threshold
      15. */
  lemma LongCheckIff(v: seq<real>, window: nat)
    ensures !(|v| >= 2 && v[|v| - 1] > v[|v| - 2]) ==> LongCheck(v, window) == Passed
    ensures RaisingRun(v) != [] ==> (LongCheck(v, window) == Passed <==> LongPercent(v, window) <= 15.0)
    ensures |v| >= 2 && v[|v| - 1] > v[|v| - 2] && Min(LastWindow(v, window)) > 0.0 ==>
      (LongCheck(v, window) == Passed <==> v[|v| - 1] <= 1.15 * Min(LastWindow(v, window)))
    ensures LongCheck(v, window) != Passed ==> RaisingRun(v) != [] && LongCheck(v, window) == Failed(LongPercent(v, window), 15.0)
    ensures LongCheck(v, window) != Errored
  {
    RaisingRunIff(v);
    if RaisingRun(v) != [] {
      LongCheckPercent(v, window);
      if Min(LastWindow(v, window)) > 0.0 {
        LongCheckPositiveMin(v, window);
      }
    }
  }

  /** Against a positive window minimum, 15 percent means at most 1.15 times
      the minimum. */
  lemma LongCheckPositiveMin(v: seq<real>, window: nat)
    requires RaisingRun(v) != []
    requires Min(LastWindow(v, window)) > 0.0
    ensures LongCheck(v, window) == Passed <==> v[|v| - 1] <= 1.15 * Min(LastWindow(v, window))
  {
    LongPercentIs(v, window);
    TrendPercentAtMost([Min(LastWindow(v, window)), v[|v| - 1]], 15.0);
  }

  /** With a raising run the long check is its `assertLessEqual`. */
  lemma LongCheckPercent(v: seq<real>, window: nat)
    requires RaisingRun(v) != []
    ensures LongCheck(v, window) == Passed <==> LongPercent(v, window) <= 15.0
  {
  }

  /** From a baseline at or below zero to a point not below it the trend is
      at most 0. */
  lemma TrendFromNonPositive(y1: real, y2: real)
    requires y1 <= 0.0 && y1 <= y2
    ensures Trend([y1, y2]) <= 0.0
  {
    if y1 < 0.0 {
      TrendPercentAtMostNegative([y1, y2], 0.0);
    }
  }

  /** Against a window minimum at or below zero the long check always passes:
      the final value is not below the minimum, so the relative change from a
      negative minimum is at most 0, and from a zero minimum it is 0. */
  lemma LongCheckNonPositiveMin(v: seq<real>, window: nat)
    requires |v| >= 1
    requires Min(LastWindow(v, window)) <= 0.0
    ensures LongCheck(v, window) == Passed
  {
    if RaisingRun(v) != [] {
      LongCheckPercent(v, window);
      LongPercentIs(v, window);
      WindowMinAtMostLast(v, window);
      TrendFromNonPositive(Min(LastWindow(v, window)), v[|v| - 1]);
    }
  }

  /** A flat series has no raising run and passes both checks. */
  lemma ConstantSeriesPasses(v: seq<real>, c: real, window: nat)
    requires |v| >= 2
    requires forall i :: 0 <= i < |v| ==> v[i] == c
    ensures RaisingRun(v) == []
    ensures InstantCheck(v) == Passed
    ensures LongCheck(v, window) == Passed
  {
    RaisingRunIff(v);
    LongCheckIff(v, window);
    TrendSign(v);
  }

  /** A metric whose samples never change is smoothed to the same constant
      and passes both of its checks. */
  lemma ConstantMetricPasses(x: seq<real>, c: real, span: nat, beta: real, window: nat)
    requires |x| >= 2
    requires forall j :: 0 <= j < |x| ==> x[j] == c
    ensures InstantCheck(Levels(x, span, beta)) == Passed
    ensures LongCheck(Levels(x, span, beta), window) == Passed
  {
    ConstantLevels(x, c, span, beta);
    ConstantSeriesPasses(Levels(x, span, beta), c, window);
  }

  /** The smoothing overshoots: non-negative medians that drop to zero and
      stay there (window 2, the source's beta 0.3) are smoothed to levels
      below zero, and the last step, a further fall, fails the instant check
      because its change is measured against a negative base. */
  lemma {:induction false} OvershootFailsInstantCheck()
    ensures Levels([100.0, 0.0, 0.0, 0.0, 0.0], 2, 0.3)[3] == -164.0 / 27.0
    ensures Levels([100.0, 0.0, 0.0, 0.0, 0.0], 2, 0.3)[4] == -3388.0 / 405.0
    ensures InstantCheck(Levels([100.0, 0.0, 0.0, 0.0, 0.0], 2, 0.3)).Failed?
  {
    var x := [100.0, 0.0, 0.0, 0.0, 0.0];
    var alpha := Alpha(2);
    assert alpha == 2.0 / 3.0;
    var h := HoltWinters(x, alpha, 0.3);
    HoltWintersAt(x, alpha, 0.3, 1);
    assert h.s[1] == 100.0 / 3.0 && h.b[1] == -20.0;
    HoltWintersAt(x, alpha, 0.3, 2);
    assert h.s[2] == 40.0 / 9.0 && h.b[2] == -68.0 / 3.0;
    HoltWintersAt(x, alpha, 0.3, 3);
    assert h.s[3] == -164.0 / 27.0;
    assert h.b[3] == -1712.0 / 90.0;
    HoltWintersAt(x, alpha, 0.3, 4);
    assert h.s[4] == -3388.0 / 405.0;
    InstantCheckIff(h.s);
  }

  // ---------------------------------------------------------------------
  // Named verdicts

  /** One generated test: its class, its name and what it does. */
  datatype Verdict = Verdict(testClass: string, testName: string, outcome: Outcome)

  /** `name.replace('.', '_')`. */
  function ReplaceDots(s: string): (r: string)
    ensures |r| == |s|
    ensures forall i :: 0 <= i < |s| ==> r[i] == if s[i] == '.' then '_' else s[i]
  {
    if s == [] then [] else [if s[0] == '.' then '_' else s[0]] + ReplaceDots(s[1..])
  }

  /** A replaced name has no dot left, and a name without dots is kept. */
  lemma ReplaceDotsSpec(s: string)
    ensures '.' !in ReplaceDots(s)
    ensures '.' !in s ==> ReplaceDots(s) == s
  {
  }

  function TestClassName(branch: string): string
  {
    "Test_" + branch
  }

  /** The instant and the long test of one smoothed series, in that order. */
  function RecordVerdicts(ma: MovingAverageRecord, window: nat): seq<Verdict>
  {
    [Verdict(TestClassName(ma.branch), "test_instant_" + ReplaceDots(ma.name), InstantCheck(ma.value)),
     Verdict(TestClassName(ma.branch), "test_long_" + ReplaceDots(ma.name), LongCheck(ma.value, window))]
  }

  /** The tests generated for all series, two per series, in series order. */
  function Verdicts(mas: seq<MovingAverageRecord>, window: nat): seq<Verdict>
  {
    Concat(seq(|mas|, j requires 0 <= j < |mas| => RecordVerdicts(mas[j], window)))
  }

  /** There are two tests per series: test `2 * i` is the instant check of
      series `i` and test `2 * i + 1` its long check; both sit in the class of
      the series' branch. */
  lemma VerdictsAt(mas: seq<MovingAverageRecord>, window: nat, i: nat)
    requires i < |mas|
    ensures |Verdicts(mas, window)| == |mas| + |mas|
    ensures Verdicts(mas, window)[i + i] == RecordVerdicts(mas[i], window)[0]
    ensures Verdicts(mas, window)[i + i + 1] == RecordVerdicts(mas[i], window)[1]
  {
    var blocks := seq(|mas|, j requires 0 <= j < |mas| => RecordVerdicts(mas[j], window));
    ConcatPairsAt(blocks, i);
  }
}
