/** The statistics of the analysis: the Holt-Winters second-order
    exponentially weighted moving average and the relative trend of the last
    two points. Values are exact reals rather than IEEE doubles. */
module Smoothing {

  /** The level series `s` and the slope series `b` of the recurrence. */
  datatype Smoothed = Smoothed(s: seq<real>, b: seq<real>)

  function Alpha(span: nat): (a: real)
    ensures 0.0 < a <= 2.0
    ensures a * (1.0 + span as real) == 2.0
  {
    2.0 / (1.0 + span as real)
  }

  /** The new level: alpha*x[i] + (1-alpha)*(s[i-1] + b[i-1]). */
  function NextLevel(alpha: real, xi: real, sPrev: real, bPrev: real): real
  {
    alpha * xi + (1.0 - alpha) * (sPrev + bPrev)
  }

  /** The new slope: beta*(s[i] - s[i-1]) + (1-beta)*b[i-1]. */
  function NextSlope(beta: real, sNew: real, sPrev: real, bPrev: real): real
  {
    beta * (sNew - sPrev) + (1.0 - beta) * bPrev
  }

  /** The level and slope series of the recurrence (stated index by index by
      `HoltWintersAt` below). */
  function HoltWinters(x: seq<real>, alpha: real, beta: real): (r: Smoothed)
    requires |x| >= 1
    ensures |r.s| == |x| && |r.b| == |x|
    ensures r.s[0] == x[0] && r.b[0] == 0.0
  {
    if |x| == 1 then Smoothed([x[0]], [0.0])
    else
      var n := |x| - 1;
      var p := HoltWinters(x[..n], alpha, beta);
      var s := NextLevel(alpha, x[n], p.s[n - 1], p.b[n - 1]);
      Smoothed(p.s + [s], p.b + [NextSlope(beta, s, p.s[n - 1], p.b[n - 1])])
  }

  /** The recurrence at index `i >= 1`:
      s[i] = alpha*x[i] + (1-alpha)*(s[i-1] + b[i-1]),
      b[i] = beta*(s[i] - s[i-1]) + (1-beta)*b[i-1]. */
  lemma {:induction false} HoltWintersAt(x: seq<real>, alpha: real, beta: real, i: nat)
    requires 1 <= i < |x|
    ensures HoltWinters(x, alpha, beta).s[i]
         == NextLevel(alpha, x[i], HoltWinters(x, alpha, beta).s[i - 1], HoltWinters(x, alpha, beta).b[i - 1])
    ensures HoltWinters(x, alpha, beta).b[i]
         == NextSlope(beta, HoltWinters(x, alpha, beta).s[i], HoltWinters(x, alpha, beta).s[i - 1], HoltWinters(x, alpha, beta).b[i - 1])
  {
    var n := |x| - 1;
    var p := HoltWinters(x[..n], alpha, beta);
    var r := HoltWinters(x, alpha, beta);
    assert r.s[..n] == p.s && r.b[..n] == p.b;
    assert r.s[i - 1] == p.s[i - 1] && r.b[i - 1] == p.b[i - 1];
    if i < n {
      HoltWintersAt(x[..n], alpha, beta, i);
      assert x[..n][i] == x[i];
      assert r.s[i] == p.s[i] && r.b[i] == p.b[i];
    }
  }

  /** The smoothed series that `holt_winters_second_order_ewma(x, span, beta)` returns. */
  function Levels(x: seq<real>, span: nat, beta: real): (s: seq<real>)
    requires |x| >= 1
    ensures |s| == |x|
  {
    HoltWinters(x, Alpha(span), beta).s
  }

  /** `holt_winters_second_order_ewma`: fills the level and slope arrays
      index by index and returns the level array. */
  method HoltWintersSecondOrderEwma(x: seq<real>, span: nat, beta: real) returns (s: array<real>)
    requires |x| >= 1
    ensures s[..] == Levels(x, span, beta)
  {
    var n := |x|;
    var alpha := Alpha(span);
    ghost var spec := HoltWinters(x, alpha, beta);
    s := new real[n](_ => 0.0);
    var b := new real[n](_ => 0.0);
    s[0] := x[0];
    for i := 1 to n
      invariant forall k :: 0 <= k < i ==> s[k] == spec.s[k] && b[k] == spec.b[k]
    {
      HoltWintersAt(x, alpha, beta, i);
      s[i] := NextLevel(alpha, x[i], s[i - 1], b[i - 1]);
      b[i] := NextSlope(beta, s[i], s[i - 1], b[i - 1]);
    }
    assert s[..] == spec.s;
  }

  /** A constant series stays at its level with zero slope. */
  lemma {:induction false} ConstantStateAt(x: seq<real>, c: real, alpha: real, beta: real, i: nat)
    requires |x| >= 1 && i < |x|
    requires forall j :: 0 <= j < |x| ==> x[j] == c
    ensures HoltWinters(x, alpha, beta).s[i] == c && HoltWinters(x, alpha, beta).b[i] == 0.0
  {
    if i > 0 {
      ConstantStateAt(x, c, alpha, beta, i - 1);
      HoltWintersAt(x, alpha, beta, i);
      var r := HoltWinters(x, alpha, beta);
      assert r.s[i] == NextLevel(alpha, c, c, 0.0);
    }
  }

  /** Smoothing a constant series gives back the same constant at every index. */
  lemma ConstantLevels(x: seq<real>, c: real, span: nat, beta: real)
    requires |x| >= 1
    requires forall j :: 0 <= j < |x| ==> x[j] == c
    ensures forall i :: 0 <= i < |x| ==> Levels(x, span, beta)[i] == c
  {
    forall i | 0 <= i < |x| ensures Levels(x, span, beta)[i] == c {
      ConstantStateAt(x, c, Alpha(span), beta, i);
    }
  }

  /** `trend(points)`: the relative change from the second-to-last point to
      the last, or 0 when the earlier point is 0. */
  function Trend(points: seq<real>): real
    requires |points| >= 2
  {
    var y1 := points[|points| - 2];
    var y2 := points[|points| - 1];
    if y1 != 0.0 then (y2 - y1) / y1 else 0.0
  }

  /** Only the last two points matter. */
  lemma TrendOfLastTwo(p: seq<real>, q: seq<real>)
    requires |p| >= 2 && |q| >= 2
    requires p[|p| - 2] == q[|q| - 2] && p[|p| - 1] == q[|q| - 1]
    ensures Trend(p) == Trend(q)
  {
  }

  /** Against a zero baseline the trend is neutral; against a positive one it
      is positive, zero or negative exactly as the last point rose, stayed or
      fell, and it is the relative change: baseline * (1 + trend) == last. */
  lemma TrendSign(p: seq<real>)
    requires |p| >= 2
    ensures p[|p| - 2] == 0.0 ==> Trend(p) == 0.0
    ensures p[|p| - 2] != 0.0 ==> p[|p| - 2] * (1.0 + Trend(p)) == p[|p| - 1]
    ensures p[|p| - 2] > 0.0 ==> (Trend(p) > 0.0 <==> p[|p| - 1] > p[|p| - 2])
    ensures p[|p| - 2] > 0.0 ==> (Trend(p) == 0.0 <==> p[|p| - 1] == p[|p| - 2])
  {
    var y1 := p[|p| - 2];
    var y2 := p[|p| - 1];
    if y1 != 0.0 {
      var t := (y2 - y1) / y1;
      assert t * y1 == y2 - y1;
      if y1 > 0.0 {
        assert t > 0.0 <==> t * y1 > 0.0;
        assert t == 0.0 <==> t * y1 == 0.0;
      }
    }
  }
}
