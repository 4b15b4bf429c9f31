/** The smoothing helpers: exponential_moving_average (stabilizing.py:198-203)
    and moving_average_filter (stabilizing.py:188-196). */
module Smoothing {
  import opened Wrappers
  import opened Averages
  import opened Matrices
  import opened Video

  /** One pass of the EMA loop body: blend, then divide by the bottom-right
      entry. A non-finite matrix stays non-finite. */
  function EmaStep(s: Option<Matrix3>, h: Matrix3, alpha: real): Option<Matrix3>
  {
    if s.Some? then Normalise(Blend(s.value, h, alpha)) else None
  }

  /** The EMA loop run over `hs` from the state `s`, first element first. */
  function EmaFrom(s: Option<Matrix3>, hs: seq<Matrix3>, alpha: real): Option<Matrix3>
    decreases |hs|
  {
    if hs == [] then s else EmaFrom(EmaStep(s, hs[0], alpha), hs[1..], alpha)
  }

  /** exponential_moving_average(hs, alpha): the fold from the identity. */
  function Ema(hs: seq<Matrix3>, alpha: real): Option<Matrix3>
  {
    EmaFrom(Some(Identity()), hs, alpha)
  }

  lemma {:induction false} EmaFromAppend(s: Option<Matrix3>, hs: seq<Matrix3>, h: Matrix3, alpha: real)
    ensures EmaFrom(s, hs + [h], alpha) == EmaStep(EmaFrom(s, hs, alpha), h, alpha)
    decreases |hs|
  {
    if hs != [] {
      assert (hs + [h])[1..] == hs[1..] + [h];
      EmaFromAppend(EmaStep(s, hs[0], alpha), hs[1..], h, alpha);
    }
  }

  /** Recomputing the EMA over the whole history after appending `h` gives
      what one more incremental step from the previous EMA gives. */
  lemma EmaAppend(hs: seq<Matrix3>, h: Matrix3, alpha: real)
    ensures Ema(hs + [h], alpha) == EmaStep(Ema(hs, alpha), h, alpha)
  {
    EmaFromAppend(Some(Identity()), hs, h, alpha);
  }

  /** Every finite EMA is normalised: its bottom-right entry is 1, for the
      empty history (the identity) and after every step. */
  lemma EmaNormalised(hs: seq<Matrix3>, alpha: real)
    ensures Ema(hs, alpha).Some? ==> Ema(hs, alpha).value[2][2] == 1.0
  {
    if hs != [] {
      var n := |hs| - 1;
      assert hs == hs[..n] + [hs[n]];
      EmaAppend(hs[..n], hs[n], alpha);
    }
  }

  /** When every homography is itself normalised the pivot is always 1, so
      the EMA never divides by zero. */
  lemma {:induction false} EmaFinite(hs: seq<Matrix3>, alpha: real)
    requires forall k :: 0 <= k < |hs| ==> hs[k][2][2] == 1.0
    ensures Ema(hs, alpha).Some?
  {
    if hs != [] {
      var n := |hs| - 1;
      assert hs == hs[..n] + [hs[n]];
      EmaFinite(hs[..n], alpha);
      EmaNormalised(hs[..n], alpha);
      EmaAppend(hs[..n], hs[n], alpha);
    }
  }

  function Pow(b: real, n: nat): real
  {
    if n == 0 then 1.0 else b * Pow(b, n - 1)
  }

  lemma BlendOfClosedForm(hij: real, iij: real, p: real, alpha: real)
    ensures (1.0 - alpha) * (hij + p * (iij - hij)) + alpha * hij
         == hij + ((1.0 - alpha) * p) * (iij - hij)
  {
  }

  /** h + w * (I - h): the point a weight w of the way from h back to the
      identity. */
  function Towards(h: Matrix3, w: real): (m: Matrix3)
    ensures forall i, j :: 0 <= i < 3 && 0 <= j < 3 ==>
      m[i][j] == h[i][j] + w * (Identity()[i][j] - h[i][j])
  {
    seq(3, i requires 0 <= i < 3 =>
      seq(3, j requires 0 <= j < 3 => h[i][j] + w * (Identity()[i][j] - h[i][j])))
  }

  /** One EMA step towards a normalised h scales the remaining weight on the
      identity by 1 - alpha. */
  lemma TowardsStep(h: Matrix3, p: real, alpha: real)
    requires h[2][2] == 1.0
    ensures EmaStep(Some(Towards(h, p)), h, alpha) == Some(Towards(h, (1.0 - alpha) * p))
  {
    var b := Blend(Towards(h, p), h, alpha);
    var t := Towards(h, (1.0 - alpha) * p);
    forall i, j | 0 <= i < 3 && 0 <= j < 3
      ensures b[i][j] == t[i][j]
    {
      BlendOfClosedForm(h[i][j], Identity()[i][j], p, alpha);
    }
    MatrixEquality(b, t);
    assert b[2][2] == 1.0;
    MatrixEquality(Normalise(b).value, b);
  }

  /** The EMA of n copies of a normalised h, in closed form:
      h + (1 - alpha)^n * (I - h). */
  lemma {:induction false} EmaOfConstant(h: Matrix3, n: nat, alpha: real)
    requires h[2][2] == 1.0
    ensures Ema(Copies(n, h), alpha) == Some(Towards(h, Pow(1.0 - alpha, n)))
  {
    if n == 0 {
      assert Copies(0, h) == [];
      MatrixEquality(Identity(), Towards(h, 1.0));
    } else {
      var p := Pow(1.0 - alpha, n - 1);
      EmaOfConstant(h, n - 1, alpha);
      assert Ema(Copies(n, h), alpha) == EmaStep(Ema(Copies(n - 1, h), alpha), h, alpha) by {
        assert Copies(n, h) == Copies(n - 1, h) + [h];
        EmaAppend(Copies(n - 1, h), h, alpha);
      }
      TowardsStep(h, p, alpha);
      assert Pow(1.0 - alpha, n) == (1.0 - alpha) * p;
    }
  }

  lemma MulNonNegative(a: real, b: real)
    requires a >= 0.0 && b >= 0.0
    ensures a * b >= 0.0
  {
  }

  lemma ScaleMonotone(p: real, x: real, y: real)
    requires p >= 0.0 && x <= y
    ensures p * x <= p * y
  {
  }

  lemma Regroup(a: real, b: real, c: real)
    ensures (a * b) * c == b * (a * c)
  {
  }

  lemma DecayStep(alpha: real, m: real)
    requires 0.0 < alpha < 1.0 && m >= 0.0
    ensures (1.0 - alpha) * (1.0 + (m + 1.0) * alpha) <= 1.0 + m * alpha
  {
    assert (1.0 - alpha) * (1.0 + (m + 1.0) * alpha)
        == 1.0 + m * alpha - alpha * (m * alpha + alpha);
    MulNonNegative(alpha, m * alpha + alpha);
  }

  /** A bound on the decay factor: (1 - alpha)^n * (1 + n * alpha) <= 1. */
  lemma {:induction false} PowDecay(alpha: real, n: nat)
    requires 0.0 < alpha < 1.0
    ensures 0.0 <= Pow(1.0 - alpha, n)
    ensures Pow(1.0 - alpha, n) * (1.0 + (n as real) * alpha) <= 1.0
  {
    if n > 0 {
      PowDecay(alpha, n - 1);
      var b := 1.0 - alpha;
      var p := Pow(b, n - 1);
      var m := (n - 1) as real;
      assert Pow(b, n) == b * p;
      MulNonNegative(b, p);
      assert (n as real) == m + 1.0;
      Regroup(b, p, 1.0 + (m + 1.0) * alpha);
      DecayStep(alpha, m);
      ScaleMonotone(p, b * (1.0 + (m + 1.0) * alpha), 1.0 + m * alpha);
    }
  }

  function Abs(x: real): real { if x < 0.0 then -x else x }

  lemma AbsScale(p: real, d: real)
    requires p >= 0.0
    ensures Abs(p * d) == p * Abs(d)
  {
  }

  /** Convergence towards a constant normalised input: after n steps every
      entry is within |I - h| / (1 + n * alpha) of h. */
  lemma EmaConverges(h: Matrix3, n: nat, alpha: real, i: int, j: int)
    requires h[2][2] == 1.0 && 0.0 < alpha < 1.0
    requires 0 <= i < 3 && 0 <= j < 3
    ensures Ema(Copies(n, h), alpha).Some?
    ensures Abs(Ema(Copies(n, h), alpha).value[i][j] - h[i][j]) * (1.0 + (n as real) * alpha)
         <= Abs(Identity()[i][j] - h[i][j])
  {
    EmaOfConstant(h, n, alpha);
    ClosedFormConverges(Towards(h, Pow(1.0 - alpha, n)), h, n, alpha, i, j);
  }

  lemma ClosedFormConverges(m: Matrix3, h: Matrix3, n: nat, alpha: real, i: int, j: int)
    requires 0.0 < alpha < 1.0 && 0 <= i < 3 && 0 <= j < 3
    requires m[i][j] == h[i][j] + Pow(1.0 - alpha, n) * (Identity()[i][j] - h[i][j])
    ensures Abs(m[i][j] - h[i][j]) * (1.0 + (n as real) * alpha) <= Abs(Identity()[i][j] - h[i][j])
  {
    PowDecay(alpha, n);
    ScaledDistance(m[i][j], h[i][j], Identity()[i][j], Pow(1.0 - alpha, n), 1.0 + (n as real) * alpha);
  }

  lemma ScaledDistance(v: real, target: real, start: real, p: real, q: real)
    requires v == target + p * (start - target)
    requires p >= 0.0 && p * q <= 1.0
    ensures Abs(v - target) * q <= Abs(start - target)
  {
    var e := start - target;
    AbsScale(p, e);
    Regroup(p, Abs(e), q);
    ScaleMonotone(Abs(e), p * q, 1.0);
  }

  /** exponential_moving_average as the source's loop. */
  method ExponentialMovingAverage(hs: seq<Matrix3>, alpha: real) returns (smoothed: Option<Matrix3>)
    ensures smoothed == Ema(hs, alpha)
  {
    smoothed := Some(Identity());
    for k := 0 to |hs|
      invariant smoothed == Ema(hs[..k], alpha)
    {
      assert hs[..k + 1] == hs[..k] + [hs[k]];
      EmaAppend(hs[..k], hs[k], alpha);
      if smoothed.Some? {
        smoothed := Normalise(Blend(smoothed.value, hs[k], alpha));
      }
    }
    assert hs[..|hs|] == hs;
  }

  /** First index of the window that ends at i: max(0, i - size + 1). */
  function WindowStart(i: int, size: int): int
  {
    if i - size + 1 > 0 then i - size + 1 else 0
  }

  /** moving_average_filter: element i is the mean of the inputs from
      WindowStart(i, size) to i inclusive. */
  function MovingAverage(xs: seq<real>, size: int): (ys: seq<real>)
    requires size >= 1
    ensures |ys| == |xs|
  {
    seq(|xs|, i requires 0 <= i < |xs| => Mean(xs[WindowStart(i, size)..i + 1]))
  }

  /** The window ending at i holds min(i + 1, size) samples. */
  lemma WindowLength(xs: seq<real>, size: int, i: int)
    requires size >= 1 && 0 <= i < |xs|
    ensures |xs[WindowStart(i, size)..i + 1]| == if i + 1 < size then i + 1 else size
  {
  }

  /** A constant input gives the same constant output, of the same length. */
  lemma MovingAverageConstant(xs: seq<real>, size: int, c: real)
    requires size >= 1
    requires forall k :: 0 <= k < |xs| ==> xs[k] == c
    ensures |MovingAverage(xs, size)| == |xs|
    ensures forall i :: 0 <= i < |xs| ==> MovingAverage(xs, size)[i] == c
  {
    forall i | 0 <= i < |xs|
      ensures MovingAverage(xs, size)[i] == c
    {
      MeanConstant(xs[WindowStart(i, size)..i + 1], c);
    }
  }

  /** A window of one sample leaves the input unchanged. */
  lemma MovingAverageUnitWindow(xs: seq<real>)
    ensures MovingAverage(xs, 1) == xs
  {
    forall i | 0 <= i < |xs|
      ensures MovingAverage(xs, 1)[i] == xs[i]
    {
      MeanConstant(xs[i..i + 1], xs[i]);
    }
  }

  /** moving_average_filter as the source's loop, with its two branches. */
  method MovingAverageFilter(xs: seq<real>, size: int) returns (averaged: seq<real>)
    requires size >= 1
    ensures averaged == MovingAverage(xs, size)
  {
    averaged := [];
    for i := 0 to |xs|
      invariant averaged == MovingAverage(xs[..i], size)
    {
      var avg;
      if i < size {
        avg := Mean(xs[..i + 1]);
      } else {
        avg := Mean(xs[i - size + 1..i + 1]);
      }
      assert xs[..i + 1][WindowStart(i, size)..i + 1] == xs[WindowStart(i, size)..i + 1];
      averaged := averaged + [avg];
      assert forall k :: 0 <= k < i ==> xs[..i + 1][WindowStart(k, size)..k + 1] == xs[..i][WindowStart(k, size)..k + 1];
    }
    assert xs[..|xs|] == xs;
  }
}
