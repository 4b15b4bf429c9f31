/** Sums and arithmetic means over reals (np.mean without its rounding). */
module Averages {

  function Sum(xs: seq<real>): real
  {
    if |xs| == 0 then 0.0 else xs[0] + Sum(xs[1..])
  }

  function Mean(xs: seq<real>): real
    requires |xs| > 0
  {
    Sum(xs) / (|xs| as real)
  }

  lemma {:induction false} SumAppend(a: seq<real>, b: seq<real>)
    ensures Sum(a + b) == Sum(a) + Sum(b)
  {
    if a == [] {
      assert a + b == b;
    } else {
      assert (a + b)[0] == a[0];
      assert (a + b)[1..] == a[1..] + b;
      SumAppend(a[1..], b);
    }
  }

  /** Every element of `xs` moved by `c`. */
  function Offset(xs: seq<real>, c: real): (ys: seq<real>)
    ensures |ys| == |xs|
    ensures forall k :: 0 <= k < |xs| ==> ys[k] == xs[k] + c
  {
    seq(|xs|, k requires 0 <= k < |xs| => xs[k] + c)
  }

  lemma {:induction false} SumOffset(xs: seq<real>, c: real)
    ensures Sum(Offset(xs, c)) == Sum(xs) + (|xs| as real) * c
  {
    if xs != [] {
      assert Offset(xs, c)[1..] == Offset(xs[1..], c);
      SumOffset(xs[1..], c);
    }
  }

  /** Moving every sample by `c` moves the mean by `c`. */
  lemma MeanOffset(xs: seq<real>, c: real)
    requires |xs| > 0
    ensures Mean(Offset(xs, c)) == Mean(xs) + c
  {
    SumOffset(xs, c);
    var n := |xs| as real;
    calc {
      Mean(Offset(xs, c));
      (Sum(xs) + n * c) / n;
      Sum(xs) / n + c;
    }
  }

  lemma {:induction false} SumConstant(xs: seq<real>, c: real)
    requires forall k :: 0 <= k < |xs| ==> xs[k] == c
    ensures Sum(xs) == (|xs| as real) * c
  {
    if xs != [] {
      SumConstant(xs[1..], c);
    }
  }

  /** The mean of samples that all equal `c` is `c`. */
  lemma MeanConstant(xs: seq<real>, c: real)
    requires |xs| > 0
    requires forall k :: 0 <= k < |xs| ==> xs[k] == c
    ensures Mean(xs) == c
  {
    SumConstant(xs, c);
  }
}
