/** The dashboard's summary statistics over real-valued series: the
    coefficient of determination of `calculateR2` and the mean absolute
    error shown beside it. Reals stand in for IEEE doubles. */
module Statistics {

  function Abs(x: real): (r: real)
    ensures r >= 0.0 && (r == x || r == -x)
  {
    if x < 0.0 then -x else x
  }

  /** `Math.pow(x, 2)`, computed as `|x| · |x|`. */
  function Square(x: real): (r: real)
    ensures x != 0.0 ==> r > 0.0
    ensures x == 0.0 ==> r == 0.0
  {
    var a := Abs(x);
    if a == 0.0 then 0.0 else PositiveProduct(a, a)
  }

  /** The product of two positive reals, which is positive. */
  function PositiveProduct(a: real, b: real): (r: real)
    requires a > 0.0 && b > 0.0
    ensures r > 0.0
  {
    a * b
  }

  function Sum(xs: seq<real>): real {
    if |xs| == 0 then 0.0 else xs[0] + Sum(xs[1..])
  }

  /** The arithmetic mean of a non-empty series. */
  function Mean(xs: seq<real>): real
    requires |xs| > 0
  {
    Sum(xs) / (|xs| as real)
  }

  /** `Σ (x − m)²`: the total sum of squares about `m`. */
  function Spread(xs: seq<real>, m: real): (r: real)
    ensures r >= 0.0
  {
    if |xs| == 0 then 0.0 else Square(xs[0] - m) + Spread(xs[1..], m)
  }

  /** `Σ (a_i − p_i)²`: the residual sum of squares. */
  function Residuals(a: seq<real>, p: seq<real>): (r: real)
    requires |a| == |p|
    ensures r >= 0.0
  {
    if |a| == 0 then 0.0 else Square(a[0] - p[0]) + Residuals(a[1..], p[1..])
  }

  /** `calculateR2`: `1 − ssRes / ssTot`, or 0 when the series differ in
      length, are empty, or the actual series has no spread. */
  function R2(actual: seq<real>, predicted: seq<real>): (r: real)
    ensures r <= 1.0
    ensures |actual| != |predicted| || |actual| == 0 ==> r == 0.0
  {
    if |actual| != |predicted| || |actual| == 0 then 0.0
    else
      var ssTot := Spread(actual, Mean(actual));
      var ssRes := Residuals(actual, predicted);
      if ssTot == 0.0 then 0.0 else 1.0 - ssRes / ssTot
  }

  /** All elements of `xs` equal `c`. */
  predicate Constant(xs: seq<real>, c: real) {
    forall i :: 0 <= i < |xs| ==> xs[i] == c
  }

  /** A sum of squares about `m` vanishes exactly when every element is `m`. */
  lemma {:induction false} SpreadZero(xs: seq<real>, m: real)
    ensures Spread(xs, m) == 0.0 <==> Constant(xs, m)
    decreases |xs|
  {
    if |xs| > 0 {
      SpreadZero(xs[1..], m);
      if Constant(xs, m) {
        assert Constant(xs[1..], m);
      }
      if Constant(xs[1..], m) && xs[0] == m {
        forall i | 0 <= i < |xs|
          ensures xs[i] == m
        {
          if i > 0 {
            assert xs[i] == xs[1..][i - 1];
          }
        }
      }
    }
  }

  /** The sum of a series whose elements all equal `c`. */
  lemma {:induction false} SumOfConstant(xs: seq<real>, c: real)
    requires Constant(xs, c)
    ensures Sum(xs) == (|xs| as real) * c
    decreases |xs|
  {
    if |xs| > 0 {
      SumOfConstant(xs[1..], c);
    }
  }

  /** The residuals vanish exactly when the two series coincide. */
  lemma {:induction false} ResidualsZero(a: seq<real>, p: seq<real>)
    requires |a| == |p|
    ensures Residuals(a, p) == 0.0 <==> a == p
    decreases |a|
  {
    if |a| > 0 {
      ResidualsZero(a[1..], p[1..]);
      if a[1..] == p[1..] && a[0] == p[0] {
        assert a == [a[0]] + a[1..] && p == [p[0]] + p[1..];
      }
    }
  }

  /** A non-empty actual series is constant exactly when it has no spread
      about its own mean, which is exactly when `calculateR2` falls back to
      0 for lack of variance. */
  lemma NoSpreadIffConstant(a: seq<real>)
    requires |a| > 0
    ensures Spread(a, Mean(a)) == 0.0 <==> Constant(a, a[0])
  {
    SpreadZero(a, Mean(a));
    if Constant(a, a[0]) {
      SumOfConstant(a, a[0]);
      assert Mean(a) == a[0];
    }
  }

  /** For an actual series with spread, the score is 1 exactly when the
      prediction is perfect. */
  lemma R2OneIffExact(a: seq<real>, p: seq<real>)
    requires |a| == |p| > 0 && !Constant(a, a[0])
    ensures R2(a, p) == 1.0 <==> a == p
  {
    NoSpreadIffConstant(a);
    ResidualsZero(a, p);
    var ssTot := Spread(a, Mean(a));
    var ssRes := Residuals(a, p);
    assert ssTot > 0.0;
    if ssRes != 0.0 {
      assert ssRes / ssTot > 0.0;
    }
  }

  /** A constant actual series scores 0, whatever the prediction. */
  lemma R2OfConstant(a: seq<real>, p: seq<real>)
    requires |a| > 0 && Constant(a, a[0])
    ensures R2(a, p) == 0.0
  {
    NoSpreadIffConstant(a);
  }

  /** The mean absolute value of a non-empty series: the average error. */
  function MeanAbs(xs: seq<real>): (r: real)
    requires |xs| > 0
    ensures r >= 0.0
  {
    SumAbsNonNegative(xs);
    SumAbs(xs) / (|xs| as real)
  }

  function SumAbs(xs: seq<real>): real {
    if |xs| == 0 then 0.0 else Abs(xs[0]) + SumAbs(xs[1..])
  }

  lemma {:induction false} SumAbsNonNegative(xs: seq<real>)
    ensures SumAbs(xs) >= 0.0
    decreases |xs|
  {
    if |xs| > 0 {
      SumAbsNonNegative(xs[1..]);
    }
  }

  /** Every magnitude at most `b` bounds the sum by `|xs| * b`. */
  lemma {:induction false} SumAbsBounded(xs: seq<real>, b: real)
    requires forall i :: 0 <= i < |xs| ==> Abs(xs[i]) <= b
    ensures SumAbs(xs) <= (|xs| as real) * b
    decreases |xs|
  {
    if |xs| > 0 {
      SumAbsBounded(xs[1..], b);
    }
  }

  /** The average error never exceeds the largest single error. */
  lemma MeanAbsBounded(xs: seq<real>, b: real)
    requires |xs| > 0
    requires forall i :: 0 <= i < |xs| ==> Abs(xs[i]) <= b
    ensures MeanAbs(xs) <= b
  {
    SumAbsBounded(xs, b);
    var n := |xs| as real;
    assert SumAbs(xs) / n <= (n * b) / n;
  }
}
