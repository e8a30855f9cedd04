/** Feature standardization (`standardize_features` in src/preprocess.py):
    each feature column is centred on its training mean and divided by its
    training standard deviation, a deviation of 0 being replaced by 1. A
    block is given column by column: `block[j]` holds the values of feature
    j, one per row. */
module Standardize {

  function Sum(xs: seq<real>): real
  {
    if xs == [] then 0.0 else Sum(xs[..|xs| - 1]) + xs[|xs| - 1]
  }

  /** The arithmetic mean of a column (pandas `mean`). */
  function Mean(xs: seq<real>): (m: real)
    requires |xs| > 0
    ensures m * |xs| as real == Sum(xs)
  {
    Sum(xs) / |xs| as real
  }

  /** The divisor used for a feature: its deviation, or 1 when the
      deviation is 0 (`replace(0, 1)`). */
  function Scale(std: real): (s: real)
    ensures s != 0.0
    ensures std != 0.0 ==> s == std
    ensures std == 0.0 ==> s == 1.0
  {
    if std == 0.0 then 1.0 else std
  }

  /** `x - mean` for every value of a column. */
  function Centre(xs: seq<real>, mean: real): (ys: seq<real>)
    ensures |ys| == |xs|
  {
    seq(|xs|, i requires 0 <= i < |xs| => xs[i] - mean)
  }

  /** `y / d` for every value of a column. */
  function Divide(ys: seq<real>, d: real): (zs: seq<real>)
    requires d != 0.0
    ensures |zs| == |ys|
  {
    seq(|ys|, i requires 0 <= i < |ys| => ys[i] / d)
  }

  /** `(x - mean) / scale` for every value of a column. */
  function StandardizeColumn(xs: seq<real>, mean: real, std: real): (zs: seq<real>)
    ensures |zs| == |xs|
  {
    Divide(Centre(xs, mean), Scale(std))
  }

  /** The inverse transform, `z * scale + mean`, which replays the stored
      parameters on standardized values. */
  function Destandardize(zs: seq<real>, mean: real, std: real): (xs: seq<real>)
    ensures |xs| == |zs|
  {
    seq(|zs|, i requires 0 <= i < |zs| => zs[i] * Scale(std) + mean)
  }

  /** Standardizing loses nothing: undoing it gives the column back, so no
      two values are mapped to the same result. */
  lemma RoundTrip(xs: seq<real>, mean: real, std: real)
    ensures Destandardize(StandardizeColumn(xs, mean, std), mean, std) == xs
  {
    var zs := StandardizeColumn(xs, mean, std);
    forall i | 0 <= i < |xs|
      ensures Destandardize(zs, mean, std)[i] == xs[i]
    {
      assert zs[i] == (xs[i] - mean) / Scale(std);
    }
  }

  /** The four results: standardized train and test blocks, the training
      means and the divisors actually used. */
  datatype Standardized = Standardized(train: seq<seq<real>>, test: seq<seq<real>>, means: seq<real>, scales: seq<real>)

  /** Fits the means on the training block, substitutes 1 for zero
      deviations and applies the same transform to both blocks. `stds`
      holds the sample standard deviations of the training columns. */
  function StandardizeFeatures(train: seq<seq<real>>, test: seq<seq<real>>, stds: seq<real>): (r: Standardized)
    requires |test| == |train| && |stds| == |train|
    requires forall j :: 0 <= j < |train| ==> |train[j]| > 0
    ensures |r.train| == |r.test| == |r.means| == |r.scales| == |train|
    ensures forall j :: 0 <= j < |train| ==>
      r.means[j] == Mean(train[j]) && r.scales[j] != 0.0 && (stds[j] != 0.0 ==> r.scales[j] == stds[j]) &&
      (stds[j] == 0.0 ==> r.scales[j] == 1.0) &&
      |r.train[j]| == |train[j]| && |r.test[j]| == |test[j]| &&
      Sum(r.train[j]) == 0.0 &&
      Destandardize(r.train[j], r.means[j], stds[j]) == train[j] &&
      Destandardize(r.test[j], r.means[j], stds[j]) == test[j]
  {
    var means := seq(|train|, j requires 0 <= j < |train| => Mean(train[j]));
    var scales := seq(|train|, j requires 0 <= j < |train| => Scale(stds[j]));
    var r := Standardized(
      seq(|train|, j requires 0 <= j < |train| => StandardizeColumn(train[j], means[j], stds[j])),
      seq(|train|, j requires 0 <= j < |train| => StandardizeColumn(test[j], means[j], stds[j])),
      means, scales);
    forall j | 0 <= j < |train|
      ensures Sum(r.train[j]) == 0.0
      ensures Destandardize(r.train[j], r.means[j], stds[j]) == train[j]
      ensures Destandardize(r.test[j], r.means[j], stds[j]) == test[j]
    {
      ColumnFacts(train[j], test[j], stds[j]);
    }
    r
  }

  /** What one feature column gets: the training values centred on their
      own mean, and both columns recoverable from the parameters. */
  lemma ColumnFacts(xs: seq<real>, ys: seq<real>, std: real)
    requires |xs| > 0
    ensures Sum(StandardizeColumn(xs, Mean(xs), std)) == 0.0
    ensures Destandardize(StandardizeColumn(xs, Mean(xs), std), Mean(xs), std) == xs
    ensures Destandardize(StandardizeColumn(ys, Mean(xs), std), Mean(xs), std) == ys
  {
    CenteredSum(xs, std);
    RoundTrip(xs, Mean(xs), std);
    RoundTrip(ys, Mean(xs), std);
  }

  /** Centring a column by `m` lowers its sum by `n * m`. */
  lemma {:induction false} SumCentre(xs: seq<real>, m: real)
    ensures Sum(Centre(xs, m)) == Sum(xs) - |xs| as real * m
  {
    if xs != [] {
      var n := |xs| - 1;
      var ys := Centre(xs, m);
      assert Centre(xs[..n], m) == ys[..n];
      SumCentre(xs[..n], m);
      assert xs[..|xs| - 1] == xs[..n];
      assert |xs| as real * m == n as real * m + m;
    }
  }

  /** Dividing every value by `d` divides the sum by `d`. */
  lemma {:induction false} SumDivide(ys: seq<real>, d: real)
    requires d != 0.0
    ensures Sum(Divide(ys, d)) == Sum(ys) / d
  {
    if ys != [] {
      var n := |ys| - 1;
      var zs := Divide(ys, d);
      assert Divide(ys[..n], d) == zs[..n];
      SumDivide(ys[..n], d);
      assert ys[..|ys| - 1] == ys[..n];
      DivAdd(Sum(ys[..n]), ys[n], d);
    }
  }

  lemma DivAdd(a: real, b: real, d: real)
    requires d != 0.0
    ensures a / d + b / d == (a + b) / d
  {
  }

  lemma MulDivCancel(s: real, n: real)
    requires n != 0.0
    ensures n * (s / n) == s
  {
  }

  /** A training column standardized with its own mean sums to 0, so its
      mean after the transform is 0. */
  lemma CenteredSum(xs: seq<real>, std: real)
    requires |xs| > 0
    ensures Sum(StandardizeColumn(xs, Mean(xs), std)) == 0.0
  {
    var m, d := Mean(xs), Scale(std);
    var c := Centre(xs, m);
    SumCentre(xs, m);
    MulDivCancel(Sum(xs), |xs| as real);
    assert Sum(c) == 0.0;
    SumDivide(c, d);
    assert StandardizeColumn(xs, m, std) == Divide(c, d);
  }

  /** The sum of a column whose values all equal `c`. */
  lemma {:induction false} SumConstant(xs: seq<real>, c: real)
    requires forall i :: 0 <= i < |xs| ==> xs[i] == c
    ensures Sum(xs) == |xs| as real * c
  {
    if xs != [] {
      SumConstant(xs[..|xs| - 1], c);
    }
  }

  /** A constant training column: its mean is the constant, its deviation
      0 is replaced by 1, and every standardized value is 0. */
  lemma ConstantColumn(xs: seq<real>, c: real)
    requires |xs| > 0
    requires forall i :: 0 <= i < |xs| ==> xs[i] == c
    ensures Mean(xs) == c
    ensures Scale(0.0) == 1.0
    ensures forall i :: 0 <= i < |xs| ==> StandardizeColumn(xs, Mean(xs), 0.0)[i] == 0.0
  {
    SumConstant(xs, c);
  }

  /** No leakage: the test block has no influence on the means, the
      divisors or the standardized training block. */
  lemma NoLeakage(train: seq<seq<real>>, test1: seq<seq<real>>, test2: seq<seq<real>>, stds: seq<real>)
    requires |test1| == |train| && |test2| == |train| && |stds| == |train|
    requires forall j :: 0 <= j < |train| ==> |train[j]| > 0
    ensures var r1, r2 := StandardizeFeatures(train, test1, stds), StandardizeFeatures(train, test2, stds);
      r1.means == r2.means && r1.scales == r2.scales && r1.train == r2.train
  {
  }
}
