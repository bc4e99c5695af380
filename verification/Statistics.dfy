/** Mean and population variance over exact reals, and how the variances of groups
    of samples combine into the variance of all samples together. */
module Statistics {

  /** Products go through this function so that a proof can hide them and stay linear. */
  function Times(a: real, b: real): real { a * b }

  function Square(x: real): real { Times(x, x) }

  function Total(xs: seq<real>): real {
    if xs == [] then 0.0 else Total(xs[..|xs| - 1]) + xs[|xs| - 1]
  }

  function SquaresAbout(c: real, xs: seq<real>): real {
    if xs == [] then 0.0
    else SquaresAbout(c, xs[..|xs| - 1]) + Square(xs[|xs| - 1] - c)
  }

  function Size(xs: seq<real>): real { |xs| as real }

  function Mean(xs: seq<real>): real
    requires xs != []
  {
    Total(xs) / Size(xs)
  }

  /** The population variance: squared deviations divided by the number of samples. */
  function Variance(xs: seq<real>): real
    requires xs != []
  {
    SquaresAbout(Mean(xs), xs) / Size(xs)
  }

  function Concat(groups: seq<seq<real>>): seq<real> {
    if groups == [] then [] else Concat(groups[..|groups| - 1]) + groups[|groups| - 1]
  }

  /** Every group has at least one sample. */
  predicate NonEmpty(groups: seq<seq<real>>) {
    forall i :: 0 <= i < |groups| ==> groups[i] != []
  }

  function Means(groups: seq<seq<real>>): (ms: seq<real>)
    requires NonEmpty(groups)
    ensures |ms| == |groups|
  {
    if groups == [] then []
    else Means(groups[..|groups| - 1]) + [Mean(groups[|groups| - 1])]
  }

  /** Variance weighted by size. */
  function SizedVariance(g: seq<real>): real
    requires g != []
  {
    Times(Size(g), Variance(g))
  }

  /** Squared distance of the mean from m, weighted by size. */
  function Spread(m: real, g: seq<real>): real
    requires g != []
  {
    Times(Size(g), Square(Mean(g) - m))
  }

  /** Variance weighted by size minus one. */
  function PooledTerm(g: seq<real>): real
    requires g != []
  {
    Times(Size(g) - 1.0, Variance(g))
  }

  function Within(groups: seq<seq<real>>): real
    requires NonEmpty(groups)
  {
    if groups == [] then 0.0
    else Within(groups[..|groups| - 1]) + SizedVariance(groups[|groups| - 1])
  }

  function Between(m: real, groups: seq<seq<real>>): real
    requires NonEmpty(groups)
  {
    if groups == [] then 0.0
    else Between(m, groups[..|groups| - 1]) + Spread(m, groups[|groups| - 1])
  }

  function Pooled(groups: seq<seq<real>>): real
    requires NonEmpty(groups)
  {
    if groups == [] then 0.0
    else Pooled(groups[..|groups| - 1]) + PooledTerm(groups[|groups| - 1])
  }

  function Unweighted(groups: seq<seq<real>>): real
    requires NonEmpty(groups)
  {
    if groups == [] then 0.0
    else Unweighted(groups[..|groups| - 1]) + Variance(groups[|groups| - 1])
  }

  /** The pooled variance: the weighted sum over the number of samples minus the
      number of groups. */
  function PooledVariance(groups: seq<seq<real>>): real
    requires NonEmpty(groups) && |Concat(groups)| != |groups|
  {
    Pooled(groups) / ((|Concat(groups)| - |groups|) as real)
  }

  // ----- products and quotients -----

  lemma TimesSum(a: real, b: real, c: real)
    ensures Times(a, b + c) == Times(a, b) + Times(a, c)
    ensures Times(b + c, a) == Times(b, a) + Times(c, a)
  {
  }

  lemma TimesQuotient(a: real, b: real)
    requires b != 0.0
    ensures Times(b, a / b) == a
  {
  }

  lemma TimesZero(a: real)
    ensures Times(a, 0.0) == 0.0
  {
  }

  lemma SquareNonNegative(x: real)
    ensures Square(x) >= 0.0
  {
  }

  lemma QuotientNonNegative(a: real, b: real)
    requires a >= 0.0 && b > 0.0
    ensures a / b >= 0.0
  {
  }

  // ----- one group -----

  lemma {:induction false} TotalAppend(xs: seq<real>, ys: seq<real>)
    ensures Total(xs + ys) == Total(xs) + Total(ys)
    decreases |ys|
  {
    if ys == [] {
      assert xs + ys == xs;
    } else {
      var n := |ys| - 1;
      TotalAppend(xs, ys[..n]);
      assert (xs + ys)[..|xs + ys| - 1] == xs + ys[..n];
    }
  }

  lemma {:induction false} SquaresAppend(c: real, xs: seq<real>, ys: seq<real>)
    ensures SquaresAbout(c, xs + ys) == SquaresAbout(c, xs) + SquaresAbout(c, ys)
    decreases |ys|
  {
    hide Square, Times;
    if ys == [] {
      assert xs + ys == xs;
    } else {
      var n := |ys| - 1;
      var all := xs + ys;
      SquaresAppend(c, xs, ys[..n]);
      assert all[..|all| - 1] == xs + ys[..n] && all[|all| - 1] == ys[n];
      assert SquaresAbout(c, all) == SquaresAbout(c, xs + ys[..n]) + Square(ys[n] - c);
    }
  }

  lemma {:induction false} SquaresNonNegative(c: real, xs: seq<real>)
    ensures SquaresAbout(c, xs) >= 0.0
  {
    hide Square;
    if xs != [] {
      SquaresNonNegative(c, xs[..|xs| - 1]);
      SquareNonNegative(xs[|xs| - 1] - c);
    }
  }

  lemma VarianceNonNegative(xs: seq<real>)
    requires xs != []
    ensures Variance(xs) >= 0.0
  {
    SquaresNonNegative(Mean(xs), xs);
    QuotientNonNegative(SquaresAbout(Mean(xs), xs), Size(xs));
  }

  /** What moving the centre from c to d adds, for n values of total t. */
  function Shift(c: real, d: real, t: real, n: real): real {
    2.0 * (d - c) * (t - n * d) + n * (d - c) * (d - c)
  }

  lemma ShiftOne(c: real, d: real, x: real, t: real, n: real)
    ensures Square(x - c) + Shift(c, d, t, n) == Square(x - d) + Shift(c, d, t + x, n + 1.0)
  {
  }

  lemma ShiftNone(c: real, d: real)
    ensures Shift(c, d, 0.0, 0.0) == 0.0
  {
  }

  lemma ShiftFromMean(c: real, d: real, t: real, n: real)
    requires t == Times(n, d)
    ensures Shift(c, d, t, n) == Times(n, Square(d - c))
  {
  }

  lemma {:induction false} SquaresShift(c: real, d: real, xs: seq<real>)
    ensures SquaresAbout(c, xs) == SquaresAbout(d, xs) + Shift(c, d, Total(xs), Size(xs))
  {
    hide Square, Shift;
    if xs == [] {
      ShiftNone(c, d);
    } else {
      var init, x := xs[..|xs| - 1], xs[|xs| - 1];
      SquaresShift(c, d, init);
      assert Size(xs) == Size(init) + 1.0;
      ShiftOne(c, d, x, Total(init), Size(init));
    }
  }

  lemma MeanTimesSize(xs: seq<real>)
    requires xs != []
    ensures Times(Size(xs), Mean(xs)) == Total(xs)
    ensures SizedVariance(xs) == SquaresAbout(Mean(xs), xs)
  {
    TimesQuotient(Total(xs), Size(xs));
    TimesQuotient(SquaresAbout(Mean(xs), xs), Size(xs));
  }

  /** Squares about any centre: size times variance, plus size times the squared
      distance of the mean from the centre. */
  lemma SquaresAboutMean(c: real, xs: seq<real>)
    requires xs != []
    ensures SquaresAbout(c, xs) == SizedVariance(xs) + Spread(c, xs)
  {
    hide Square, Shift, Times, Mean, SizedVariance;
    MeanTimesSize(xs);
    SquaresShift(c, Mean(xs), xs);
    ShiftFromMean(c, Mean(xs), Total(xs), Size(xs));
  }

  // ----- mean and variance, as sums from the front -----

  function FrontSum(xs: seq<real>): real {
    if xs == [] then 0.0 else xs[0] + FrontSum(xs[1..])
  }

  function Squared(xs: seq<real>): (ys: seq<real>)
    ensures |ys| == |xs| && forall i :: 0 <= i < |ys| ==> ys[i] == xs[i] * xs[i]
  {
    if xs == [] then [] else Squared(xs[..|xs| - 1]) + [xs[|xs| - 1] * xs[|xs| - 1]]
  }

  lemma {:induction false} TotalFromFront(xs: seq<real>)
    ensures Total(xs) == FrontSum(xs)
  {
    if xs != [] {
      TotalFromFront(xs[1..]);
      TotalAppend([xs[0]], xs[1..]);
      assert [xs[0]] + xs[1..] == xs && [xs[0]][..0] == [];
    }
  }

  lemma {:induction false} SquaresAreSquared(xs: seq<real>)
    ensures SquaresAbout(0.0, xs) == Total(Squared(xs))
  {
    if xs != [] {
      var k := |xs| - 1;
      SquaresAreSquared(xs[..k]);
      assert Squared(xs)[..k] == Squared(xs[..k]);
    }
  }

  /** The mean times the number of samples is their sum; the variance times that number is
      the sum of their squares less the number times the squared mean. */
  lemma MeanAndVariance(xs: seq<real>)
    requires xs != []
    ensures |xs| as real * Mean(xs) == FrontSum(xs)
    ensures |xs| as real * Variance(xs) == FrontSum(Squared(xs)) - |xs| as real * (Mean(xs) * Mean(xs))
  {
    hide Mean, Variance, SquaresAbout, Total, FrontSum, Squared;
    MeanTimesSize(xs);
    TotalFromFront(xs);
    SquaresAboutMean(0.0, xs);
    SquaresAreSquared(xs);
    TotalFromFront(Squared(xs));
  }

  // ----- groups -----

  lemma {:induction false} SquaresOfGroups(c: real, groups: seq<seq<real>>)
    requires NonEmpty(groups)
    ensures SquaresAbout(c, Concat(groups)) == Within(groups) + Between(c, groups)
  {
    hide Square, SizedVariance, Spread;
    if groups != [] {
      var init, g := groups[..|groups| - 1], groups[|groups| - 1];
      SquaresOfGroups(c, init);
      SquaresAppend(c, Concat(init), g);
      SquaresAboutMean(c, g);
    }
  }

  lemma ConcatNonEmpty(groups: seq<seq<real>>)
    requires NonEmpty(groups) && groups != []
    ensures Concat(groups) != []
  {
  }

  /** The law of total variance, for groups of any sizes. */
  lemma TotalVariance(groups: seq<seq<real>>)
    requires NonEmpty(groups) && groups != []
    ensures Concat(groups) != []
    ensures SizedVariance(Concat(groups)) == Within(groups) + Between(Mean(Concat(groups)), groups)
  {
    ConcatNonEmpty(groups);
    SquaresOfGroups(Mean(Concat(groups)), groups);
    MeanTimesSize(Concat(groups));
  }

  predicate SameSize(groups: seq<seq<real>>, n: nat) {
    forall i :: 0 <= i < |groups| ==> |groups[i]| == n
  }

  lemma {:induction false} SameSizeLength(groups: seq<seq<real>>, n: nat)
    requires SameSize(groups, n)
    ensures |Concat(groups)| == |groups| * n
  {
    if groups != [] {
      SameSizeLength(groups[..|groups| - 1], n);
      assert |groups| * n == (|groups| - 1) * n + n;
    }
  }

  /** With groups of one size n, the total is n times the total of the means. */
  lemma {:induction false} SameSizeTotal(groups: seq<seq<real>>, n: nat)
    requires n > 0 && NonEmpty(groups) && SameSize(groups, n)
    ensures Total(Concat(groups)) == Times(n as real, Total(Means(groups)))
  {
    hide Mean;
    if groups != [] {
      hide Times;
      var init, g := groups[..|groups| - 1], groups[|groups| - 1];
      assert |g| == n;
      SameSizeTotal(init, n);
      TotalAppend(Concat(init), g);
      MeanTimesSize(g);
      MeansSnoc(groups, 0.0);
      TimesSum(n as real, Total(Means(init)), Mean(g));
    }
  }

  lemma MeansSnoc(groups: seq<seq<real>>, m: real)
    requires NonEmpty(groups) && groups != []
    ensures Total(Means(groups)) ==
            Total(Means(groups[..|groups| - 1])) + Mean(groups[|groups| - 1])
    ensures SquaresAbout(m, Means(groups)) ==
            SquaresAbout(m, Means(groups[..|groups| - 1])) + Square(Mean(groups[|groups| - 1]) - m)
  {
    hide Square, Mean;
    var ms := Means(groups);
    assert ms[..|ms| - 1] == Means(groups[..|groups| - 1]);
  }

  lemma {:induction false} SameSizeBetween(groups: seq<seq<real>>, n: nat, m: real)
    requires n > 0 && NonEmpty(groups) && SameSize(groups, n)
    ensures Between(m, groups) == Times(n as real, SquaresAbout(m, Means(groups)))
  {
    hide Mean, Square;
    if groups != [] {
      hide Times;
      var init, g := groups[..|groups| - 1], groups[|groups| - 1];
      assert |g| == n;
      SameSizeBetween(init, n, m);
      MeansSnoc(groups, m);
      TimesSum(n as real, SquaresAbout(m, Means(init)), Square(Mean(g) - m));
    }
  }

  lemma {:induction false} SameSizeWithin(groups: seq<seq<real>>, n: nat)
    requires n > 0 && NonEmpty(groups) && SameSize(groups, n)
    ensures Within(groups) == Times(n as real, Unweighted(groups))
    ensures Pooled(groups) == Times(n as real - 1.0, Unweighted(groups))
  {
    hide Variance;
    if groups != [] {
      hide Times;
      var init, g := groups[..|groups| - 1], groups[|groups| - 1];
      assert |g| == n;
      SameSizeWithin(init, n);
      TimesSum(n as real, Unweighted(init), Variance(g));
      TimesSum(n as real - 1.0, Unweighted(init), Variance(g));
    }
  }

  lemma CancelFactor(f: real, a: real, b: real)
    requires f != 0.0 && b != 0.0
    ensures Times(b, f) != 0.0 && Times(f, a) / Times(b, f) == a / b
  {
  }

  /** Groups of one size: the mean of all samples is the mean of the group means. */
  lemma SameSizeMean(groups: seq<seq<real>>, n: nat)
    requires n > 0 && groups != [] && NonEmpty(groups) && SameSize(groups, n)
    ensures Concat(groups) != [] && Mean(Concat(groups)) == Mean(Means(groups))
  {
    hide Times, Total;
    ConcatNonEmpty(groups);
    SameSizeLength(groups, n);
    SameSizeTotal(groups, n);
    SizeProduct(Concat(groups), |groups|, n);
    CancelFactor(n as real, Total(Means(groups)), |groups| as real);
  }

  lemma SizeProduct(xs: seq<real>, k: nat, n: nat)
    requires |xs| == k * n
    ensures Size(xs) == Times(k as real, n as real)
  {
  }

  lemma GapProduct(k: nat, n: nat)
    requires k > 0 && n >= 2
    ensures k * n != k && (k * n - k) as real == Times(k as real, n as real - 1.0)
  {
    assert k * n - k == k * (n - 1);
    assert k * (n - 1) != 0;
  }

  lemma SameSizePooled(groups: seq<seq<real>>, n: nat)
    requires n >= 2 && groups != [] && NonEmpty(groups) && SameSize(groups, n)
    ensures |Concat(groups)| != |groups|
    ensures PooledVariance(groups) == Unweighted(groups) / (|groups| as real)
  {
    hide Times, Pooled, Unweighted, Concat;
    SameSizeLength(groups, n);
    SameSizeWithin(groups, n);
    GapProduct(|groups|, n);
    var f, k, u := n as real - 1.0, |groups| as real, Unweighted(groups);
    CancelFactor(f, u, k);
    assert PooledVariance(groups) == Times(f, u) / Times(k, f);
  }

  lemma DivideThrough(k: real, r: real, v: real, u: real, w: real)
    requires k > 0.0 && r > 0.0
    requires Times(Times(k, r), v) == Times(r, u) + Times(r, Times(k, w))
    ensures v == u / k + w
  {
    assert r * (k * v) == r * (u + k * w);
    assert k * v == u + k * w;
    assert v == (u + k * w) / k;
  }

  lemma SameSizeTotalVariance(groups: seq<seq<real>>, n: nat)
    requires n > 0 && groups != [] && NonEmpty(groups) && SameSize(groups, n)
    ensures Concat(groups) != []
    ensures Variance(Concat(groups)) == Unweighted(groups) / (|groups| as real) + Variance(Means(groups))
  {
    hide Times, Variance, Mean, Square, Concat, Means, Unweighted, Within, Between, SquaresAbout;
    var all, ms := Concat(groups), Means(groups);
    SameSizeMean(groups, n);
    TotalVariance(groups);
    SameSizeWithin(groups, n);
    SameSizeBetween(groups, n, Mean(ms));
    MeanTimesSize(ms);
    SameSizeLength(groups, n);
    SizeProduct(all, |groups|, n);
    assert SizedVariance(all) == Times(Times(|groups| as real, n as real), Variance(all));
    assert SizedVariance(ms) == Times(|groups| as real, Variance(ms));
    assert Between(Mean(all), groups) == Times(n as real, SizedVariance(ms));
    assert Within(groups) == Times(n as real, Unweighted(groups));
    DivideThrough(|groups| as real, n as real, Variance(all), Unweighted(groups), Variance(ms));
  }

  /** Groups of one size n >= 2: the pooled variance is the variance of all samples
      minus the variance of the group means, so it never exceeds the former. */
  lemma PooledIsTotalMinusBetween(groups: seq<seq<real>>, n: nat)
    requires n >= 2 && groups != [] && NonEmpty(groups) && SameSize(groups, n)
    ensures Concat(groups) != [] && |Concat(groups)| != |groups|
    ensures PooledVariance(groups) == Variance(Concat(groups)) - Variance(Means(groups))
    ensures PooledVariance(groups) <= Variance(Concat(groups))
  {
    hide Variance, PooledVariance, Unweighted;
    SameSizePooled(groups, n);
    SameSizeTotalVariance(groups, n);
    VarianceNonNegative(Means(groups));
  }
}
