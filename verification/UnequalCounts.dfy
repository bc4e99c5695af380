/** When the pooled variance the controller reports can exceed the variance of all
    samples: exactly when the connections have different sample counts. */
module UnequalCounts {
  import opened Sums
  import opened Statistics

  function Itself(n: nat): int { n }

  /** The number of samples all connections have together. */
  function Samples(counts: seq<nat>): int { Sum(counts, Itself) }

  predicate HasCounts(groups: seq<seq<real>>, counts: seq<nat>) {
    |groups| == |counts| && forall i :: 0 <= i < |groups| ==> |groups[i]| == counts[i]
  }

  /** Every connection has a sample, and some have more than one. */
  predicate Contributing(counts: seq<nat>) {
    (forall i :: 0 <= i < |counts| ==> counts[i] >= 1) && Samples(counts) > |counts|
  }

  predicate AllEqual(counts: seq<nat>) {
    forall i, j :: 0 <= i < |counts| && 0 <= j < |counts| ==> counts[i] == counts[j]
  }

  /** The reported variance is defined, and at most the variance of all samples. */
  predicate AtMostTotal(groups: seq<seq<real>>) {
    && NonEmpty(groups) && Concat(groups) != [] && |Concat(groups)| != |groups|
    && PooledVariance(groups) <= Variance(Concat(groups))
  }

  lemma {:induction false} ConcatLength(groups: seq<seq<real>>, counts: seq<nat>)
    requires HasCounts(groups, counts)
    ensures |Concat(groups)| == Samples(counts)
  {
    if groups != [] {
      var k := |groups| - 1;
      ConcatLength(groups[..k], counts[..k]);
    }
  }

  // ----- when the pooled variance exceeds the total variance -----

  /** The sum of the variances of k groups of `total` samples, each weighted by how much
      larger its group is than the average. */
  function Leverage(groups: seq<seq<real>>, k: real, total: real): real
    requires NonEmpty(groups)
  {
    if groups == [] then 0.0
    else
      var g := groups[|groups| - 1];
      Leverage(groups[..|groups| - 1], k, total) + Times(Times(k, Size(g)) - total, Variance(g))
  }

  lemma LeverageOfOne(n: real, v: real, k: real, total: real)
    ensures Times(Times(k, n) - total, v) ==
            Times(total, Times(n - 1.0, v)) - Times(total - k, Times(n, v))
  {
  }

  lemma {:induction false} LeverageSum(groups: seq<seq<real>>, k: real, total: real)
    requires NonEmpty(groups)
    ensures Leverage(groups, k, total) == Times(total, Pooled(groups)) - Times(total - k, Within(groups))
  {
    if groups == [] {
      TimesZero(total);
      TimesZero(total - k);
    } else {
      hide Times, Variance;
      var init, g := groups[..|groups| - 1], groups[|groups| - 1];
      LeverageSum(init, k, total);
      LeverageOfOne(Size(g), Variance(g), k, total);
      TimesSum(total, Pooled(init), PooledTerm(g));
      TimesSum(total - k, Within(init), SizedVariance(g));
    }
  }

  lemma CrossMultiply(p: real, a: real, w: real, b: real)
    requires a > 0.0 && b > 0.0
    ensures p / a > w / b <==> Times(b, p) > Times(a, w)
  {
    var x, y := p / a, w / b;
    assert a * x == p && b * y == w;
    assert Times(b, p) == (a * b) * x && Times(a, w) == (a * b) * y;
    SameOrder(a * b, x, y);
  }

  lemma SameOrder(s: real, a: real, b: real)
    requires s > 0.0
    ensures a > b <==> s * a > s * b
  {
    if a > b {
      assert s * (a - b) > 0.0;
    } else {
      assert s * (b - a) >= 0.0;
    }
  }

  function Number(groups: seq<seq<real>>): real { |groups| as real }

  /** The exact condition, for any groups: the pooled variance exceeds the variance of
      all samples if and only if the variances, weighted by how much larger than the
      average their groups are, outweigh the spread of the means. */
  lemma ExceedsExactlyWhen(groups: seq<seq<real>>)
    requires NonEmpty(groups) && groups != [] && |Concat(groups)| > |groups|
    ensures Concat(groups) != []
    ensures var all := Concat(groups);
            PooledVariance(groups) > Variance(all) <==>
              Leverage(groups, Number(groups), Size(all)) >
              Times(Size(all) - Number(groups), Between(Mean(all), groups))
  {
    hide Times, Pooled, Within, Between, Concat, SquaresAbout, Mean, Leverage;
    var all := Concat(groups);
    var n, k := Size(all), Number(groups);
    TotalVariance(groups);
    LeverageSum(groups, k, n);
    MeanTimesSize(all);
    TimesSum(n - k, Within(groups), Between(Mean(all), groups));
    CrossMultiply(Pooled(groups), n - k, SquaresAbout(Mean(all), all), n);
  }

  /** All groups have the mean c. */
  predicate SameMean(groups: seq<seq<real>>, c: real) {
    forall i :: 0 <= i < |groups| ==> groups[i] != [] && Mean(groups[i]) == c
  }

  /** Only the group at m varies. */
  predicate OnlyVaries(groups: seq<seq<real>>, m: nat)
    requires NonEmpty(groups)
  {
    forall i :: 0 <= i < |groups| ==> (Variance(groups[i]) > 0.0 <==> i == m)
  }

  lemma {:induction false} SameMeanSums(groups: seq<seq<real>>, c: real)
    requires SameMean(groups, c)
    ensures NonEmpty(groups)
    ensures Total(Concat(groups)) == Times(c, Size(Concat(groups))) && Between(c, groups) == 0.0
  {
    if groups != [] {
      hide Mean;
      var init, g := groups[..|groups| - 1], groups[|groups| - 1];
      SameMeanSums(init, c);
      TotalAppend(Concat(init), g);
      assert Mean(g) == c;
      MeanTimesSize(g);
      assert Size(Concat(groups)) == Size(Concat(init)) + Size(g);
      TimesSum(c, Size(Concat(init)), Size(g));
    }
  }

  lemma MeanOfMultiple(xs: seq<real>, c: real)
    requires xs != [] && Total(xs) == Times(c, Size(xs))
    ensures Mean(xs) == c
  {
  }

  lemma {:induction false} LeverageOfVarying(groups: seq<seq<real>>, m: nat, k: real, total: real)
    requires NonEmpty(groups) && OnlyVaries(groups, m)
    ensures Leverage(groups, k, total) ==
            if m < |groups| then Times(Times(k, Size(groups[m])) - total, Variance(groups[m])) else 0.0
  {
    hide Variance;
    if groups != [] {
      hide Times;
      var i := |groups| - 1;
      LeverageOfVarying(groups[..i], m, k, total);
      if i != m {
        VarianceNonNegative(groups[i]);
        TimesZero(Times(k, Size(groups[i])) - total);
      }
    }
  }

  lemma PositiveProduct(a: real, v: real)
    requires v > 0.0
    ensures Times(a, v) > 0.0 <==> a > 0.0
  {
    SameOrder(v, a, 0.0);
  }

  /** Connections of one mean of which only one varies: the pooled variance exceeds the
      total variance if and only if that connection has more samples than the average. */
  lemma ExceedsExactlyWhenLarger(groups: seq<seq<real>>, m: nat, c: real)
    requires SameMean(groups, c) && NonEmpty(groups) && OnlyVaries(groups, m)
    requires m < |groups| && |Concat(groups)| > |groups|
    ensures Concat(groups) != []
    ensures PooledVariance(groups) > Variance(Concat(groups)) <==> |groups[m]| * |groups| > |Concat(groups)|
  {
    hide Times, Pooled, Concat, SquaresAbout, Total, Variance, Mean, Between, Leverage;
    var all, k := Concat(groups), Number(groups);
    ExceedsExactlyWhen(groups);
    SameMeanSums(groups, c);
    MeanOfMultiple(all, c);
    TimesZero(Size(all) - k);
    LeverageOfVarying(groups, m, k, Size(all));
    PositiveProduct(Times(k, Size(groups[m])) - Size(all), Variance(groups[m]));
    CountProduct(|groups|, |groups[m]|);
  }

  lemma CountProduct(k: nat, n: nat)
    ensures Times(k as real, n as real) == (n * k) as real
  {
  }

  // ----- a group of every count -----

  /** n samples of 1. */
  function Flat(n: nat): (g: seq<real>)
    ensures |g| == n
  {
    if n == 0 then [] else Flat(n - 1) + [1.0]
  }

  /** A 0, a 2, and otherwise 1. */
  function Peak(n: nat): (g: seq<real>)
    requires n >= 2
    ensures |g| == n
  {
    Flat(n - 2) + [0.0, 2.0]
  }

  lemma {:induction false} FlatSums(n: nat)
    ensures Total(Flat(n)) == n as real && SquaresAbout(1.0, Flat(n)) == 0.0
  {
    if n > 0 {
      FlatSums(n - 1);
    }
  }

  lemma AboutOne(g: seq<real>, squares: real)
    requires g != [] && Total(g) == Size(g) && SquaresAbout(1.0, g) == squares
    ensures Mean(g) == 1.0 && Variance(g) == squares / Size(g)
  {
  }

  lemma FlatTerms(n: nat)
    requires n >= 1
    ensures Mean(Flat(n)) == 1.0 && Variance(Flat(n)) == 0.0
  {
    hide Flat, Total, SquaresAbout, Mean, Variance;
    FlatSums(n);
    AboutOne(Flat(n), 0.0);
  }

  lemma PeakSums(n: nat)
    requires n >= 2
    ensures Total(Peak(n)) == n as real && SquaresAbout(1.0, Peak(n)) == 2.0
  {
    FlatSums(n - 2);
    var pair := [0.0, 2.0];
    assert pair[..1] == [0.0] && [0.0][..0] == [];
    assert Total(pair) == 2.0 && SquaresAbout(1.0, pair) == 2.0;
    TotalAppend(Flat(n - 2), pair);
    SquaresAppend(1.0, Flat(n - 2), pair);
  }

  lemma PeakTerms(n: nat)
    requires n >= 2
    ensures Mean(Peak(n)) == 1.0 && Variance(Peak(n)) > 0.0
  {
    hide Peak, Total, SquaresAbout, Mean, Variance;
    PeakSums(n);
    AboutOne(Peak(n), 2.0);
  }

  /** Groups of the given counts of which only the one at m varies. */
  function Witness(counts: seq<nat>, m: nat): (groups: seq<seq<real>>)
    requires m < |counts| ==> counts[m] >= 2
    ensures HasCounts(groups, counts)
    ensures forall i :: 0 <= i < |groups| ==> groups[i] == if i == m then Peak(counts[i]) else Flat(counts[i])
  {
    if counts == [] then []
    else
      var k := |counts| - 1;
      Witness(counts[..k], m) + [if k == m then Peak(counts[k]) else Flat(counts[k])]
  }

  /** Some count is above the average, unless all are equal. */
  lemma SomeAboveAverage(counts: seq<nat>) returns (m: nat)
    requires !AllEqual(counts)
    ensures m < |counts| && counts[m] * |counts| > Samples(counts)
  {
    SumOne(counts);
    m := Largest(counts);
    SumCapped(counts, Itself, One, counts[m]);
  }

  lemma Largest(counts: seq<nat>) returns (m: nat)
    requires counts != []
    ensures m < |counts| && forall i :: 0 <= i < |counts| ==> counts[i] <= counts[m]
  {
    m := 0;
    for j := 1 to |counts|
      invariant m < |counts| && forall i :: 0 <= i < j ==> counts[i] <= counts[m]
    {
      if counts[j] > counts[m] {
        m := j;
      }
    }
  }

  /** Whenever the counts differ, some latencies with these counts have a pooled
      variance above the variance of them all. */
  lemma PooledCanExceedTotal(counts: seq<nat>) returns (m: nat)
    requires Contributing(counts) && !AllEqual(counts)
    ensures m < |counts| && counts[m] >= 2 && !AtMostTotal(Witness(counts, m))
    ensures var groups := Witness(counts, m);
            && NonEmpty(groups) && Concat(groups) != [] && |Concat(groups)| != |groups|
            && PooledVariance(groups) > Variance(Concat(groups))
  {
    hide Samples, AllEqual, PooledVariance, Variance, Mean, SquaresAbout, Total, Flat, Peak, Concat;
    m := SomeAboveAverage(counts);
    AboveAverageIsTwo(counts, m);
    var groups := Witness(counts, m);
    ConcatLength(groups, counts);
    forall i | 0 <= i < |groups|
      ensures groups[i] != [] && Mean(groups[i]) == 1.0 && (Variance(groups[i]) > 0.0 <==> i == m)
    {
      if i == m {
        PeakTerms(counts[i]);
      } else {
        FlatTerms(counts[i]);
      }
    }
    ExceedsExactlyWhenLarger(groups, m, 1.0);
  }

  lemma AboveAverageIsTwo(counts: seq<nat>, m: nat)
    requires Contributing(counts) && m < |counts| && counts[m] * |counts| > Samples(counts)
    ensures counts[m] >= 2
  {
    var n, k := counts[m], |counts|;
    assert n * k > k;
    MoreThanOne(n, k);
  }

  lemma EqualAtMostTotal(groups: seq<seq<real>>, counts: seq<nat>)
    requires Contributing(counts) && AllEqual(counts) && HasCounts(groups, counts)
    ensures AtMostTotal(groups)
  {
    hide PooledVariance, Variance, Concat;
    var n := counts[0];
    forall i | 0 <= i < |groups| ensures |groups[i]| == n {
      assert counts[i] == counts[0];
    }
    ConcatLength(groups, counts);
    SameSizeLength(groups, n);
    MoreThanOne(n, |groups|);
    PooledIsTotalMinusBetween(groups, n);
  }

  lemma MoreThanOne(n: nat, k: nat)
    requires k * n > k
    ensures n >= 2
  {
  }

  /** The exact condition, on the counts alone: the reported variance is at most the
      variance of all samples, whatever the samples are, if and only if all
      connections that contribute have the same number of samples. */
  lemma AtMostTotalExactlyForEqualCounts(counts: seq<nat>)
    requires Contributing(counts)
    ensures (forall groups :: HasCounts(groups, counts) ==> AtMostTotal(groups)) <==> AllEqual(counts)
  {
    hide AtMostTotal, AllEqual, Contributing;
    if AllEqual(counts) {
      forall groups | HasCounts(groups, counts) ensures AtMostTotal(groups) {
        EqualAtMostTotal(groups, counts);
      }
    } else {
      var m := PooledCanExceedTotal(counts);
      assert HasCounts(Witness(counts, m), counts);
    }
  }
}
