/** Finite sums over sequences, the counting arguments they support, and the
    Option type shared by the other modules. */
module Sums {

  datatype Option<+T> = None | Some(value: T) {
    function GetOr(default: T): T {
      if Some? then value else default
    }
  }

  /** The integer sum of f over s. */
  function Sum<T>(s: seq<T>, f: T -> int): int {
    if s == [] then 0 else Sum(s[..|s| - 1], f) + f(s[|s| - 1])
  }

  lemma {:induction false} SumSnoc<T>(s: seq<T>, x: T, f: T -> int)
    ensures Sum(s + [x], f) == Sum(s, f) + f(x)
  {
    assert (s + [x])[..|s|] == s;
  }

  lemma {:induction false} SumConcat<T>(a: seq<T>, b: seq<T>, f: T -> int)
    ensures Sum(a + b, f) == Sum(a, f) + Sum(b, f)
    decreases |b|
  {
    if b == [] {
      assert a + b == a;
    } else {
      var init, last := b[..|b| - 1], b[|b| - 1];
      SumConcat(a, init, f);
      assert a + b == (a + init) + [last];
      SumSnoc(a + init, last, f);
    }
  }

  /** Replacing one element changes the sum by the difference of the two terms. */
  lemma {:induction false} SumUpdate<T>(s: seq<T>, i: nat, x: T, f: T -> int)
    requires i < |s|
    ensures Sum(s[i := x], f) == Sum(s, f) - f(s[i]) + f(x)
    decreases |s|
  {
    var n := |s| - 1;
    if i == n {
      assert s[i := x][..n] == s[..n];
    } else {
      SumUpdate(s[..n], i, x, f);
      assert s[i := x][..n] == s[..n][i := x];
    }
  }

  /** Two sequences whose terms agree pointwise have the same sum. */
  lemma {:induction false} SumEqual<T, U>(s: seq<T>, f: T -> int, t: seq<U>, g: U -> int)
    requires |s| == |t|
    requires forall i :: 0 <= i < |s| ==> f(s[i]) == g(t[i])
    ensures Sum(s, f) == Sum(t, g)
    decreases |s|
  {
    if s != [] {
      var n := |s| - 1;
      SumEqual(s[..n], f, t[..n], g);
    }
  }

  /** Pigeonhole: if every term of f is at most cap times the matching term of g,
      so is the sum, and the sums can only be equal when every term is. */
  lemma {:induction false} SumCapped<T>(s: seq<T>, f: T -> int, g: T -> int, cap: int)
    requires forall i :: 0 <= i < |s| ==> f(s[i]) <= cap * g(s[i])
    ensures Sum(s, f) <= cap * Sum(s, g)
    ensures Sum(s, f) == cap * Sum(s, g) ==> forall i :: 0 <= i < |s| ==> f(s[i]) == cap * g(s[i])
    decreases |s|
  {
    if s != [] {
      var n := |s| - 1;
      SumCapped(s[..n], f, g, cap);
      assert cap * Sum(s, g) == cap * Sum(s[..n], g) + cap * g(s[n]);
      if Sum(s, f) == cap * Sum(s, g) {
        forall i | 0 <= i < |s| ensures f(s[i]) == cap * g(s[i]) {
          if i < n {
            assert s[..n][i] == s[i];
          }
        }
      }
    }
  }

  /** A sum of non-negative terms is non-negative, and bounds each of its terms. */
  lemma {:induction false} SumNonNegative<T>(s: seq<T>, f: T -> int)
    requires forall i :: 0 <= i < |s| ==> 0 <= f(s[i])
    ensures 0 <= Sum(s, f)
    ensures forall i :: 0 <= i < |s| ==> f(s[i]) <= Sum(s, f)
    decreases |s|
  {
    if s != [] {
      var n := |s| - 1;
      SumNonNegative(s[..n], f);
      forall i | 0 <= i < |s| ensures f(s[i]) <= Sum(s, f) {
        if i < n {
          assert s[..n][i] == s[i];
        }
      }
    }
  }

  /** Every prefix of a sum of non-negative terms is at most the whole sum. */
  lemma {:induction false} SumPrefix<T>(s: seq<T>, k: nat, f: T -> int)
    requires k <= |s|
    requires forall i :: 0 <= i < |s| ==> 0 <= f(s[i])
    ensures 0 <= Sum(s[..k], f) <= Sum(s, f)
  {
    assert s == s[..k] + s[k..];
    SumConcat(s[..k], s[k..], f);
    SumNonNegative(s[..k], f);
    SumNonNegative(s[k..], f);
  }

  /** A sum of equal terms. */
  lemma {:induction false} SumScaled<T>(s: seq<T>, f: T -> int, k: int)
    requires forall i :: 0 <= i < |s| ==> f(s[i]) == k
    ensures Sum(s, f) == k * |s|
  {
    if s != [] {
      SumScaled(s[..|s| - 1], f, k);
      assert k * |s| == k * (|s| - 1) + k;
    }
  }

  function One<T>(x: T): int { 1 }

  lemma SumOne<T>(s: seq<T>)
    ensures Sum(s, One) == |s|
  {
    SumScaled(s, One, 1);
  }
}
