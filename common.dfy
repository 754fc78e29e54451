/** Vocabulary shared by the three metric families: the errors they raise, the
    value numpy's mean produces, and sums and means over sequences of reals.
    Python floats are modelled by exact `real` arithmetic. Recall@K and MRR
    scores are ratios of whole numbers; NDCG is exact relative to its
    discount parameter, which stands for `log2`, whose values are irrational. */
module Common {

  /** The `ValueError`s the metric functions raise. */
  datatype Error =
    | LengthMismatch    // the per-query lists of a batch call differ in length
    | EmptyRelevantSet  // Recall@K was given no relevant documents
    | InvalidK          // Recall@K was given k <= 0

  datatype Result<T> = Ok(value: T) | Err(error: Error)

  /** An optional argument; `None` is Python's default `None`. */
  datatype Option<T> = None | Some(value: T)

  /** What `np.mean` returns: the mean of a non-empty list, or NaN (with a
      runtime warning) for an empty one. */
  datatype Score = NaN | Num(value: real)

  /** The sum of a sequence, adding its elements from left to right. */
  function Sum(xs: seq<real>): real
  {
    if |xs| == 0 then 0.0 else Sum(xs[..|xs| - 1]) + xs[|xs| - 1]
  }

  /** The arithmetic mean, NaN exactly when there is nothing to average. */
  function Mean(xs: seq<real>): (m: Score)
    ensures m.NaN? <==> |xs| == 0
    ensures m.Num? ==> m.value * |xs| as real == Sum(xs)
  {
    if |xs| == 0 then NaN else Num(Sum(xs) / |xs| as real)
  }

  /** The constant sequence of `n` copies of `x`. */
  function Repeat(x: real, n: nat): (r: seq<real>)
    ensures |r| == n && forall i :: 0 <= i < n ==> r[i] == x
  {
    if n == 0 then [] else Repeat(x, n - 1) + [x]
  }

  /** Every element of `xs` repeated `c` times in place, in order. */
  function Stutter(xs: seq<real>, c: nat): seq<real>
  {
    if |xs| == 0 then [] else Stutter(xs[..|xs| - 1], c) + Repeat(xs[|xs| - 1], c)
  }

  predicate AllWithin(xs: seq<real>, lo: real, hi: real)
  {
    forall i :: 0 <= i < |xs| ==> lo <= xs[i] <= hi
  }

  lemma {:induction false} SumAppend(a: seq<real>, b: seq<real>)
    ensures Sum(a + b) == Sum(a) + Sum(b)
    decreases |b|
  {
    if |b| == 0 {
      assert a + b == a;
    } else {
      assert (a + b)[..|a + b| - 1] == a + b[..|b| - 1];
      SumAppend(a, b[..|b| - 1]);
    }
  }

  /** A sum of `n` numbers in [lo, hi] lies in [n * lo, n * hi]. */
  lemma SumWithin(xs: seq<real>, lo: real, hi: real)
    requires AllWithin(xs, lo, hi)
    ensures |xs| as real * lo <= Sum(xs) <= |xs| as real * hi
  {
    SumWithinTimes(xs, lo, hi);
    TimesIsProduct(|xs|, lo);
    TimesIsProduct(|xs|, hi);
  }

  lemma {:induction false} SumWithinTimes(xs: seq<real>, lo: real, hi: real)
    requires AllWithin(xs, lo, hi)
    ensures Times(|xs|, lo) <= Sum(xs) <= Times(|xs|, hi)
  {
    if |xs| > 0 {
      SumWithinTimes(xs[..|xs| - 1], lo, hi);
    }
  }

  /** The mean of numbers in [lo, hi] is again in [lo, hi]. */
  lemma MeanWithin(xs: seq<real>, lo: real, hi: real)
    requires AllWithin(xs, lo, hi)
    ensures Mean(xs).Num? ==> lo <= Mean(xs).value <= hi
  {
    if |xs| > 0 {
      SumWithin(xs, lo, hi);
      var n := |xs| as real;
      var m := Mean(xs).value;
      assert m * n == Sum(xs);
      assert n * lo <= m * n <= n * hi;
    }
  }

  /** `n * x` as repeated addition, which keeps the inductive proofs below
      within linear arithmetic. */
  function Times(n: nat, x: real): real
  {
    if n == 0 then 0.0 else Times(n - 1, x) + x
  }

  lemma {:induction false} TimesIsProduct(n: nat, x: real)
    ensures Times(n, x) == n as real * x
  {
    if n > 0 {
      TimesIsProduct(n - 1, x);
    }
  }

  lemma {:induction false} TimesAdds(n: nat, a: real, b: real)
    ensures Times(n, a) + Times(n, b) == Times(n, a + b)
  {
    if n > 0 {
      TimesAdds(n - 1, a, b);
    }
  }

  lemma {:induction false} SumOfRepeat(x: real, n: nat)
    ensures Sum(Repeat(x, n)) == Times(n, x)
  {
    if n > 0 {
      assert Repeat(x, n)[..n - 1] == Repeat(x, n - 1);
      SumOfRepeat(x, n - 1);
    }
  }

  /** The mean of a non-empty list of equal values is that value. */
  lemma MeanOfConstant(x: real, n: nat)
    requires n > 0
    ensures Mean(Repeat(x, n)) == Num(x)
  {
    SumOfRepeat(x, n);
    TimesIsProduct(n, x);
  }

  lemma {:induction false} StutterAppend(xs: seq<real>, x: real, c: nat)
    ensures Stutter(xs + [x], c) == Stutter(xs, c) + Repeat(x, c)
  {
    assert (xs + [x])[..|xs + [x]| - 1] == xs;
  }

  /** Repeating every element `c` times multiplies the length by `c`. */
  lemma {:induction false} StutterLength(xs: seq<real>, c: nat)
    ensures |Stutter(xs, c)| == c * |xs|
  {
    if |xs| > 0 {
      var init := xs[..|xs| - 1];
      StutterLength(init, c);
      assert |Stutter(xs, c)| == c * |init| + c;
    }
  }

  lemma StutterSumStep(xs: seq<real>, c: nat)
    requires |xs| > 0
    ensures Sum(Stutter(xs, c)) == Sum(Stutter(xs[..|xs| - 1], c)) + Sum(Repeat(xs[|xs| - 1], c))
  {
    var st, rp := Stutter(xs[..|xs| - 1], c), Repeat(xs[|xs| - 1], c);
    assert Stutter(xs, c) == st + rp;
    SumAppend(st, rp);
  }

  /** Repeating every element `c` times multiplies the sum by `c`. */
  lemma {:induction false} StutterSum(xs: seq<real>, c: nat)
    ensures Sum(Stutter(xs, c)) == Times(c, Sum(xs))
  {
    if |xs| > 0 {
      var init, last := xs[..|xs| - 1], xs[|xs| - 1];
      StutterSumStep(xs, c);
      StutterSum(init, c);
      SumOfRepeat(last, c);
      TimesAdds(c, Sum(init), last);
      assert Sum(xs) == Sum(init) + last;
    } else {
      TimesIsProduct(c, 0.0);
    }
  }

  /** Repeating every element the same positive number of times leaves the
      mean unchanged. */
  lemma MeanOfStutter(xs: seq<real>, c: nat)
    requires c > 0
    ensures Mean(Stutter(xs, c)) == Mean(xs)
  {
    var ys := Stutter(xs, c);
    StutterLength(xs, c);
    if |xs| > 0 {
      var total, n, k := Sum(xs), |xs| as real, c as real;
      StutterSum(xs, c);
      TimesIsProduct(c, total);
      CastProduct(c, |xs|, |ys|);
      ScaledMean(ys, xs, k);
    }
  }

  /** Scaling both the sum and the length by the same factor keeps the mean. */
  lemma ScaledMean(ys: seq<real>, xs: seq<real>, k: real)
    requires k > 0.0 && |xs| > 0
    requires Sum(ys) == k * Sum(xs) && |ys| as real == k * |xs| as real
    ensures Mean(ys) == Mean(xs)
  {
    CancelRatio(k, |xs| as real, Sum(xs), Sum(ys), |ys| as real);
  }

  lemma CastProduct(a: nat, b: nat, p: nat)
    requires p == a * b
    ensures p as real == a as real * b as real
  {
  }

  lemma CancelRatio(k: real, n: real, total: real, a: real, b: real)
    requires k > 0.0 && n > 0.0 && a == k * total && b == k * n
    ensures a / b == total / n
  {
  }

  /** Scores every query of a batch with `score`, pairing the `q`-th entries
      of the two lists, in query order. */
  function ScoreEach<A, B>(xs: seq<A>, ys: seq<B>, score: (A, B) -> real): (scores: seq<real>)
    requires |xs| == |ys|
    ensures |scores| == |xs|
  {
    if |xs| == 0 then []
    else
      var n := |xs| - 1;
      ScoreEach(xs[..n], ys[..n], score) + [score(xs[n], ys[n])]
  }

  /** Entry `q` is the score of the `q`-th pair. */
  lemma {:induction false} ScoreEachAt<A, B>(xs: seq<A>, ys: seq<B>, score: (A, B) -> real, q: nat)
    requires |xs| == |ys| && q < |xs|
    ensures ScoreEach(xs, ys, score)[q] == score(xs[q], ys[q])
  {
    var n := |xs| - 1;
    if q < n {
      ScoreEachAt(xs[..n], ys[..n], score, q);
    }
  }

  /** Scoring one more pair appends its score. */
  lemma ScoreEachStep<A, B>(xs: seq<A>, ys: seq<B>, score: (A, B) -> real, q: nat)
    requires |xs| == |ys| && q < |xs|
    ensures ScoreEach(xs[..q + 1], ys[..q + 1], score) == ScoreEach(xs[..q], ys[..q], score) + [score(xs[q], ys[q])]
  {
    assert xs[..q + 1][..q] == xs[..q];
    assert ys[..q + 1][..q] == ys[..q];
  }
}
