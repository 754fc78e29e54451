/** Normalized Discounted Cumulative Gain: the discounted sum of the graded
    relevances of a ranking, divided by that of the best possible ranking.
    The logarithmic discount `log2(i + 2)` at position `i` is a parameter
    `disc` of the model: any positive discount with `disc(0) == 1`. */
module Ndcg {
  import opened Common

  /** A position discount: 1 at the first position and positive everywhere. */
  type Discount = disc: nat -> real | disc(0) == 1.0 && forall i :: disc(i) > 0.0
    witness (i: nat) => 1.0

  /** A relevance dictionary: document, graded relevance pairs in insertion
      order. */
  type RelevanceDict<T> = seq<(T, real)>

  /** A dictionary lists no document twice. */
  predicate DistinctKeys<T(==)>(rel: RelevanceDict<T>)
  {
    forall i, j :: 0 <= i < j < |rel| ==> rel[i].0 != rel[j].0
  }

  // ---------------------------------------------------------------------
  // calculate_dcg

  /** The list cut to its first `k` elements; `None` keeps all of it. */
  function Truncate(s: seq<real>, k: Option<nat>): (r: seq<real>)
    ensures k.None? ==> r == s
    ensures k.Some? && k.value <= |s| ==> r == s[..k.value]
    ensures k.Some? && k.value >= |s| ==> r == s
  {
    if k.None? || k.value >= |s| then s else s[..k.value]
  }

  /** The gain of each position: its relevance divided by its discount. */
  function Gains(s: seq<real>, disc: Discount): (g: seq<real>)
    ensures |g| == |s|
    ensures |s| > 0 ==> g[0] == s[0]
  {
    seq(|s|, i requires 0 <= i < |s| => s[i] / disc(i))
  }

  /** `calculate_dcg`: the sum of the gains of the first `k` positions.
      Nothing is gained from an empty list or from a cut-off of 0. */
  function Dcg(scores: seq<real>, k: Option<nat>, disc: Discount): (r: real)
    ensures |scores| == 0 || k == Some(0) ==> r == 0.0
  {
    Sum(Gains(Truncate(scores, k), disc))
  }

  lemma GainsAppend(s: seq<real>, x: real, disc: Discount)
    ensures Gains(s + [x], disc) == Gains(s, disc) + [x / disc(|s|)]
  {
  }

  /** Extending the cut-off by one position adds that position's gain. */
  lemma DcgStep(scores: seq<real>, k: nat, disc: Discount)
    requires k < |scores|
    ensures Dcg(scores, Some(k + 1), disc) == Dcg(scores, Some(k), disc) + scores[k] / disc(k)
  {
    assert scores[..k + 1] == scores[..k] + [scores[k]];
    GainsAppend(scores[..k], scores[k], disc);
    SumAppend(Gains(scores[..k], disc), [scores[k] / disc(k)]);
    assert Sum([scores[k] / disc(k)]) == scores[k] / disc(k) by {
      assert [scores[k] / disc(k)][..0] == [];
    }
  }

  /** The first position is not discounted. */
  lemma DcgFirst(scores: seq<real>, disc: Discount)
    requires |scores| > 0
    ensures Dcg(scores, Some(1), disc) == scores[0]
  {
    DcgStep(scores, 0, disc);
  }

  /** `None` means the whole list, and so does any cut-off at or beyond its
      length. */
  lemma DcgCutoffBeyondLength(scores: seq<real>, k: nat, disc: Discount)
    requires k >= |scores|
    ensures Dcg(scores, Some(k), disc) == Dcg(scores, None, disc) == Dcg(scores, Some(|scores|), disc)
  {
  }

  /** Only the first `k` scores matter. */
  lemma DcgOfPrefix(a: seq<real>, b: seq<real>, k: nat, disc: Discount)
    requires k <= |a| && k <= |b| && a[..k] == b[..k]
    ensures Dcg(a, Some(k), disc) == Dcg(b, Some(k), disc)
  {
  }

  /** Non-negative relevances give a non-negative DCG, since every discount
      is positive. */
  lemma DcgNonNegative(scores: seq<real>, k: Option<nat>, disc: Discount)
    requires forall i :: 0 <= i < |scores| ==> scores[i] >= 0.0
    ensures Dcg(scores, k, disc) >= 0.0
  {
    var g := Gains(Truncate(scores, k), disc);
    assert forall i :: 0 <= i < |g| ==> g[i] >= 0.0 by {
      forall i | 0 <= i < |g|
        ensures g[i] >= 0.0
      {
        QuotientNonNegative(Truncate(scores, k)[i], disc(i));
      }
    }
    SumNonNegative(g);
  }

  /** With non-negative relevances, a longer cut-off never lowers DCG. */
  lemma {:induction false} DcgGrowsWithCutoff(scores: seq<real>, k1: nat, k2: nat, disc: Discount)
    requires forall i :: 0 <= i < |scores| ==> scores[i] >= 0.0
    requires k1 <= k2
    ensures Dcg(scores, Some(k1), disc) <= Dcg(scores, Some(k2), disc)
    decreases k2
  {
    if k1 < k2 {
      DcgGrowsWithCutoff(scores, k1, k2 - 1, disc);
      if k2 - 1 < |scores| {
        DcgStep(scores, k2 - 1, disc);
        QuotientNonNegative(scores[k2 - 1], disc(k2 - 1));
      }
    }
  }

  /** A positive leading relevance, with none negative, makes DCG positive at
      every positive cut-off. */
  lemma DcgPositive(scores: seq<real>, k: nat, disc: Discount)
    requires forall i :: 0 <= i < |scores| ==> scores[i] >= 0.0
    requires |scores| > 0 && scores[0] > 0.0 && k >= 1
    ensures Dcg(scores, Some(k), disc) > 0.0
  {
    DcgFirst(scores, disc);
    DcgGrowsWithCutoff(scores, 1, k, disc);
  }

  lemma DcgTwo(scores: seq<real>, disc: Discount)
    requires |scores| >= 2
    ensures Dcg(scores, Some(2), disc) == scores[0] + scores[1] / disc(1)
    ensures Dcg(scores, Some(|scores|), disc) == Dcg(scores, None, disc)
  {
    DcgFirst(scores, disc);
    DcgStep(scores, 1, disc);
  }

  lemma DcgThree(scores: seq<real>, disc: Discount)
    requires |scores| >= 3
    ensures Dcg(scores, Some(3), disc) == scores[0] + scores[1] / disc(1) + scores[2] / disc(2)
  {
    DcgTwo(scores, disc);
    DcgStep(scores, 2, disc);
  }

  lemma QuotientNonNegative(a: real, b: real)
    requires a >= 0.0 && b > 0.0
    ensures a / b >= 0.0
  {
  }

  lemma {:induction false} SumNonNegative(xs: seq<real>)
    requires forall i :: 0 <= i < |xs| ==> xs[i] >= 0.0
    ensures Sum(xs) >= 0.0
  {
    if |xs| > 0 {
      SumNonNegative(xs[..|xs| - 1]);
    }
  }

  // ---------------------------------------------------------------------
  // The relevance dictionary

  /** `relevance_dict.get(doc, 0.0)`. */
  function Get<T(==)>(rel: RelevanceDict<T>, doc: T): (v: real)
    ensures DistinctKeys(rel) ==> forall i :: 0 <= i < |rel| && rel[i].0 == doc ==> v == rel[i].1
    ensures (forall i :: 0 <= i < |rel| ==> rel[i].0 != doc) ==> v == 0.0
  {
    if |rel| == 0 then 0.0
    else if rel[0].0 == doc then rel[0].1
    else Get(rel[1..], doc)
  }

  /** Non-negative relevances give non-negative lookups. */
  lemma {:induction false} GetNonNegative<T>(rel: RelevanceDict<T>, doc: T)
    requires forall i :: 0 <= i < |rel| ==> rel[i].1 >= 0.0
    ensures Get(rel, doc) >= 0.0
  {
    if |rel| > 0 && rel[0].0 != doc {
      GetNonNegative(rel[1..], doc);
    }
  }

  /** The relevance of each retrieved document, in retrieval order. */
  function ScoresOf<T(==)>(retrieved: seq<T>, rel: RelevanceDict<T>): (scores: seq<real>)
    ensures |scores| == |retrieved|
  {
    seq(|retrieved|, i requires 0 <= i < |retrieved| => Get(rel, retrieved[i]))
  }

  /** `relevance_dict.values()`, in insertion order. */
  function Values<T(==)>(rel: RelevanceDict<T>): (vs: seq<real>)
    ensures |vs| == |rel|
  {
    seq(|rel|, i requires 0 <= i < |rel| => rel[i].1)
  }

  // ---------------------------------------------------------------------
  // sorted(..., reverse=True)

  predicate NonIncreasing(s: seq<real>)
  {
    forall i, j :: 0 <= i < j < |s| ==> s[i] >= s[j]
  }

  /** Inserts `x` into a non-increasing list, keeping it non-increasing. */
  function Insert(x: real, s: seq<real>): (r: seq<real>)
    requires NonIncreasing(s)
    ensures NonIncreasing(r)
    ensures multiset(r) == multiset(s) + multiset{x}
    ensures |r| == |s| + 1
    ensures r[0] == if |s| == 0 || x >= s[0] then x else s[0]
  {
    if |s| == 0 || x >= s[0] then
      ConsNonIncreasing(x, s);
      [x] + s
    else
      var rest := Insert(x, s[1..]);
      ConsNonIncreasing(s[0], rest);
      assert s == [s[0]] + s[1..];
      [s[0]] + rest
  }

  lemma ConsNonIncreasing(h: real, t: seq<real>)
    requires NonIncreasing(t) && (|t| > 0 ==> h >= t[0])
    ensures NonIncreasing([h] + t)
  {
  }

  /** The list sorted from the highest value to the lowest. */
  function SortDescending(s: seq<real>): (r: seq<real>)
    ensures NonIncreasing(r)
    ensures multiset(r) == multiset(s)
  {
    if |s| == 0 then []
    else
      assert s == [s[0]] + s[1..];
      Insert(s[0], SortDescending(s[1..]))
  }

  /** A non-increasing list is determined by its elements: whatever sorts a
      list in descending order produces this very list. */
  lemma {:induction false} SortedIsUnique(a: seq<real>, b: seq<real>)
    requires NonIncreasing(a) && NonIncreasing(b)
    requires multiset(a) == multiset(b)
    ensures a == b
    decreases |a|
  {
    if |a| == 0 {
      assert |multiset(b)| == 0;
    } else {
      FirstIsLargest(b, a[0]);
      FirstIsLargest(a, b[0]);
      TailMultiset(a);
      TailMultiset(b);
      TailNonIncreasing(a);
      TailNonIncreasing(b);
      SortedIsUnique(a[1..], b[1..]);
      HeadAndTail(a, b);
    }
  }

  lemma TailNonIncreasing(s: seq<real>)
    requires |s| > 0 && NonIncreasing(s)
    ensures NonIncreasing(s[1..])
  {
  }

  lemma HeadAndTail(a: seq<real>, b: seq<real>)
    requires |a| > 0 && |b| > 0 && a[0] == b[0] && a[1..] == b[1..]
    ensures a == b
  {
    assert a == [a[0]] + a[1..] && b == [b[0]] + b[1..];
  }

  /** The head of a non-increasing list is its largest element. */
  lemma FirstIsLargest(s: seq<real>, x: real)
    requires NonIncreasing(s) && x in multiset(s)
    ensures |s| > 0 && x <= s[0]
  {
    var i :| 0 <= i < |s| && s[i] == x;
  }

  lemma TailMultiset(s: seq<real>)
    requires |s| > 0
    ensures multiset(s[1..]) == multiset(s) - multiset{s[0]}
  {
    assert s == [s[0]] + s[1..];
  }

  /** The ideal ranking: every relevance in the dictionary, retrieved or not,
      from the highest to the lowest. */
  function IdealScores<T(==)>(rel: RelevanceDict<T>): (ideal: seq<real>)
    ensures NonIncreasing(ideal)
    ensures multiset(ideal) == multiset(Values(rel))
    ensures |ideal| == |rel|
  {
    var sorted := SortDescending(Values(rel));
    assert |multiset(sorted)| == |multiset(Values(rel))|;
    sorted
  }

  // ---------------------------------------------------------------------
  // calculate_ndcg

  /** The cut-off `calculate_ndcg` passes on: `None` becomes the number of
      retrieved documents, not the size of the dictionary. */
  function Cutoff<T>(retrieved: seq<T>, k: Option<nat>): (c: nat)
    ensures k.None? ==> c == |retrieved|
    ensures k.Some? ==> c == k.value
  {
    if k.None? then |retrieved| else k.value
  }

  /** `calculate_ndcg`: DCG over ideal DCG at the same cut-off, and 0 when the
      ideal DCG is 0. An empty dictionary, a cut-off of 0, or no cut-off with
      nothing retrieved therefore gives 0. */
  function Ndcg<T(==)>(retrieved: seq<T>, rel: RelevanceDict<T>, k: Option<nat>, disc: Discount): (r: real)
    ensures |rel| == 0 || k == Some(0) || (k.None? && |retrieved| == 0) ==> r == 0.0
  {
    var cutoff := Cutoff(retrieved, k);
    var dcg := Dcg(ScoresOf(retrieved, rel), Some(cutoff), disc);
    var idcg := Dcg(IdealScores(rel), Some(cutoff), disc);
    if idcg == 0.0 then 0.0 else dcg / idcg
  }

  /** A document the dictionary does not list contributes a relevance of 0. */
  lemma MissingDocumentScoresZero<T>(retrieved: seq<T>, rel: RelevanceDict<T>, i: nat)
    requires i < |retrieved|
    requires forall j :: 0 <= j < |rel| ==> rel[j].0 != retrieved[i]
    ensures ScoresOf(retrieved, rel)[i] == 0.0
  {
  }

  /** A listed document contributes its relevance. */
  lemma ListedDocumentScores<T>(retrieved: seq<T>, rel: RelevanceDict<T>, i: nat, j: nat)
    requires DistinctKeys(rel)
    requires i < |retrieved| && j < |rel| && rel[j].0 == retrieved[i]
    ensures ScoresOf(retrieved, rel)[i] == rel[j].1
  {
  }

  /** When the ideal DCG is 0 the score is exactly 0. */
  lemma NdcgZeroWithoutIdealGain<T>(retrieved: seq<T>, rel: RelevanceDict<T>, k: Option<nat>, disc: Discount)
    requires Dcg(IdealScores(rel), Some(Cutoff(retrieved, k)), disc) == 0.0
    ensures Ndcg(retrieved, rel, k, disc) == 0.0
  {
  }

  /** All-zero relevances give 0. */
  lemma NdcgAllZero<T>(retrieved: seq<T>, rel: RelevanceDict<T>, k: Option<nat>, disc: Discount)
    requires forall i :: 0 <= i < |rel| ==> rel[i].1 == 0.0
    ensures Ndcg(retrieved, rel, k, disc) == 0.0
  {
    var ideal := IdealScores(rel);
    var g := Gains(Truncate(ideal, Some(Cutoff(retrieved, k))), disc);
    forall i | 0 <= i < |ideal|
      ensures ideal[i] == 0.0
    {
      assert ideal[i] in multiset(Values(rel));
      var j :| 0 <= j < |rel| && Values(rel)[j] == ideal[i];
    }
    assert forall i :: 0 <= i < |g| ==> g[i] == 0.0;
    SumOfZeros(g);
  }

  lemma {:induction false} SumOfZeros(xs: seq<real>)
    requires forall i :: 0 <= i < |xs| ==> xs[i] == 0.0
    ensures Sum(xs) == 0.0
  {
    if |xs| > 0 {
      SumOfZeros(xs[..|xs| - 1]);
    }
  }

  /** A ranking whose first k relevances are the ideal ones scores 1, when
      the ideal DCG is not 0. */
  lemma PerfectRanking<T>(retrieved: seq<T>, rel: RelevanceDict<T>, k: Option<nat>, disc: Discount)
    requires Truncate(ScoresOf(retrieved, rel), Some(Cutoff(retrieved, k)))
          == Truncate(IdealScores(rel), Some(Cutoff(retrieved, k)))
    requires Dcg(IdealScores(rel), Some(Cutoff(retrieved, k)), disc) != 0.0
    ensures Ndcg(retrieved, rel, k, disc) == 1.0
  {
  }

  /** A ranking that agrees with the ideal one on the first `c` positions
      scores 1, when the ideal ranking starts with a positive relevance and
      has no negative one. */
  lemma PrefixPerfect<T>(retrieved: seq<T>, rel: RelevanceDict<T>, k: Option<nat>, disc: Discount, c: nat)
    requires c == Cutoff(retrieved, k) && 1 <= c <= |retrieved| && c <= |IdealScores(rel)|
    requires forall i :: 0 <= i < c ==> ScoresOf(retrieved, rel)[i] == IdealScores(rel)[i]
    requires IdealScores(rel)[0] > 0.0
    requires forall i :: 0 <= i < |IdealScores(rel)| ==> IdealScores(rel)[i] >= 0.0
    ensures Ndcg(retrieved, rel, k, disc) == 1.0
  {
    var scores, ideal := ScoresOf(retrieved, rel), IdealScores(rel);
    assert scores[..c] == ideal[..c];
    DcgPositive(ideal, c, disc);
    PerfectRanking(retrieved, rel, k, disc);
  }

  /** With non-negative relevances the score is non-negative. */
  lemma NdcgNonNegative<T>(retrieved: seq<T>, rel: RelevanceDict<T>, k: Option<nat>, disc: Discount)
    requires forall i :: 0 <= i < |rel| ==> rel[i].1 >= 0.0
    ensures Ndcg(retrieved, rel, k, disc) >= 0.0
  {
    var scores, ideal := ScoresOf(retrieved, rel), IdealScores(rel);
    var cutoff := Cutoff(retrieved, k);
    forall i | 0 <= i < |scores|
      ensures scores[i] >= 0.0
    {
      GetNonNegative(rel, retrieved[i]);
    }
    forall i | 0 <= i < |ideal|
      ensures ideal[i] >= 0.0
    {
      assert ideal[i] in multiset(Values(rel));
      var j :| 0 <= j < |rel| && Values(rel)[j] == ideal[i];
    }
    DcgNonNegative(scores, Some(cutoff), disc);
    DcgNonNegative(ideal, Some(cutoff), disc);
    var dcg, idcg := Dcg(scores, Some(cutoff), disc), Dcg(ideal, Some(cutoff), disc);
    if idcg != 0.0 {
      QuotientNonNegative(dcg, idcg);
    }
  }

  // ---------------------------------------------------------------------
  // calculate_ndcg_for_queries

  /** The NDCG of every query of a batch, in query order. */
  function NdcgScores<T(==)>(results: seq<seq<T>>, relevance: seq<RelevanceDict<T>>, k: Option<nat>,
                             disc: Discount): (scores: seq<real>)
    requires |results| == |relevance|
    ensures |scores| == |results|
  {
    ScoreEach(results, relevance, (retrieved, rel) => Ndcg(retrieved, rel, k, disc))
  }

  lemma NdcgScoresAt<T>(results: seq<seq<T>>, relevance: seq<RelevanceDict<T>>, k: Option<nat>,
                        disc: Discount, q: nat)
    requires |results| == |relevance| && q < |results|
    ensures NdcgScores(results, relevance, k, disc)[q] == Ndcg(results[q], relevance[q], k, disc)
  {
    ScoreEachAt(results, relevance, (retrieved, rel) => Ndcg(retrieved, rel, k, disc), q);
  }

  /** The batch result: a length mismatch raises, otherwise the mean of the
      per-query scores (NaN for an empty batch). */
  function AverageNdcg<T(==)>(results: seq<seq<T>>, relevance: seq<RelevanceDict<T>>, k: Option<nat>,
                              disc: Discount): (r: Result<Score>)
    ensures r.Err? <==> |results| != |relevance|
    ensures r.Err? ==> r.error == LengthMismatch
    ensures r.Ok? ==> (r.value.NaN? <==> |results| == 0)
  {
    if |results| != |relevance| then Err(LengthMismatch)
    else Ok(Mean(NdcgScores(results, relevance, k, disc)))
  }

  /** `calculate_ndcg_for_queries`. */
  method CalculateNdcgForQueries<T(==)>(queryResults: seq<seq<T>>, queryRelevance: seq<RelevanceDict<T>>,
                                        k: Option<nat>, disc: Discount)
    returns (r: Result<Score>)
    ensures r == AverageNdcg(queryResults, queryRelevance, k, disc)
  {
    if |queryResults| != |queryRelevance| {
      return Err(LengthMismatch);
    }
    var ndcgScores: seq<real> := [];
    var q := 0;
    while q < |queryResults|
      invariant 0 <= q <= |queryResults|
      invariant ndcgScores == NdcgScores(queryResults[..q], queryRelevance[..q], k, disc)
    {
      var ndcg := Ndcg(queryResults[q], queryRelevance[q], k, disc);
      ndcgScores := ndcgScores + [ndcg];
      NdcgScoresStep(queryResults, queryRelevance, q, k, disc);
      q := q + 1;
    }
    assert queryResults[..q] == queryResults && queryRelevance[..q] == queryRelevance;
    r := Ok(Mean(ndcgScores));
  }

  lemma NdcgScoresStep<T>(results: seq<seq<T>>, relevance: seq<RelevanceDict<T>>, q: nat, k: Option<nat>,
                         disc: Discount)
    requires |results| == |relevance| && q < |results|
    ensures NdcgScores(results[..q + 1], relevance[..q + 1], k, disc)
         == NdcgScores(results[..q], relevance[..q], k, disc) + [Ndcg(results[q], relevance[q], k, disc)]
  {
    ScoreEachStep(results, relevance, (retrieved, rel) => Ndcg(retrieved, rel, k, disc), q);
  }

  /** With non-negative relevances throughout, the batch mean of a non-empty
      batch is a non-negative number. */
  lemma AverageNdcgNonNegative<T>(results: seq<seq<T>>, relevance: seq<RelevanceDict<T>>, k: Option<nat>,
                                  disc: Discount)
    requires |results| == |relevance| > 0
    requires forall q, i :: 0 <= q < |relevance| && 0 <= i < |relevance[q]| ==> relevance[q][i].1 >= 0.0
    ensures AverageNdcg(results, relevance, k, disc).value.Num?
    ensures AverageNdcg(results, relevance, k, disc).value.value >= 0.0
  {
    var scores := NdcgScores(results, relevance, k, disc);
    forall q | 0 <= q < |scores|
      ensures scores[q] >= 0.0
    {
      NdcgScoresAt(results, relevance, k, disc, q);
      NdcgNonNegative(results[q], relevance[q], k, disc);
    }
    SumNonNegative(scores);
    MeanNonNegative(scores);
  }

  lemma MeanNonNegative(xs: seq<real>)
    requires |xs| > 0 && Sum(xs) >= 0.0
    ensures Mean(xs).value >= 0.0
  {
    QuotientNonNegative(Sum(xs), |xs| as real);
  }

  // ---------------------------------------------------------------------
  // Worked examples

  /** The dictionary of the usage examples' first query. */
  function ExampleRelevance(): (rel: RelevanceDict<nat>)
    ensures |rel| == 4
  {
    [(1, 3.0), (2, 2.0), (3, 1.0), (4, 0.0)]
  }

  /** The dictionary of the usage examples' second query. */
  function SecondRelevance(): (rel: RelevanceDict<nat>)
    ensures |rel| == 4
  {
    [(1, 2.0), (2, 3.0), (3, 0.0), (4, 1.0)]
  }

  lemma DescendingFour(a: real, b: real, c: real, d: real)
    requires a >= b >= c >= d
    ensures NonIncreasing([a, b, c, d])
  {
  }

  /** The ideal ranking is the one non-increasing arrangement of the values. */
  lemma IdealIsUnique<T>(rel: RelevanceDict<T>, sorted: seq<real>)
    requires NonIncreasing(sorted) && multiset(Values(rel)) == multiset(sorted)
    ensures IdealScores(rel) == sorted
  {
    SortedIsUnique(IdealScores(rel), sorted);
  }

  /** Both dictionaries hold the relevances 3, 2, 1 and 0. */
  lemma ExampleIdeals()
    ensures IdealScores(ExampleRelevance()) == [3.0, 2.0, 1.0, 0.0]
    ensures IdealScores(SecondRelevance()) == [3.0, 2.0, 1.0, 0.0]
  {
    DescendingFour(3.0, 2.0, 1.0, 0.0);
    FirstIdeal();
    SecondIdeal();
  }

  lemma FirstIdeal()
    requires NonIncreasing([3.0, 2.0, 1.0, 0.0])
    ensures IdealScores(ExampleRelevance()) == [3.0, 2.0, 1.0, 0.0]
  {
    assert Values(ExampleRelevance()) == [3.0, 2.0, 1.0, 0.0];
    IdealIsUnique(ExampleRelevance(), [3.0, 2.0, 1.0, 0.0]);
  }

  lemma SecondIdeal()
    requires NonIncreasing([3.0, 2.0, 1.0, 0.0])
    ensures IdealScores(SecondRelevance()) == [3.0, 2.0, 1.0, 0.0]
  {
    assert Values(SecondRelevance()) == [2.0, 3.0, 0.0, 1.0];
    assert multiset([2.0, 3.0, 0.0, 1.0]) == multiset([3.0, 2.0, 1.0, 0.0]);
    IdealIsUnique(SecondRelevance(), [3.0, 2.0, 1.0, 0.0]);
  }

  lemma FirstScores()
    ensures ScoresOf([1, 2, 3], ExampleRelevance()) == [3.0, 2.0, 1.0]
  {
  }

  lemma ReorderedScores()
    ensures ScoresOf([2, 3, 1], ExampleRelevance()) == [2.0, 1.0, 3.0]
  {
  }

  lemma SecondScores()
    ensures ScoresOf([2, 1, 4], SecondRelevance()) == [3.0, 2.0, 1.0]
  {
  }

  /** Perfect rankings of the example relevances score 1 at cut-offs 2 and 3. */
  lemma PerfectOfExampleIdeal<T>(retrieved: seq<T>, rel: RelevanceDict<T>, k: Option<nat>, disc: Discount)
    requires IdealScores(rel) == [3.0, 2.0, 1.0, 0.0] && ScoresOf(retrieved, rel) == [3.0, 2.0, 1.0]
    requires k == Some(2) || k == None
    ensures Ndcg(retrieved, rel, k, disc) == 1.0
  {
    var scores, ideal := ScoresOf(retrieved, rel), IdealScores(rel);
    assert forall i :: 0 <= i < |ideal| ==> ideal[i] >= 0.0;
    assert forall i :: 0 <= i < 3 ==> scores[i] == ideal[i];
    PrefixPerfect(retrieved, rel, k, disc, Cutoff(retrieved, k));
  }

  /** Retrieving doc1, doc2, doc3 in that order is a perfect ranking, both at
      k = 2 and with no cut-off, whatever the discount. */
  lemma PerfectExample(k: Option<nat>, disc: Discount)
    requires k == Some(2) || k == None
    ensures Ndcg([1, 2, 3], ExampleRelevance(), k, disc) == 1.0
  {
    ExampleIdeals();
    FirstScores();
    PerfectOfExampleIdeal([1, 2, 3], ExampleRelevance(), k, disc);
  }

  /** At k = 2 the imperfect ranking doc2, doc3, doc1 scores below 1, whatever
      the discount. */
  lemma ImperfectAtTwo(disc: Discount)
    ensures Ndcg([2, 3, 1], ExampleRelevance(), Some(2), disc) < 1.0
  {
    ExampleIdeals();
    ReorderedScores();
    ImperfectAtTwoOf([2, 3, 1], ExampleRelevance(), disc);
  }

  lemma ImperfectAtTwoOf<T>(retrieved: seq<T>, rel: RelevanceDict<T>, disc: Discount)
    requires ScoresOf(retrieved, rel) == [2.0, 1.0, 3.0] && IdealScores(rel) == [3.0, 2.0, 1.0, 0.0]
    ensures Ndcg(retrieved, rel, Some(2), disc) < 1.0
  {
    var dcg, idcg := Dcg(ScoresOf(retrieved, rel), Some(2), disc), Dcg(IdealScores(rel), Some(2), disc);
    DcgTwo(ScoresOf(retrieved, rel), disc);
    DcgTwo(IdealScores(rel), disc);
    TwoBelow(disc(1), dcg, idcg);
  }

  /** (2 + 1/d) / (3 + 2/d) < 1 for every positive d. */
  lemma TwoBelow(d: real, x: real, y: real)
    requires d > 0.0 && x == 2.0 + 1.0 / d && y == 3.0 + 2.0 / d
    ensures y > 0.0 && x / y < 1.0
  {
    var u := 1.0 / d;
    assert u > 0.0 && 2.0 / d == 2.0 * u;
    RatioBelowOne(2.0 + u, 3.0 + 2.0 * u);
  }

  /** With no cut-off, the imperfect ranking scores below 1 under a discount
      that does not decrease from the second to the third position and
      exceeds 1 there, as log2 does (log2 3 < log2 4 = 2). */
  lemma ImperfectExample(disc: Discount)
    requires disc(1) <= disc(2) && disc(2) > 1.0
    ensures Ndcg([2, 3, 1], ExampleRelevance(), None, disc) < 1.0
  {
    ExampleIdeals();
    ReorderedScores();
    ImperfectOf([2, 3, 1], ExampleRelevance(), disc);
  }

  lemma ImperfectOf<T>(retrieved: seq<T>, rel: RelevanceDict<T>, disc: Discount)
    requires disc(1) <= disc(2) && disc(2) > 1.0
    requires ScoresOf(retrieved, rel) == [2.0, 1.0, 3.0] && IdealScores(rel) == [3.0, 2.0, 1.0, 0.0]
    ensures Ndcg(retrieved, rel, None, disc) < 1.0
  {
    var dcg, idcg := Dcg(ScoresOf(retrieved, rel), Some(3), disc), Dcg(IdealScores(rel), Some(3), disc);
    DcgThree(ScoresOf(retrieved, rel), disc);
    DcgThree(IdealScores(rel), disc);
    ImperfectBound(disc(1), disc(2), dcg, idcg);
  }

  /** (2 + 1/d1 + 3/d2) < (3 + 2/d1 + 1/d2) when 0 < d1 <= d2 and d2 > 1. */
  lemma ImperfectBound(d1: real, d2: real, x: real, y: real)
    requires 0.0 < d1 <= d2 && d2 > 1.0
    requires x == 2.0 + 1.0 / d1 + 3.0 / d2 && y == 3.0 + 2.0 / d1 + 1.0 / d2
    ensures y > 0.0 && x / y < 1.0
  {
    var u, v := 1.0 / d1, 1.0 / d2;
    assert 0.0 < v <= u by {
      ReciprocalAntitone(d1, d2);
    }
    assert v < 1.0 by {
      assert v * d2 == 1.0;
    }
    assert 2.0 / d1 == 2.0 * u && 3.0 / d2 == 3.0 * v;
    RatioBelowOne(2.0 + u + 3.0 * v, 3.0 + 2.0 * u + v);
  }

  lemma ReciprocalAntitone(a: real, b: real)
    requires 0.0 < a <= b
    ensures 0.0 < 1.0 / b <= 1.0 / a
  {
    var u, v := 1.0 / a, 1.0 / b;
    assert u * a == 1.0 && v * b == 1.0;
    assert v * a <= v * b;
  }

  lemma RatioBelowOne(x: real, y: real)
    requires 0.0 <= x < y
    ensures x / y < 1.0
  {
    assert x / y * y == x;
  }

  /** NDCG is not bounded by 1: a document retrieved twice is counted twice,
      while the ideal ranking lists it once. */
  lemma DuplicatesCanExceedOne(disc: Discount)
    ensures Ndcg<nat>([1, 1], [(1, 3.0), (2, 0.0)], None, disc) > 1.0
  {
    var rel: RelevanceDict<nat> := [(1, 3.0), (2, 0.0)];
    assert ScoresOf([1, 1], rel) == [3.0, 3.0];
    assert Values(rel) == [3.0, 0.0];
    assert NonIncreasing([3.0, 0.0]);
    IdealIsUnique(rel, [3.0, 0.0]);
    DuplicatesOf([1, 1], rel, disc);
  }

  lemma DuplicatesOf<T>(retrieved: seq<T>, rel: RelevanceDict<T>, disc: Discount)
    requires ScoresOf(retrieved, rel) == [3.0, 3.0] && IdealScores(rel) == [3.0, 0.0]
    ensures Ndcg(retrieved, rel, None, disc) > 1.0
  {
    var dcg, idcg := Dcg(ScoresOf(retrieved, rel), Some(2), disc), Dcg(IdealScores(rel), Some(2), disc);
    DcgTwo(ScoresOf(retrieved, rel), disc);
    DcgTwo(IdealScores(rel), disc);
    AboveOne(disc(1), dcg, idcg);
  }

  /** For NDCG, unlike DCG, a cut-off beyond the retrieved list is not the
      same as no cut-off: the ideal DCG is cut at `k` over every relevance in
      the dictionary, so a larger `k` takes in ideal entries that nothing
      retrieved can match. `['doc1']` against `{doc1: 1, doc2: 1}` scores 1
      with no cut-off and below 1 at k = 2. */
  lemma LongCutoffDiffersFromNone(disc: Discount)
    ensures Ndcg<nat>([1], [(1, 1.0), (2, 1.0)], None, disc) == 1.0
    ensures Ndcg<nat>([1], [(1, 1.0), (2, 1.0)], Some(2), disc) < 1.0
  {
    var rel: RelevanceDict<nat> := [(1, 1.0), (2, 1.0)];
    assert ScoresOf([1], rel) == [1.0];
    assert Values(rel) == [1.0, 1.0];
    assert NonIncreasing([1.0, 1.0]);
    IdealIsUnique(rel, [1.0, 1.0]);
    LongCutoffOf([1], rel, disc);
  }

  lemma LongCutoffOf<T>(retrieved: seq<T>, rel: RelevanceDict<T>, disc: Discount)
    requires ScoresOf(retrieved, rel) == [1.0] && IdealScores(rel) == [1.0, 1.0]
    ensures Ndcg(retrieved, rel, None, disc) == 1.0
    ensures Ndcg(retrieved, rel, Some(2), disc) < 1.0
  {
    var scores, ideal := ScoresOf(retrieved, rel), IdealScores(rel);
    DcgFirst(scores, disc);
    DcgFirst(ideal, disc);
    DcgCutoffBeyondLength(scores, 2, disc);
    DcgTwo(ideal, disc);
    var idcg := Dcg(ideal, Some(2), disc);
    assert idcg > 1.0 by {
      QuotientNonNegative(1.0, disc(1));
      assert 1.0 / disc(1) != 0.0;
    }
    RatioBelowOne(1.0, idcg);
  }

  /** (3 + 3/d) / (3 + 0/d) > 1 for every positive d. */
  lemma AboveOne(d: real, x: real, y: real)
    requires d > 0.0 && x == 3.0 + 3.0 / d && y == 3.0 + 0.0 / d
    ensures y > 0.0 && x / y > 1.0
  {
    var u := 3.0 / d;
    assert u > 0.0 && 0.0 / d == 0.0;
    assert (3.0 + u) / 3.0 * 3.0 == 3.0 + u;
  }

  /** Both queries of the batch usage example are perfect rankings, so the
      batch mean is 1. */
  lemma BatchExample(disc: Discount)
    ensures AverageNdcg([[1, 2, 3], [2, 1, 4]],
                        [ExampleRelevance(), SecondRelevance()], None, disc)
         == Ok(Num(1.0))
  {
    var results: seq<seq<nat>> := [[1, 2, 3], [2, 1, 4]];
    var relevance := [ExampleRelevance(), SecondRelevance()];
    ExampleIdeals();
    FirstScores();
    SecondScores();
    PerfectOfExampleIdeal(results[0], relevance[0], None, disc);
    PerfectOfExampleIdeal(results[1], relevance[1], None, disc);
    var scores := NdcgScores(results, relevance, None, disc);
    NdcgScoresAt(results, relevance, None, disc, 0);
    NdcgScoresAt(results, relevance, None, disc, 1);
    assert scores == Repeat(1.0, 2);
    MeanOfConstant(1.0, 2);
  }
}
