/** Mean Reciprocal Rank: for each query, one over the 1-based rank of the
    first retrieved item found in that query's ground truth (0 when there is
    none), averaged over the queries. */
module Mrr {
  import opened Common

  // ---------------------------------------------------------------------
  // One query

  /** The 0-based position of the first retrieved item that is in the ground
      truth, or `|retrieved|` when no item is. */
  function FirstMatch<T(==)>(retrieved: seq<T>, truth: seq<T>): (p: nat)
    ensures p <= |retrieved|
    ensures forall i :: 0 <= i < p ==> retrieved[i] !in truth
    ensures p < |retrieved| ==> retrieved[p] in truth
  {
    if |retrieved| == 0 then 0
    else if retrieved[0] in truth then 0
    else 1 + FirstMatch(retrieved[1..], truth)
  }

  /** The score of a match at 1-based `rank`. */
  function RankScore(rank: nat): real
    requires rank >= 1
  {
    1.0 / rank as real
  }

  /** The entry a query contributes: 1/rank of its first match, 0 without one.
      It lies in [0, 1], and it is 0 exactly when no retrieved item is in the
      ground truth, which includes an empty retrieved list and an empty ground
      truth. */
  function ReciprocalRank<T(==)>(retrieved: seq<T>, truth: seq<T>): (r: real)
    ensures 0.0 <= r <= 1.0
    ensures r == 0.0 <==> forall i :: 0 <= i < |retrieved| ==> retrieved[i] !in truth
  {
    var p := FirstMatch(retrieved, truth);
    if p < |retrieved| then
      ReciprocalPositive(p + 1);
      ReciprocalAtMostOne(p + 1);
      RankScore(p + 1)
    else 0.0
  }

  /** The scan stops at the first match and nowhere else. */
  lemma FirstMatchIsUnique<T>(retrieved: seq<T>, truth: seq<T>, p: nat)
    requires p <= |retrieved|
    requires forall i :: 0 <= i < p ==> retrieved[i] !in truth
    requires p < |retrieved| ==> retrieved[p] in truth
    ensures FirstMatch(retrieved, truth) == p
  {
  }

  /** The entry is 1/rank exactly when the item at 1-based `rank` is in the
      ground truth and no earlier item is. */
  lemma ReciprocalRankIs<T>(retrieved: seq<T>, truth: seq<T>, rank: nat)
    requires 1 <= rank <= |retrieved|
    ensures ReciprocalRank(retrieved, truth) == RankScore(rank)
        <==> retrieved[rank - 1] in truth && forall i :: 0 <= i < rank - 1 ==> retrieved[i] !in truth
  {
    var p := FirstMatch(retrieved, truth);
    if retrieved[rank - 1] in truth && forall i :: 0 <= i < rank - 1 ==> retrieved[i] !in truth {
      FirstMatchIsUnique(retrieved, truth, rank - 1);
    } else if ReciprocalRank(retrieved, truth) == RankScore(rank) {
      assert p < |retrieved| by {
        ReciprocalPositive(rank);
      }
      ReciprocalInjective(p + 1, rank);
      assert false;
    }
  }

  /** Every entry is 0 or 1/r for a rank r within the retrieved list. */
  lemma ReciprocalRankRange<T>(retrieved: seq<T>, truth: seq<T>)
    ensures ReciprocalRank(retrieved, truth) == 0.0
         || exists rank :: 1 <= rank <= |retrieved| && ReciprocalRank(retrieved, truth) == RankScore(rank)
  {
    var p := FirstMatch(retrieved, truth);
    if p < |retrieved| {
      assert ReciprocalRank(retrieved, truth) == RankScore(p + 1);
    }
  }

  /** Only the items up to the first match matter: two lists that agree up
      to and including it have the same entry, whatever follows. */
  lemma OnlyFirstMatchMatters<T>(a: seq<T>, b: seq<T>, truth: seq<T>, rank: nat)
    requires 1 <= rank <= |a| && rank <= |b| && a[..rank] == b[..rank]
    requires a[rank - 1] in truth
    ensures ReciprocalRank(a, truth) == ReciprocalRank(b, truth)
  {
    var p := FirstMatch(a, truth);
    assert forall i :: 0 <= i < rank ==> a[i] == b[i] by {
      forall i | 0 <= i < rank
        ensures a[i] == b[i]
      {
        assert a[..rank][i] == b[..rank][i];
      }
    }
    assert p < rank;
    FirstMatchIsUnique(b, truth, p);
  }

  lemma ReciprocalPositive(n: nat)
    requires n >= 1
    ensures 1.0 / n as real > 0.0
  {
  }

  lemma ReciprocalAtMostOne(n: nat)
    requires n >= 1
    ensures 1.0 / n as real <= 1.0
  {
    var x := 1.0 / n as real;
    assert x * n as real == 1.0;
  }

  lemma ReciprocalInjective(m: nat, n: nat)
    requires m >= 1 && n >= 1 && 1.0 / m as real == 1.0 / n as real
    ensures m == n
  {
    var x := 1.0 / m as real;
    assert x * m as real == 1.0 && x * n as real == 1.0;
    assert x * (m as real - n as real) == 0.0;
  }

  // ---------------------------------------------------------------------
  // calculate_mrr

  /** The entry of every query, in query order. */
  function ReciprocalRanks<T(==)>(retrievedLists: seq<seq<T>>, truthLists: seq<seq<T>>): (rs: seq<real>)
    requires |retrievedLists| == |truthLists|
    ensures |rs| == |retrievedLists|
  {
    ScoreEach(retrievedLists, truthLists, (retrieved, truth) => ReciprocalRank(retrieved, truth))
  }

  lemma ReciprocalRanksAt<T>(retrievedLists: seq<seq<T>>, truthLists: seq<seq<T>>, q: nat)
    requires |retrievedLists| == |truthLists| && q < |retrievedLists|
    ensures ReciprocalRanks(retrievedLists, truthLists)[q] == ReciprocalRank(retrievedLists[q], truthLists[q])
  {
    ScoreEachAt(retrievedLists, truthLists, (retrieved, truth) => ReciprocalRank(retrieved, truth), q);
  }

  lemma ReciprocalRanksStep<T>(retrievedLists: seq<seq<T>>, truthLists: seq<seq<T>>, q: nat)
    requires |retrievedLists| == |truthLists| && q < |retrievedLists|
    ensures ReciprocalRanks(retrievedLists[..q + 1], truthLists[..q + 1])
         == ReciprocalRanks(retrievedLists[..q], truthLists[..q]) + [ReciprocalRank(retrievedLists[q], truthLists[q])]
  {
    ScoreEachStep(retrievedLists, truthLists, (retrieved, truth) => ReciprocalRank(retrieved, truth), q);
  }

  /** The result of `calculate_mrr`: a length mismatch raises, otherwise the
      mean of the entries (NaN for no queries). */
  function MeanReciprocalRank<T(==)>(retrievedLists: seq<seq<T>>, truthLists: seq<seq<T>>): (r: Result<Score>)
    ensures r.Err? <==> |retrievedLists| != |truthLists|
    ensures r.Err? ==> r.error == LengthMismatch
    ensures r.Ok? ==> (r.value.NaN? <==> |retrievedLists| == 0)
  {
    if |retrievedLists| != |truthLists| then Err(LengthMismatch)
    else Ok(Mean(ReciprocalRanks(retrievedLists, truthLists)))
  }

  /** `calculate_mrr`: for each query, scan the retrieved list from rank 1,
      append 1/rank at the first item in the ground truth and stop, or append
      0 when the scan finds none. */
  method CalculateMrr<T(==)>(retrievedLists: seq<seq<T>>, truthLists: seq<seq<T>>) returns (r: Result<Score>)
    ensures r == MeanReciprocalRank(retrievedLists, truthLists)
  {
    if |retrievedLists| != |truthLists| {
      return Err(LengthMismatch);
    }
    var reciprocalRanks: seq<real> := [];
    var q := 0;
    while q < |retrievedLists|
      invariant 0 <= q <= |retrievedLists|
      invariant reciprocalRanks == ReciprocalRanks(retrievedLists[..q], truthLists[..q])
    {
      var retrieved, truth := retrievedLists[q], truthLists[q];
      var rank := 1;
      var found := false;
      while rank <= |retrieved|
        invariant 1 <= rank <= |retrieved| + 1
        invariant forall i :: 0 <= i < rank - 1 ==> retrieved[i] !in truth
        invariant !found
      {
        if retrieved[rank - 1] in truth {
          found := true;
          break;
        }
        rank := rank + 1;
      }
      FirstMatchIsUnique(retrieved, truth, rank - 1);
      if found {
        reciprocalRanks := reciprocalRanks + [RankScore(rank)];
      } else {
        reciprocalRanks := reciprocalRanks + [0.0];
      }
      ReciprocalRanksStep(retrievedLists, truthLists, q);
      q := q + 1;
    }
    assert retrievedLists[..q] == retrievedLists && truthLists[..q] == truthLists;
    r := Ok(Mean(reciprocalRanks));
  }

  /** The mean reciprocal rank of a non-empty batch lies in [0, 1]. */
  lemma MeanReciprocalRankWithin<T>(retrievedLists: seq<seq<T>>, truthLists: seq<seq<T>>)
    requires |retrievedLists| == |truthLists| > 0
    ensures MeanReciprocalRank(retrievedLists, truthLists).value.Num?
    ensures 0.0 <= MeanReciprocalRank(retrievedLists, truthLists).value.value <= 1.0
  {
    var rs := ReciprocalRanks(retrievedLists, truthLists);
    forall q | 0 <= q < |rs|
      ensures 0.0 <= rs[q] <= 1.0
    {
      ReciprocalRanksAt(retrievedLists, truthLists, q);
    }
    MeanWithin(rs, 0.0, 1.0);
  }

  // ---------------------------------------------------------------------
  // Worked examples (document `docN` is written N)

  lemma MeanOfTwo(xs: seq<real>, a: real, b: real)
    requires |xs| == 2 && xs[0] == a && xs[1] == b
    ensures Mean(xs) == Num((a + b) / 2.0)
  {
    assert xs[..1][..0] == [];
    assert Sum(xs[..1]) == a;
    assert Sum(xs) == a + b;
  }

  lemma MeanOfThree(xs: seq<real>, a: real, b: real, c: real)
    requires |xs| == 3 && xs[0] == a && xs[1] == b && xs[2] == c
    ensures Mean(xs) == Num((a + b + c) / 3.0)
  {
    assert xs[..2][..1] == xs[..1] && xs[..1][..0] == [];
    assert Sum(xs[..1]) == a;
    assert Sum(xs[..2]) == a + b;
    assert Sum(xs) == a + b + c;
  }

  /** The perfect example: both queries match at rank 1. */
  lemma PerfectExample()
    ensures MeanReciprocalRank([[1, 2, 3], [4, 5, 6]], [[1], [4]]) == Ok(Num(1.0))
  {
    var retrieved, truth := [[1, 2, 3], [4, 5, 6]], [[1], [4]];
    ReciprocalRankIs(retrieved[0], truth[0], 1);
    ReciprocalRankIs(retrieved[1], truth[1], 1);
    ReciprocalRanksAt(retrieved, truth, 0);
    ReciprocalRanksAt(retrieved, truth, 1);
    MeanOfTwo(ReciprocalRanks(retrieved, truth), 1.0, 1.0);
  }

  /** The imperfect example: matches at ranks 2 and 3, so (1/2 + 1/3) / 2. */
  lemma ImperfectExample()
    ensures MeanReciprocalRank([[2, 1, 3], [5, 6, 4]], [[1], [4]]) == Ok(Num(5.0 / 12.0))
  {
    var retrieved, truth := [[2, 1, 3], [5, 6, 4]], [[1], [4]];
    ReciprocalRankIs(retrieved[0], truth[0], 2);
    ReciprocalRankIs(retrieved[1], truth[1], 3);
    ReciprocalRanksAt(retrieved, truth, 0);
    ReciprocalRanksAt(retrieved, truth, 1);
    MeanOfTwo(ReciprocalRanks(retrieved, truth), 1.0 / 2.0, 1.0 / 3.0);
  }

  /** The example with several relevant documents per query: first matches at
      ranks 2, 2 and 3, so (1/2 + 1/2 + 1/3) / 3. */
  lemma SeveralRelevantExample()
    ensures MeanReciprocalRank([[1, 2, 3, 4], [5, 2, 1, 6], [7, 8, 9, 1]], [[2, 3], [1, 2], [1, 9]])
         == Ok(Num(4.0 / 9.0))
  {
    var retrieved, truth := [[1, 2, 3, 4], [5, 2, 1, 6], [7, 8, 9, 1]], [[2, 3], [1, 2], [1, 9]];
    ReciprocalRankIs(retrieved[0], truth[0], 2);
    ReciprocalRankIs(retrieved[1], truth[1], 2);
    ReciprocalRankIs(retrieved[2], truth[2], 3);
    ReciprocalRanksAt(retrieved, truth, 0);
    ReciprocalRanksAt(retrieved, truth, 1);
    ReciprocalRanksAt(retrieved, truth, 2);
    MeanOfThree(ReciprocalRanks(retrieved, truth), 1.0 / 2.0, 1.0 / 2.0, 1.0 / 3.0);
  }

  /** The docstring example: first matches at ranks 2, 3 and 3, so
      (1/2 + 1/3 + 1/3) / 3 = 7/18. */
  lemma DocstringExample()
    ensures MeanReciprocalRank([[1, 2, 3], [4, 2, 1], [3, 1, 4]], [[2], [1], [4]]) == Ok(Num(7.0 / 18.0))
  {
    var retrieved, truth := [[1, 2, 3], [4, 2, 1], [3, 1, 4]], [[2], [1], [4]];
    ReciprocalRankIs(retrieved[0], truth[0], 2);
    ReciprocalRankIs(retrieved[1], truth[1], 3);
    ReciprocalRankIs(retrieved[2], truth[2], 3);
    ReciprocalRanksAt(retrieved, truth, 0);
    ReciprocalRanksAt(retrieved, truth, 1);
    ReciprocalRanksAt(retrieved, truth, 2);
    MeanOfThree(ReciprocalRanks(retrieved, truth), 1.0 / 2.0, 1.0 / 3.0, 1.0 / 3.0);
  }

  /** A query with no match contributes 0: one such query beside a perfect
      one halves the mean. */
  lemma NoMatchExample()
    ensures MeanReciprocalRank([[1, 2], []], [[1], [1]]) == Ok(Num(0.5))
  {
    var retrieved, truth := [[1, 2], []], [[1], [1]];
    ReciprocalRankIs(retrieved[0], truth[0], 1);
    ReciprocalRanksAt(retrieved, truth, 0);
    ReciprocalRanksAt(retrieved, truth, 1);
    MeanOfTwo(ReciprocalRanks(retrieved, truth), 1.0, 0.0);
  }
}
