# Retrieval metrics in Dafny

A verified model of three information-retrieval metrics and their batch
wrappers:

- **Recall@K** (`recall_k.py`). For one query this is the number of distinct
  relevant documents among the top `k` retrieved ones, divided by the number
  of relevant documents. The batch call averages it over a list of queries,
  for one `k` or for a list of `k` values. A query whose single-query call
  raises is skipped with a warning, not counted as 0.
- **NDCG** (`normalized_discounted_cumulative_gain.py`). DCG sums each
  position's relevance divided by a logarithmic discount. NDCG divides the
  DCG of the ranking by the DCG of the ideal ranking, which holds every
  relevance in the dictionary sorted from high to low. It is 0 when the
  ideal DCG is 0. The batch call averages NDCG over a list of queries.
- **MRR** (`mean_reciprocal_rank.py`). For each query, a scan finds the
  1-based rank of the first retrieved item that is in the ground truth. The
  query contributes 1/rank, or 0 when no item matches. MRR is the mean of
  these entries.

Modules:

- `Common` (`common.dfy`): the errors, the `Result`, `Option` and `Score`
  types, and sums and means over sequences of reals.
- `RecallK` (`recall_k.dfy`)
- `Ndcg` (`ndcg.dfy`)
- `Mrr` (`mrr.dfy`)

Each metric has a pure specification function. The batch wrappers, which
work by loops that append to lists or to a dictionary, are `method`s whose
`ensures` equate their result with that specification. The lemmas then prove
what the source promises about the specification.

Modelling choices:

- Python floats are `real`, and the model's arithmetic is exact. Recall@K
  and MRR scores are ratios of whole numbers. NDCG is exact only relative to
  the discount parameter: it stands for `log2`, whose values are
  irrational.
- `np.mean` of an empty list is `Score.NaN`. numpy returns NaN there, with a
  runtime warning.
- A `ValueError` is an `Err` of a `Result`.
- The NDCG discount `log2(i + 2)` is a parameter `disc` of type `Discount`:
  any discount that is 1 at the first position and positive everywhere.
- A relevance dictionary is an association list in insertion order. The
  lookup `Get` returns the first entry for a document.
- Recall's batch call collects recalls in a dictionary keyed by `k`, so a
  `k` listed twice gets each query's recall twice. The model keeps that
  dictionary and proves that the duplication leaves the mean unchanged.
- The NDCG and MRR worked examples write document `docN` as the number `N`.
  The Recall examples keep the source's strings.

The code and its docstrings disagree in two places, and the model follows
the code:

- The batch Recall docstring (recall_k.py:55-64) prints `[0.25, 0.5]`, but
  both of its queries find one of their two relevant documents at k = 1 and
  at k = 2. `RecallK.BatchDocstringExample` proves `[0.5, 0.5]`.
- The MRR docstring (mean_reciprocal_rank.py:17-28) prints `0.5556` next to
  the formula `(1/2 + 1/3 + 1/3) / 3`. That formula equals 7/18, which is
  what the code computes. `Mrr.DocstringExample` proves 7/18.

## Model

| member | source | states |
|---|---|---|
| Common.Mean | recall_k.py:85 | `np.mean`: NaN exactly for an empty list; otherwise mean times length equals the sum |
| Common.MeanWithin | mean_reciprocal_rank.py:45 | the mean of values in [lo, hi] is in [lo, hi] |
| Common.MeanOfConstant | recall_k.py:85 | the mean of n > 0 copies of x is x |
| Common.MeanOfStutter | recall_k.py:73-85 | repeating every element the same positive number of times leaves the mean unchanged, so a k listed twice keeps its average |
| Common.ScoreEachAt | normalized_discounted_cumulative_gain.py:78-81 | a per-query loop yields one entry per query, in query order: entry q is the score of query q |
| RecallK.Take | recall_k.py:30 | `retrieved_docs[:k]` has min(k, length) elements and is a prefix of the list |
| RecallK.InElements | recall_k.py:30 | `set(list)` holds exactly the list's elements |
| RecallK.RecallAtK | recall_k.py:24-38 | an empty relevant set raises first, then k <= 0 raises; the call succeeds exactly otherwise, with a value in [0, 1] |
| RecallK.HitsMembers | recall_k.py:30-33 | the intersection holds exactly the relevant documents that occur in the top k |
| RecallK.RecallIsOneIff | recall_k.py:30-36 | recall is 1 if and only if every relevant document is in the top k |
| RecallK.RecallIsZeroIff | recall_k.py:30-36 | recall is 0 if and only if no document of the top k is relevant |
| RecallK.RecallMonotone | recall_k.py:30-36 | for 0 < k1 <= k2, recall at k1 is at most recall at k2 |
| RecallK.RecallSaturates | recall_k.py:30 | a k at or beyond the list length gives the same result as k equal to the length |
| RecallK.RecallDependsOnlyOnTopElements | recall_k.py:30-33 | two top-k windows with the same set of documents, whatever their order or repetitions, give the same recall |
| RecallK.RecallIgnoresDuplicates | recall_k.py:30-33 | a repeated document in the top k is counted once |
| RecallK.DocstringExample | recall_k.py:19-22 | the docstring example gives 1/3 |
| RecallK.TopThreeExample | recall_k.py:93-97 | the first usage example gives 2/3 |
| RecallK.PerfectExample | recall_k.py:119-122 | the perfect-recall example gives 1.0 |
| RecallK.AverageRecall | recall_k.py:66-88 | the batch average at one k: raises exactly on a length mismatch; otherwise the mean of the successful recalls, which is NaN exactly when k <= 0 or every relevant set is empty. `AverageRecallWithin` bounds it to [0, 1] and `AverageSkipsQueryWithoutRelevant` shows that queries whose call raises are skipped |
| RecallK.AverageRecalls | recall_k.py:66-67 | the batch call raises exactly on a length mismatch; otherwise it returns one average per listed k |
| RecallK.AverageRecallsAligned | recall_k.py:85 | entry j of the list of averages is the batch average at ks[j] |
| RecallK.SkipsQueryWithoutRelevant | recall_k.py:78-82 | inserting a query with an empty relevant set anywhere leaves the collected recalls unchanged |
| RecallK.AverageSkipsQueryWithoutRelevant | recall_k.py:78-85 | such a query is skipped, not counted as 0: the average is unchanged |
| RecallK.AllSucceed | recall_k.py:76-80 | when every query succeeds, each query contributes exactly its recall, in order |
| RecallK.NoSuccessesIff | recall_k.py:78-85 | nothing is collected, and so the mean is NaN, if and only if k <= 0 or every relevant set is empty |
| RecallK.AverageRecallWithin | recall_k.py:85 | every numeric batch average lies in [0, 1] |
| RecallK.Fresh | recall_k.py:73 | the initial dictionary has exactly the listed k values as keys, each with an empty list |
| RecallK.Record | recall_k.py:78-82 | recording one call keeps the dictionary's keys |
| RecallK.RecordQuery | recall_k.py:77-82 | the inner loop over the k values keeps the dictionary's keys |
| RecallK.Recorded | recall_k.py:76-82 | after any number of queries every listed k is still a key |
| RecallK.RecordQueryLoop | recall_k.py:77-82 | the inner loop's dictionary equals the fold `RecordQuery` over the k values |
| RecallK.RecordQueryEntry | recall_k.py:77-82 | one query appends its recall at k once per occurrence of k in the list, and nothing when the call raises |
| RecallK.RecordedEntry | recall_k.py:73-82 | after q queries the entry for k is the successful recalls at k, each repeated once per occurrence of k |
| RecallK.MeansAt | recall_k.py:85 | the final comprehension gives one mean per listed k |
| RecallK.FinalAverages | recall_k.py:84-85 | after the last query, the mean of each entry is the batch average at that k |
| RecallK.CalculateAverageRecallAtEachK | recall_k.py:40-88 | the batch call with a list of k values returns `AverageRecalls` |
| RecallK.CalculateAverageRecallAtK | recall_k.py:70-88 | the batch call with a single k returns the one average `AverageRecall` |
| RecallK.BatchDocstringAverage | recall_k.py:55-64 | the docstring's batch averages 0.5 at k = 1 and at k = 2 |
| RecallK.BatchDocstringExample | recall_k.py:55-64 | the docstring's batch call with k = [1, 2] returns [0.5, 0.5] |
| Ndcg.Truncate | normalized_discounted_cumulative_gain.py:15-18 | `None` keeps the whole list; otherwise the first min(k, length) elements |
| Ndcg.Gains | normalized_discounted_cumulative_gain.py:19 | one gain per position, relevance over discount, and the first gain is the first relevance undivided |
| Ndcg.Dcg | normalized_discounted_cumulative_gain.py:4-20 | `calculate_dcg`: the sum of the gains of the first k positions; 0 for an empty list or k = 0. `DcgStep`, `DcgNonNegative`, `DcgGrowsWithCutoff` and `DcgCutoffBeyondLength` give its other properties |
| Ndcg.DcgStep | normalized_discounted_cumulative_gain.py:18-20 | raising the cut-off from k to k + 1 adds relevance[k] / disc(k) |
| Ndcg.DcgFirst | normalized_discounted_cumulative_gain.py:19 | the first position is not discounted |
| Ndcg.DcgCutoffBeyondLength | normalized_discounted_cumulative_gain.py:15-18 | a cut-off at or beyond the length gives the same DCG as `None` |
| Ndcg.DcgOfPrefix | normalized_discounted_cumulative_gain.py:18 | DCG at k depends only on the first k relevances |
| Ndcg.DcgNonNegative | normalized_discounted_cumulative_gain.py:19-20 | non-negative relevances give a non-negative DCG |
| Ndcg.DcgGrowsWithCutoff | normalized_discounted_cumulative_gain.py:18-20 | with non-negative relevances DCG never decreases as the cut-off grows |
| Ndcg.DcgPositive | normalized_discounted_cumulative_gain.py:19-20 | a positive first relevance, with none negative, makes DCG positive at every positive cut-off |
| Ndcg.Get | normalized_discounted_cumulative_gain.py:46 | `dict.get(doc, 0.0)`: a listed document gets its relevance, an unlisted one gets 0 |
| Ndcg.GetNonNegative | normalized_discounted_cumulative_gain.py:46 | non-negative relevances give non-negative lookups |
| Ndcg.ScoresOf | normalized_discounted_cumulative_gain.py:46 | one relevance per retrieved document, in retrieval order; `MissingDocumentScoresZero` and `ListedDocumentScores` state the value at each position |
| Ndcg.MissingDocumentScoresZero | normalized_discounted_cumulative_gain.py:46 | a retrieved document missing from the dictionary scores 0 at its position |
| Ndcg.ListedDocumentScores | normalized_discounted_cumulative_gain.py:46 | a retrieved document in the dictionary scores its relevance at its position |
| Ndcg.SortDescending | normalized_discounted_cumulative_gain.py:52 | `sorted(..., reverse=True)` gives a non-increasing permutation of its input |
| Ndcg.Insert | normalized_discounted_cumulative_gain.py:52 | inserting into a non-increasing list keeps it non-increasing and adds exactly the one element |
| Ndcg.SortedIsUnique | normalized_discounted_cumulative_gain.py:52 | two non-increasing lists with the same elements are equal, so the sorted order is unique |
| Ndcg.IdealScores | normalized_discounted_cumulative_gain.py:52 | the ideal ranking is a non-increasing permutation of all the dictionary's values, one per entry |
| Ndcg.IdealIsUnique | normalized_discounted_cumulative_gain.py:52 | the ideal ranking is the one non-increasing arrangement of the dictionary's values |
| Ndcg.Cutoff | normalized_discounted_cumulative_gain.py:42-43 | `None` becomes the number of retrieved documents, which is then also the ideal DCG's cut-off |
| Ndcg.Ndcg | normalized_discounted_cumulative_gain.py:22-59 | `calculate_ndcg`: 0 for an empty dictionary, for k = 0, and for no cut-off with nothing retrieved. `PerfectRanking`, `PrefixPerfect`, `NdcgNonNegative`, `NdcgZeroWithoutIdealGain`, `LongCutoffDiffersFromNone` and `DuplicatesCanExceedOne` give its other properties |
| Ndcg.NdcgZeroWithoutIdealGain | normalized_discounted_cumulative_gain.py:55-57 | an ideal DCG of 0 gives NDCG 0 |
| Ndcg.NdcgAllZero | normalized_discounted_cumulative_gain.py:52-57 | all-zero relevances give 0 |
| Ndcg.PerfectRanking | normalized_discounted_cumulative_gain.py:46-59 | a ranking whose cut relevances equal the ideal ones scores 1 when the ideal DCG is not 0 |
| Ndcg.PrefixPerfect | normalized_discounted_cumulative_gain.py:46-59 | agreeing with the ideal ranking on the first c positions scores 1 when the ideal ranking starts positive and has no negative relevance |
| Ndcg.NdcgNonNegative | normalized_discounted_cumulative_gain.py:46-59 | non-negative relevances give a non-negative NDCG |
| Ndcg.NdcgScoresAt | normalized_discounted_cumulative_gain.py:78-81 | entry q of the batch's list is the NDCG of query q |
| Ndcg.NdcgScoresStep | normalized_discounted_cumulative_gain.py:79-81 | each loop iteration appends the current query's NDCG |
| Ndcg.AverageNdcg | normalized_discounted_cumulative_gain.py:75-83 | the batch raises exactly on a length mismatch; otherwise the mean is NaN exactly for an empty batch |
| Ndcg.CalculateNdcgForQueries | normalized_discounted_cumulative_gain.py:61-83 | the batch loop returns `AverageNdcg` |
| Ndcg.AverageNdcgNonNegative | normalized_discounted_cumulative_gain.py:83 | a non-empty batch with non-negative relevances has a non-negative numeric mean |
| Ndcg.PerfectExample | normalized_discounted_cumulative_gain.py:37-40 | doc1, doc2, doc3 against {doc1: 3, doc2: 2, doc3: 1, doc4: 0} scores 1 at k = 2 and with no cut-off, for any discount |
| Ndcg.ImperfectExample | normalized_discounted_cumulative_gain.py:93-96 | doc2, doc3, doc1 scores below 1 with no cut-off |
| Ndcg.ImperfectAtTwo | normalized_discounted_cumulative_gain.py:110-112 | doc2, doc3, doc1 scores below 1 at k = 2, for any discount |
| Ndcg.BatchExample | normalized_discounted_cumulative_gain.py:98-108 | the two-query usage example averages exactly 1 |
| Ndcg.LongCutoffDiffersFromNone | normalized_discounted_cumulative_gain.py:42-53 | unlike DCG, NDCG at a cut-off beyond the retrieved list is not NDCG with no cut-off: `['doc1']` against `{doc1: 1, doc2: 1}` scores 1 with none and below 1 at k = 2, for every discount |
| Ndcg.DuplicatesCanExceedOne | normalized_discounted_cumulative_gain.py:46-59 | a document retrieved twice counts twice, so NDCG can exceed 1 |
| Mrr.FirstMatch | mean_reciprocal_rank.py:37-40 | the scan's stopping position: no earlier item is in the ground truth, and the item there is, unless the scan ran off the end |
| Mrr.ReciprocalRank | mean_reciprocal_rank.py:37-43 | the entry of one query lies in [0, 1] and is 0 exactly when no retrieved item is in the ground truth, an empty list included; `ReciprocalRankIs` gives its value 1/rank at the first match |
| Mrr.FirstMatchIsUnique | mean_reciprocal_rank.py:37-40 | any position with those two properties is the scan's stopping position |
| Mrr.ReciprocalRankIs | mean_reciprocal_rank.py:37-40 | the entry is 1/rank if and only if the item at that rank is in the ground truth and no earlier item is |
| Mrr.ReciprocalRankRange | mean_reciprocal_rank.py:37-43 | the entry is 0 or 1/r for some rank r within the list |
| Mrr.OnlyFirstMatchMatters | mean_reciprocal_rank.py:37-40 | two lists that agree up to and including a matching item have the same entry, whatever follows |
| Mrr.ReciprocalRanksAt | mean_reciprocal_rank.py:33-43 | entry q of the list is the entry of query q: one per query, in order |
| Mrr.ReciprocalRanksStep | mean_reciprocal_rank.py:35-43 | each outer iteration appends exactly one entry |
| Mrr.MeanReciprocalRank | mean_reciprocal_rank.py:30-31 | a length mismatch raises, and only then; otherwise the mean is NaN exactly for no queries |
| Mrr.CalculateMrr | mean_reciprocal_rank.py:4-46 | the nested loops, with the `break` and the `for`/`else`, return `MeanReciprocalRank` |
| Mrr.MeanReciprocalRankWithin | mean_reciprocal_rank.py:45 | the MRR of a non-empty batch is a number in [0, 1] |
| Mrr.PerfectExample | mean_reciprocal_rank.py:51-60 | the perfect example gives 1.0 |
| Mrr.ImperfectExample | mean_reciprocal_rank.py:63-72 | the imperfect example gives 5/12 |
| Mrr.SeveralRelevantExample | mean_reciprocal_rank.py:75-86 | the example with several relevant documents gives 4/9 |
| Mrr.DocstringExample | mean_reciprocal_rank.py:17-28 | the docstring example gives (1/2 + 1/3 + 1/3) / 3 = 7/18 |
| Mrr.NoMatchExample | mean_reciprocal_rank.py:41-43 | a query with nothing retrieved contributes 0: beside a perfect query the mean is 1/2 |

## Left out

- The `print` calls and the `__main__` blocks are not modelled. The batch
  Recall call's warning for a skipped query is the absence of an append.
- `np.log2` is not computed. The discount is a parameter with
  `disc(0) == 1` and positive values.
- Ndcg.ImperfectExample: proved for every discount with
  `disc(1) <= disc(2)` and `disc(2) > 1`, which `log2(i + 2)` satisfies, not
  for the concrete values of `log2`.
- Floating-point rounding, overflow and NaN arithmetic are not modelled; the
  scores are exact reals.
- Ndcg.Ndcg: for NDCG, only `k = len(retrieved_docs)` is the same as no
  cut-off. A larger `k` also cuts the ideal ranking later, as
  `LongCutoffDiffersFromNone` shows; only DCG ignores a cut-off beyond the
  list.
- Ndcg.Truncate: the cut-off is a natural number. A negative `k`, which
  Python's slice counts from the end, is not modelled.
- Recall's `isinstance(k, int)` dispatch becomes two entry points,
  `CalculateAverageRecallAtK` and `CalculateAverageRecallAtEachK`. A `k` that
  is neither an int nor a list is not modelled.
- Ndcg.Get: its value for a listed document is stated only when the
  association list has distinct keys, as a Python dict always has.
- Hashing and Python's object equality are not modelled. Documents are values
  of any type with equality.
- The error messages of the `ValueError`s are not modelled, and neither are
  other exceptions, such as a `TypeError` for unhashable documents.
- An upper bound of 1 on NDCG is not claimed. `Ndcg.DuplicatesCanExceedOne`
  shows that the code does not guarantee one.
