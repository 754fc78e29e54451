/** Recall@K: the fraction of a query's relevant documents that appear among
    its top k retrieved documents, and its average over a batch of queries for
    one or several values of k (recall_k.py). */
module RecallK {
  import opened Common

  /** Python's `s[:k]` for k >= 0: the first k elements, or all of them when
      the list is shorter. */
  function Take<T>(s: seq<T>, k: nat): (r: seq<T>)
    ensures |r| == if k < |s| then k else |s|
    ensures r == s[..|r|]
  {
    if k < |s| then s[..k] else s
  }

  /** Python's `set(s)`: the distinct elements of a list. */
  function Elements<T>(s: seq<T>): set<T>
  {
    if |s| == 0 then {} else Elements(s[..|s| - 1]) + {s[|s| - 1]}
  }

  lemma {:induction false} InElements<T>(s: seq<T>, x: T)
    ensures x in Elements(s) <==> x in s
  {
    if |s| > 0 {
      InElements(s[..|s| - 1], x);
      assert s == s[..|s| - 1] + [s[|s| - 1]];
    }
  }

  /** The relevant documents found among the top k retrieved ones. */
  function Hits<T>(retrieved: seq<T>, relevant: set<T>, k: nat): (h: set<T>)
    ensures h <= relevant
  {
    Elements(Take(retrieved, k)) * relevant
  }

  /** `calculate_recall_at_k`: an empty relevant set is reported before a
      non-positive k; otherwise the number of distinct relevant documents in
      the top k, divided by the number of relevant documents. */
  function RecallAtK<T>(retrieved: seq<T>, relevant: set<T>, k: int): (r: Result<real>)
    ensures relevant == {} ==> r == Err(EmptyRelevantSet)
    ensures relevant != {} && k <= 0 ==> r == Err(InvalidK)
    ensures r.Ok? <==> relevant != {} && k > 0
    ensures r.Ok? ==> 0.0 <= r.value <= 1.0
  {
    if relevant == {} then Err(EmptyRelevantSet)
    else if k <= 0 then Err(InvalidK)
    else
      var hits := Hits(retrieved, relevant, k);
      SubsetCardinality(hits, relevant);
      Ok(Fraction(|hits|, |relevant|))
  }

  /** `a / b` for a part `a` of a whole `b`. */
  function Fraction(a: nat, b: nat): (r: real)
    requires 0 < b && a <= b
    ensures 0.0 <= r <= 1.0
    ensures r == 1.0 <==> a == b
    ensures r == 0.0 <==> a == 0
  {
    a as real / b as real
  }

  lemma {:induction false} SubsetCardinality<T>(a: set<T>, b: set<T>)
    requires a <= b
    ensures |a| <= |b|
    ensures |a| == |b| ==> a == b
  {
    if a != {} {
      var x :| x in a;
      SubsetCardinality(a - {x}, b - {x});
    }
  }

  /** The hits are the relevant documents that occur in the top k. */
  lemma HitsMembers<T>(retrieved: seq<T>, relevant: set<T>, k: nat)
    ensures forall d :: d in Hits(retrieved, relevant, k) <==> d in relevant && d in Take(retrieved, k)
  {
    forall d
      ensures d in Hits(retrieved, relevant, k) <==> d in relevant && d in Take(retrieved, k)
    {
      InElements(Take(retrieved, k), d);
    }
  }

  /** Recall is 1 exactly when every relevant document is among the top k. */
  lemma RecallIsOneIff<T>(retrieved: seq<T>, relevant: set<T>, k: int)
    requires RecallAtK(retrieved, relevant, k).Ok?
    ensures RecallAtK(retrieved, relevant, k).value == 1.0 <==>
              forall d :: d in relevant ==> d in Take(retrieved, k)
  {
    var hits := Hits(retrieved, relevant, k);
    HitsMembers(retrieved, relevant, k);
    SubsetCardinality(hits, relevant);
    if forall d :: d in relevant ==> d in Take(retrieved, k) {
      assert hits == relevant;
    }
  }

  /** Recall is 0 exactly when no relevant document is among the top k. */
  lemma RecallIsZeroIff<T>(retrieved: seq<T>, relevant: set<T>, k: int)
    requires RecallAtK(retrieved, relevant, k).Ok?
    ensures RecallAtK(retrieved, relevant, k).value == 0.0 <==>
              forall i :: 0 <= i < |Take(retrieved, k)| ==> Take(retrieved, k)[i] !in relevant
  {
    var top := Take(retrieved, k);
    var hits := Hits(retrieved, relevant, k);
    HitsMembers(retrieved, relevant, k);
    if exists i :: 0 <= i < |top| && top[i] in relevant {
      var i :| 0 <= i < |top| && top[i] in relevant;
      assert top[i] in hits;
    }
  }

  /** The top-k documents only grow with k. */
  lemma TakeGrows<T>(s: seq<T>, k1: nat, k2: nat)
    requires k1 <= k2
    ensures Elements(Take(s, k1)) <= Elements(Take(s, k2))
  {
    forall x | x in Elements(Take(s, k1)) ensures x in Elements(Take(s, k2)) {
      InElements(Take(s, k1), x);
      InElements(Take(s, k2), x);
      var i :| 0 <= i < |Take(s, k1)| && Take(s, k1)[i] == x;
      assert Take(s, k2)[i] == x;
    }
  }

  /** For a fixed retrieved list and relevant set, Recall@k never decreases
      as k grows. */
  lemma RecallMonotone<T>(retrieved: seq<T>, relevant: set<T>, k1: int, k2: int)
    requires relevant != {} && 0 < k1 <= k2
    ensures RecallAtK(retrieved, relevant, k1).value <= RecallAtK(retrieved, relevant, k2).value
  {
    TakeGrows(retrieved, k1, k2);
    var h1, h2 := Hits(retrieved, relevant, k1), Hits(retrieved, relevant, k2);
    SubsetCardinality(h1, h2);
    DivideMonotone(|h1| as real, |h2| as real, |relevant| as real);
  }

  lemma DivideMonotone(a: real, b: real, d: real)
    requires a <= b && d > 0.0
    ensures a / d <= b / d
  {
  }

  /** A k at or beyond the length of a non-empty retrieved list means the
      whole list. */
  lemma RecallSaturates<T>(retrieved: seq<T>, relevant: set<T>, k: int)
    requires k >= |retrieved| > 0
    ensures RecallAtK(retrieved, relevant, k) == RecallAtK(retrieved, relevant, |retrieved|)
  {
    assert Take(retrieved, k) == Take(retrieved, |retrieved|);
  }

  /** A document repeated within the top k counts once: placing a copy of a
      document already ranked at the next position changes nothing. */
  lemma RecallIgnoresDuplicates<T>(top: seq<T>, d: T, rest: seq<T>, relevant: set<T>)
    requires d in top
    ensures RecallAtK(top + [d] + rest, relevant, |top| + 1) == RecallAtK(top + rest, relevant, |top|)
  {
    assert Take(top + [d] + rest, |top| + 1) == top + [d];
    assert Take(top + rest, |top|) == top;
    forall x ensures x in Elements(top + [d]) <==> x in Elements(top) {
      InElements(top + [d], x);
      InElements(top, x);
    }
    assert Elements(top + [d]) == Elements(top);
  }

  /** Only the set of documents in the top k matters: two windows holding the
      same documents, in any order and with any repetitions, give the same
      recall (`[a, a, b]` at k = 3 and `[b, a]` at k = 2, say). */
  lemma RecallDependsOnlyOnTopElements<T>(a: seq<T>, b: seq<T>, relevant: set<T>, k1: nat, k2: nat)
    requires k1 > 0 && k2 > 0
    requires Elements(Take(a, k1)) == Elements(Take(b, k2))
    ensures RecallAtK(a, relevant, k1) == RecallAtK(b, relevant, k2)
  {
  }

  /** The docstring example: one of three relevant documents in the top 2. */
  lemma DocstringExample()
    ensures RecallAtK(["doc1", "doc2", "doc3", "doc4"], {"doc1", "doc3", "doc5"}, 2) == Ok(1.0 / 3.0)
  {
    var top := Take(["doc1", "doc2", "doc3", "doc4"], 2);
    assert top == ["doc1", "doc2"];
    HitsMembers(["doc1", "doc2", "doc3", "doc4"], {"doc1", "doc3", "doc5"}, 2);
    assert Hits(["doc1", "doc2", "doc3", "doc4"], {"doc1", "doc3", "doc5"}, 2) == {"doc1"};
  }

  /** The first usage example: two of three relevant documents in the top 3. */
  lemma TopThreeExample()
    ensures RecallAtK(["doc1", "doc2", "doc3", "doc4", "doc5"], {"doc1", "doc3", "doc5"}, 3) == Ok(2.0 / 3.0)
  {
    var top := Take(["doc1", "doc2", "doc3", "doc4", "doc5"], 3);
    assert top == ["doc1", "doc2", "doc3"];
    HitsMembers(["doc1", "doc2", "doc3", "doc4", "doc5"], {"doc1", "doc3", "doc5"}, 3);
    assert Hits(["doc1", "doc2", "doc3", "doc4", "doc5"], {"doc1", "doc3", "doc5"}, 3) == {"doc1", "doc3"};
  }

  /** The "perfect recall" example. */
  lemma PerfectExample()
    ensures RecallAtK(["doc1", "doc3", "doc2"], {"doc1", "doc3"}, 3) == Ok(1.0)
  {
    HitsMembers(["doc1", "doc3", "doc2"], {"doc1", "doc3"}, 3);
    assert Hits(["doc1", "doc3", "doc2"], {"doc1", "doc3"}, 3) == {"doc1", "doc3"};
  }

  // ---------------------------------------------------------------------
  // The batch version

  /** Each query's single-query result at `k`, in query order. */
  function PerQuery<T>(retrieved: seq<seq<T>>, relevant: seq<set<T>>, k: int): (r: seq<Result<real>>)
    requires |retrieved| == |relevant|
    ensures |r| == |retrieved|
  {
    seq(|retrieved|, i requires 0 <= i < |retrieved| => RecallAtK(retrieved[i], relevant[i], k))
  }

  /** The values of the successful results, in order; the failed ones are
      skipped. */
  function Oks(results: seq<Result<real>>): (r: seq<real>)
    ensures |r| <= |results|
  {
    if |results| == 0 then []
    else
      var last := results[|results| - 1];
      Oks(results[..|results| - 1]) + if last.Ok? then [last.value] else []
  }

  /** The recalls of the queries whose single-query call succeeds at `k`, in
      query order: the list the source collects for `k`. */
  function Successes<T>(retrieved: seq<seq<T>>, relevant: seq<set<T>>, k: int): seq<real>
    requires |retrieved| == |relevant|
  {
    Oks(PerQuery(retrieved, relevant, k))
  }

  /** The batch average at one k: a length mismatch raises, otherwise the mean
      over the queries that succeeded. It is NaN when none did, that is when
      k is not positive or every relevant set is empty. */
  function AverageRecall<T>(retrieved: seq<seq<T>>, relevant: seq<set<T>>, k: int): (r: Result<Score>)
    ensures r.Err? <==> |retrieved| != |relevant|
    ensures r.Err? ==> r.error == LengthMismatch
    ensures r.Ok? ==> (r.value.NaN? <==> k <= 0 || forall i :: 0 <= i < |relevant| ==> relevant[i] == {})
  {
    if |retrieved| != |relevant| then Err(LengthMismatch)
    else
      NoSuccessesIff(retrieved, relevant, k);
      Ok(Mean(Successes(retrieved, relevant, k)))
  }

  /** The batch averages for a list of k values, aligned with that list. */
  function AverageRecalls<T>(retrieved: seq<seq<T>>, relevant: seq<set<T>>, ks: seq<int>): (r: Result<seq<Score>>)
    ensures r.Ok? <==> |retrieved| == |relevant|
    ensures r.Ok? ==> |r.value| == |ks|
  {
    if |retrieved| != |relevant| then Err(LengthMismatch)
    else Ok(seq(|ks|, j requires 0 <= j < |ks| => Mean(Successes(retrieved, relevant, ks[j]))))
  }

  /** The list of averages is the single-k average at each listed k. */
  lemma AverageRecallsAligned<T>(retrieved: seq<seq<T>>, relevant: seq<set<T>>, ks: seq<int>)
    requires |retrieved| == |relevant|
    ensures forall j :: 0 <= j < |ks| ==>
              AverageRecall(retrieved, relevant, ks[j]) == Ok(AverageRecalls(retrieved, relevant, ks).value[j])
  {
  }

  lemma {:induction false} OksAppend(a: seq<Result<real>>, b: seq<Result<real>>)
    ensures Oks(a + b) == Oks(a) + Oks(b)
    decreases |b|
  {
    if |b| == 0 {
      assert a + b == a;
    } else {
      var n := |b| - 1;
      assert (a + b)[..|a + b| - 1] == a + b[..n];
      OksAppend(a, b[..n]);
    }
  }

  /** Values drawn from [lo, hi] stay in [lo, hi] after the failures are
      dropped. */
  lemma {:induction false} OksWithin(results: seq<Result<real>>, lo: real, hi: real)
    requires forall i :: 0 <= i < |results| && results[i].Ok? ==> lo <= results[i].value <= hi
    ensures AllWithin(Oks(results), lo, hi)
  {
    if |results| > 0 {
      OksWithin(results[..|results| - 1], lo, hi);
    }
  }

  lemma PerQueryAppend<T>(r1: seq<seq<T>>, s1: seq<set<T>>, r2: seq<seq<T>>, s2: seq<set<T>>, k: int)
    requires |r1| == |s1| && |r2| == |s2|
    ensures PerQuery(r1 + r2, s1 + s2, k) == PerQuery(r1, s1, k) + PerQuery(r2, s2, k)
  {
  }

  lemma SuccessesAppend<T>(r1: seq<seq<T>>, s1: seq<set<T>>, r2: seq<seq<T>>, s2: seq<set<T>>, k: int)
    requires |r1| == |s1| && |r2| == |s2|
    ensures Successes(r1 + r2, s1 + s2, k) == Successes(r1, s1, k) + Successes(r2, s2, k)
  {
    PerQueryAppend(r1, s1, r2, s2, k);
    OksAppend(PerQuery(r1, s1, k), PerQuery(r2, s2, k));
  }

  /** A query whose relevant set is empty contributes nothing to the list of
      recalls, wherever it stands in the batch. */
  lemma SkipsQueryWithoutRelevant<T>(retrieved: seq<seq<T>>, relevant: seq<set<T>>, i: nat, docs: seq<T>, k: int)
    requires |retrieved| == |relevant| && i <= |retrieved|
    ensures Successes(retrieved[..i] + [docs] + retrieved[i..], relevant[..i] + [{}] + relevant[i..], k)
         == Successes(retrieved, relevant, k)
  {
    var empty: set<T> := {};
    var r1, s1, r2, s2 := retrieved[..i], relevant[..i], retrieved[i..], relevant[i..];
    var skipped := PerQuery([docs], [empty], k);
    assert skipped == [Err(EmptyRelevantSet)];
    assert Oks(skipped) == [] by {
      assert skipped[..0] == [];
    }
    PerQueryAppend(r1 + [docs], s1 + [empty], r2, s2, k);
    PerQueryAppend(r1, s1, [docs], [empty], k);
    OksAppend(PerQuery(r1, s1, k) + skipped, PerQuery(r2, s2, k));
    OksAppend(PerQuery(r1, s1, k), skipped);
    assert r1 + r2 == retrieved && s1 + s2 == relevant;
    SuccessesAppend(r1, s1, r2, s2, k);
  }

  /** A query whose relevant set is empty is skipped, not counted as 0: adding
      one anywhere in the batch leaves the average unchanged. */
  lemma AverageSkipsQueryWithoutRelevant<T>(retrieved: seq<seq<T>>, relevant: seq<set<T>>, i: nat, docs: seq<T>, k: int)
    requires |retrieved| == |relevant| && i <= |retrieved|
    ensures AverageRecall(retrieved[..i] + [docs] + retrieved[i..], relevant[..i] + [{}] + relevant[i..], k)
         == AverageRecall(retrieved, relevant, k)
  {
    SkipsQueryWithoutRelevant(retrieved, relevant, i, docs, k);
  }

  /** With no failure, every result contributes its value, in order. */
  lemma {:induction false} OksAllOk(results: seq<Result<real>>)
    requires forall i :: 0 <= i < |results| ==> results[i].Ok?
    ensures |Oks(results)| == |results|
    ensures forall i :: 0 <= i < |results| ==> Oks(results)[i] == results[i].value
  {
    if |results| > 0 {
      OksAllOk(results[..|results| - 1]);
    }
  }

  /** Nothing survives exactly when every result failed. */
  lemma {:induction false} OksEmptyIff(results: seq<Result<real>>)
    ensures Oks(results) == [] <==> forall i :: 0 <= i < |results| ==> results[i].Err?
  {
    if |results| > 0 {
      var init := results[..|results| - 1];
      OksEmptyIff(init);
      if forall i :: 0 <= i < |results| ==> results[i].Err? {
        assert forall i :: 0 <= i < |init| ==> init[i].Err?;
      }
    }
  }

  /** When every query succeeds, every query contributes exactly one value,
      its recall. */
  lemma AllSucceed<T>(retrieved: seq<seq<T>>, relevant: seq<set<T>>, k: int)
    requires |retrieved| == |relevant| && k > 0
    requires forall i :: 0 <= i < |relevant| ==> relevant[i] != {}
    ensures |Successes(retrieved, relevant, k)| == |retrieved|
    ensures forall i :: 0 <= i < |retrieved| ==>
              Ok(Successes(retrieved, relevant, k)[i]) == RecallAtK(retrieved[i], relevant[i], k)
  {
    OksAllOk(PerQuery(retrieved, relevant, k));
  }

  /** The average at k is NaN exactly when no query succeeds: k is not
      positive, or every relevant set is empty. */
  lemma NoSuccessesIff<T>(retrieved: seq<seq<T>>, relevant: seq<set<T>>, k: int)
    requires |retrieved| == |relevant|
    ensures Successes(retrieved, relevant, k) == [] <==>
              k <= 0 || forall i :: 0 <= i < |relevant| ==> relevant[i] == {}
  {
    var results := PerQuery(retrieved, relevant, k);
    OksEmptyIff(results);
    assert forall i :: 0 <= i < |results| ==> results[i] == RecallAtK(retrieved[i], relevant[i], k);
  }

  /** Every average that is a number lies in [0, 1]. */
  lemma AverageRecallWithin<T>(retrieved: seq<seq<T>>, relevant: seq<set<T>>, k: int)
    requires AverageRecall(retrieved, relevant, k).Ok?
    ensures AverageRecall(retrieved, relevant, k).value.Num? ==>
              0.0 <= AverageRecall(retrieved, relevant, k).value.value <= 1.0
  {
    OksWithin(PerQuery(retrieved, relevant, k), 0.0, 1.0);
    MeanWithin(Successes(retrieved, relevant, k), 0.0, 1.0);
  }

  /** The dictionary the batch call starts from: an empty list for every k. */
  function Fresh(ks: seq<int>): (m: map<int, seq<real>>)
    ensures forall k :: k in m <==> k in ks
    ensures forall k :: k in m ==> m[k] == []
  {
    map k | k in ks :: []
  }

  /** One visit of the inner loop: the query's recall at `k` is appended to
      the entry for `k`, or nothing changes when the call raises (the source
      then prints a warning and skips the query for this k). */
  function Record<T>(recalls: map<int, seq<real>>, retrieved: seq<T>, relevant: set<T>, k: int): (m: map<int, seq<real>>)
    requires k in recalls
    ensures m.Keys == recalls.Keys
  {
    match RecallAtK(retrieved, relevant, k)
    case Ok(v) => recalls[k := recalls[k] + [v]]
    case Err(_) => recalls
  }

  /** The inner loop over a list of k values, for one query. */
  function RecordQuery<T>(recalls: map<int, seq<real>>, retrieved: seq<T>, relevant: set<T>, ks: seq<int>): (m: map<int, seq<real>>)
    requires forall k :: k in ks ==> k in recalls
    ensures m.Keys == recalls.Keys
  {
    if |ks| == 0 then recalls
    else Record(RecordQuery(recalls, retrieved, relevant, ks[..|ks| - 1]), retrieved, relevant, ks[|ks| - 1])
  }

  /** The dictionary once the first `q` queries have been visited. */
  ghost function Recorded<T>(queryRetrieved: seq<seq<T>>, queryRelevant: seq<set<T>>, q: nat, ks: seq<int>): (m: map<int, seq<real>>)
    requires |queryRetrieved| == |queryRelevant| && q <= |queryRetrieved|
    ensures forall k :: k in ks ==> k in m
  {
    if q == 0 then Fresh(ks)
    else RecordQuery(Recorded(queryRetrieved, queryRelevant, q - 1, ks), queryRetrieved[q - 1], queryRelevant[q - 1], ks)
  }

  /** `calculate_average_recall_at_k` with a list of k values. The recalls
      are first collected in a dictionary keyed by k, so a k listed twice gets
      each query's recall twice; that leaves its mean unchanged. */
  method CalculateAverageRecallAtEachK<T>(queryRetrieved: seq<seq<T>>, queryRelevant: seq<set<T>>, ks: seq<int>)
    returns (r: Result<seq<Score>>)
    ensures r == AverageRecalls(queryRetrieved, queryRelevant, ks)
  {
    if |queryRetrieved| != |queryRelevant| {
      return Err(LengthMismatch);
    }
    var recalls := Fresh(ks);
    var q := 0;
    while q < |queryRetrieved|
      invariant 0 <= q <= |queryRetrieved|
      invariant recalls == Recorded(queryRetrieved, queryRelevant, q, ks)
    {
      recalls := RecordQueryLoop(recalls, queryRetrieved[q], queryRelevant[q], ks);
      q := q + 1;
    }
    FinalAverages(queryRetrieved, queryRelevant, ks, recalls);
    r := Ok(MeansAt(recalls, ks));
  }

  /** The inner loop of the batch call: one query's recall at every listed
      k, recorded in turn. */
  method RecordQueryLoop<T>(recalls: map<int, seq<real>>, retrieved: seq<T>, relevant: set<T>, ks: seq<int>)
    returns (updated: map<int, seq<real>>)
    requires forall k :: k in ks ==> k in recalls
    ensures updated == RecordQuery(recalls, retrieved, relevant, ks)
  {
    updated := recalls;
    var j := 0;
    while j < |ks|
      invariant 0 <= j <= |ks|
      invariant updated == RecordQuery(recalls, retrieved, relevant, ks[..j])
    {
      var kVal := ks[j];
      var outcome := RecallAtK(retrieved, relevant, kVal);
      if outcome.Ok? {
        updated := updated[kVal := updated[kVal] + [outcome.value]];
      } // else the source prints a warning and skips this query for this k
      assert ks[..j + 1][..j] == ks[..j];
      j := j + 1;
    }
    assert ks[..|ks|] == ks;
  }

  /** The final list comprehension of the batch call: the mean of the entry
      for each listed k, in the order of the list. */
  function MeansAt(recalls: map<int, seq<real>>, ks: seq<int>): (means: seq<Score>)
    requires forall j :: 0 <= j < |ks| ==> ks[j] in recalls
    ensures |means| == |ks|
  {
    seq(|ks|, j requires 0 <= j < |ks| => Mean(recalls[ks[j]]))
  }

  /** After the last query the entry for each k holds the mean of the
      successes at k. */
  lemma FinalAverages<T>(queryRetrieved: seq<seq<T>>, queryRelevant: seq<set<T>>, ks: seq<int>,
                         recalls: map<int, seq<real>>)
    requires |queryRetrieved| == |queryRelevant|
    requires recalls == Recorded(queryRetrieved, queryRelevant, |queryRetrieved|, ks)
    ensures forall j :: 0 <= j < |ks| ==> ks[j] in recalls
    ensures AverageRecalls(queryRetrieved, queryRelevant, ks) == Ok(MeansAt(recalls, ks))
  {
    var n := |queryRetrieved|;
    assert queryRetrieved[..n] == queryRetrieved;
    assert queryRelevant[..n] == queryRelevant;
    var expected := seq(|ks|, j requires 0 <= j < |ks| => Mean(Successes(queryRetrieved, queryRelevant, ks[j])));
    var averages := MeansAt(recalls, ks);
    forall j | 0 <= j < |ks|
      ensures averages[j] == expected[j]
    {
      RecordedEntry(queryRetrieved, queryRelevant, n, ks, ks[j]);
      MeanOfStutter(Successes(queryRetrieved, queryRelevant, ks[j]), Count(ks, ks[j]));
    }
    assert averages == expected;
  }

  /** The number of occurrences of `k` in `ks`. */
  function Count(ks: seq<int>, k: int): (c: nat)
    ensures c > 0 <==> k in ks
  {
    if |ks| == 0 then 0 else Count(ks[..|ks| - 1], k) + if ks[|ks| - 1] == k then 1 else 0
  }

  /** The copies of one query's outcome at `k` appended by `c` visits of `k`:
      none when the call raised. */
  function Pending(outcome: Result<real>, c: nat): (p: seq<real>)
    ensures |p| == if outcome.Ok? then c else 0
    ensures forall i :: 0 <= i < |p| ==> p[i] == outcome.value
  {
    if outcome.Ok? then Repeat(outcome.value, c) else []
  }

  /** The inner loop appends to the entry for `k` one copy of the query's
      recall per occurrence of `k`, and nothing to the others. */
  lemma {:induction false} RecordQueryEntry<T>(recalls: map<int, seq<real>>, retrieved: seq<T>, relevant: set<T>,
                                               ks: seq<int>, k: int)
    requires forall k :: k in ks ==> k in recalls
    requires k in recalls
    ensures RecordQuery(recalls, retrieved, relevant, ks)[k]
         == recalls[k] + Pending(RecallAtK(retrieved, relevant, k), Count(ks, k))
  {
    if |ks| == 0 {
      assert recalls[k] + [] == recalls[k];
    } else {
      var init, last := ks[..|ks| - 1], ks[|ks| - 1];
      RecordQueryEntry(recalls, retrieved, relevant, init, k);
      if last == k {
        var outcome := RecallAtK(retrieved, relevant, k);
        if outcome.Ok? {
          assert Repeat(outcome.value, Count(ks, k)) == Repeat(outcome.value, Count(init, k)) + [outcome.value];
        }
      }
    }
  }

  /** After `q` queries the entry for each listed k is the list of their
      successful recalls at k, each repeated once per occurrence of k. */
  lemma {:induction false} RecordedEntry<T>(queryRetrieved: seq<seq<T>>, queryRelevant: seq<set<T>>, q: nat,
                                            ks: seq<int>, k: int)
    requires |queryRetrieved| == |queryRelevant| && q <= |queryRetrieved|
    requires k in ks
    ensures Recorded(queryRetrieved, queryRelevant, q, ks)[k]
         == Stutter(Successes(queryRetrieved[..q], queryRelevant[..q], k), Count(ks, k))
  {
    if q == 0 {
      var none := Successes(queryRetrieved[..0], queryRelevant[..0], k);
      assert |PerQuery(queryRetrieved[..0], queryRelevant[..0], k)| == 0;
      assert none == [];
    } else {
      var p := q - 1;
      var earlier := Recorded(queryRetrieved, queryRelevant, p, ks);
      var prior := Successes(queryRetrieved[..p], queryRelevant[..p], k);
      var outcome := RecallAtK(queryRetrieved[p], queryRelevant[p], k);
      var c := Count(ks, k);
      RecordedEntry(queryRetrieved, queryRelevant, p, ks, k);
      assert Recorded(queryRetrieved, queryRelevant, q, ks) == RecordQuery(earlier, queryRetrieved[p], queryRelevant[p], ks);
      RecordQueryEntry(earlier, queryRetrieved[p], queryRelevant[p], ks, k);
      SuccessesStep(queryRetrieved, queryRelevant, p, k);
      assert Successes(queryRetrieved[..q], queryRelevant[..q], k) == prior + Oks([outcome]);
      StutterOutcome(prior, outcome, c);
    }
  }

  /** Visiting one more query extends the successes by its recall, if any. */
  lemma SuccessesStep<T>(queryRetrieved: seq<seq<T>>, queryRelevant: seq<set<T>>, q: nat, k: int)
    requires |queryRetrieved| == |queryRelevant| && q < |queryRetrieved|
    ensures Successes(queryRetrieved[..q + 1], queryRelevant[..q + 1], k)
         == Successes(queryRetrieved[..q], queryRelevant[..q], k) + Oks([RecallAtK(queryRetrieved[q], queryRelevant[q], k)])
  {
    var before := PerQuery(queryRetrieved[..q], queryRelevant[..q], k);
    var after := PerQuery(queryRetrieved[..q + 1], queryRelevant[..q + 1], k);
    var current := RecallAtK(queryRetrieved[q], queryRelevant[q], k);
    assert after == before + [current];
    OksAppend(before, [current]);
  }

  /** Stuttering the successes extended by one outcome extends the stuttered
      list by that outcome's pending copies. */
  lemma StutterOutcome(prior: seq<real>, outcome: Result<real>, c: nat)
    ensures Stutter(prior + Oks([outcome]), c) == Stutter(prior, c) + Pending(outcome, c)
  {
    assert [outcome][..0] == [];
    if outcome.Ok? {
      StutterAppend(prior, outcome.value, c);
    } else {
      assert prior + [] == prior;
      assert Stutter(prior, c) + [] == Stutter(prior, c);
    }
  }

  /** `calculate_average_recall_at_k` with a single k: the one average. */
  method CalculateAverageRecallAtK<T>(queryRetrieved: seq<seq<T>>, queryRelevant: seq<set<T>>, k: int)
    returns (r: Result<Score>)
    ensures r == AverageRecall(queryRetrieved, queryRelevant, k)
  {
    var all := CalculateAverageRecallAtEachK(queryRetrieved, queryRelevant, [k]);
    match all
    case Err(e) =>
      r := Err(e);
    case Ok(averages) =>
      r := Ok(averages[0]);
  }

  /** Both queries of the docstring's batch example have the shape
      [x, y, z] against {x, z}: at k = 1 and k = 2 only x is found. */
  lemma HalfFound<T>(x: T, y: T, z: T, k: int)
    requires x != y && y != z && x != z
    requires k == 1 || k == 2
    ensures RecallAtK([x, y, z], {x, z}, k) == Ok(0.5)
  {
    if k == 1 {
      assert Take([x, y, z], k) == [x];
    } else {
      assert Take([x, y, z], k) == [x, y];
    }
    HitsMembers([x, y, z], {x, z}, k);
    assert Hits([x, y, z], {x, z}, k) == {x};
  }

  /** Both queries of the docstring's batch example find one of their two
      relevant documents at k = 1 and at k = 2. */
  lemma BatchDocstringRecalls(k: int)
    requires k == 1 || k == 2
    ensures Successes([["doc1", "doc2", "doc3"], ["doc4", "doc5", "doc6"]],
                      [{"doc1", "doc3"}, {"doc4", "doc6"}], k) == [0.5, 0.5]
  {
    var rs: seq<seq<string>> := [["doc1", "doc2", "doc3"], ["doc4", "doc5", "doc6"]];
    var ss: seq<set<string>> := [{"doc1", "doc3"}, {"doc4", "doc6"}];
    HalfFound("doc1", "doc2", "doc3", k);
    HalfFound("doc4", "doc5", "doc6", k);
    AllSucceed(rs, ss, k);
  }

  /** The docstring's batch example averages 0.5 at k = 1 and at k = 2. */
  lemma BatchDocstringAverage(k: int)
    requires k == 1 || k == 2
    ensures AverageRecall([["doc1", "doc2", "doc3"], ["doc4", "doc5", "doc6"]],
                          [{"doc1", "doc3"}, {"doc4", "doc6"}], k) == Ok(Num(0.5))
  {
    BatchDocstringRecalls(k);
    MeanOfConstant(0.5, 2);
    assert Repeat(0.5, 2) == [0.5, 0.5];
  }

  /** When every listed k has the same average, the batch call returns that
      average once per k. */
  lemma SameAverages<T>(retrieved: seq<seq<T>>, relevant: seq<set<T>>, ks: seq<int>, x: Score)
    requires |retrieved| == |relevant|
    requires forall j :: 0 <= j < |ks| ==> AverageRecall(retrieved, relevant, ks[j]) == Ok(x)
    ensures AverageRecalls(retrieved, relevant, ks) == Ok(seq(|ks|, _ => x))
  {
    var averages := AverageRecalls(retrieved, relevant, ks).value;
    AverageRecallsAligned(retrieved, relevant, ks);
    var target := seq(|ks|, _ => x);
    assert forall j :: 0 <= j < |ks| ==> averages[j] == x == target[j];
    assert averages == target;
  }

  /** The docstring's batch example at k = [1, 2] gives [0.5, 0.5]. */
  lemma BatchDocstringExample()
    ensures AverageRecalls([["doc1", "doc2", "doc3"], ["doc4", "doc5", "doc6"]],
                           [{"doc1", "doc3"}, {"doc4", "doc6"}], [1, 2])
         == Ok([Num(0.5), Num(0.5)])
  {
    var rs: seq<seq<string>> := [["doc1", "doc2", "doc3"], ["doc4", "doc5", "doc6"]];
    var ss: seq<set<string>> := [{"doc1", "doc3"}, {"doc4", "doc6"}];
    var ks := [1, 2];
    forall j | 0 <= j < |ks|
      ensures AverageRecall(rs, ss, ks[j]) == Ok(Num(0.5))
    {
      BatchDocstringAverage(ks[j]);
    }
    SameAverages(rs, ss, ks, Num(0.5));
    assert seq(|ks|, _ => Num(0.5)) == [Num(0.5), Num(0.5)];
  }
}
