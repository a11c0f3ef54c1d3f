/** Evaluation bookkeeping of the diabetes forests: the ZeroR baseline
    written next to every score, the stratified evaluation set, and the
    loop of `rf_evaluation_diabetes_con` that pairs each of the sixteen
    forests with its window's k-means model and its cluster number.
 */
module Evaluation {
  import opened Wrappers
  import opened Balance
  import opened Diabetes

  // ---------------------------------------------------------------------------
  // ZeroR
  // ---------------------------------------------------------------------------

  /** The largest number of times one of `candidates` occurs in `labels`. */
  function MaxCountOver(labels: seq<int>, candidates: seq<int>): (m: nat)
    requires |candidates| > 0
    ensures exists i :: 0 <= i < |candidates| && m == Count(labels, candidates[i])
    ensures forall i :: 0 <= i < |candidates| ==> Count(labels, candidates[i]) <= m
  {
    if |candidates| == 1 then Count(labels, candidates[0])
    else
      var init := candidates[..|candidates| - 1];
      var m := MaxCountOver(labels, init);
      assert forall i :: 0 <= i < |init| ==> init[i] == candidates[i];
      var c := Count(labels, candidates[|candidates| - 1]);
      if c > m then c else m
  }

  /** `max(value_counts())`: how often the most common label occurs. */
  function MaxCount(labels: seq<int>): (m: nat)
    requires |labels| > 0
    ensures exists x :: x in labels && m == Count(labels, x)
    ensures forall x :: Count(labels, x) <= m
  {
    var m := MaxCountOver(labels, labels);
    var i :| 0 <= i < |labels| && m == Count(labels, labels[i]);
    assert labels[i] in labels;
    forall x
      ensures Count(labels, x) <= m
    {
      CountIsMultiplicity(labels, x);
      if x in labels {
        var i :| 0 <= i < |labels| && labels[i] == x;
      }
    }
    m
  }

  /** Why the baseline raises: `max` of an empty `value_counts`. */
  datatype EvalError = EmptyTestSet

  /** `m / n` for counts `1 <= m <= n`, with the two facts the baseline
      needs about it. */
  lemma Share(m: nat, n: nat)
    requires 1 <= m <= n
    ensures (m as real / n as real) * n as real == m as real
    ensures 0.0 < m as real / n as real <= 1.0
    ensures 2 * m >= n ==> m as real / n as real >= 0.5
  {
    var v, nr := m as real / n as real, n as real;
    assert v * nr == m as real;
    assert (1.0 - v) * nr == nr - m as real;
    NonNegativeFactor(1.0 - v, nr);
    NonNegativeFactor(v, nr);
    assert (v - 0.5) * nr == m as real - 0.5 * nr;
    if 2 * m >= n {
      NonNegativeFactor(v - 0.5, nr);
    }
  }

  /** A product with a positive factor has the sign of the other factor. */
  lemma NonNegativeFactor(x: real, y: real)
    requires y > 0.0
    ensures x * y >= 0.0 ==> x >= 0.0
    ensures x * y > 0.0 ==> x > 0.0
  {
  }

  /** `zeror_score(zeror(test))`: the share of the most common label, the
      accuracy of always guessing it. */
  function ZeroR(labels: seq<int>): (r: Result<real, EvalError>)
    ensures r.Err? <==> |labels| == 0
    ensures r.Ok? ==> 0.0 < r.value <= 1.0
    ensures r.Ok? ==> r.value * |labels| as real == MaxCount(labels) as real
  {
    if |labels| == 0 then Err(EmptyTestSet)
    else
      var m := MaxCount(labels);
      assert m >= 1 by {
        var x :| x in labels && m == Count(labels, x);
        CountIsMultiplicity(labels, x);
      }
      Share(m, |labels|);
      Ok(m as real / |labels| as real)
  }

  /** Binary labels: the ones and the zeros make up the whole set. */
  lemma {:induction false} BinaryCounts(labels: seq<int>)
    requires forall i :: 0 <= i < |labels| ==> labels[i] == 0 || labels[i] == 1
    ensures Count(labels, 0) + Count(labels, 1) == |labels|
    decreases |labels|
  {
    if |labels| > 0 {
      BinaryCounts(labels[..|labels| - 1]);
    }
  }

  /** With K positives among N labels the baseline is max(K, N - K) / N,
      which lies between one half and one. */
  lemma ZeroRBinary(labels: seq<int>)
    requires |labels| > 0
    requires forall i :: 0 <= i < |labels| ==> labels[i] == 0 || labels[i] == 1
    ensures var k, n := Count(labels, 1), |labels|;
            ZeroR(labels) == Ok((if k > n - k then k else n - k) as real / n as real)
    ensures 0.5 <= ZeroR(labels).value <= 1.0
  {
    var k, n := Count(labels, 1), |labels|;
    BinaryCounts(labels);
    var m := MaxCount(labels);
    var x :| x in labels && m == Count(labels, x);
    assert x == 0 || x == 1;
    assert Count(labels, 0) <= m && Count(labels, 1) <= m;
    assert m == if k > n - k then k else n - k;
    Share(m, n);
  }

  // ---------------------------------------------------------------------------
  // The evaluation set
  // ---------------------------------------------------------------------------

  /** `pd.concat([test_pos, test_neg.sample(n=round(len(test_pos)))])` when
      stratifying, all rows otherwise. */
  function EvaluationSet<T>(pos: seq<T>, neg: seq<T>, stratify: bool, draw: seq<nat>)
    : (r: Result<seq<T>, SampleError>)
    requires stratify && |pos| <= |neg| ==> IsDraw(draw, |pos|, |neg|)
    ensures r.Err? <==> stratify && |pos| > |neg|
    ensures r.Ok? ==> |r.value| >= |pos| && r.value[..|pos|] == pos && multiset(r.value[|pos|..]) <= multiset(neg)
    ensures r.Ok? && stratify ==> |r.value| == 2 * |pos|
    ensures !stratify ==> r == Ok(pos + neg)
  {
    if !stratify then Ok(pos + neg)
    else match Sample(neg, |pos|, draw)
      case Err(e) => Err(e)
      case Ok(s) =>
        assert (pos + s)[..|pos|] == pos && (pos + s)[|pos|..] == s;
        Ok(pos + s)
  }

  /** Stratified, the baseline of a non-empty evaluation is exactly one
      half: as many sampled negatives as positives. */
  lemma StratifiedZeroR(pos: seq<int>, neg: seq<int>, draw: seq<nat>)
    requires |pos| > 0 && |pos| <= |neg| && IsDraw(draw, |pos|, |neg|)
    requires forall i :: 0 <= i < |pos| ==> pos[i] == 1
    requires forall i :: 0 <= i < |neg| ==> neg[i] == 0
    ensures EvaluationSet(pos, neg, true, draw).Ok?
    ensures ZeroR(EvaluationSet(pos, neg, true, draw).value) == Ok(0.5)
  {
    var t := EvaluationSet(pos, neg, true, draw).value;
    var s := t[|pos|..];
    assert t == pos + s;
    DrawnAreNegative(s, neg);
    CountConstant(pos, 1, 0);
    CountConstant(s, 0, 1);
    CountAppend(pos, s, 1);
    BinaryAppend(pos, s);
    ZeroRBinary(t);
    HalfOfDouble(|pos|);
  }

  lemma DrawnAreNegative(s: seq<int>, neg: seq<int>)
    requires multiset(s) <= multiset(neg)
    requires forall i :: 0 <= i < |neg| ==> neg[i] == 0
    ensures forall i :: 0 <= i < |s| ==> s[i] == 0
  {
    forall i | 0 <= i < |s|
      ensures s[i] == 0
    {
      assert s[i] in multiset(s);
      assert s[i] in neg;
    }
  }

  lemma BinaryAppend(a: seq<int>, b: seq<int>)
    requires forall i :: 0 <= i < |a| ==> a[i] == 1
    requires forall i :: 0 <= i < |b| ==> b[i] == 0
    ensures forall i :: 0 <= i < |a + b| ==> (a + b)[i] == 0 || (a + b)[i] == 1
  {
  }

  lemma HalfOfDouble(n: nat)
    requires n > 0
    ensures n as real / (2 * n) as real == 0.5
  {
    assert (2 * n) as real == 2.0 * n as real;
  }

  // ---------------------------------------------------------------------------
  // The evaluation loop
  // ---------------------------------------------------------------------------

  /** One diabetes forest as trained: the onset window of its cases and the
      k-means cluster they came from. */
  datatype TrainedForest = TrainedForest(window: Window, cluster: nat)

  /** The sixteen forests in the order of the model list the controller
      passes to the evaluation loop. */
  const Forests: seq<TrainedForest> := [
    TrainedForest(OneYear, 0), TrainedForest(OneYear, 1), TrainedForest(OneYear, 2), TrainedForest(OneYear, 3),
    TrainedForest(FiveYears, 0), TrainedForest(FiveYears, 1), TrainedForest(FiveYears, 2), TrainedForest(FiveYears, 3),
    TrainedForest(FiveToTen, 0), TrainedForest(FiveToTen, 1), TrainedForest(FiveToTen, 2), TrainedForest(FiveToTen, 3),
    TrainedForest(OverTen, 0), TrainedForest(OverTen, 1), TrainedForest(OverTen, 2), TrainedForest(OverTen, 3)]

  /** The windows of the k-means models, in the order of the cluster list. */
  const ClusterWindows: seq<Window> := [OneYear, FiveYears, FiveToTen, OverTen]

  /** What one pass of the loop hands to the evaluation: the running number
      `x` of the model name, the forest's stored bounds, the position `y` in
      the cluster list and the cluster number `cc`. */
  datatype Entry = Entry(number: int, bounds: Bounds, clusterModel: int, cluster: int)

  /** Why the loop raises: `cluster_list[y]` past the end of the list. */
  datatype ScheduleError = ClusterListExhausted

  /** The loop of `rf_evaluation_diabetes_con`: `x`, `y` and `cc` updated
      exactly as the source does. Forest k (from 0) is evaluated with
      k-means model k div 4 and cluster k mod 4, under the name number
      k + 1; the loop raises once a forest needs a k-means model the list
      does not hold. */
  method EvaluationSchedule(models: seq<Bounds>, clusterModels: nat) returns (r: Result<seq<Entry>, ScheduleError>)
    ensures r.Err? <==> |models| > 4 * clusterModels
    ensures r.Ok? ==> |r.value| == |models|
    ensures r.Ok? ==> forall k :: 0 <= k < |models| ==>
              r.value[k] == Entry(k + 1, models[k], k / 4, k % 4)
  {
    var x, y, cc := 1, 0, 0;
    var entries: seq<Entry> := [];
    for i := 0 to |models|
      invariant x == i + 1 && y == i / 4 && cc == i % 4
      invariant |entries| == i
      invariant forall k :: 0 <= k < i ==> entries[k] == Entry(k + 1, models[k], k / 4, k % 4)
      invariant i <= 4 * clusterModels
    {
      if y >= clusterModels {
        return Err(ClusterListExhausted);
      }
      entries := entries + [Entry(x, models[i], y, cc)];
      if x % 4 == 0 && x != 0 {
        y := y + 1;
      }
      if cc == 3 {
        cc := cc - 4;
      }
      cc := cc + 1;
      x := x + 1;
    }
    return Ok(entries);
  }

  /** The stored `(min_days, max_days)` of the sixteen forests, in list
      order: four forests per window, the windows in the order one year,
      five years, five to ten years, over ten years. */
  function ForestBounds(): (b: seq<Bounds>)
    ensures |b| == |Forests| == 16
    ensures forall k :: 0 <= k < 4 ==> b[k] == Bounds(0, 365)
    ensures forall k :: 4 <= k < 8 ==> b[k] == Bounds(0, 1825)
    ensures forall k :: 8 <= k < 12 ==> b[k] == Bounds(1825, 3650)
    ensures forall k :: 12 <= k < 16 ==> b[k] == Bounds(3650, 99999999)
  {
    seq(|Forests|, k requires 0 <= k < |Forests| => StoredBounds(Forests[k].window))
  }

  /** The loop's pairing is the training pairing: forest k was trained on a
      cluster of the window whose k-means model sits at position k div 4 of
      the cluster list, and on cluster k mod 4 of it; its stored bounds are
      that window's. */
  lemma ScheduleMatchesTraining(k: nat)
    requires k < |Forests|
    ensures ClusterWindows[k / 4] == Forests[k].window
    ensures k % 4 == Forests[k].cluster
    ensures ForestBounds()[k] == StoredBounds(ClusterWindows[k / 4])
  {
  }
}
