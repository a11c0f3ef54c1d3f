/** Class balancing (`class_balance`) and the cluster label attached to a
    balanced cohort (`cluster_label`). The random choice that
    `DataFrame.sample` makes is a parameter: `draw` lists the positions
    picked, in the order they come out.
 */
module Balance {
  import opened Wrappers
  import opened Labels

  /** Python's built-in `round` on a number: the nearest integer, ties to
      the even one. */
  function RoundHalfEven(x: real): (n: int)
    ensures x - 0.5 <= n as real <= x + 0.5
    ensures (n as real == x - 0.5 || n as real == x + 0.5) ==> n % 2 == 0
  {
    var f := x.Floor;
    var frac := x - f as real;
    if frac < 0.5 then f
    else if frac > 0.5 then f + 1
    else if f % 2 == 0 then f
    else f + 1
  }

  lemma RoundOfWhole(n: int)
    ensures RoundHalfEven(n as real) == n
  {
  }

  /** Why `DataFrame.sample(n=…)` raises. */
  datatype SampleError =
    | NegativeSampleSize      // "A negative number of rows requested"
    | LargerThanPopulation    // "Cannot take a larger sample than population when 'replace=False'"

  /** `n` distinct positions of a table of `size` rows: one possible outcome
      of sampling without replacement. */
  predicate IsDraw(draw: seq<nat>, n: int, size: nat) {
    && |draw| == n
    && (forall i :: 0 <= i < |draw| ==> draw[i] < size)
    && (forall i, j :: 0 <= i < j < |draw| ==> draw[i] != draw[j])
  }

  /** The rows at the drawn positions, in draw order. */
  function Pick<T>(rows: seq<T>, draw: seq<nat>): (s: seq<T>)
    requires forall i :: 0 <= i < |draw| ==> draw[i] < |rows|
    ensures |s| == |draw|
    ensures forall i :: 0 <= i < |draw| ==> s[i] == rows[draw[i]]
  {
    seq(|draw|, i requires 0 <= i < |draw| => rows[draw[i]])
  }

  lemma PickAppend<T>(rows: seq<T>, a: seq<nat>, b: seq<nat>)
    requires forall i :: 0 <= i < |a| ==> a[i] < |rows|
    requires forall i :: 0 <= i < |b| ==> b[i] < |rows|
    ensures Pick(rows, a + b) == Pick(rows, a) + Pick(rows, b)
  {
  }

  /** A draw that avoids the last row picks the same rows without it. */
  lemma PickInit<T>(rows: seq<T>, draw: seq<nat>)
    requires |rows| > 0
    requires forall i :: 0 <= i < |draw| ==> draw[i] < |rows| - 1
    ensures Pick(rows, draw) == Pick(rows[..|rows| - 1], draw)
  {
  }

  /** The draw with the position of row `size - 1` removed. */
  function Without(draw: seq<nat>, p: nat): (rest: seq<nat>)
    requires p < |draw|
    ensures |rest| == |draw| - 1
  {
    draw[..p] + draw[p + 1..]
  }

  /** Taking the last row out of a draw leaves a draw over the other rows. */
  lemma WithoutIsDraw(draw: seq<nat>, size: nat, p: nat)
    requires IsDraw(draw, |draw|, size)
    requires p < |draw| && draw[p] == size - 1
    ensures IsDraw(Without(draw, p), |draw| - 1, size - 1)
  {
    var rest := Without(draw, p);
    forall i | 0 <= i < |rest|
      ensures rest[i] < size - 1
    {
      var i' := if i < p then i else i + 1;
      assert rest[i] == draw[i'] && draw[i'] != draw[p];
    }
    forall i, j | 0 <= i < j < |rest|
      ensures rest[i] != rest[j]
    {
      var i' := if i < p then i else i + 1;
      var j' := if j < p then j else j + 1;
      assert rest[i] == draw[i'] && rest[j] == draw[j'];
    }
  }

  /** Picking with the last row amounts to picking the rest from the other
      rows, plus that row once. */
  lemma PickLast<T>(rows: seq<T>, draw: seq<nat>, p: nat)
    requires IsDraw(draw, |draw|, |rows|)
    requires p < |draw| && draw[p] == |rows| - 1
    ensures IsDraw(Without(draw, p), |draw| - 1, |rows| - 1)
    ensures multiset(Pick(rows, draw))
            == multiset(Pick(rows[..|rows| - 1], Without(draw, p))) + multiset{rows[|rows| - 1]}
  {
    WithoutIsDraw(draw, |rows|, p);
    var last := |rows| - 1;
    var before, after := draw[..p], draw[p + 1..];
    assert Without(draw, p) == before + after;
    assert draw == before + [last] + after;
    PickAppend(rows, before + [last], after);
    PickAppend(rows, before, [last]);
    PickInit(rows, before + after);
    PickAppend(rows, before, after);
  }

  /** Drawing without replacement never takes a row more often than it
      occurs. */
  lemma {:induction false} PickWithoutReplacement<T>(rows: seq<T>, draw: seq<nat>)
    requires IsDraw(draw, |draw|, |rows|)
    ensures multiset(Pick(rows, draw)) <= multiset(rows)
    decreases |rows|
  {
    if |rows| > 0 {
      var last := |rows| - 1;
      var init := rows[..last];
      assert rows == init + [rows[last]];
      if p :| 0 <= p < |draw| && draw[p] == last {
        PickLast(rows, draw, p);
        PickWithoutReplacement(init, Without(draw, p));
      } else {
        assert forall i :: 0 <= i < |draw| ==> draw[i] < last;
        PickWithoutReplacement(init, draw);
        PickInit(rows, draw);
      }
    }
  }

  /** `rows.sample(n=n)`: raises for a negative size or one larger than the
      table, otherwise yields the drawn rows. */
  function Sample<T>(rows: seq<T>, n: int, draw: seq<nat>): (r: Result<seq<T>, SampleError>)
    requires 0 <= n <= |rows| ==> IsDraw(draw, n, |rows|)
    ensures r.Err? <==> n < 0 || n > |rows|
    ensures n < 0 ==> r == Err(NegativeSampleSize)
    ensures r.Ok? ==> |r.value| == n && multiset(r.value) <= multiset(rows)
  {
    if n < 0 then Err(NegativeSampleSize)
    else if n > |rows| then Err(LargerThanPopulation)
    else
      PickWithoutReplacement(rows, draw);
      Ok(Pick(rows, draw))
  }

  /** The side `class_balance` keeps whole: the strictly smaller one, the
      target class on a tie. */
  function Kept<T>(target: seq<T>, other: seq<T>): seq<T> {
    if |target| > |other| then other else target
  }

  /** The side `class_balance` samples from. */
  function Sampled<T>(target: seq<T>, other: seq<T>): seq<T> {
    if |target| > |other| then target else other
  }

  /** `round(min * ratio_multiplyer)`: how many rows are drawn. */
  function BalanceSize(keptSize: nat, ratio: real): int {
    RoundHalfEven(keptSize as real * ratio)
  }

  /** The draws a caller may supply to `ClassBalance`. */
  predicate ValidBalanceDraw<T>(target: seq<T>, other: seq<T>, ratio: real, draw: seq<nat>) {
    var n := BalanceSize(|Kept(target, other)|, ratio);
    0 <= n <= |Sampled(target, other)| ==> IsDraw(draw, n, |Sampled(target, other)|)
  }

  /** `class_balance(targetclass, class2, ratio_multiplyer)`: the kept side
      in full, followed by `round(|kept| * ratio)` rows sampled without
      replacement from the other side. */
  function ClassBalance<T>(target: seq<T>, other: seq<T>, ratio: real, draw: seq<nat>)
    : (r: Result<seq<T>, SampleError>)
    requires ValidBalanceDraw(target, other, ratio, draw)
    ensures var n := BalanceSize(|Kept(target, other)|, ratio);
            r.Ok? <==> 0 <= n <= |Sampled(target, other)|
    ensures r.Ok? ==>
              var kept := Kept(target, other);
              && |r.value| == |kept| + BalanceSize(|kept|, ratio)
              && r.value[..|kept|] == kept
              && multiset(r.value[|kept|..]) <= multiset(Sampled(target, other))
  {
    var kept := Kept(target, other);
    var n := BalanceSize(|kept|, ratio);
    match Sample(Sampled(target, other), n, draw)
    case Err(e) => Err(e)
    case Ok(s) =>
      assert (kept + s)[|kept|..] == s;
      Ok(kept + s)
  }

  /** The smaller class is kept whole (the target class on a tie) and the
      larger one never grows. */
  lemma ClassBalanceRetention<T>(target: seq<T>, other: seq<T>, ratio: real, draw: seq<nat>)
    requires ValidBalanceDraw(target, other, ratio, draw)
    requires ClassBalance(target, other, ratio, draw).Ok?
    ensures var cohort := ClassBalance(target, other, ratio, draw).value;
            && (|target| <= |other| ==> cohort[..|target|] == target)
            && (|target| > |other| ==> cohort[..|other|] == other)
            && |cohort| - |Kept(target, other)| <= |Sampled(target, other)|
  {
  }

  /** With the default ratio of 1 the call always succeeds and yields twice
      the smaller class. */
  lemma ClassBalanceRatioOne<T>(target: seq<T>, other: seq<T>, draw: seq<nat>)
    requires ValidBalanceDraw(target, other, 1.0, draw)
    ensures ClassBalance(target, other, 1.0, draw).Ok?
    ensures |ClassBalance(target, other, 1.0, draw).value| == 2 * |Kept(target, other)|
    ensures |Kept(target, other)| == if |target| < |other| then |target| else |other|
  {
    RoundOfWhole(|Kept(target, other)|);
  }

  /** `cluster_label`: 1 for rows that carry a cluster id (the diabetes
      side), 0 for rows that do not (the healthy side, whose cluster column
      is null after the concatenation). */
  function ClusterLabel(clusters: seq<Option<int>>): (labels: seq<int>)
    ensures |labels| == |clusters|
    ensures forall i :: 0 <= i < |clusters| ==> (labels[i] == 1 <==> clusters[i].Some?)
    ensures forall i :: 0 <= i < |clusters| ==> labels[i] == 0 || labels[i] == 1
  {
    Binaries(clusters)
  }

  lemma {:induction false} CountLabels(clusters: seq<Option<int>>, present: bool)
    requires forall i :: 0 <= i < |clusters| ==> clusters[i].Some? == present
    ensures Count(ClusterLabel(clusters), 1) == (if present then |clusters| else 0)
    ensures Count(ClusterLabel(clusters), 0) == (if present then 0 else |clusters|)
    decreases |clusters|
  {
    if |clusters| > 0 {
      var init := clusters[..|clusters| - 1];
      assert ClusterLabel(clusters)[..|clusters| - 1] == ClusterLabel(init);
      CountLabels(init, present);
    }
  }

  /** The training set built for one diabetes cell is exactly balanced: the
      cluster column of the diabetes side is filled, that of the healthy
      side is null, and with ratio 1 both labels occur `min` times. */
  lemma BalancedTrainingLabels(cases: seq<Option<int>>, healthy: seq<Option<int>>, draw: seq<nat>)
    requires forall i :: 0 <= i < |cases| ==> cases[i].Some?
    requires forall i :: 0 <= i < |healthy| ==> healthy[i].None?
    requires ValidBalanceDraw(cases, healthy, 1.0, draw)
    ensures ClassBalance(cases, healthy, 1.0, draw).Ok?
    ensures var labels := ClusterLabel(ClassBalance(cases, healthy, 1.0, draw).value);
            var m := if |cases| < |healthy| then |cases| else |healthy|;
            Count(labels, 1) == m && Count(labels, 0) == m
  {
    ClassBalanceRatioOne(cases, healthy, draw);
    var cohort := ClassBalance(cases, healthy, 1.0, draw).value;
    var kept, side := Kept(cases, healthy), Sampled(cases, healthy);
    var drawn := cohort[|kept|..];
    assert cohort == kept + drawn;
    var keptPresent := |cases| <= |healthy|;
    assert forall i :: 0 <= i < |kept| ==> kept[i].Some? == keptPresent;
    assert forall i :: 0 <= i < |side| ==> side[i].Some? == !keptPresent;
    SubMultisetKeepsStatus(drawn, side, !keptPresent);
    CohortLabelCounts(kept, drawn, keptPresent);
  }

  /** A cohort made of one side followed by as many rows of the other side
      carries each label as often as the first side has rows. */
  lemma CohortLabelCounts(kept: seq<Option<int>>, drawn: seq<Option<int>>, keptPresent: bool)
    requires |drawn| == |kept|
    requires forall i :: 0 <= i < |kept| ==> kept[i].Some? == keptPresent
    requires forall i :: 0 <= i < |drawn| ==> drawn[i].Some? == !keptPresent
    ensures Count(ClusterLabel(kept + drawn), 1) == |kept|
    ensures Count(ClusterLabel(kept + drawn), 0) == |kept|
  {
    LabelsAppend(kept, drawn);
    CountLabels(kept, keptPresent);
    CountLabels(drawn, !keptPresent);
  }

  lemma LabelsAppend(a: seq<Option<int>>, b: seq<Option<int>>)
    ensures Count(ClusterLabel(a + b), 1) == Count(ClusterLabel(a), 1) + Count(ClusterLabel(b), 1)
    ensures Count(ClusterLabel(a + b), 0) == Count(ClusterLabel(a), 0) + Count(ClusterLabel(b), 0)
  {
    assert ClusterLabel(a + b) == ClusterLabel(a) + ClusterLabel(b);
    CountAppend(ClusterLabel(a), ClusterLabel(b), 1);
    CountAppend(ClusterLabel(a), ClusterLabel(b), 0);
  }

  /** Rows drawn from a side share that side's cluster status. */
  lemma SubMultisetKeepsStatus(drawn: seq<Option<int>>, side: seq<Option<int>>, present: bool)
    requires multiset(drawn) <= multiset(side)
    requires forall i :: 0 <= i < |side| ==> side[i].Some? == present
    ensures forall i :: 0 <= i < |drawn| ==> drawn[i].Some? == present
  {
    forall i | 0 <= i < |drawn|
      ensures drawn[i].Some? == present
    {
      assert drawn[i] in multiset(drawn);
      assert drawn[i] in side;
    }
  }
}
