/** The k-means side of the diabetes models: the min-max scaling that
    `kmeans_clustering` and `random_forest` fit, the nearest-centre rule by
    which a fitted k-means model labels a row, and how the evaluation
    replays a case's cluster before it scores the cluster's forest.
 */
module Clustering {
  import opened Wrappers

  /** A fitted `MinMaxScaler`: the per-column minimum and maximum. */
  datatype Scaler = Scaler(lo: seq<real>, hi: seq<real>)

  predicate Fits(s: Scaler, x: seq<real>) {
    |s.lo| == |x| && |s.hi| == |x|
  }

  /** Min-max scaling of one value; a constant column (zero range) is only
      shifted, as the scaler replaces a zero range by 1. */
  function Scale(lo: real, hi: real, v: real): real {
    if hi - lo == 0.0 then v - lo else (v - lo) / (hi - lo)
  }

  /** `scaler.transform` of one row: a value inside its column's fitted
      range lands in [0, 1], and on a column with a non-zero range the value
      is recovered as `y * (hi - lo) + lo`; a constant column is only
      shifted. */
  function Transform(s: Scaler, x: seq<real>): (y: seq<real>)
    requires Fits(s, x)
    ensures |y| == |x|
    ensures forall i :: 0 <= i < |x| && s.lo[i] <= x[i] <= s.hi[i] ==> 0.0 <= y[i] <= 1.0
    ensures forall i :: 0 <= i < |x| && s.lo[i] != s.hi[i] ==> y[i] * (s.hi[i] - s.lo[i]) + s.lo[i] == x[i]
    ensures forall i :: 0 <= i < |x| && s.lo[i] == s.hi[i] ==> y[i] == x[i] - s.lo[i]
  {
    var y := seq(|x|, i requires 0 <= i < |x| => Scale(s.lo[i], s.hi[i], x[i]));
    forall i | 0 <= i < |x|
      ensures s.lo[i] <= x[i] <= s.hi[i] ==> 0.0 <= y[i] <= 1.0
      ensures s.lo[i] != s.hi[i] ==> y[i] * (s.hi[i] - s.lo[i]) + s.lo[i] == x[i]
    {
      if s.lo[i] <= x[i] <= s.hi[i] {
        ScaleInUnitInterval(s.lo[i], s.hi[i], x[i]);
      }
      ScaleInverse(s.lo[i], s.hi[i], x[i]);
    }
    y
  }

  /** Scaling by a non-zero range can be undone. */
  lemma ScaleInverse(lo: real, hi: real, v: real)
    ensures hi != lo ==> Scale(lo, hi, v) * (hi - lo) + lo == v
  {
  }

  /** A value inside the fitted range lands in [0, 1], the ends of the range
      on 0 and 1. */
  lemma ScaleInUnitInterval(lo: real, hi: real, v: real)
    requires lo <= v <= hi
    ensures 0.0 <= Scale(lo, hi, v) <= 1.0
    ensures Scale(lo, hi, lo) == 0.0
    ensures lo < hi ==> Scale(lo, hi, hi) == 1.0
  {
    if hi - lo != 0.0 {
      var r, q := hi - lo, (v - lo) / (hi - lo);
      assert q * r == v - lo;
      if q > 1.0 {
        assert q * r > 1.0 * r;
      }
    }
  }

  /** Column `j` of a table. */
  function Column(rows: seq<seq<real>>, j: nat): (c: seq<real>)
    requires forall i :: 0 <= i < |rows| ==> j < |rows[i]|
    ensures |c| == |rows|
    ensures forall i :: 0 <= i < |rows| ==> c[i] == rows[i][j]
  {
    seq(|rows|, i requires 0 <= i < |rows| => rows[i][j])
  }

  function Min(c: seq<real>): (m: real)
    requires |c| > 0
    ensures m in c
    ensures forall i :: 0 <= i < |c| ==> m <= c[i]
  {
    if |c| == 1 then c[0]
    else
      var m := Min(c[..|c| - 1]);
      assert forall i :: 0 <= i < |c| - 1 ==> c[i] == c[..|c| - 1][i];
      if c[|c| - 1] < m then c[|c| - 1] else m
  }

  function Max(c: seq<real>): (m: real)
    requires |c| > 0
    ensures m in c
    ensures forall i :: 0 <= i < |c| ==> c[i] <= m
  {
    if |c| == 1 then c[0]
    else
      var m := Max(c[..|c| - 1]);
      assert forall i :: 0 <= i < |c| - 1 ==> c[i] == c[..|c| - 1][i];
      if c[|c| - 1] > m then c[|c| - 1] else m
  }

  /** Why `MinMaxScaler.fit` raises. */
  datatype FitError = NoSamples

  /** Every row has `width` columns. */
  predicate Rectangular(rows: seq<seq<real>>, width: nat) {
    forall i :: 0 <= i < |rows| ==> |rows[i]| == width
  }

  /** `MinMaxScaler().fit(rows)`: the column-wise minimum and maximum; a
      table without rows raises. */
  function FitScaler(rows: seq<seq<real>>, width: nat): (r: Result<Scaler, FitError>)
    requires Rectangular(rows, width)
    ensures r.Err? <==> |rows| == 0
    ensures r.Ok? ==> |r.value.lo| == width && |r.value.hi| == width
    ensures r.Ok? ==> forall j :: 0 <= j < width ==>
              && r.value.lo[j] in Column(rows, j) && r.value.hi[j] in Column(rows, j)
              && forall i :: 0 <= i < |rows| ==> r.value.lo[j] <= rows[i][j] <= r.value.hi[j]
  {
    if |rows| == 0 then Err(NoSamples)
    else
      var lo := seq(width, j requires 0 <= j < width => Min(Column(rows, j)));
      var hi := seq(width, j requires 0 <= j < width => Max(Column(rows, j)));
      assert forall j, i :: 0 <= j < width && 0 <= i < |rows| ==> lo[j] <= Column(rows, j)[i] <= hi[j];
      Ok(Scaler(lo, hi))
  }

  /** Transforming the very rows a scaler was fitted on puts every value in
      [0, 1]. */
  lemma FittedRowsInUnitBox(rows: seq<seq<real>>, width: nat, i: nat)
    requires Rectangular(rows, width) && |rows| > 0 && i < |rows|
    ensures var s := FitScaler(rows, width).value;
            forall j :: 0 <= j < width ==> 0.0 <= Transform(s, rows[i])[j] <= 1.0
  {
    var s := FitScaler(rows, width).value;
    forall j | 0 <= j < width
      ensures 0.0 <= Transform(s, rows[i])[j] <= 1.0
    {
      ScaleInUnitInterval(s.lo[j], s.hi[j], rows[i][j]);
    }
  }

  // ---------------------------------------------------------------------------
  // k-means labels
  // ---------------------------------------------------------------------------

  /** Squared Euclidean distance. */
  function SqDist(x: seq<real>, c: seq<real>): (d: real)
    requires |x| == |c|
    ensures d >= 0.0
  {
    if |x| == 0 then 0.0
    else (x[0] - c[0]) * (x[0] - c[0]) + SqDist(x[1..], c[1..])
  }

  predicate SameWidth(centres: seq<seq<real>>, x: seq<real>) {
    forall k :: 0 <= k < |centres| ==> |centres[k]| == |x|
  }

  /** `kmeans.predict` of one row: the index of the nearest centre, the
      first one on a tie. */
  function Nearest(centres: seq<seq<real>>, x: seq<real>): (k: nat)
    requires |centres| > 0 && SameWidth(centres, x)
    ensures k < |centres|
    ensures forall j :: 0 <= j < |centres| ==> SqDist(x, centres[k]) <= SqDist(x, centres[j])
    ensures forall j :: 0 <= j < k ==> SqDist(x, centres[j]) > SqDist(x, centres[k])
  {
    if |centres| == 1 then 0
    else
      var init := centres[..|centres| - 1];
      var k := Nearest(init, x);
      assert forall j :: 0 <= j < |init| ==> init[j] == centres[j];
      var last := |centres| - 1;
      if SqDist(x, centres[last]) < SqDist(x, centres[k]) then last else k
  }

  /** A fitted clustering step: its scaler and the cluster centres, which
      live in the scaled space. */
  datatype ClusterModel = ClusterModel(scaler: Scaler, centres: seq<seq<real>>)

  predicate WellFormed(m: ClusterModel, x: seq<real>) {
    Fits(m.scaler, x) && |m.centres| > 0 && SameWidth(m.centres, x)
  }

  /** The cluster `kmeans_clustering` gives a training case: the nearest
      centre to the case's features scaled by the clustering scaler. */
  function TrainingCluster(m: ClusterModel, x: seq<real>): (k: nat)
    requires WellFormed(m, x)
    ensures k < |m.centres|
  {
    Nearest(m.centres, Transform(m.scaler, x))
  }

  /** The cluster the evaluation replays, as written: the features are first
      scaled with the forest's scaler (fitted on the question columns
      followed by HbA1c) and the HbA1c column is then dropped before the
      k-means model is asked. */
  function ReplayAsWritten(m: ClusterModel, forest: Scaler, x: seq<real>, hba1c: real): (k: nat)
    requires WellFormed(m, x) && Fits(forest, x + [hba1c])
    ensures k < |m.centres|
  {
    Nearest(m.centres, Transform(forest, x + [hba1c])[..|x|])
  }

  /** The replay with the scaler the k-means model was fitted with; the
      forest's scaler plays no part. */
  function Replay(m: ClusterModel, forest: Scaler, x: seq<real>, hba1c: real): (k: nat)
    requires WellFormed(m, x) && Fits(forest, x + [hba1c])
    ensures k < |m.centres|
  {
    Nearest(m.centres, Transform(m.scaler, x))
  }

  /** A one-feature example: the clustering scaler was fitted on the cases
      (range 0..10), the forest's scaler on cases and controls together
      (range 0..100). */
  const ExampleModel: ClusterModel := ClusterModel(Scaler([0.0], [10.0]), [[0.2], [0.8]])
  const ExampleForest: Scaler := Scaler([0.0, 0.0], [100.0, 100.0])

  /** As written, a test participant with exactly the features of a
      training case of cluster 1 is replayed into cluster 0, so it is scored
      by another cluster's forest. */
  lemma ReplayAsWrittenMovesCase()
    ensures TrainingCluster(ExampleModel, [8.0]) == 1
    ensures ReplayAsWritten(ExampleModel, ExampleForest, [8.0], 40.0) == 0
  {
    assert Transform(ExampleModel.scaler, [8.0]) == [0.8];
    assert SqDist([0.8], [0.8]) == 0.0;
    assert SqDist([0.8], [0.2]) > 0.0;
    var y := Transform(ExampleForest, [8.0] + [40.0])[..1];
    assert y == [0.08];
    assert SqDist(y, [0.2]) < SqDist(y, [0.8]);
  }

  /** The as-written replay is right only when the forest's scaler happens
      to agree with the clustering scaler on the question columns. */
  lemma ReplayAsWrittenWhenScalersAgree(m: ClusterModel, forest: Scaler, x: seq<real>, hba1c: real)
    requires WellFormed(m, x) && Fits(forest, x + [hba1c])
    requires forest.lo[..|x|] == m.scaler.lo && forest.hi[..|x|] == m.scaler.hi
    ensures ReplayAsWritten(m, forest, x, hba1c) == TrainingCluster(m, x)
  {
    var a := Transform(forest, x + [hba1c])[..|x|];
    var b := Transform(m.scaler, x);
    forall i | 0 <= i < |x|
      ensures a[i] == b[i]
    {
      assert forest.lo[i] == forest.lo[..|x|][i];
      assert forest.hi[i] == forest.hi[..|x|][i];
    }
    assert a == b;
  }

  /** The corrected replay gives every test participant the cluster a
      training case with the same features received, whatever the forest's
      scaler. This holds by construction of `Replay`; what the correction
      changes is stated by `ReplayAsWrittenWhenScalersAgree` and
      `ReplayAsWrittenMovesCase`, which show the as-written replay is right
      only when the two scalers happen to agree. */
  lemma ReplayMatchesTraining(m: ClusterModel, forest: Scaler, forest': Scaler, x: seq<real>, hba1c: real)
    requires WellFormed(m, x) && Fits(forest, x + [hba1c]) && Fits(forest', x + [hba1c])
    ensures Replay(m, forest, x, hba1c) == TrainingCluster(m, x)
    ensures Replay(m, forest, x, hba1c) == Replay(m, forest', x, hba1c)
  {
  }
}
