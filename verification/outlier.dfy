/** `_calculate_outlier_scores` (youtube_api.py:266-292): every video gets
    the absolute z-score of its views-per-subscriber ratio within the batch.

    Only the control structure is modelled. Ratios, mean and deviation are
    exact reals; the square root inside `statistics.stdev` is a parameter,
    and the final `round(..., 2)` is left out.
 */
module Outlier {
  import opened Wrappers
  import opened Videos

  /** A video's ratio: views per subscriber, 0 when it has no subscribers. */
  function Ratio(v: Video): real {
    if v.subscriberCount > 0 then v.viewCount as real / v.subscriberCount as real else 0.0
  }

  function Ratios(vs: seq<Video>): (rs: seq<real>)
    ensures |rs| == |vs|
    ensures forall k :: 0 <= k < |vs| ==> rs[k] == Ratio(vs[k])
  {
    seq(|vs|, k requires 0 <= k < |vs| => Ratio(vs[k]))
  }

  function Sum(xs: seq<real>): real {
    if xs == [] then 0.0 else xs[0] + Sum(xs[1..])
  }

  /** `statistics.mean`. */
  function Mean(xs: seq<real>): real
    requires xs != []
  {
    Sum(xs) / |xs| as real
  }

  function SquaredDeviations(xs: seq<real>, mean: real): (ds: seq<real>)
    ensures |ds| == |xs|
  {
    seq(|xs|, k requires 0 <= k < |xs| => (xs[k] - mean) * (xs[k] - mean))
  }

  /** The deviation the scores are divided by: the sample standard
      deviation (`statistics.stdev`) for two or more ratios, 1 for one. */
  function Deviation(xs: seq<real>, sqrt: real -> real): real
    requires xs != []
  {
    if |xs| > 1 then sqrt(Sum(SquaredDeviations(xs, Mean(xs))) / (|xs| - 1) as real) else 1.0
  }

  function Abs(x: real): real {
    if x < 0.0 then -x else x
  }

  /** `_calculate_outlier_scores(videos)`: the same list with `outlier_score`
      set on every record and nothing else changed. The score is |z| when
      the deviation is positive and 0 otherwise. */
  function Score(vs: seq<Video>, sqrt: real -> real): (r: seq<Video>)
    ensures |r| == |vs|
    ensures forall k :: 0 <= k < |vs| ==> r[k] == vs[k].(outlierScore := r[k].outlierScore)
    ensures forall k :: 0 <= k < |vs| ==> r[k].outlierScore.Some? && r[k].outlierScore.value >= 0.0
    ensures vs != [] && Deviation(Ratios(vs), sqrt) > 0.0 ==>
              forall k :: 0 <= k < |vs| ==>
                r[k].outlierScore == Some(Abs(Ratio(vs[k]) - Mean(Ratios(vs))) / Deviation(Ratios(vs), sqrt))
  {
    if vs == [] then vs
    else
      var rs := Ratios(vs);
      var mean := Mean(rs);
      var sd := Deviation(rs, sqrt);
      var r := seq(|vs|, k requires 0 <= k < |vs| =>
        vs[k].(outlierScore := Some(if sd > 0.0 then Abs((rs[k] - mean) / sd) else 0.0)));
      if sd > 0.0 then DivAbsAll(rs, mean, sd); r else r
  }

  lemma DivAbsAll(rs: seq<real>, mean: real, sd: real)
    requires sd > 0.0
    ensures forall k :: 0 <= k < |rs| ==> Abs((rs[k] - mean) / sd) == Abs(rs[k] - mean) / sd
  {
    forall k | 0 <= k < |rs| ensures Abs((rs[k] - mean) / sd) == Abs(rs[k] - mean) / sd {
      DivAbs(rs[k] - mean, sd);
    }
  }

  lemma DivAbs(x: real, d: real)
    requires d > 0.0
    ensures Abs(x / d) == Abs(x) / d
  {
    if x < 0.0 {
      assert x / d < 0.0;
    } else {
      assert x / d >= 0.0;
    }
  }

  /** Within one batch with a positive deviation, a video whose ratio lies
      further from the batch mean never scores lower, and two videos at
      the same distance score the same. */
  lemma ScoreOrder(vs: seq<Video>, sqrt: real -> real, i: nat, j: nat)
    requires i < |vs| && j < |vs|
    requires Deviation(Ratios(vs), sqrt) > 0.0
    requires Abs(Ratio(vs[i]) - Mean(Ratios(vs))) <= Abs(Ratio(vs[j]) - Mean(Ratios(vs)))
    ensures Score(vs, sqrt)[i].outlierScore.value <= Score(vs, sqrt)[j].outlierScore.value
  {
    var sd := Deviation(Ratios(vs), sqrt);
    var m := Mean(Ratios(vs));
    ScoreAt(vs, sqrt, i, sd, m);
    ScoreAt(vs, sqrt, j, sd, m);
    DivMonotone(Abs(Ratio(vs[i]) - m), Abs(Ratio(vs[j]) - m), sd);
  }

  lemma ScoreAt(vs: seq<Video>, sqrt: real -> real, k: nat, sd: real, m: real)
    requires k < |vs| && sd == Deviation(Ratios(vs), sqrt) && m == Mean(Ratios(vs)) && sd > 0.0
    ensures Score(vs, sqrt)[k].outlierScore.value == Abs(Ratio(vs[k]) - m) / sd
  {
  }

  lemma DivMonotone(a: real, b: real, d: real)
    requires d > 0.0 && a <= b
    ensures a / d <= b / d
  {
  }

  /** An empty batch is left untouched. */
  lemma ScoreEmpty(sqrt: real -> real)
    ensures Score([], sqrt) == []
  {
  }

  /** A single video's deviation falls back to 1, so it scores |r - r| = 0. */
  lemma ScoreSingle(v: Video, sqrt: real -> real)
    ensures Score([v], sqrt)[0].outlierScore == Some(0.0)
  {
    var rs := Ratios([v]);
    assert Sum(rs) == rs[0] + Sum(rs[1..]);
    assert Mean(rs) == rs[0];
  }

  /** A batch whose deviation is 0 scores every video 0. */
  lemma ZeroDeviationScoresZero(vs: seq<Video>, sqrt: real -> real, k: nat)
    requires vs != [] && k < |vs|
    requires Deviation(Ratios(vs), sqrt) == 0.0
    ensures Score(vs, sqrt)[k].outlierScore == Some(0.0)
  {
  }

  lemma {:induction false} SumZero(xs: seq<real>)
    requires forall k :: 0 <= k < |xs| ==> xs[k] == 0.0
    ensures Sum(xs) == 0.0
  {
    if xs != [] {
      SumZero(xs[1..]);
    }
  }

  /** When no video has subscribers every ratio is 0, the deviation is
      sqrt(0) (or 1 for a single video), and every score is 0. */
  lemma NoSubscribersScoresZero(vs: seq<Video>, sqrt: real -> real, k: nat)
    requires sqrt(0.0) == 0.0
    requires forall j :: 0 <= j < |vs| ==> vs[j].subscriberCount <= 0
    requires k < |vs|
    ensures Score(vs, sqrt)[k].outlierScore == Some(0.0)
  {
    var rs := Ratios(vs);
    SumZero(rs);
    assert Mean(rs) == 0.0;
    var ds := SquaredDeviations(rs, 0.0);
    assert forall j :: 0 <= j < |ds| ==> ds[j] == 0.0;
    SumZero(ds);
  }
}
