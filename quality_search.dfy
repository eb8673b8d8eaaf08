/** The quality search of tinyimg: a binary search over the integer JPEG-style
    quality range for a quality whose re-encoding stays within a tolerance of
    the original image.

    Encoding the image at quality `q` and comparing it with the original is an
    oracle here: `diff(q)` is the difference score of that re-encoding, and the
    probe is "too different" when the score is strictly above `eps`. */
module QualitySearch {

  /** Upper end of the quality range. */
  const MaxQuality: int := 100
  /** Lower end of the quality range. */
  const MinQuality: int := 1

  /** The re-encoding at quality `q` is rejected: its score exceeds the
      tolerance (a score equal to `eps` is acceptable). */
  predicate TooDifferent(diff: int -> real, eps: real, q: int)
  {
    diff(q) > eps
  }

  /** The oracle has a threshold: once a quality is acceptable, every higher
      quality in range is acceptable too. */
  ghost predicate Monotone(diff: int -> real, eps: real)
  {
    forall a, b :: MinQuality <= a <= b <= MaxQuality && TooDifferent(diff, eps, b) ==> TooDifferent(diff, eps, a)
  }

  /** The gap table: after `k` rounds of bisection from the whole range,
      the gap `hi - lo` is `g`. Each round keeps the lower or the upper half of
      a gap above 1, rounded down or up, so the gap after `k` rounds lies
      between the two halvings of row `k - 1`. Row 6 is the first that allows
      a gap of 1, and row 7 allows no gap above 1, so a run stops after 6 or
      7 probes. */
  predicate GapInRow(k: int, g: int)
  {
    || (k == 0 && g == 99)
    || (k == 1 && 49 <= g <= 50)
    || (k == 2 && 24 <= g <= 25)
    || (k == 3 && 12 <= g <= 13)
    || (k == 4 && 6 <= g <= 7)
    || (k == 5 && 3 <= g <= 4)
    || (k == 6 && 1 <= g <= 2)
    || (k == 7 && g == 1)
  }

  /** A probe `p` lies strictly inside the range and on the side of the
      bounds `min < max` its judgement sends it to. */
  predicate ProbeJudged(diff: int -> real, eps: real, p: int, min: int, max: int)
  {
    MinQuality < p < MaxQuality && (if TooDifferent(diff, eps, p) then p <= min else max <= p)
  }

  /** One round of the search: with the bounds `lo < hi` more than one apart,
      the probe `p` is their midpoint, rounded down, and the next bounds
      `lo2`, `hi2` keep `hi` and move `lo` up to a rejected probe, or keep
      `lo` and move `hi` down to an accepted one. */
  predicate BisectionStep(diff: int -> real, eps: real, lo: int, hi: int, p: int, lo2: int, hi2: int)
  {
    && hi - lo > 1
    && p == (lo + hi) / 2
    && (if TooDifferent(diff, eps, p) then lo2 == p && hi2 == hi else lo2 == lo && hi2 == p)
  }

  /** `probes` is a run of the search from the whole range: `los[k]`, `his[k]`
      are the bounds before probe `k`, and each probe is one round of
      bisection. */
  ghost predicate Traced(diff: int -> real, eps: real, probes: seq<int>, los: seq<int>, his: seq<int>)
  {
    && |los| == |probes| + 1 && |his| == |probes| + 1
    && los[0] == MinQuality && his[0] == MaxQuality
    && forall k :: 0 <= k < |probes| ==>
         BisectionStep(diff, eps, los[k], his[k], probes[k], los[k + 1], his[k + 1])
  }

  /** A run extended by one more round of bisection is still a run. */
  lemma TraceExtends(diff: int -> real, eps: real, probes: seq<int>, los: seq<int>, his: seq<int>, p: int, lo2: int, hi2: int)
    requires Traced(diff, eps, probes, los, his)
    requires BisectionStep(diff, eps, los[|probes|], his[|probes|], p, lo2, hi2)
    ensures Traced(diff, eps, probes + [p], los + [lo2], his + [hi2])
  {
  }

  /** What a run says about its last bounds `lo`, `hi` and its probes: the
      bounds stay in range and ordered, each is its initial value or a probe
      judged accordingly, every probe lies strictly inside the range on the
      side its judgement sends it to, and the last probe is the bound it
      moved. */
  lemma {:induction false} TraceJudged(diff: int -> real, eps: real, probes: seq<int>, los: seq<int>, his: seq<int>)
    requires Traced(diff, eps, probes, los, his)
    ensures MinQuality <= los[|probes|] < his[|probes|] <= MaxQuality
    ensures los[|probes|] == MinQuality || (los[|probes|] in probes && TooDifferent(diff, eps, los[|probes|]))
    ensures his[|probes|] == MaxQuality || (his[|probes|] in probes && !TooDifferent(diff, eps, his[|probes|]))
    ensures forall k :: 0 <= k < |probes| ==> ProbeJudged(diff, eps, probes[k], los[|probes|], his[|probes|])
    ensures probes != [] && TooDifferent(diff, eps, probes[|probes| - 1]) ==> probes[|probes| - 1] == los[|probes|]
    ensures probes != [] && !TooDifferent(diff, eps, probes[|probes| - 1]) ==> probes[|probes| - 1] == his[|probes|]
  {
    var n := |probes|;
    if n > 0 {
      var ps, ls, hs := probes[..n - 1], los[..n], his[..n];
      assert Traced(diff, eps, ps, ls, hs);
      TraceJudged(diff, eps, ps, ls, hs);
      assert BisectionStep(diff, eps, los[n - 1], his[n - 1], probes[n - 1], los[n], his[n]);
    }
  }

  /** The gap of a run follows the gap table, so a run has at most 7 probes. */
  lemma {:induction false} RunLength(diff: int -> real, eps: real, probes: seq<int>, los: seq<int>, his: seq<int>)
    requires Traced(diff, eps, probes, los, his)
    ensures GapInRow(|probes|, his[|probes|] - los[|probes|])
  {
    var n := |probes|;
    if n > 0 {
      var ps, ls, hs := probes[..n - 1], los[..n], his[..n];
      assert Traced(diff, eps, ps, ls, hs);
      RunLength(diff, eps, ps, ls, hs);
      assert BisectionStep(diff, eps, los[n - 1], his[n - 1], probes[n - 1], los[n], his[n]);
    }
  }

  /** The search as Program.cs writes it. It keeps the bounds `min < max`,
      probes `middle = (max + min) / 2` while the gap exceeds 1, raises `min`
      on a rejected probe and lowers `max` on an accepted one, and returns the
      LAST probed quality, not the final `max`.

      `probes` are the qualities probed, in order, and `los[k]`, `his[k]` the
      bounds before probe `k`; `lo`, `hi` are the final bounds. None of them
      is returned by the source. */
  method GetOptimalCompressionQuality(diff: int -> real, eps: real)
    returns (quality: int, ghost lo: int, ghost hi: int, ghost probes: seq<int>,
             ghost los: seq<int>, ghost his: seq<int>)
    // the trace: it starts from the whole range, each probe is one round of
    // bisection, and it ends at the final bounds
    ensures |los| == |probes| + 1 && |his| == |probes| + 1
    ensures los[0] == MinQuality && his[0] == MaxQuality
    ensures forall k :: 0 <= k < |probes| ==>
              BisectionStep(diff, eps, los[k], his[k], probes[k], los[k + 1], his[k + 1])
    ensures lo == los[|probes|] && hi == his[|probes|]
    // the returned value is a probed quality and lies strictly inside the range
    ensures MinQuality < quality < MaxQuality
    ensures 6 <= |probes| <= 7 && quality == probes[|probes| - 1]
    // the final bounds are adjacent, and the result is one of them
    ensures MinQuality <= lo && hi <= MaxQuality && hi - lo == 1
    ensures TooDifferent(diff, eps, quality) ==> quality == lo
    ensures !TooDifferent(diff, eps, quality) ==> quality == hi
    // each bound is its initial value or a probe that was judged accordingly
    ensures lo == MinQuality || (lo in probes && TooDifferent(diff, eps, lo))
    ensures hi == MaxQuality || (hi in probes && !TooDifferent(diff, eps, hi))
    // every probe lies strictly inside the range; rejected probes lie at or
    // below `lo`, accepted ones at or above `hi`
    ensures forall k :: 0 <= k < |probes| ==> ProbeJudged(diff, eps, probes[k], lo, hi)
    // the two extreme oracles
    ensures (forall q :: MinQuality < q < MaxQuality ==> TooDifferent(diff, eps, q)) ==> quality == MaxQuality - 1
    ensures (forall q :: MinQuality < q < MaxQuality ==> !TooDifferent(diff, eps, q)) ==> quality == MinQuality + 1
    // with a threshold oracle, `hi` is the least acceptable quality above 1
    // (or 100 when none is), and the result is it or the quality just below
    ensures Monotone(diff, eps) ==>
              (forall q :: MinQuality < q < hi ==> TooDifferent(diff, eps, q)) &&
              (quality == hi || quality == hi - 1)
  {
    var max := MaxQuality;
    var min := MinQuality;
    var middle := 0;
    probes, los, his := [], [min], [max];

    while max - min > 1
      invariant MinQuality <= min < max <= MaxQuality
      invariant probes != [] ==> middle == probes[|probes| - 1]
      invariant Traced(diff, eps, probes, los, his)
      invariant los[|probes|] == min && his[|probes|] == max
      decreases max - min
    {
      middle := (max + min) / 2;
      TraceExtends(diff, eps, probes, los, his, middle, if diff(middle) > eps then middle else min, if diff(middle) > eps then max else middle);
      probes := probes + [middle];
      if diff(middle) > eps {
        min := middle;
      } else {
        max := middle;
      }
      los, his := los + [min], his + [max];
    }
    TraceJudged(diff, eps, probes, los, his);
    RunLength(diff, eps, probes, los, his);

    quality, lo, hi := middle, min, max;
    FinalBounds(diff, eps, quality, lo, hi);
  }

  /** What adjacent final bounds, each judged by the oracle, say about the
      result: for the extreme oracles and for a threshold oracle. */
  lemma FinalBounds(diff: int -> real, eps: real, quality: int, lo: int, hi: int)
    requires MinQuality <= lo && hi <= MaxQuality && hi - lo == 1
    requires MinQuality < quality < MaxQuality
    requires TooDifferent(diff, eps, quality) ==> quality == lo
    requires !TooDifferent(diff, eps, quality) ==> quality == hi
    requires lo == MinQuality || (MinQuality < lo && TooDifferent(diff, eps, lo))
    requires hi == MaxQuality || (hi < MaxQuality && !TooDifferent(diff, eps, hi))
    ensures (forall q :: MinQuality < q < MaxQuality ==> TooDifferent(diff, eps, q)) ==> quality == MaxQuality - 1
    ensures (forall q :: MinQuality < q < MaxQuality ==> !TooDifferent(diff, eps, q)) ==> quality == MinQuality + 1
    ensures Monotone(diff, eps) ==>
              (forall q :: MinQuality < q < hi ==> TooDifferent(diff, eps, q)) &&
              (quality == hi || quality == hi - 1)
  {
  }

  /** The search returning the final `max` instead of the last probe: the
      result is always an accepted quality, or 100 when no probe was accepted. */
  method GetLeastAcceptableQuality(diff: int -> real, eps: real) returns (quality: int)
    ensures MinQuality < quality <= MaxQuality
    ensures quality == MaxQuality || !TooDifferent(diff, eps, quality)
    ensures Monotone(diff, eps) ==> forall q :: MinQuality < q < quality ==> TooDifferent(diff, eps, q)
  {
    var max := MaxQuality;
    var min := MinQuality;

    while max - min > 1
      invariant MinQuality <= min < max <= MaxQuality
      invariant min == MinQuality || TooDifferent(diff, eps, min)
      invariant max == MaxQuality || !TooDifferent(diff, eps, max)
      decreases max - min
    {
      var middle := (max + min) / 2;
      if diff(middle) > eps {
        min := middle;
      } else {
        max := middle;
      }
    }

    quality := max;
  }

  /** A score that falls linearly to 0 at quality 100. */
  function LinearDiff(q: int): real
  {
    (MaxQuality - q) as real / 100.0
  }

  /** With a zero tolerance and a score that reaches 0 only at quality 100,
      the search as written returns 99, a quality its own oracle rejects. */
  method ZeroToleranceAsWritten() returns (quality: int)
    ensures quality == 99 && TooDifferent(LinearDiff, 0.0, quality)
  {
    ghost var lo, hi, probes, los, his;
    quality, lo, hi, probes, los, his := GetOptimalCompressionQuality(LinearDiff, 0.0);
  }

  /** The same oracle with the corrected search yields 100. */
  method ZeroToleranceCorrected() returns (quality: int)
    ensures quality == MaxQuality
  {
    quality := GetLeastAcceptableQuality(LinearDiff, 0.0);
  }

  /** The linear score falls as the quality rises, so every tolerance makes
      it a threshold oracle. */
  lemma LinearDiffMonotone(eps: real)
    ensures Monotone(LinearDiff, eps)
  {
  }

  /** The seven rounds of the search with the linear score: the probes are
      50, 75, 62, 68, 71, 69 and 70, and the tolerance decides only the last
      one. */
  lemma LinearRun(eps: real, probes: seq<int>, los: seq<int>, his: seq<int>)
    requires 0.29 <= eps < 0.31
    requires Traced(LinearDiff, eps, probes, los, his) && his[|probes|] - los[|probes|] == 1
    ensures probes == [50, 75, 62, 68, 71, 69, 70]
    ensures los[7] == (if eps < 0.30 then 70 else 69) && his[7] == (if eps < 0.30 then 71 else 70)
  {
    RunLength(LinearDiff, eps, probes, los, his);
    assert BisectionStep(LinearDiff, eps, los[0], his[0], probes[0], los[1], his[1]);
    assert (probes[0], los[1], his[1]) == (50, 50, 100);
    assert BisectionStep(LinearDiff, eps, los[1], his[1], probes[1], los[2], his[2]);
    assert (probes[1], los[2], his[2]) == (75, 50, 75);
    assert BisectionStep(LinearDiff, eps, los[2], his[2], probes[2], los[3], his[3]);
    assert (probes[2], los[3], his[3]) == (62, 62, 75);
    assert BisectionStep(LinearDiff, eps, los[3], his[3], probes[3], los[4], his[4]);
    assert (probes[3], los[4], his[4]) == (68, 68, 75);
    assert BisectionStep(LinearDiff, eps, los[4], his[4], probes[4], los[5], his[5]);
    assert (probes[4], los[5], his[5]) == (71, 68, 71);
    assert BisectionStep(LinearDiff, eps, los[5], his[5], probes[5], los[6], his[6]);
    assert (probes[5], los[6], his[6]) == (69, 69, 71);
    assert BisectionStep(LinearDiff, eps, los[6], his[6], probes[6], los[7], his[7]);
  }

  /** A score exactly on the tolerance is accepted: with `eps = 0.3` the
      search returns 70, whose score is 0.3. */
  method ToleranceOnBoundary() returns (quality: int)
    ensures quality == 70 && !TooDifferent(LinearDiff, 0.3, quality)
  {
    ghost var lo, hi, probes, los, his;
    quality, lo, hi, probes, los, his := GetOptimalCompressionQuality(LinearDiff, 0.3);
    LinearRun(0.3, probes, los, his);
  }

  /** With `eps = 0.295` the last probe, 70, is rejected, and the search as
      written returns it although 71 was probed and accepted. */
  method ThresholdAsWritten() returns (quality: int)
    ensures quality == 70 && TooDifferent(LinearDiff, 0.295, quality)
    ensures !TooDifferent(LinearDiff, 0.295, quality + 1)
  {
    ghost var lo, hi, probes, los, his;
    quality, lo, hi, probes, los, his := GetOptimalCompressionQuality(LinearDiff, 0.295);
    LinearRun(0.295, probes, los, his);
  }

  /** The same oracle with the corrected search yields 71, the least
      acceptable quality. */
  method ThresholdCorrected() returns (quality: int)
    ensures quality == 71
  {
    LinearDiffMonotone(0.295);
    quality := GetLeastAcceptableQuality(LinearDiff, 0.295);
    assert !TooDifferent(LinearDiff, 0.295, 71);
  }
}
