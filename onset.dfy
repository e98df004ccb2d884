/** The onset extractor of the detector (`Detector::beats` on `Vec<T>`):
    the input is compared, position by position, with its own threshold
    sequence (what `peak` returns for it); a position whose value strictly
    exceeds its threshold carries the threshold, every other position
    carries zero. */
module OnsetExtractor {
  import opened Frames
  import opened SpectrumTransform
  import opened NoveltyFunction

  /** Position `i` of `xs` is an onset when its value strictly exceeds its
      threshold. */
  ghost predicate IsOnset(xs: seq<real>, i: nat)
    requires i < |xs| && i < |Thresholds(xs)|
  {
    xs[i] > Thresholds(xs)[i]
  }

  /** `beats`: the elementwise selection between the threshold and zero. The
      threshold sequence is never shorter than the input, so looking up the
      threshold of a position always succeeds. */
  function Beats(xs: seq<real>): (r: seq<real>)
    ensures |Thresholds(xs)| >= |xs|
    ensures |r| == |xs|
    ensures forall i :: 0 <= i < |xs| ==> r[i] == 0.0 || r[i] == Thresholds(xs)[i]
    ensures forall i :: 0 <= i < |xs| && IsOnset(xs, i) ==> r[i] == Thresholds(xs)[i]
    ensures forall i :: 0 <= i < |xs| && !IsOnset(xs, i) ==> r[i] == 0.0
  {
    ThresholdsLength(xs);
    var peak := Thresholds(xs);
    seq(|xs|, i requires 0 <= i < |xs| => if xs[i] - peak[i] > 0.0 then peak[i] else 0.0)
  }

  /** The onset sequence is never negative, and a non-zero entry marks a
      position whose value strictly exceeds it. */
  lemma BeatsMask(xs: seq<real>, i: nat)
    requires i < |xs|
    ensures Beats(xs)[i] >= 0.0
    ensures Beats(xs)[i] != 0.0 ==> IsOnset(xs, i) && Beats(xs)[i] < xs[i]
  {
    ThresholdsNonNegative(xs);
  }

  /** Within frame `k` of 513 bins, the onset sequence compares each bin
      with that frame's threshold, 1.5 times the window mean of flux value
      `k`. */
  lemma BeatsAt(xs: seq<real>, k: nat, j: nat)
    requires j < SpectrumSize && k * SpectrumSize + j < |xs|
    ensures k < |SpectralFlux(xs)|
    ensures var t := Mean(SpectralFlux(xs), k) * Multiplier;
      Beats(xs)[k * SpectrumSize + j] == if xs[k * SpectrumSize + j] > t then t else 0.0
  {
    OffsetIsProduct(k, SpectrumSize);
    CeilDivCovers(|xs|, SpectrumSize, k, j);
    ThresholdsAt(xs, k, j);
    var p := k * SpectrumSize + j;
    var t := Mean(SpectralFlux(xs), k) * Multiplier;
    assert Thresholds(xs)[p] == t;
    if xs[p] > t {
      assert IsOnset(xs, p);
    } else {
      assert !IsOnset(xs, p);
    }
  }

  /** Empty input gives empty output at every stage, without failure. */
  lemma EmptyPipeline(magnitude: BinMagnitude)
    ensures Spectrum([], magnitude) == []
    ensures Thresholds([]) == [] && Beats([]) == []
  {
    SpectrumLength([], magnitude);
    ThresholdsLength([]);
  }
}
