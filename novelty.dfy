/** The novelty function of the detector (`Detector::peak` on `Vec<T>`):
    the magnitude sequence is cut into spectrum frames of 513 bins, a
    half-wave-rectified spectral flux is computed for each frame against the
    previous one, each flux value is averaged over a window of neighbouring
    frames, scaled by 1.5, and written 513 times.

    The window is modelled exactly as written: it starts at `max(0, i - 10)`
    and ends, exclusive, at `max(len - 1, i + 10)`; its sum skips indices
    past the flux sequence but its divisor counts them. */
module NoveltyFunction {
  import opened Frames
  import opened SpectrumTransform

  /** Frames on either side of a flux value in its averaging window. */
  const WindowRadius: int := 10

  /** Factor between the window mean and the threshold. */
  const Multiplier: real := 1.5

  /** The increase of bin `i` from `prev` to `cur`, when both frames have
      that bin and it increased; zero otherwise. */
  function Gain(prev: seq<real>, cur: seq<real>, i: nat): (g: real)
    ensures g >= 0.0
    ensures g > 0.0 <==> i < |prev| && i < |cur| && cur[i] > prev[i]
    ensures g > 0.0 ==> g == cur[i] - prev[i]
  {
    if i < |prev| && i < |cur| && cur[i] - prev[i] > 0.0 then cur[i] - prev[i] else 0.0
  }

  /** The gains of the first `n` bins, accumulated from zero. */
  function FluxUpTo(prev: seq<real>, cur: seq<real>, n: nat): (f: real)
    ensures f >= 0.0
  {
    if n == 0 then 0.0 else FluxUpTo(prev, cur, n - 1) + Gain(prev, cur, n - 1)
  }

  /** The spectral flux of frame `cur` against its predecessor `prev`,
      accumulated over the bins of `cur`. */
  function Flux(prev: seq<real>, cur: seq<real>): (f: real)
    ensures f >= 0.0
    ensures prev == [] ==> f == 0.0
  {
    FluxUpToNoPrev(cur, |cur|);
    FluxUpTo(prev, cur, |cur|)
  }

  function Rectify(d: real): real
  {
    if d > 0.0 then d else 0.0
  }

  /** Reference definition of the spectral flux: the sum of `max(0, c - p)`
      over the bins the two frames have in common. */
  function RectifiedDifference(prev: seq<real>, cur: seq<real>): real
  {
    if |prev| == 0 || |cur| == 0 then 0.0
    else Rectify(cur[0] - prev[0]) + RectifiedDifference(prev[1..], cur[1..])
  }

  lemma {:induction false} FluxUpToShift(prev: seq<real>, cur: seq<real>, n: nat)
    requires |prev| > 0 && |cur| > 0 && n > 0
    ensures FluxUpTo(prev, cur, n) == Gain(prev, cur, 0) + FluxUpTo(prev[1..], cur[1..], n - 1)
  {
    if n > 1 {
      FluxUpToShift(prev, cur, n - 1);
      assert Gain(prev, cur, n - 1) == Gain(prev[1..], cur[1..], n - 2);
    }
  }

  /** With no previous frame, no bin has a gain. */
  lemma {:induction false} FluxUpToNoPrev(cur: seq<real>, n: nat)
    ensures FluxUpTo([], cur, n) == 0.0
  {
    if n > 0 {
      FluxUpToNoPrev(cur, n - 1);
    }
  }

  /** The loop of `peak` computes the reference spectral flux. */
  lemma {:induction false} FluxIsRectifiedDifference(prev: seq<real>, cur: seq<real>)
    ensures Flux(prev, cur) == RectifiedDifference(prev, cur)
  {
    if |prev| == 0 {
      assert prev == [];
      FluxUpToNoPrev(cur, |cur|);
    } else if |cur| > 0 {
      FluxUpToShift(prev, cur, |cur|);
      FluxIsRectifiedDifference(prev[1..], cur[1..]);
    }
  }

  lemma {:induction false} FluxUpToZeroIff(prev: seq<real>, cur: seq<real>, n: nat)
    ensures FluxUpTo(prev, cur, n) == 0.0 <==> forall i :: 0 <= i < n ==> Gain(prev, cur, i) == 0.0
  {
    if n > 0 {
      FluxUpToZeroIff(prev, cur, n - 1);
    }
  }

  /** A frame has zero flux exactly when none of the bins it shares with its
      predecessor increased. */
  lemma FluxZeroIff(prev: seq<real>, cur: seq<real>)
    ensures Flux(prev, cur) == 0.0 <==> forall i :: 0 <= i < |prev| && i < |cur| ==> cur[i] <= prev[i]
  {
    FluxUpToZeroIff(prev, cur, |cur|);
    if forall i :: 0 <= i < |prev| && i < |cur| ==> cur[i] <= prev[i] {
      assert forall i :: 0 <= i < |cur| ==> Gain(prev, cur, i) == 0.0;
    }
    if Flux(prev, cur) == 0.0 {
      forall i | 0 <= i < |prev| && i < |cur|
        ensures cur[i] <= prev[i]
      {
        assert Gain(prev, cur, i) == 0.0;
      }
    }
  }

  /** The frame before frame `k`; the first frame is compared with an empty
      frame. */
  function PrevChunk(chunks: seq<seq<real>>, k: nat): seq<real>
    requires k <= |chunks|
  {
    if k == 0 then [] else chunks[k - 1]
  }

  /** One flux value per frame, in frame order. */
  function FluxSeq(chunks: seq<seq<real>>): seq<real>
  {
    seq(|chunks|, k requires 0 <= k < |chunks| => Flux(PrevChunk(chunks, k), chunks[k]))
  }

  /** The spectral flux of a magnitude sequence cut into frames of 513. */
  function SpectralFlux(xs: seq<real>): (flux: seq<real>)
    ensures |flux| == CeilDiv(|xs|, SpectrumSize)
    ensures |flux| > 0 ==> flux[0] == 0.0
  {
    FluxSeq(Chunks(xs, SpectrumSize))
  }

  /** There is one flux value per 513-bin frame of the input (the last frame
      may be short); the first is zero, and flux value `k > 0` is the
      rectified difference between frames `k - 1` and `k` (whose slices of
      `xs` `ChunkAt` gives). */
  lemma SpectralFluxAt(xs: seq<real>, k: nat)
    requires k < CeilDiv(|xs|, SpectrumSize)
    ensures |SpectralFlux(xs)| == CeilDiv(|xs|, SpectrumSize)
    ensures k == 0 ==> SpectralFlux(xs)[k] == 0.0
    ensures k > 0 ==> SpectralFlux(xs)[k]
                      == RectifiedDifference(Chunks(xs, SpectrumSize)[k - 1], Chunks(xs, SpectrumSize)[k])
  {
    if k > 0 {
      var cs := Chunks(xs, SpectrumSize);
      FluxIsRectifiedDifference(cs[k - 1], cs[k]);
    }
  }

  /** Every flux value is non-negative. */
  lemma SpectralFluxNonNegative(xs: seq<real>)
    ensures forall k :: 0 <= k < |SpectralFlux(xs)| ==> SpectralFlux(xs)[k] >= 0.0
  {
  }

  /** First index of the averaging window of flux value `i`: ten frames
      back, clipped at the first frame. */
  function WindowStart(i: nat): (start: int)
    ensures 0 <= start <= i && i - start <= WindowRadius
    ensures i <= WindowRadius ==> start == 0
    ensures i >= WindowRadius ==> start == i - WindowRadius
  {
    Max(0, i - WindowRadius)
  }

  /** End (exclusive) of the averaging window of flux value `i` in a flux
      sequence of length `len`, as written: a maximum, not a minimum. */
  function WindowEnd(i: nat, len: nat): (end: int)
    ensures end >= len - 1 && end >= i + WindowRadius
    ensures end == len - 1 || end == i + WindowRadius
  {
    Max(len - 1, i + WindowRadius)
  }

  /** The divisor of the window mean; it never drops below the radius, so
      the division is always defined. */
  function Divisor(i: nat, len: nat): (d: int)
    ensures d >= WindowRadius
  {
    WindowEnd(i, len) - WindowStart(i)
  }

  /** `flux[j]` when that index exists, else nothing (`spectral_flux.get`). */
  function FluxOrZero(flux: seq<real>, j: int): real
  {
    if 0 <= j < |flux| then flux[j] else 0.0
  }

  /** The sum of the flux values at the indices `start <= j < end` that
      exist. */
  function WindowSum(flux: seq<real>, start: int, end: int): real
    decreases end - start
  {
    if end <= start then 0.0 else WindowSum(flux, start, end - 1) + FluxOrZero(flux, end - 1)
  }

  /** Sum of a sequence. */
  function Sum(s: seq<real>): real
  {
    if |s| == 0 then 0.0 else Sum(s[..|s| - 1]) + s[|s| - 1]
  }

  /** The window sum is the sum of the slice of the window that lies inside
      the flux sequence. */
  lemma {:induction false} WindowSumSlice(flux: seq<real>, start: int, end: int)
    requires 0 <= start <= |flux| && start <= end
    ensures WindowSum(flux, start, end) == Sum(flux[start .. Min(end, |flux|)])
    decreases end - start
  {
    if end > start {
      WindowSumSlice(flux, start, end - 1);
      if end - 1 < |flux| {
        assert flux[start .. end][..end - 1 - start] == flux[start .. end - 1];
      }
    }
  }

  /** The window sum reads only the flux values inside the window. */
  lemma {:induction false} WindowSumAgree(flux: seq<real>, other: seq<real>, start: int, end: int)
    requires forall j :: start <= j < end ==> FluxOrZero(flux, j) == FluxOrZero(other, j)
    ensures WindowSum(flux, start, end) == WindowSum(other, start, end)
    decreases end - start
  {
    if end > start {
      WindowSumAgree(flux, other, start, end - 1);
    }
  }

  /** Changing one flux value inside the window changes the sum by exactly
      the change. */
  lemma {:induction false} WindowSumUpdate(flux: seq<real>, start: int, end: int, j: nat, v: real)
    requires start <= j < end && j < |flux|
    ensures WindowSum(flux[j := v], start, end) == WindowSum(flux, start, end) + (v - flux[j])
    decreases end - start
  {
    if end - 1 == j {
      WindowSumAgree(flux[j := v], flux, start, end - 1);
    } else {
      WindowSumUpdate(flux, start, end - 1, j, v);
    }
  }

  /** Mean of the window of flux value `i`: the window sum divided by the
      window's width, out-of-range positions included. */
  function Mean(flux: seq<real>, i: nat): (mean: real)
    requires i < |flux|
    ensures mean * (Divisor(i, |flux|) as real) == WindowSum(flux, WindowStart(i), WindowEnd(i, |flux|))
  {
    var sum := WindowSum(flux, WindowStart(i), WindowEnd(i, |flux|));
    var d := Divisor(i, |flux|) as real;
    QuotientTimesDivisor(sum, d);
    sum / d
  }

  /** Division by a positive divisor is undone by multiplying by it. */
  lemma QuotientTimesDivisor(a: real, b: real)
    requires b > 0.0
    ensures (a / b) * b == a
  {
  }

  /** Threshold of frame `i`: the window mean scaled by the multiplier. */
  function Threshold(flux: seq<real>, i: nat): real
    requires i < |flux|
  {
    Mean(flux, i) * Multiplier
  }

  /** The mean is the sum of the flux values from `start` up to
      `min(end, len)`, divided by `end - start`, which is at least 10. */
  lemma MeanWindow(flux: seq<real>, i: nat)
    requires i < |flux|
    ensures 0 <= WindowStart(i) <= i < WindowEnd(i, |flux|)
    ensures WindowEnd(i, |flux|) - WindowStart(i) >= WindowRadius
    ensures Mean(flux, i) == Sum(flux[WindowStart(i) .. Min(WindowEnd(i, |flux|), |flux|)])
                             / ((WindowEnd(i, |flux|) - WindowStart(i)) as real)
  {
    WindowSumSlice(flux, WindowStart(i), WindowEnd(i, |flux|));
  }

  /** For a frame more than 10 frames before the last one the window runs to
      `len - 1`, exclusive: it reaches far past `i + 10`, and it leaves out
      the last flux value. */
  lemma FarFromEndWindow(flux: seq<real>, i: nat)
    requires i + WindowRadius < |flux| - 1
    ensures WindowEnd(i, |flux|) == |flux| - 1
    ensures Mean(flux, i) == Sum(flux[WindowStart(i) .. |flux| - 1])
                             / ((|flux| - 1 - WindowStart(i)) as real)
  {
    MeanWindow(flux, i);
  }

  /** Near the end the window runs past the flux sequence: only the values
      from `start` to the end are summed, but the divisor is still
      `i + 10 - start`. */
  lemma NearEndWindow(flux: seq<real>, i: nat)
    requires i < |flux| <= i + WindowRadius
    ensures WindowEnd(i, |flux|) == i + WindowRadius
    ensures Mean(flux, i) == Sum(flux[WindowStart(i) ..])
                             / ((i + WindowRadius - WindowStart(i)) as real)
  {
    MeanWindow(flux, i);
    assert flux[WindowStart(i) .. |flux|] == flux[WindowStart(i) ..];
  }

  /** The last flux value never affects the threshold of a frame at least
      10 frames before the last one. */
  lemma LastFluxExcluded(flux: seq<real>, other: seq<real>, i: nat)
    requires |flux| == |other| && i + WindowRadius <= |flux| - 1
    requires flux[..|flux| - 1] == other[..|other| - 1]
    ensures Threshold(flux, i) == Threshold(other, i)
  {
    forall j | WindowStart(i) <= j < WindowEnd(i, |flux|)
      ensures FluxOrZero(flux, j) == FluxOrZero(other, j)
    {
      assert flux[j] == flux[..|flux| - 1][j];
    }
    WindowSumAgree(flux, other, WindowStart(i), WindowEnd(i, |flux|));
  }

  /** The window is not local: a flux value anywhere between `i + 10` and
      the second-to-last frame moves the mean of frame `i` by its change
      over the divisor. */
  lemma DistantFluxCounts(flux: seq<real>, i: nat, j: nat, v: real)
    requires i + WindowRadius <= j < |flux| - 1
    ensures Mean(flux[j := v], i) == Mean(flux, i) + (v - flux[j]) / (Divisor(i, |flux|) as real)
  {
    WindowSumUpdate(flux, WindowStart(i), WindowEnd(i, |flux|), j, v);
  }

  lemma {:induction false} WindowSumNonNegative(flux: seq<real>, start: int, end: int)
    requires forall j :: 0 <= j < |flux| ==> flux[j] >= 0.0
    ensures WindowSum(flux, start, end) >= 0.0
    decreases end - start
  {
    if end > start {
      WindowSumNonNegative(flux, start, end - 1);
    }
  }

  /** Thresholds of non-negative flux values are non-negative. */
  lemma ThresholdNonNegative(flux: seq<real>, i: nat)
    requires i < |flux|
    requires forall j :: 0 <= j < |flux| ==> flux[j] >= 0.0
    ensures Threshold(flux, i) >= 0.0
  {
    var sum := WindowSum(flux, WindowStart(i), WindowEnd(i, |flux|));
    var d := Divisor(i, |flux|) as real;
    WindowSumNonNegative(flux, WindowStart(i), WindowEnd(i, |flux|));
    assert Mean(flux, i) == sum / d;
    QuotientNonNegative(sum, d);
  }

  /** A non-negative sum over a positive divisor is non-negative. */
  lemma QuotientNonNegative(a: real, b: real)
    requires a >= 0.0 && b > 0.0
    ensures a / b >= 0.0
  {
  }

  /** `n` copies of `v`. */
  function Replicate(v: real, n: nat): seq<real>
  {
    seq(n, _ => v)
  }

  /** One block of 513 copies of its threshold per flux value, in order. */
  function ThresholdBlocks(flux: seq<real>): seq<seq<real>>
  {
    seq(|flux|, i requires 0 <= i < |flux| => Replicate(Threshold(flux, i), SpectrumSize))
  }

  /** The threshold sequence of a magnitude sequence: what `peak` returns. */
  function Thresholds(xs: seq<real>): (peak: seq<real>)
    ensures |peak| == Offset(CeilDiv(|xs|, SpectrumSize), SpectrumSize)
  {
    var bs := ThresholdBlocks(SpectralFlux(xs));
    assert Uniform(bs, SpectrumSize);
    FlattenUniformLength(bs, SpectrumSize);
    Flatten(bs)
  }

  /** The inner loop of `peak` over the bins of one frame: the gains of
      `right` against `left`, accumulated from zero. */
  method FrameFlux(left: seq<real>, right: seq<real>) returns (flux: real)
    ensures flux == Flux(left, right)
  {
    flux := 0.0;
    for i := 0 to |right|
      invariant flux == FluxUpTo(left, right, i)
    {
      if i < |left| {
        var d := right[i] - left[i];
        if d > 0.0 {
          flux := flux + d;
        }
      }
    }
  }

  /** The window loop of `peak` for flux value `i`: the sum over the window
      divided by its width. */
  method WindowMean(spectralFlux: seq<real>, i: nat) returns (mean: real)
    requires i < |spectralFlux|
    ensures mean == Mean(spectralFlux, i)
  {
    var n := |spectralFlux|;
    var start := Max(0, i - WindowRadius);
    var end := Max(n - 1, i + WindowRadius);
    mean := 0.0;
    for j := start to end
      invariant mean == WindowSum(spectralFlux, start, j)
    {
      if j < n {
        mean := mean + spectralFlux[j];
      }
    }
    mean := mean / ((end - start) as real);
  }

  /** The first loop of `peak`: for each frame, in order, the flux of the
      frame against the one before it (`left`), pushed onto the flux
      sequence. */
  method SpectralFluxLoop(xs: seq<real>) returns (spectralFlux: seq<real>)
    ensures spectralFlux == SpectralFlux(xs)
  {
    var chunks := Chunks(xs, SpectrumSize);
    spectralFlux := [];
    var right: seq<real> := [];
    for k := 0 to |chunks|
      invariant |spectralFlux| == k
      invariant forall t {:trigger spectralFlux[t]} :: 0 <= t < k ==> spectralFlux[t] == Flux(PrevChunk(chunks, t), chunks[t])
      invariant right == PrevChunk(chunks, k)
    {
      var left := right;
      right := chunks[k];
      var flux := FrameFlux(left, right);
      spectralFlux := spectralFlux + [flux];
    }
  }

  /** The second loop of `peak`: for each flux value, in order, its
      threshold pushed 513 times. */
  method ThresholdLoop(spectralFlux: seq<real>) returns (out: seq<real>)
    ensures out == Flatten(ThresholdBlocks(spectralFlux))
  {
    var n := |spectralFlux|;
    ghost var blocks := ThresholdBlocks(spectralFlux);
    out := [];
    for i := 0 to n
      invariant out == Flatten(blocks[..i])
    {
      var mean := WindowMean(spectralFlux, i);
      var threshold: seq<real> := [];
      for c := 0 to SpectrumSize
        invariant threshold == Replicate(mean * Multiplier, c)
      {
        threshold := threshold + [mean * Multiplier];
      }
      assert blocks[i] == Replicate(Threshold(spectralFlux, i), SpectrumSize);
      assert Threshold(spectralFlux, i) == mean * Multiplier;
      FlattenSnoc(blocks[..i], threshold);
      assert blocks[..i + 1] == blocks[..i] + [threshold];
      out := out + threshold;
    }
    assert blocks[..n] == blocks;
  }

  /** `peak`: the spectral flux of the input's frames, then the thresholds
      computed from it. */
  method Peak(xs: seq<real>) returns (out: seq<real>)
    ensures out == Thresholds(xs)
  {
    var spectralFlux := SpectralFluxLoop(xs);
    out := ThresholdLoop(spectralFlux);
  }

  /** `peak` returns 513 entries per frame of its input, hence at least as
      many entries as its input has. */
  lemma ThresholdsLength(xs: seq<real>)
    ensures |Thresholds(xs)| == SpectrumSize * CeilDiv(|xs|, SpectrumSize)
    ensures |Thresholds(xs)| >= |xs|
  {
    CeilDivBounds(|xs|, SpectrumSize);
    OffsetIsProduct(CeilDiv(|xs|, SpectrumSize), SpectrumSize);
  }

  lemma ThresholdsAtOffset(xs: seq<real>, k: nat, j: nat)
    requires k < CeilDiv(|xs|, SpectrumSize) && j < SpectrumSize
    ensures k < |SpectralFlux(xs)|
    ensures Offset(k, SpectrumSize) + j < |Thresholds(xs)|
    ensures Thresholds(xs)[Offset(k, SpectrumSize) + j] == Threshold(SpectralFlux(xs), k)
  {
    var flux := SpectralFlux(xs);
    var bs := ThresholdBlocks(flux);
    assert Uniform(bs, SpectrumSize);
    FlattenUniformAt(bs, SpectrumSize, k, j);
    assert bs[k][j] == Threshold(flux, k);
  }

  /** Block `k` of the output is 513 copies of 1.5 times the window mean of
      flux value `k`, and blocks appear in flux order. */
  lemma ThresholdsAt(xs: seq<real>, k: nat, j: nat)
    requires k < CeilDiv(|xs|, SpectrumSize) && j < SpectrumSize
    ensures k * SpectrumSize + j < |Thresholds(xs)|
    ensures k < |SpectralFlux(xs)|
    ensures Thresholds(xs)[k * SpectrumSize + j] == Mean(SpectralFlux(xs), k) * Multiplier
  {
    ThresholdsAtOffset(xs, k, j);
    OffsetIsProduct(k, SpectrumSize);
    var flux := SpectralFlux(xs);
    var p := Offset(k, SpectrumSize) + j;
    assert p == k * SpectrumSize + j;
    assert Thresholds(xs)[p] == Threshold(flux, k) == Mean(flux, k) * Multiplier;
  }

  /** Every threshold is non-negative. */
  lemma ThresholdsNonNegative(xs: seq<real>)
    ensures forall p :: 0 <= p < |Thresholds(xs)| ==> Thresholds(xs)[p] >= 0.0
  {
    var flux := SpectralFlux(xs);
    var bs := ThresholdBlocks(flux);
    forall k, j | 0 <= k < |bs| && 0 <= j < |bs[k]|
      ensures bs[k][j] >= 0.0
    {
      ThresholdNonNegative(flux, k);
    }
    FlattenNonNegative(bs);
  }

  /** On a magnitude spectrum, a whole number of 513-bin frames, `peak`
      returns exactly as many entries as its input has. */
  lemma ThresholdsOfSpectrum(xs: seq<real>, magnitude: BinMagnitude)
    ensures |Thresholds(Spectrum(xs, magnitude))| == |Spectrum(xs, magnitude)|
  {
    var c := CeilDiv(|xs|, FrameSize);
    SpectrumLength(xs, magnitude);
    assert |Spectrum(xs, magnitude)| == c * SpectrumSize;
    OffsetIsProduct(c, SpectrumSize);
    CeilDivExact(c, SpectrumSize);
    ThresholdsLength(Spectrum(xs, magnitude));
  }
}
