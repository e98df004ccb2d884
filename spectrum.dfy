/** The spectrum transform of the detector (`Detector::fft` on `Vec<T>`):
    the sample sequence is cut into frames of 1024 samples, each frame is
    copied into a zeroed 1024-entry buffer, the buffer is transformed and
    the magnitudes of the first 513 bins are kept; the per-frame blocks are
    concatenated in frame order.

    The transform itself and the magnitude `sqrt(re^2 + im^2)` are a foreign
    library call on floating-point numbers; the model takes them as a
    parameter `magnitude`, where `magnitude(buffer, b)` is the magnitude of
    bin `b` of the 1024-point transform of `buffer`. */
module SpectrumTransform {
  import opened Frames

  /** Samples per frame (the width of `chunks` and of the transform). */
  const FrameSize: nat := 1024

  /** Bins kept per frame: `output.len() / 2 + 1`, with `output.len()` the
      frame size. */
  const SpectrumSize: nat := 513

  /** Magnitude of bin `b` of the transform of a `FrameSize`-entry buffer. */
  type BinMagnitude = (seq<real>, nat) -> real

  /** A transform whose magnitudes are never negative, as a square root is. */
  ghost predicate NonNegativeMagnitude(magnitude: BinMagnitude)
  {
    forall buffer: seq<real>, b: nat :: |buffer| == FrameSize && b < FrameSize ==> magnitude(buffer, b) >= 0.0
  }

  /** The transform input for one frame: the frame's samples, then zeros up
      to `FrameSize` entries. */
  function Pad(chunk: seq<real>): (buffer: seq<real>)
    requires |chunk| <= FrameSize
    ensures |buffer| == FrameSize
    ensures buffer[..|chunk|] == chunk
    ensures forall t :: |chunk| <= t < FrameSize ==> buffer[t] == 0.0
  {
    chunk + seq(FrameSize - |chunk|, _ => 0.0)
  }

  /** The magnitudes of the first `SpectrumSize` bins of one padded frame. */
  function FrameSpectrum(magnitude: BinMagnitude, chunk: seq<real>): (bins: seq<real>)
    requires |chunk| <= FrameSize
    ensures |bins| == SpectrumSize
    ensures forall b :: 0 <= b < SpectrumSize ==> bins[b] == magnitude(Pad(chunk), b)
  {
    seq(SpectrumSize, b requires 0 <= b => magnitude(Pad(chunk), b))
  }

  /** One spectrum block per frame, in frame order. */
  function SpectrumBlocks(magnitude: BinMagnitude, chunks: seq<seq<real>>): (bs: seq<seq<real>>)
    requires forall k :: 0 <= k < |chunks| ==> |chunks[k]| <= FrameSize
  {
    seq(|chunks|, k requires 0 <= k < |chunks| => FrameSpectrum(magnitude, chunks[k]))
  }

  /** The flattened magnitude spectrum of a sample sequence. */
  function Spectrum(xs: seq<real>, magnitude: BinMagnitude): (s: seq<real>)
    ensures |s| == Offset(CeilDiv(|xs|, FrameSize), SpectrumSize)
  {
    var bs := SpectrumBlocks(magnitude, Chunks(xs, FrameSize));
    FlattenUniformLength(bs, SpectrumSize);
    Flatten(bs)
  }

  /** `fft`: fills a zeroed buffer from each frame, transforms it, keeps the
      first half of the bins plus one, and appends that block to the output. */
  method Fft(xs: seq<real>, magnitude: BinMagnitude) returns (out: seq<real>)
    ensures out == Spectrum(xs, magnitude)
  {
    var chunks := Chunks(xs, FrameSize);
    ghost var blocks := SpectrumBlocks(magnitude, chunks);
    out := [];
    for k := 0 to |chunks|
      invariant out == Flatten(blocks[..k])
    {
      var chunk := chunks[k];
      var input := new real[FrameSize](_ => 0.0);
      for i := 0 to |chunk|
        invariant forall t :: 0 <= t < i ==> input[t] == chunk[t]
        invariant forall t :: i <= t < FrameSize ==> input[t] == 0.0
      {
        input[i] := chunk[i];
      }
      var buffer := input[..];
      assert buffer == Pad(chunk);
      var output := seq(FrameSize, b requires 0 <= b => magnitude(buffer, b));
      assert |output| / 2 + 1 == SpectrumSize;
      var block := output[..|output| / 2 + 1];
      assert block == blocks[k];
      FlattenSnoc(blocks[..k], block);
      assert blocks[..k + 1] == blocks[..k] + [block];
      out := out + block;
    }
    assert blocks[..|chunks|] == blocks;
  }

  /** The spectrum holds `SpectrumSize` bins for each frame of 1024 samples,
      the last frame counting even when it is short; no samples, no bins. */
  lemma SpectrumLength(xs: seq<real>, magnitude: BinMagnitude)
    ensures |Spectrum(xs, magnitude)| == SpectrumSize * CeilDiv(|xs|, FrameSize)
    ensures xs == [] ==> Spectrum(xs, magnitude) == []
  {
    OffsetIsProduct(CeilDiv(|xs|, FrameSize), SpectrumSize);
  }

  lemma SpectrumAtOffset(xs: seq<real>, magnitude: BinMagnitude, k: nat, b: nat)
    requires k < CeilDiv(|xs|, FrameSize) && b < SpectrumSize
    ensures Offset(k, FrameSize) < |xs|
    ensures Offset(k, SpectrumSize) + b < |Spectrum(xs, magnitude)|
    ensures Spectrum(xs, magnitude)[Offset(k, SpectrumSize) + b]
         == magnitude(Pad(xs[Offset(k, FrameSize) .. Min(Offset(k + 1, FrameSize), |xs|)]), b)
  {
    var cs := Chunks(xs, FrameSize);
    ChunkAt(xs, FrameSize, k);
    FlattenUniformAt(SpectrumBlocks(magnitude, cs), SpectrumSize, k, b);
  }

  /** Bin `b` of block `k` depends only on frame `k` of the input, the slice
      from `k * 1024` (clipped at the end of `xs`), zero-padded to 1024. */
  lemma SpectrumAt(xs: seq<real>, magnitude: BinMagnitude, k: nat, b: nat)
    requires k < CeilDiv(|xs|, FrameSize) && b < SpectrumSize
    ensures k * FrameSize < |xs|
    ensures k * SpectrumSize + b < |Spectrum(xs, magnitude)|
    ensures Spectrum(xs, magnitude)[k * SpectrumSize + b]
         == magnitude(Pad(xs[k * FrameSize .. Min((k + 1) * FrameSize, |xs|)]), b)
  {
    SpectrumAtOffset(xs, magnitude, k, b);
    OffsetIsProduct(k, FrameSize);
    OffsetIsProduct(k + 1, FrameSize);
    OffsetIsProduct(k, SpectrumSize);
  }

  /** Every entry of the spectrum is a magnitude, hence not negative. */
  lemma SpectrumNonNegative(xs: seq<real>, magnitude: BinMagnitude)
    requires NonNegativeMagnitude(magnitude)
    ensures forall i :: 0 <= i < |Spectrum(xs, magnitude)| ==> Spectrum(xs, magnitude)[i] >= 0.0
  {
    var bs := SpectrumBlocks(magnitude, Chunks(xs, FrameSize));
    assert forall k, j :: 0 <= k < |bs| && 0 <= j < |bs[k]| ==> bs[k][j] >= 0.0 by {
      forall k, j | 0 <= k < |bs| && 0 <= j < |bs[k]|
        ensures bs[k][j] >= 0.0
      {
        assert bs[k][j] == magnitude(Pad(Chunks(xs, FrameSize)[k]), j);
      }
    }
    FlattenNonNegative(bs);
  }
}
