# Onset detector: a Dafny model of the `Detector` pipeline

This project models the `Detector` implementation for `Vec<T>` in
`src/detector.rs`. That file finds musical onsets ("beats") in a stream of
audio samples in three stages:

- `fft` (module `SpectrumTransform`) cuts the samples into frames of 1024
  and zero-pads each frame into a 1024-entry buffer. It transforms each
  buffer, keeps the magnitudes of the first 513 bins, and concatenates the
  per-frame blocks in frame order.
- `peak` (module `NoveltyFunction`) cuts its input into frames of 513 bins.
  It computes each frame's half-wave-rectified spectral flux against the
  previous frame; the first frame's flux is 0. It averages the flux over a
  window of neighbouring frames, multiplies the mean by 1.5, and writes that
  threshold 513 times per frame.
- `beats` (module `OnsetExtractor`) compares its input with its own `peak`
  sequence, position by position. Where the input strictly exceeds the
  threshold it emits the threshold; everywhere else it emits 0.

Module `Frames` holds the slice `chunks(w)` iterator (`Chunks`) and the
ordered concatenation `flatten().collect()` (`Flatten`).
The framing lemmas state chunk starts as `Offset(k, w)`, which adds `w` once
per chunk; `OffsetIsProduct` shows it is `k * w`, and the lemmas about the
stages (`SpectrumAt`, `ThresholdsAt`, `BeatsAt`) are stated with the product.

The generic number type `T` is `real`, so every sum and comparison is exact.
The foreign transform and its `sqrt(re² + im²)` magnitudes are one parameter
`magnitude: (seq<real>, nat) -> real`. `magnitude(buffer, b)` is the
magnitude of bin `b` of the 1024-point transform of `buffer`. The buffer holds
only real parts, because every imaginary part the source puts in is 0.

`fft` and `peak` change local buffers step by step, so they are methods with
loops. Each method is proved equal to a specification function: `Fft` to
`Spectrum`, and `Peak` to `Thresholds`. The lemmas then prove the properties
from those functions. `Peak` calls one method per part of the source
function:

- `SpectralFluxLoop`: the loop over frames;
- `FrameFlux`: the loop over bins;
- `ThresholdLoop`: the loop over flux values;
- `WindowMean`: the loop over the window.

`beats` is a pure elementwise map, so it is the function `Beats`. It reads
`Thresholds`, which is what `Peak` is proved to return.

The averaging window is modelled exactly as the code writes it:

- it starts at `max(0, i - 10)`;
- it ends, exclusive, at `max(len - 1, i + 10)`;
- the sum skips indices past the flux sequence;
- the divisor `end - start` counts those indices anyway.

So for a frame more than 10 frames before the last, the window runs up to
`len - 1`. It is not local, and it leaves out the last flux value
(`FarFromEndWindow`, `DistantFluxCounts`, `LastFluxExcluded`). The divisor is
never below 10, so the code has no empty-window case. A local window would
bound `end` with `min(len, i + 10)`; the code uses `max`, and the model follows
the code.

## Model

| member | source | states |
|---|---|---|
| Frames.Chunks | src/detector.rs:20 | the chunks of width `w` number ceil(n / w), and each holds between 1 and `w` items |
| Frames.CeilDivBounds | src/detector.rs:20 | the chunk count `c` is the ceiling: `Offset(c - 1, w) < n <= Offset(c, w)` |
| Frames.OffsetIsProduct | src/detector.rs:20 | the start `Offset(k, w)` of chunk `k` is `k * w` |
| Frames.ChunkAt | src/detector.rs:49 | chunk `k` is the slice `xs[Offset(k, w) .. min(Offset(k + 1, w), n)]` |
| Frames.ChunkLength | src/detector.rs:49 | every chunk but the last has exactly `w` items; the last holds the `n - Offset(k, w)` that remain |
| Frames.Flatten | src/detector.rs:38-39 | `flatten().collect()`: the blocks concatenated in order (characterised by `FlattenSnoc`, `FlattenUniformLength` and `FlattenUniformAt`) |
| Frames.FlattenSnoc | src/detector.rs:38-39 | appending one block to the blocks appends its items to the concatenation |
| Frames.FlattenChunks | src/detector.rs:49 | concatenating the chunks gives back the input, so the chunks cover it in order and do not overlap |
| Frames.FlattenUniformLength | src/detector.rs:38-39 | concatenating `c` blocks of width `w` gives `Offset(c, w)`, that is `c * w`, items |
| Frames.FlattenUniformAt | src/detector.rs:38-39 | in the concatenation, position `Offset(k, w) + j` holds item `j` of block `k`, so order is preserved |
| SpectrumTransform.Pad | src/detector.rs:24-27 | the transform input holds 1024 entries: the frame's samples first, then zeros |
| SpectrumTransform.FrameSpectrum | src/detector.rs:24-36 | one frame's block has 513 entries, and entry `b` is the magnitude of bin `b` of the zero-padded frame |
| SpectrumTransform.SpectrumBlocks | src/detector.rs:22-37 | the per-chunk map: one spectrum block per frame, in frame order |
| SpectrumTransform.Spectrum | src/detector.rs:20-39 | the blocks of all frames concatenated; it holds 513 entries per frame of 1024 samples |
| SpectrumTransform.Fft | src/detector.rs:19-40 | the chunk, fill, transform, truncate and append loop returns the flattened per-frame spectrum `Spectrum` |
| SpectrumTransform.SpectrumLength | src/detector.rs:20-39 | the output holds `513 * ceil(n / 1024)` entries; empty input gives empty output |
| SpectrumTransform.SpectrumAt | src/detector.rs:20-39 | bin `b` of block `k` is the magnitude of bin `b` of frame `k`, zero-padded; no other frame affects it |
| SpectrumTransform.SpectrumNonNegative | src/detector.rs:33-34 | if the magnitudes are non-negative, every output entry is non-negative |
| NoveltyFunction.Gain | src/detector.rs:56-62 | a bin contributes only when both frames have it and it increased; a positive gain is exactly the increase `cur[i] - prev[i]`, and no gain is negative |
| NoveltyFunction.FluxUpTo | src/detector.rs:53-63 | the accumulated flux is never negative |
| NoveltyFunction.FluxUpToNoPrev | src/detector.rs:47-61 | with no predecessor (`left` empty) nothing is added, so the flux is 0 |
| NoveltyFunction.FluxIsRectifiedDifference | src/detector.rs:55-63 | the bin loop's flux equals the sum of `max(0, cur[i] - prev[i])` over the bins both frames have |
| NoveltyFunction.FluxZeroIff | src/detector.rs:55-63 | a frame's flux is 0 exactly when none of the bins it shares with its predecessor increased |
| NoveltyFunction.Flux | src/detector.rs:53-63 | one frame's flux, the gains accumulated over the bins of `right`; it is never negative, and it is 0 when `left` is empty |
| NoveltyFunction.FrameFlux | src/detector.rs:53-63 | the bin loop returns the frame's flux |
| NoveltyFunction.SpectralFluxLoop | src/detector.rs:46-66 | the frame loop, which swaps `left` and `right`, returns one flux value per frame in order |
| NoveltyFunction.PrevChunk | src/detector.rs:47-51 | `left` for frame `k`: empty for the first frame, then the frame before |
| NoveltyFunction.FluxSeq | src/detector.rs:49-66 | the frame loop: one flux value per frame, each against the frame before it |
| NoveltyFunction.SpectralFlux | src/detector.rs:46-66 | the flux sequence holds one value per frame of 513, and the first value is 0 |
| NoveltyFunction.SpectralFluxAt | src/detector.rs:49-66 | there are ceil(n / 513) flux values; the first is 0; value `k > 0` is the rectified difference of the slices of frames `k - 1` and `k` |
| NoveltyFunction.SpectralFluxNonNegative | src/detector.rs:53-65 | every flux value is non-negative |
| NoveltyFunction.WindowStart | src/detector.rs:72 | the window starts exactly 10 frames before `i` when `i >= 10`, and at 0 when `i <= 10` |
| NoveltyFunction.WindowEnd | src/detector.rs:73 | the window end is the larger of `len - 1` and `i + 10`: at least both, and equal to one of them |
| NoveltyFunction.Divisor | src/detector.rs:72-83 | `end - start` is at least 10, so the division is always defined |
| NoveltyFunction.FluxOrZero | src/detector.rs:78 | `spectral_flux.get(j)`: the value at `j` when it exists, contributing nothing otherwise |
| NoveltyFunction.WindowSum | src/detector.rs:77-81 | the sum over `start <= j < end` of the flux values that exist |
| NoveltyFunction.WindowSumSlice | src/detector.rs:77-81 | the window sum is the sum of `flux[start .. min(end, len)]` |
| NoveltyFunction.Mean | src/detector.rs:75-83 | the mean times the divisor `end - start` is the guarded window sum |
| NoveltyFunction.Threshold | src/detector.rs:86 | the threshold of flux value `i` is `mean * 1.5`; `ThresholdsAt` states that value for every output entry of frame `i`, and `ThresholdNonNegative` its sign |
| NoveltyFunction.WindowMean | src/detector.rs:72-83 | the window loop and the division return the window mean |
| NoveltyFunction.MeanWindow | src/detector.rs:72-83 | `0 <= start <= i < end` and `end - start >= 10`; the mean is the sum over `[start, min(end, len))` divided by `end - start` |
| NoveltyFunction.FarFromEndWindow | src/detector.rs:73-83 | when `i + 10 < len - 1`, the window ends at `len - 1`, which excludes the last flux value |
| NoveltyFunction.NearEndWindow | src/detector.rs:73-83 | when `i + 10 >= len`, only `flux[start..]` is summed, but the divisor is `i + 10 - start` |
| NoveltyFunction.LastFluxExcluded | src/detector.rs:73-81 | changing the last flux value leaves the threshold of every frame with `i + 10 <= len - 1` unchanged |
| NoveltyFunction.DistantFluxCounts | src/detector.rs:73-83 | changing a flux value at any `j` with `i + 10 <= j < len - 1` moves mean `i` by the change over the divisor, so the window is not local |
| NoveltyFunction.ThresholdNonNegative | src/detector.rs:75-86 | thresholds of non-negative flux values are non-negative |
| NoveltyFunction.ThresholdLoop | src/detector.rs:68-92 | the threshold loop returns 513 copies of each threshold, concatenated in flux order |
| NoveltyFunction.Peak | src/detector.rs:42-93 | `peak` returns the threshold sequence `Thresholds` of its input |
| NoveltyFunction.Replicate | src/detector.rs:85-87 | the 513 pushes of one threshold |
| NoveltyFunction.ThresholdBlocks | src/detector.rs:68-90 | the per-flux map: one block of 513 copies of its threshold per flux value, in order |
| NoveltyFunction.Thresholds | src/detector.rs:68-92 | 513 copies of each frame's threshold, concatenated in flux order; it holds 513 entries per flux value |
| NoveltyFunction.ThresholdsLength | src/detector.rs:68-92 | the output holds `513 * ceil(n / 513)` entries, which is never fewer than the input |
| NoveltyFunction.ThresholdsAt | src/detector.rs:85-92 | every entry of block `k` equals `1.5 * mean_k`, and blocks appear in flux order |
| NoveltyFunction.ThresholdsNonNegative | src/detector.rs:68-92 | every threshold is non-negative |
| NoveltyFunction.ThresholdsOfSpectrum | src/detector.rs:68-92 | on an `fft` output, `peak` returns exactly as many entries as its input |
| OnsetExtractor.IsOnset | src/detector.rs:102-104 | the `diff > 0` test: the value at `i` strictly exceeds its threshold |
| OnsetExtractor.Beats | src/detector.rs:95-111 | same length as the input; the threshold lookup never fails; each entry is 0 or the threshold; it is the threshold at an onset (value > threshold) and 0 elsewhere |
| OnsetExtractor.BeatsMask | src/detector.rs:99-110 | every entry is non-negative; a non-zero entry marks an onset and is strictly below the input value there |
| OnsetExtractor.BeatsAt | src/detector.rs:97-110 | bin `j` of frame `k` is `1.5 * mean_k` if the input there exceeds it, else 0 |
| OnsetExtractor.EmptyPipeline | src/detector.rs:19-111 | empty input gives empty output from `fft`, `peak` and `beats` |

## Left out

- The transform and the magnitudes (`FFTplanner`, `plan_fft`, `process`, and `sqrt`/`powi`) are foreign floating-point code. The model takes them as the parameter `magnitude`. Non-negativity of the magnitudes of a 1024-entry buffer is a precondition of `SpectrumNonNegative` only.
- `process` writes into a pre-sized 1024-entry `output` vector. The model builds that vector as a sequence of 1024 magnitudes. It does not model the in-place write.
- Properties of concrete inputs that depend on the transform are not proved, for example that 1024 zero samples give 513 zero magnitudes, or that a single-bin sinusoid gives one dominant bin. What is proved is that a frame whose bins all fail to increase has flux 0 (`FluxZeroIff`).
- `T` is modelled as `real`. This leaves out IEEE rounding, non-finite values and their propagation, summation-order effects, and `NumCast` failures. None of the casts used (0, 0.0, 1.5, a small `isize`) can fail.
- Overflow is not modelled:
  - `usize`/`isize` arithmetic in the window bounds overflows only for lengths near `isize::MAX`.
  - `spectral_flux.len() - 1` is evaluated only inside the per-value closure, which never runs on an empty flux sequence.
- Rayon's `par_iter` is modelled as a sequential loop or map that preserves order.
- The generic trait bounds on `T` are compile-time plumbing.
- The other source files are not part of this model:
  - `src/bin/fft_gnu.rs`: file decoding, timing output and gnuplot rendering;
  - `src/bin/pcm_json.rs`: file decoding and JSON printing.
