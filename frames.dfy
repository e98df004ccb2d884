/** Framing shared by the three stages of the detector: cutting a sequence
    into consecutive, non-overlapping chunks of a fixed width (the slice
    `chunks(w)` iterator, whose last chunk may be shorter) and concatenating
    per-chunk blocks back together in order (`flatten().collect()`). */
module Frames {

  /** Number of chunks of width `w` that cover `n` items; `CeilDivBounds`
      shows that it is ceil(n / w). */
  function CeilDiv(n: nat, w: nat): nat
    requires w > 0
    decreases n
  {
    if n == 0 then 0 else if n <= w then 1 else 1 + CeilDiv(n - w, w)
  }

  /** Start of chunk `k` of width `w`, which is `k * w` (`OffsetIsProduct`),
      written without a product so that the framing lemmas stay linear. */
  function Offset(k: nat, w: nat): nat
  {
    if k == 0 then 0 else Offset(k - 1, w) + w
  }

  lemma {:induction false} OffsetIsProduct(k: nat, w: nat)
    ensures Offset(k, w) == k * w
  {
    if k > 0 {
      OffsetIsProduct(k - 1, w);
      assert (k - 1) * w + w == k * w;
    }
  }

  /** `CeilDiv(n, w)` is ceil(n / w): the least count `c` of chunks with
      `n <= c * w`. */
  lemma {:induction false} CeilDivBounds(n: nat, w: nat)
    requires w > 0
    ensures n <= Offset(CeilDiv(n, w), w)
    ensures n > 0 ==> CeilDiv(n, w) > 0 && Offset(CeilDiv(n, w) - 1, w) < n
    decreases n
  {
    if n > w {
      CeilDivBounds(n - w, w);
    }
  }

  /** Item `j` of chunk `k` lies before `n` only if there are more than `k`
      chunks. */
  lemma {:induction false} CeilDivCovers(n: nat, w: nat, k: nat, j: nat)
    requires j < w && Offset(k, w) + j < n
    ensures k < CeilDiv(n, w)
    decreases n
  {
    if k > 0 {
      CeilDivCovers(n - w, w, k - 1, j);
    }
  }

  /** A whole number `c` of chunks of width `w` needs exactly `c` chunks. */
  lemma {:induction false} CeilDivExact(c: nat, w: nat)
    requires w > 0
    ensures CeilDiv(Offset(c, w), w) == c
  {
    if c > 1 {
      assert Offset(c - 1, w) >= w;
      CeilDivExact(c - 1, w);
    }
  }

  function Min(a: int, b: int): int { if a <= b then a else b }

  function Max(a: int, b: int): int { if a >= b then a else b }

  /** The chunks of `xs` of width `w`: every chunk but the last holds exactly
      `w` items, the last holds between 1 and `w`, and an empty sequence has
      no chunks at all. */
  function Chunks<T>(xs: seq<T>, w: nat): (cs: seq<seq<T>>)
    requires w > 0
    ensures |cs| == CeilDiv(|xs|, w)
    ensures forall k :: 0 <= k < |cs| ==> 0 < |cs[k]| <= w
    decreases |xs|
  {
    if |xs| == 0 then []
    else if |xs| <= w then [xs]
    else [xs[..w]] + Chunks(xs[w..], w)
  }

  lemma ChunksTail<T>(xs: seq<T>, w: nat, k: nat)
    requires w > 0 && |xs| > w && 0 < k < CeilDiv(|xs|, w)
    ensures Chunks(xs, w)[k] == Chunks(xs[w..], w)[k - 1]
  {
  }

  lemma SliceShift<T>(xs: seq<T>, w: nat, lo: nat, hi: nat)
    requires w <= |xs| && lo <= hi <= |xs| - w
    ensures xs[w..][lo..hi] == xs[lo + w .. hi + w]
  {
  }

  /** Chunk `k` is the slice of `xs` from `k * w` up to `(k + 1) * w`,
      clipped at the end of `xs`. */
  lemma {:induction false} ChunkAt<T>(xs: seq<T>, w: nat, k: nat)
    requires w > 0 && k < CeilDiv(|xs|, w)
    ensures Offset(k, w) < |xs|
    ensures Chunks(xs, w)[k] == xs[Offset(k, w) .. Min(Offset(k + 1, w), |xs|)]
  {
    if k > 0 {
      ChunkAt(xs[w..], w, k - 1);
      ChunkAtStep(xs, w, k);
    } else if |xs| <= w {
      assert Chunks(xs, w)[0] == xs;
      assert xs[0 .. |xs|] == xs;
    } else {
      assert Chunks(xs, w)[0] == xs[..w];
      assert xs[0 .. w] == xs[..w];
    }
  }

  /** The step of `ChunkAt`: chunk `k` of `xs` is chunk `k - 1` of the rest
      after the first chunk, shifted by `w`. */
  lemma ChunkAtStep<T>(xs: seq<T>, w: nat, k: nat)
    requires w > 0 && |xs| > w && 0 < k < CeilDiv(|xs|, w)
    requires Offset(k - 1, w) < |xs| - w
    requires Chunks(xs[w..], w)[k - 1] == xs[w..][Offset(k - 1, w) .. Min(Offset(k, w), |xs| - w)]
    ensures Offset(k, w) < |xs|
    ensures Chunks(xs, w)[k] == xs[Offset(k, w) .. Min(Offset(k + 1, w), |xs|)]
  {
    var ys := xs[w..];
    var lo := Offset(k - 1, w);
    var hi := Min(Offset(k, w), |ys|);
    assert Offset(k, w) == lo + w;
    assert hi + w == Min(Offset(k + 1, w), |xs|);
    ChunksTail(xs, w, k);
    SliceShift(xs, w, lo, hi);
  }

  /** Chunks of width `w` all have length `w`, except the last one, which
      holds what remains of `xs`. */
  lemma {:induction false} ChunkLength<T>(xs: seq<T>, w: nat, k: nat)
    requires w > 0 && k < CeilDiv(|xs|, w)
    ensures k + 1 < CeilDiv(|xs|, w) ==> |Chunks(xs, w)[k]| == w
    ensures k + 1 == CeilDiv(|xs|, w) ==> |Chunks(xs, w)[k]| == |xs| - Offset(k, w)
  {
    if k > 0 {
      ChunkLength(xs[w..], w, k - 1);
    }
  }

  /** Concatenation of blocks, in order. */
  function Flatten<T>(bs: seq<seq<T>>): seq<T>
  {
    if |bs| == 0 then [] else bs[0] + Flatten(bs[1..])
  }

  lemma {:induction false} FlattenSnoc<T>(bs: seq<seq<T>>, b: seq<T>)
    ensures Flatten(bs + [b]) == Flatten(bs) + b
  {
    if |bs| == 0 {
      assert bs + [b] == [b];
    } else {
      assert (bs + [b])[1..] == bs[1..] + [b];
      FlattenSnoc(bs[1..], b);
    }
  }

  /** Concatenating the chunks of `xs` gives back `xs`. */
  lemma {:induction false} FlattenChunks<T>(xs: seq<T>, w: nat)
    requires w > 0
    ensures Flatten(Chunks(xs, w)) == xs
    decreases |xs|
  {
    var cs := Chunks(xs, w);
    if |xs| == 0 {
      assert cs == [];
    } else if |xs| <= w {
      assert cs == [xs];
      assert cs[1..] == [];
    } else {
      FlattenChunks(xs[w..], w);
      assert cs[0] == xs[..w];
      assert cs[1..] == Chunks(xs[w..], w);
      assert Flatten(cs) == xs[..w] + xs[w..];
      assert xs == xs[..w] + xs[w..];
    }
  }

  /** Every block in `bs` has length `w`. */
  ghost predicate Uniform<T>(bs: seq<seq<T>>, w: nat)
  {
    forall k :: 0 <= k < |bs| ==> |bs[k]| == w
  }

  /** Concatenating blocks of width `w` gives `w` items per block. */
  lemma {:induction false} FlattenUniformLength<T>(bs: seq<seq<T>>, w: nat)
    requires Uniform(bs, w)
    ensures |Flatten(bs)| == Offset(|bs|, w)
  {
    if |bs| > 0 {
      FlattenUniformLength(bs[1..], w);
    }
  }

  /** In a concatenation of blocks of width `w`, position `k * w + j` holds
      item `j` of block `k`. */
  lemma {:induction false} FlattenUniformAt<T>(bs: seq<seq<T>>, w: nat, k: nat, j: nat)
    requires Uniform(bs, w) && k < |bs| && j < w
    ensures Offset(k, w) + j < |Flatten(bs)|
    ensures Flatten(bs)[Offset(k, w) + j] == bs[k][j]
  {
    assert Flatten(bs) == bs[0] + Flatten(bs[1..]);
    if k > 0 {
      FlattenUniformAt(bs[1..], w, k - 1, j);
    }
  }

  /** A concatenation of blocks of non-negative numbers is non-negative. */
  lemma {:induction false} FlattenNonNegative(bs: seq<seq<real>>)
    requires forall k, j :: 0 <= k < |bs| && 0 <= j < |bs[k]| ==> bs[k][j] >= 0.0
    ensures forall i :: 0 <= i < |Flatten(bs)| ==> Flatten(bs)[i] >= 0.0
  {
    if |bs| > 0 {
      FlattenNonNegative(bs[1..]);
      assert Flatten(bs) == bs[0] + Flatten(bs[1..]);
      forall i | 0 <= i < |Flatten(bs)|
        ensures Flatten(bs)[i] >= 0.0
      {
        if i >= |bs[0]| {
          assert Flatten(bs)[i] == Flatten(bs[1..])[i - |bs[0]|];
        }
      }
    }
  }
}
