/** The block score `np.sum((chunk_1 - chunk_2) ** 2)` that `Metrics.ssd`
    ranks candidate blocks by: as numpy evaluates it on uint8 chunks, where
    the difference and its square wrap modulo 256 before the sum, and as the
    exact sum of squared differences it is named after. */
module Scores {
  import opened Pixels
  import opened Grids

  /** Sum of the wrapped per-pixel scores of two equally long rows. */
  function RowScore(a: seq<Pixel>, b: seq<Pixel>): (t: nat)
    requires |a| == |b|
    ensures t <= 765 * |a|
  {
    if a == [] then 0 else PixelScore(a[0], b[0]) + RowScore(a[1..], b[1..])
  }

  /** The score as numpy computes it on two equally shaped uint8 chunks. */
  function Score(c1: Grid, c2: Grid): nat
    requires SameDims(c1, c2)
  {
    if c1 == [] then 0 else RowScore(c1[0], c2[0]) + Score(c1[1..], c2[1..])
  }

  /** Sum of the exact squared differences of two equally long rows. */
  function RowSumSquares(a: seq<Pixel>, b: seq<Pixel>): nat
    requires |a| == |b|
  {
    if a == [] then 0 else PixelSsd(a[0], b[0]) + RowSumSquares(a[1..], b[1..])
  }

  /** The exact sum of squared differences of two equally shaped chunks. */
  function SumSquares(c1: Grid, c2: Grid): nat
    requires SameDims(c1, c2)
  {
    if c1 == [] then 0 else RowSumSquares(c1[0], c2[0]) + SumSquares(c1[1..], c2[1..])
  }

  lemma {:induction false} RowSumSquaresZero(a: seq<Pixel>, b: seq<Pixel>)
    requires |a| == |b|
    ensures RowSumSquares(a, b) == 0 <==> a == b
  {
    if a != [] {
      RowSumSquaresZero(a[1..], b[1..]);
      if RowSumSquares(a, b) == 0 {
        assert a == [a[0]] + a[1..] && b == [b[0]] + b[1..];
      }
    }
  }

  /** The exact score is zero exactly for identical chunks. */
  lemma {:induction false} SumSquaresZero(c1: Grid, c2: Grid)
    requires SameDims(c1, c2)
    ensures SumSquares(c1, c2) == 0 <==> c1 == c2
  {
    if c1 != [] {
      assert |c1[0]| == |c2[0]|;
      RowSumSquaresZero(c1[0], c2[0]);
      SumSquaresZero(c1[1..], c2[1..]);
      if SumSquares(c1, c2) == 0 {
        assert c1 == [c1[0]] + c1[1..] && c2 == [c2[0]] + c2[1..];
      }
    }
  }

  lemma {:induction false} RowScoreSame(a: seq<Pixel>)
    ensures RowScore(a, a) == 0
  {
    if a != [] {
      RowScoreSame(a[1..]);
    }
  }

  /** A chunk scores zero against itself under the wrapped score too. */
  lemma {:induction false} ScoreSame(c: Grid)
    ensures SameDims(c, c) && Score(c, c) == 0
  {
    if c != [] {
      RowScoreSame(c[0]);
      ScoreSame(c[1..]);
    }
  }

  /** One-pixel chunks score what their pixels score. */
  lemma SinglePixel(p: Pixel, q: Pixel)
    ensures SameDims([[p]], [[q]])
    ensures Score([[p]], [[q]]) == PixelScore(p, q)
    ensures SumSquares([[p]], [[q]]) == PixelSsd(p, q)
  {
    UniformChunk([[p]], [[q]], 1, 1, p, q);
  }

  /** A sample difference of 16 squares to 256, which wraps to 0 in uint8. */
  lemma Sixteen()
    ensures SquaredDiff8(16, 0) == 0 && SquaredDiff(16, 0) == 256
  {
    assert (16 - 0) % 256 == 16 && 16 * 16 == 256 && 256 % 256 == 0;
  }

  /** The wrapped score cannot tell a sample difference of 16 from none:
      two different one-pixel chunks whose wrapped score is zero. */
  lemma WrappedScoreBlind(p: Pixel, q: Pixel)
    requires p.c0 == 16 && q.c0 == 0 && p.c1 == q.c1 && p.c2 == q.c2
    ensures SameDims([[p]], [[q]]) && [[p]] != [[q]]
    ensures Score([[p]], [[q]]) == 0 && SumSquares([[p]], [[q]]) == 256
  {
    Sixteen();
    SinglePixel(p, q);
    assert [[p]][0][0] != [[q]][0][0];
  }

  lemma MulSucc(n: nat, s: nat)
    ensures (n + 1) * s == n * s + s
  {
  }

  /** Rows of one repeated pixel against rows of another. */
  lemma {:induction false} UniformRow(a: seq<Pixel>, b: seq<Pixel>, p: Pixel, q: Pixel)
    requires |a| == |b|
    requires forall k :: 0 <= k < |a| ==> a[k] == p && b[k] == q
    ensures RowScore(a, b) == |a| * PixelScore(p, q)
    ensures RowSumSquares(a, b) == |a| * PixelSsd(p, q)
  {
    if a != [] {
      UniformRow(a[1..], b[1..], p, q);
      MulSucc(|a[1..]|, PixelScore(p, q));
      MulSucc(|a[1..]|, PixelSsd(p, q));
    }
  }

  /** An h by w chunk of one repeated pixel against one of another. */
  lemma {:induction false} UniformChunk(c1: Grid, c2: Grid, h: nat, w: nat, p: Pixel, q: Pixel)
    requires Shaped(c1, h, w) && Shaped(c2, h, w)
    requires forall y, x :: 0 <= y < h && 0 <= x < w ==> c1[y][x] == p && c2[y][x] == q
    ensures SameDims(c1, c2)
    ensures Score(c1, c2) == h * (w * PixelScore(p, q))
    ensures SumSquares(c1, c2) == h * (w * PixelSsd(p, q))
  {
    if h > 0 {
      UniformRow(c1[0], c2[0], p, q);
      UniformChunk(c1[1..], c2[1..], h - 1, w, p, q);
      MulSucc(h - 1, w * PixelScore(p, q));
      MulSucc(h - 1, w * PixelSsd(p, q));
    }
  }
}
