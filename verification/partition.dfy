/** The grid partitioner's arithmetic: how much bottom/right padding makes a
    dimension a multiple of the block size, what the wrap-padded raster holds,
    and the row-major list of cells that tiles a padded raster. */
module Partition {
  import opened Pixels
  import opened Grids

  /** a == q * n + r with 0 <= r < n pins down both the quotient and the remainder. */
  lemma DivModUnique(a: int, n: int, q: int, r: int)
    requires 0 < n && 0 <= r < n && a == q * n + r
    ensures a / n == q && a % n == r
  {
    var q', r' := a / n, a % n;
    var d := q - q';
    assert d * n == r' - r by { MulSub(q, q', n); }
    if d >= 1 {
      MulAtLeast(d, n);
    } else if d <= -1 {
      MulAtLeast(-d, n);
      MulNeg(d, n);
    }
  }

  lemma MulSub(a: int, b: int, n: int)
    ensures a * n - b * n == (a - b) * n
  {
  }

  lemma MulNeg(d: int, n: int)
    ensures (-d) * n == -(d * n)
  {
  }

  lemma MulAtLeast(k: int, n: int)
    requires 1 <= k && 0 < n
    ensures k * n >= n
  {
    MulSub(k, 1, n);
    MulMonotone(0, k - 1, n);
  }

  lemma MulMonotone(a: int, b: int, n: int)
    requires 0 <= a <= b && 0 <= n
    ensures a * n <= b * n
  {
    MulSub(b, a, n);
  }

  /** `n` is a whole number of blocks of size `size`. */
  predicate IsMultiple(n: int, size: int)
    requires 0 < size
  {
    n % size == 0
  }

  /** Adding less than the gap to the next multiple only raises the remainder. */
  lemma ModShift(a: nat, n: nat, q: nat)
    requires 0 < n && a % n + q < n
    ensures (a + q) % n == a % n + q
  {
    DivModUnique(a + q, n, a / n, a % n + q);
  }

  /** `_get_dims`: the padding that brings `current` up to the next multiple
      of `size`. It is the least such amount, and it is zero exactly when
      `current` already divides evenly. */
  function PadAmount(current: nat, size: nat): (p: nat)
    requires 0 < size
    ensures p < size
    ensures IsMultiple(current + p, size)
    ensures p == 0 <==> IsMultiple(current, size)
    ensures forall n :: current <= n < current + p ==> !IsMultiple(n, size)
  {
    var leftOver := current % size;
    if leftOver == 0 then 0
    else
      PadFacts(current, size);
      size - leftOver
  }

  lemma PadFacts(current: nat, size: nat)
    requires 0 < size && current % size != 0
    ensures IsMultiple(current + (size - current % size), size)
    ensures forall n :: current <= n < current + (size - current % size) ==> !IsMultiple(n, size)
  {
    var leftOver, quotient := current % size, current / size;
    DivModUnique(current + (size - leftOver), size, quotient + 1, 0) by {
      assert current == quotient * size + leftOver;
      assert (quotient + 1) * size == quotient * size + size;
    }
    forall n | current <= n < current + (size - leftOver) ensures !IsMultiple(n, size) {
      ModShift(current, size, n - current);
    }
  }

  /** `cv2.copyMakeBorder(image, 0, dy, 0, dx, BORDER_WRAP)`: the raster grown
      to `h` rows and `w` columns, where the added bottom rows and right
      columns repeat the image from its opposite edge. */
  function Padded(g: Grid, h: nat, w: nat): (r: Grid)
    requires 0 < |g| && 0 < |g[0]| && Shaped(g, |g|, |g[0]|)
    ensures Shaped(r, h, w)
  {
    seq(h, y requires 0 <= y < h => seq(w, x requires 0 <= x < w => g[y % |g|][x % |g[0]|]))
  }

  /** Padding never disturbs the original top-left region, and every added
      pixel repeats the original pixel at the wrapped position. */
  lemma PaddedKeepsOriginal(g: Grid, h: nat, w: nat)
    requires 0 < |g| && 0 < |g[0]| && Shaped(g, |g|, |g[0]|)
    requires |g| <= h && |g[0]| <= w
    ensures forall y, x :: 0 <= y < |g| && 0 <= x < |g[0]| ==> Padded(g, h, w)[y][x] == g[y][x]
    ensures forall y, x :: 0 <= y < h && 0 <= x < w ==> Padded(g, h, w)[y][x] == g[y % |g|][x % |g[0]|]
  {
    forall y, x | 0 <= y < |g| && 0 <= x < |g[0]| ensures Padded(g, h, w)[y][x] == g[y][x] {
      DivModUnique(y, |g|, 0, y);
      DivModUnique(x, |g[0]|, 0, x);
    }
  }

  /** One pixel of the padded raster. */
  lemma PaddedAt(g: Grid, h: nat, w: nat, y: nat, x: nat)
    requires 0 < |g| && 0 < |g[0]| && Shaped(g, |g|, |g[0]|)
    requires y < h && x < w
    ensures y % |g| < |g| && x % |g[0]| < |g[0]|
    ensures Padded(g, h, w)[y][x] == g[y % |g|][x % |g[0]|]
  {
  }

  /** A raster whose dimensions are kept is not altered by the padding step. */
  lemma PaddedSameSize(g: Grid)
    requires 0 < |g| && 0 < |g[0]| && Shaped(g, |g|, |g[0]|)
    ensures Padded(g, |g|, |g[0]|) == g
  {
    PaddedKeepsOriginal(g, |g|, |g[0]|);
    GridExt(Padded(g, |g|, |g[0]|), g);
  }

  /** The cell in grid row `r` and grid column `c`, as `get_blocks` creates it:
      `Block(i, i + block_x, j, j + block_y)` with `changed` false and id 0. */
  function Cell(r: nat, c: nat, bh: nat, bw: nat): (b: Block)
    ensures Height(b) == bh && Width(b) == bw && !b.changed
    ensures b.begY == r * bh && b.begX == c * bw
  {
    Block(c * bw, c * bw + bw, r * bh, r * bh + bh, false, 0)
  }

  /** The cells of grid row `r`, left to right. */
  function TileRow(r: nat, numX: nat, bh: nat, bw: nat): seq<Block> {
    seq(numX, c requires 0 <= c < numX => Cell(r, c, bh, bw))
  }

  /** The cells of a raster of `numY` by `numX` cells in row-major order:
      cell `k` sits in grid row `k / numX` and grid column `k % numX`. */
  function Tiles(numY: nat, numX: nat, bh: nat, bw: nat): (ts: seq<Block>)
    ensures |ts| == numY * numX
  {
    if numX == 0 then
      assert numY * numX == 0;
      []
    else
      seq(numY * numX, k requires 0 <= k < numY * numX => Cell(k / numX, k % numX, bh, bw))
  }

  /** Appending grid row `r` to the first `r` rows gives the first `r + 1`
      rows, which is the order in which `get_blocks` appends its cells. */
  lemma TilesStep(r: nat, numX: nat, bh: nat, bw: nat)
    ensures Tiles(r + 1, numX, bh, bw) == Tiles(r, numX, bh, bw) + TileRow(r, numX, bh, bw)
  {
    var prev, next, row := Tiles(r, numX, bh, bw), Tiles(r + 1, numX, bh, bw), TileRow(r, numX, bh, bw);
    MulSub(r + 1, r, numX);
    forall k | 0 <= k < |next| ensures next[k] == (prev + row)[k] {
      if k >= |prev| {
        DivModUnique(k, numX, r, k - r * numX);
      }
    }
  }

  /** A cell covers pixel (y, x) exactly when y / bh and x / bw are its grid
      row and column. */
  lemma CellCovers(r: nat, c: nat, bh: nat, bw: nat, y: nat, x: nat)
    requires 0 < bh && 0 < bw
    ensures Covers(Cell(r, c, bh, bw), y, x) <==> y / bh == r && x / bw == c
  {
    if Covers(Cell(r, c, bh, bw), y, x) {
      DivModUnique(y, bh, r, y - r * bh);
      DivModUnique(x, bw, c, x - c * bw);
    }
    if y / bh == r && x / bw == c {
      assert y == r * bh + y % bh;
      assert x == c * bw + x % bw;
    }
  }

  /** One cell of the list, by index: its grid row is below numY. */
  lemma CellOf(numY: nat, numX: nat, bh: nat, bw: nat, k: nat)
    requires k < numY * numX
    ensures 0 < numX && k / numX < numY && k % numX < numX
    ensures Tiles(numY, numX, bh, bw)[k] == Cell(k / numX, k % numX, bh, bw)
  {
    PositiveFactor(numY, numX);
    IndexBelow(k, numX, numY);
  }

  lemma PositiveFactor(a: nat, b: nat)
    requires 0 < a * b
    ensures 0 < b
  {
  }

  /** A coordinate inside n cells of size s lies in a cell index below n. */
  lemma IndexBelow(v: nat, s: nat, n: nat)
    requires 0 < s && v < n * s
    ensures v / s < n
  {
    if v / s >= n {
      MulMonotone(n, v / s, s);
    }
  }

  /** Grid row r, grid column c has list index r * numX + c. */
  lemma IndexOf(r: nat, c: nat, numY: nat, numX: nat)
    requires r < numY && c < numX
    ensures r * numX + c < numY * numX
    ensures (r * numX + c) / numX == r && (r * numX + c) % numX == c
  {
    MulMonotone(r + 1, numY, numX);
    DivModUnique(r * numX + c, numX, r, c);
  }

  /** The list index of the cell holding pixel (y, x). */
  function CellIndex(y: nat, x: nat, numX: nat, bh: nat, bw: nat): nat
    requires 0 < bh && 0 < bw
  {
    (y / bh) * numX + x / bw
  }

  /** The cells tile the raster: every pixel of the numY*bh by numX*bw raster
      is covered by the cell at CellIndex, and by no other cell. */
  lemma TilesPartition(numY: nat, numX: nat, bh: nat, bw: nat, y: nat, x: nat)
    requires 0 < bh && 0 < bw
    requires y < numY * bh && x < numX * bw
    ensures CellIndex(y, x, numX, bh, bw) < numY * numX
    ensures Covers(Tiles(numY, numX, bh, bw)[CellIndex(y, x, numX, bh, bw)], y, x)
    ensures forall k :: 0 <= k < numY * numX && Covers(Tiles(numY, numX, bh, bw)[k], y, x) ==>
      k == CellIndex(y, x, numX, bh, bw)
  {
    var r, c := y / bh, x / bw;
    IndexBelow(y, bh, numY);
    IndexBelow(x, bw, numX);
    IndexOf(r, c, numY, numX);
    var k := r * numX + c;
    CellOf(numY, numX, bh, bw, k);
    CellCovers(r, c, bh, bw, y, x);
    forall k' | 0 <= k' < numY * numX && Covers(Tiles(numY, numX, bh, bw)[k'], y, x) ensures k' == k {
      if k' != k {
        TilesDisjoint(numY, numX, bh, bw, k, k');
      }
    }
  }

  /** Distinct cells never overlap. */
  lemma TilesDisjoint(numY: nat, numX: nat, bh: nat, bw: nat, k: nat, k': nat)
    requires 0 < bh && 0 < bw
    requires k < numY * numX && k' < numY * numX && k != k'
    ensures Disjoint(Tiles(numY, numX, bh, bw)[k], Tiles(numY, numX, bh, bw)[k'])
  {
    CellOf(numY, numX, bh, bw, k);
    CellOf(numY, numX, bh, bw, k');
    var a, b := Tiles(numY, numX, bh, bw)[k], Tiles(numY, numX, bh, bw)[k'];
    if !Disjoint(a, b) {
      // a pixel shared by both cells would put both in the same grid row and column
      var y: nat := if a.begY < b.begY then b.begY else a.begY;
      var x: nat := if a.begX < b.begX then b.begX else a.begX;
      assert Covers(a, y, x) && Covers(b, y, x);
      CellCovers(k / numX, k % numX, bh, bw, y, x);
      CellCovers(k' / numX, k' % numX, bh, bw, y, x);
      SameRowCol(k, k', numX);
    }
  }

  /** Two indices in the same grid row and column are the same index. */
  lemma SameRowCol(k: nat, k': nat, n: nat)
    requires 0 < n && k / n == k' / n && k % n == k' % n
    ensures k == k'
  {
    assert k == (k / n) * n + k % n;
    assert k' == (k' / n) * n + k' % n;
  }

  lemma CellFits(r: nat, c: nat, numY: nat, numX: nat, bh: nat, bw: nat)
    requires r < numY && c < numX
    ensures Cell(r, c, bh, bw).endY <= numY * bh && Cell(r, c, bh, bw).endX <= numX * bw
  {
    MulMonotone(r + 1, numY, bh);
    MulMonotone(c + 1, numX, bw);
  }

  lemma FloorTimes(a: nat, n: nat)
    requires 0 < n
    ensures (a / n) * n <= a
  {
  }

  /** Every cell is a bh by bw rectangle inside the numY*bh by numX*bw raster,
      created with its flag cleared. */
  lemma TileFits(numY: nat, numX: nat, bh: nat, bw: nat, k: nat)
    requires k < numY * numX
    ensures var b := Tiles(numY, numX, bh, bw)[k];
      Height(b) == bh && Width(b) == bw && b.endY <= numY * bh && b.endX <= numX * bw && !b.changed
  {
    CellOf(numY, numX, bh, bw, k);
    var r, c := k / numX, k % numX;
    CellFits(r, c, numY, numX, bh, bw);
  }

}
