/** Pure values behind the pixel buffer: grids of pixels, block rectangles,
    reading a block's region, writing a region, and the two per-region
    computations the metric and the actions use (the score and the blend). */
module Grids {
  import opened Pixels

  /** A raster as rows of pixels: `g[y][x]` is `image[y, x]`. */
  type Grid = seq<seq<Pixel>>

  /** `g` has `h` rows of `w` pixels each. */
  predicate Shaped(g: Grid, h: int, w: int) {
    |g| == h && forall y :: 0 <= y < |g| ==> |g[y]| == w
  }

  /** Two grids with the same number of rows and the same row lengths. */
  predicate SameDims(a: Grid, b: Grid) {
    |a| == |b| && forall y :: 0 <= y < |a| ==> |a[y]| == |b[y]|
  }

  /** A grid cell: columns [begX, endX) and rows [begY, endY) of the image, the
      flag that says the cell was already used in this pass, and an identifier
      the program never reads. */
  datatype Block = Block(begX: nat, endX: nat, begY: nat, endY: nat, changed: bool, id: int)

  function Height(b: Block): int { b.endY - b.begY }
  function Width(b: Block): int { b.endX - b.begX }

  /** Pixel (y, x) lies in the block's rectangle. */
  predicate Covers(b: Block, y: int, x: int) {
    b.begY <= y < b.endY && b.begX <= x < b.endX
  }

  /** The two rectangles share no pixel. */
  predicate Disjoint(a: Block, b: Block) {
    a.endY <= b.begY || b.endY <= a.begY || a.endX <= b.begX || b.endX <= a.begX
  }

  /** The two blocks describe the same rectangle (their flags may differ). */
  predicate SameCell(a: Block, b: Block) {
    a.begY == b.begY && a.endY == b.endY && a.begX == b.begX && a.endX == b.endX
  }

  /** Two block lists with the same rectangles in the same order. */
  predicate SameCells(a: seq<Block>, b: seq<Block>) {
    |a| == |b| && forall k :: 0 <= k < |a| ==> SameCell(a[k], b[k])
  }

  /** The block's rectangle lies inside the grid. */
  predicate Inside(b: Block, g: Grid) {
    b.begY <= b.endY <= |g| && b.begX <= b.endX &&
    forall y :: b.begY <= y < b.endY ==> b.endX <= |g[y]|
  }

  /** Every block lies inside the grid and all blocks have one size, the
      shape the grid partitioner produces. */
  predicate Layout(g: Grid, bs: seq<Block>) {
    forall k :: 0 <= k < |bs| ==>
      Inside(bs[k], g) && Height(bs[k]) == Height(bs[0]) && Width(bs[k]) == Width(bs[0])
  }

  /** The contents of a block's region, `image[begY:endY, begX:endX]`. */
  function Chunk(g: Grid, b: Block): (c: Grid)
    requires Inside(b, g)
    ensures Shaped(c, Height(b), Width(b))
    ensures forall y, x {:trigger c[y][x]} :: 0 <= y < Height(b) && 0 <= x < Width(b) ==> c[y][x] == g[b.begY + y][b.begX + x]
  {
    seq(b.endY - b.begY, r requires 0 <= r < b.endY - b.begY =>
      seq(b.endX - b.begX, c requires 0 <= c < b.endX - b.begX => g[b.begY + r][b.begX + c]))
  }

  /** `g` with the block's region overwritten by `d`, as
      `image[begY:endY, begX:endX] = d`. */
  function Paste(g: Grid, b: Block, d: Grid): (r: Grid)
    requires Inside(b, g) && Shaped(d, Height(b), Width(b))
    ensures SameDims(r, g)
    ensures forall y, x {:trigger r[y][x]} :: 0 <= y < |g| && 0 <= x < |g[y]| ==>
      r[y][x] == if Covers(b, y, x) then d[y - b.begY][x - b.begX] else g[y][x]
  {
    seq(|g|, y requires 0 <= y < |g| =>
      seq(|g[y]|, x requires 0 <= x < |g[y]| =>
        if Covers(b, y, x) then d[y - b.begY][x - b.begX] else g[y][x]))
  }

  /** Grids are equal when they agree pixel by pixel. */
  lemma GridExt(a: Grid, b: Grid)
    requires SameDims(a, b)
    requires forall y, x :: 0 <= y < |a| && 0 <= x < |a[y]| ==> a[y][x] == b[y][x]
    ensures a == b
  {
    forall y | 0 <= y < |a| ensures a[y] == b[y] {
      assert forall x :: 0 <= x < |a[y]| ==> a[y][x] == b[y][x];
    }
  }

  /** After a paste, the block's region holds exactly what was pasted. */
  lemma ChunkOfPaste(g: Grid, b: Block, d: Grid)
    requires Inside(b, g) && Shaped(d, Height(b), Width(b))
    ensures Inside(b, Paste(g, b, d)) && Chunk(Paste(g, b, d), b) == d
  {
    var p := Paste(g, b, d);
    PasteInside(g, b, d, b);
    var c := Chunk(p, b);
    forall y, x | 0 <= y < |c| && 0 <= x < |c[y]| ensures c[y][x] == d[y][x] {
      PastedPixel(g, b, d, y, x);
    }
    GridExt(c, d);
  }

  /** The pasted value at offset (y, x) of the block. */
  lemma PastedPixel(g: Grid, b: Block, d: Grid, y: nat, x: nat)
    requires Inside(b, g) && Shaped(d, Height(b), Width(b))
    requires y < Height(b) && x < Width(b)
    ensures b.begY + y < |g| && b.begX + x < |g[b.begY + y]|
    ensures Paste(g, b, d)[b.begY + y][b.begX + x] == d[y][x]
  {
    assert Covers(b, b.begY + y, b.begX + x);
  }

  /** A block inside a grid stays inside it after a paste. */
  lemma PasteInside(g: Grid, b: Block, d: Grid, other: Block)
    requires Inside(b, g) && Shaped(d, Height(b), Width(b)) && Inside(other, g)
    ensures Inside(other, Paste(g, b, d))
  {
    var p := Paste(g, b, d);
    forall y | other.begY <= y < other.endY ensures other.endX <= |p[y]| {
      assert |p[y]| == |g[y]|;
    }
  }

  lemma DisjointSym(a: Block, b: Block)
    ensures Disjoint(a, b) <==> Disjoint(b, a)
  {
  }

  /** A paste leaves the region of every block disjoint from it as it was. */
  lemma ChunkAfterPasteElsewhere(g: Grid, b: Block, d: Grid, other: Block)
    requires Inside(b, g) && Shaped(d, Height(b), Width(b)) && Inside(other, g)
    requires Disjoint(b, other)
    ensures Inside(other, Paste(g, b, d)) && Chunk(Paste(g, b, d), other) == Chunk(g, other)
  {
    PasteInside(g, b, d, other);
    var c, c0 := Chunk(Paste(g, b, d), other), Chunk(g, other);
    forall y, x | 0 <= y < |c| && 0 <= x < |c[y]| ensures c[y][x] == c0[y][x] {
      PixelElsewhere(g, b, d, other, y, x);
    }
    GridExt(c, c0);
  }

  /** Two pastes into disjoint blocks: each block ends up holding what was
      pasted into it, and every region disjoint from both keeps its pixels. */
  lemma PasteTwoDisjoint(g: Grid, b1: Block, b2: Block, d1: Grid, d2: Grid)
    requires Inside(b1, g) && Shaped(d1, Height(b1), Width(b1))
    requires Inside(b2, g) && Shaped(d2, Height(b2), Width(b2))
    requires Disjoint(b1, b2)
    ensures var g1 := Paste(g, b1, d1);
      Inside(b2, g1) && var g2 := Paste(g1, b2, d2);
      Inside(b1, g2) && Inside(b2, g2) && Chunk(g2, b1) == d1 && Chunk(g2, b2) == d2 &&
      forall b :: Inside(b, g) && Disjoint(b1, b) && Disjoint(b2, b) ==>
        Inside(b, g2) && Chunk(g2, b) == Chunk(g, b)
  {
    var g1 := Paste(g, b1, d1);
    PasteInside(g, b1, d1, b2);
    var g2 := Paste(g1, b2, d2);
    ChunkOfPaste(g, b1, d1);
    ChunkOfPaste(g1, b2, d2);
    DisjointSym(b1, b2);
    ChunkAfterPasteElsewhere(g1, b2, d2, b1);
    forall b | Inside(b, g) && Disjoint(b1, b) && Disjoint(b2, b)
      ensures Inside(b, g2) && Chunk(g2, b) == Chunk(g, b)
    {
      ChunkAfterPasteElsewhere(g, b1, d1, b);
      ChunkAfterPasteElsewhere(g1, b2, d2, b);
    }
  }

  lemma PixelElsewhere(g: Grid, b: Block, d: Grid, other: Block, y: int, x: int)
    requires Inside(b, g) && Shaped(d, Height(b), Width(b)) && Inside(other, Paste(g, b, d)) && Inside(other, g)
    requires Disjoint(b, other) && 0 <= y < Height(other) && 0 <= x < Width(other)
    ensures Chunk(Paste(g, b, d), other)[y][x] == Chunk(g, other)[y][x]
  {
    assert !Covers(b, other.begY + y, other.begX + x);
  }

  /** Writing a region's own contents back leaves the grid as it was. */
  lemma PasteOwnChunk(g: Grid, b: Block)
    requires Inside(b, g)
    ensures Paste(g, b, Chunk(g, b)) == g
  {
    var c := Chunk(g, b);
    var p := Paste(g, b, c);
    forall y, x | 0 <= y < |g| && 0 <= x < |g[y]| ensures p[y][x] == g[y][x] {
      if Covers(b, y, x) {
        ChunkPixel(g, b, y - b.begY, x - b.begX);
      }
    }
    GridExt(p, g);
  }

  /** Pixel (y, x) of a block's chunk is the grid's pixel at that offset. */
  lemma ChunkPixel(g: Grid, b: Block, y: nat, x: nat)
    requires Inside(b, g) && y < Height(b) && x < Width(b)
    ensures b.begY + y < |g| && b.begX + x < |g[b.begY + y]|
    ensures Chunk(g, b)[y][x] == g[b.begY + y][b.begX + x]
  {
  }

  /** Two pastes onto the same region: only the second one shows. */
  lemma PasteTwiceSameBlock(g: Grid, b: Block, d1: Grid, d2: Grid)
    requires Inside(b, g) && Shaped(d1, Height(b), Width(b)) && Shaped(d2, Height(b), Width(b))
    ensures Inside(b, Paste(g, b, d1)) && Paste(Paste(g, b, d1), b, d2) == Paste(g, b, d2)
  {
    GridExt(Paste(Paste(g, b, d1), b, d2), Paste(g, b, d2));
  }

  /** What a chunk handed to an assignment is: numpy's `get_chunk` returns a
      view of a block's region, whose contents are read when the assignment
      happens; an array computed by an action is a copy. */
  datatype Payload = View(of: Block) | Copy(data: Grid)

  /** A view's block lies inside the grid. */
  predicate Readable(v: Payload, g: Grid) {
    v.View? ==> Inside(v.of, g)
  }

  /** The payload has `h` rows of `w` pixels. */
  predicate Sized(v: Payload, h: int, w: int) {
    match v
    case View(b) => Height(b) == h && Width(b) == w
    case Copy(d) => Shaped(d, h, w)
  }

  /** The pixels a payload supplies when it is read on grid `g`. */
  function Read(g: Grid, v: Payload): (c: Grid)
    requires Readable(v, g)
    ensures v.View? ==> Shaped(c, Height(v.of), Width(v.of))
  {
    match v
    case View(b) => Chunk(g, b)
    case Copy(d) => d
  }

  /** Each payload can be written into its block of `g`. */
  predicate Assignable(g: Grid, bs: seq<Block>, vs: seq<Payload>) {
    |bs| <= |vs| &&
    forall k :: 0 <= k < |bs| ==>
      Inside(bs[k], g) && Readable(vs[k], g) && Sized(vs[k], Height(bs[k]), Width(bs[k]))
  }

  /** `assign_chunks`: the payloads are written into their blocks one after
      another, and each is read on the grid as the earlier writes left it. */
  function PasteAll(g: Grid, bs: seq<Block>, vs: seq<Payload>): (r: Grid)
    requires Assignable(g, bs, vs)
    ensures SameDims(r, g)
    decreases |bs|
  {
    if bs == [] then g
    else
      var n := |bs| - 1;
      var prev := PasteAll(g, bs[..n], vs);
      Paste(prev, bs[n], Read(prev, vs[n]))
  }

  /** Assignability depends only on the grid's dimensions. */
  lemma AssignableSameDims(g: Grid, h: Grid, bs: seq<Block>, vs: seq<Payload>)
    requires SameDims(g, h) && Assignable(g, bs, vs)
    ensures Assignable(h, bs, vs)
  {
  }

  /** A single write. */
  lemma PasteAllOne(g: Grid, b: Block, v: Payload)
    requires Assignable(g, [b], [v])
    ensures Inside(b, g) && Readable(v, g) && Shaped(Read(g, v), Height(b), Width(b))
    ensures PasteAll(g, [b], [v]) == Paste(g, b, Read(g, v))
  {
    assert [b][0] == b && [v][0] == v;
    assert Inside(b, g) && Readable(v, g) && Sized(v, Height(b), Width(b));
    assert [b][..0] == [];
  }

  /** Two writes in order: the second payload is read after the first write. */
  lemma PasteAllTwo(g: Grid, b1: Block, b2: Block, v1: Payload, v2: Payload)
    requires Assignable(g, [b1, b2], [v1, v2])
    ensures Inside(b1, g) && Readable(v1, g) && Shaped(Read(g, v1), Height(b1), Width(b1))
    ensures var g1 := Paste(g, b1, Read(g, v1));
      Inside(b2, g1) && Readable(v2, g1) && Shaped(Read(g1, v2), Height(b2), Width(b2)) &&
      PasteAll(g, [b1, b2], [v1, v2]) == Paste(g1, b2, Read(g1, v2))
  {
    var bs, vs := [b1, b2], [v1, v2];
    assert bs[0] == b1 && vs[0] == v1 && bs[1] == b2 && vs[1] == v2;
    assert Inside(b1, g) && Readable(v1, g) && Sized(v1, Height(b1), Width(b1));
    assert Inside(b2, g) && Readable(v2, g) && Sized(v2, Height(b2), Width(b2));
    assert bs[..1] == [b1] && [b1][..0] == [];
    var g1 := Paste(g, b1, Read(g, v1));
    assert PasteAll(g, [b1], vs) == g1;
    assert Inside(b2, g1);
  }

  /** `cv2.addWeighted(c1, 0.5, c2, 0.5, 0)`: the per-sample blend of two
      equally shaped chunks, as a new array. */
  function MeanChunk(c1: Grid, c2: Grid): (r: Grid)
    requires SameDims(c1, c2)
    ensures SameDims(r, c1)
    ensures forall y, x :: 0 <= y < |c1| && 0 <= x < |c1[y]| ==> r[y][x] == MeanPixel(c1[y][x], c2[y][x])
  {
    seq(|c1|, y requires 0 <= y < |c1| =>
      seq(|c1[y]|, x requires 0 <= x < |c1[y]| => MeanPixel(c1[y][x], c2[y][x])))
  }

  /** Blending a chunk with itself gives the chunk back. */
  lemma MeanChunkSame(c: Grid)
    ensures SameDims(c, c) && MeanChunk(c, c) == c
  {
    forall y, x | 0 <= y < |c| && 0 <= x < |c[y]| ensures MeanChunk(c, c)[y][x] == c[y][x] {
      var p := c[y][x];
      MeanSame(p.c0);
      MeanSame(p.c1);
      MeanSame(p.c2);
    }
    GridExt(MeanChunk(c, c), c);
  }

  /** The pixel buffer together with the block list. */
  datatype State = State(grid: Grid, blocks: seq<Block>)

  /** `blocks[k].changed = v`. */
  function Mark(bs: seq<Block>, k: nat, v: bool): (r: seq<Block>)
    requires k < |bs|
    ensures SameCells(r, bs) && r[k].changed == v
    ensures forall m :: 0 <= m < |bs| && m != k ==> r[m] == bs[m]
  {
    bs[k := bs[k].(changed := v)]
  }

  /** The layout survives any change that keeps the grid's dimensions and the
      blocks' rectangles. */
  lemma LayoutKept(g: Grid, bs: seq<Block>, g': Grid, bs': seq<Block>)
    requires Layout(g, bs) && SameDims(g, g') && SameCells(bs, bs')
    ensures Layout(g', bs')
  {
    forall k | 0 <= k < |bs'|
      ensures Inside(bs'[k], g') && Height(bs'[k]) == Height(bs'[0]) && Width(bs'[k]) == Width(bs'[0])
    {
      assert SameCell(bs[k], bs'[k]) && SameCell(bs[0], bs'[0]);
    }
  }
}
