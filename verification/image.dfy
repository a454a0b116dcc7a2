/** The `Image` object: the pixel buffer it updates in place, its block list,
    the partitioning step, the region primitives, and the two random drivers. */
module Images {
  import opened Pixels
  import opened Grids
  import opened Partition
  import opened Shuffles

  /** A two-dimensional pixel array as a grid value. */
  function Contents(a: array2<Pixel>): (g: Grid)
    reads a
    ensures Shaped(g, a.Length0, a.Length1)
    ensures forall y, x :: 0 <= y < a.Length0 && 0 <= x < a.Length1 ==> g[y][x] == a[y, x]
  {
    seq(a.Length0, y requires 0 <= y < a.Length0 reads a =>
      seq(a.Length1, x requires 0 <= x < a.Length1 reads a => a[y, x]))
  }

  /** `cv2.copyMakeBorder(image, 0, dy, 0, dx, cv2.BORDER_WRAP)`: a new
      array `dy` rows taller and `dx` columns wider whose pixel (y, x) is the
      source pixel at the wrapped position. */
  method BorderWrap(source: array2<Pixel>, dy: nat, dx: nat) returns (bordered: array2<Pixel>)
    requires 0 < source.Length0 && 0 < source.Length1
    ensures fresh(bordered)
    ensures bordered.Length0 == source.Length0 + dy && bordered.Length1 == source.Length1 + dx
    ensures Contents(bordered) == Padded(Contents(source), bordered.Length0, bordered.Length1)
  {
    var h0, w0 := source.Length0, source.Length1;
    ghost var g0 := Contents(source);
    assert |g0[0]| == w0;
    ghost var target := Padded(g0, h0 + dy, w0 + dx);
    bordered := new Pixel[h0 + dy, w0 + dx];
    for y := 0 to h0 + dy
      modifies bordered
      invariant forall r, c :: 0 <= r < y && 0 <= c < w0 + dx ==> bordered[r, c] == target[r][c]
    {
      WrapRow(source, bordered, y, g0);
    }
    GridExt(Contents(bordered), target);
  }

  /** One row of `BorderWrap`: column by column, the source pixel at the
      wrapped position; the other rows stay. */
  method WrapRow(source: array2<Pixel>, bordered: array2<Pixel>, y: nat, ghost g0: Grid)
    requires source != bordered && 0 < source.Length0 && 0 < source.Length1
    requires g0 == Contents(source) && y < bordered.Length0
    modifies bordered
    ensures |g0[0]| == source.Length1
    ensures forall c :: 0 <= c < bordered.Length1 ==>
      bordered[y, c] == Padded(g0, bordered.Length0, bordered.Length1)[y][c]
    ensures forall r, c :: 0 <= r < bordered.Length0 && 0 <= c < bordered.Length1 && r != y ==>
      bordered[r, c] == old(bordered[r, c])
  {
    var h0, w0 := source.Length0, source.Length1;
    assert |g0[0]| == w0;
    for x := 0 to bordered.Length1
      invariant forall c :: 0 <= c < x ==> bordered[y, c] == Padded(g0, bordered.Length0, bordered.Length1)[y][c]
      invariant forall r, c :: 0 <= r < bordered.Length0 && 0 <= c < bordered.Length1 && r != y ==>
        bordered[r, c] == old(bordered[r, c])
    {
      bordered[y, x] := source[y % h0, x % w0];
      PaddedAt(g0, bordered.Length0, bordered.Length1, y, x);
    }
  }

  class Image {
    /** `self.image`: rows by columns of pixels (the channel axis is inside `Pixel`). */
    var pixels: array2<Pixel>
    /** `self.blocks`, in the order `get_blocks` appended them. */
    var blocks: seq<Block>
    /** `self.block_size`: block height and block width. */
    const blockH: nat
    const blockW: nat
    /** `self.rand`: a block is acted on when its uniform draw exceeds this. */
    const rand: real
    /** `self.rand_range`: radius of the random drivers' partner window; 0 means the whole list. */
    const randRange: nat

    /** The block is a blockH by blockW rectangle inside the buffer. */
    predicate Fits(b: Block)
      reads this
    {
      b.endY == b.begY + blockH <= pixels.Length0 && b.endX == b.begX + blockW <= pixels.Length1
    }

    /** The rectangle lies inside the buffer. */
    predicate InImage(b: Block)
      reads this
    {
      b.begY <= b.endY <= pixels.Length0 && b.begX <= b.endX <= pixels.Length1
    }

    /** A payload that can stand for a block's chunk: a view of a block of
        this image, or an array of a block's size. */
    predicate Holds(v: Payload)
      reads this
    {
      (v.View? ==> InImage(v.of)) && Sized(v, blockH, blockW)
    }

    ghost predicate Valid()
      reads this
    {
      0 < blockH && 0 < blockW && 0 < pixels.Length0 && 0 < pixels.Length1 &&
      forall k :: 0 <= k < |blocks| ==> Fits(blocks[k])
    }

    /** The buffer's contents as a grid value. */
    function Grid(): (g: Grids.Grid)
      reads this, pixels
      ensures Shaped(g, pixels.Length0, pixels.Length1)
      ensures forall y, x :: 0 <= y < pixels.Length0 && 0 <= x < pixels.Length1 ==> g[y][x] == pixels[y, x]
    {
      Contents(pixels)
    }

    /** Buffer and block list together. */
    function Snapshot(): State
      reads this, pixels
    {
      State(Grid(), blocks)
    }

    /** The buffer holds grid `g` when they agree pixel by pixel. */
    lemma GridIs(g: Grids.Grid)
      requires Shaped(g, pixels.Length0, pixels.Length1)
      requires forall y, x :: 0 <= y < pixels.Length0 && 0 <= x < pixels.Length1 ==> pixels[y, x] == g[y][x]
      ensures Grid() == g
    {
      GridExt(Grid(), g);
    }

    lemma InImageInside(b: Block)
      requires InImage(b)
      ensures Inside(b, Grid())
    {
    }

    /** A valid image's blocks form a layout of its grid, all of the block size. */
    lemma ValidLayout()
      requires Valid()
      ensures Layout(Grid(), blocks)
      ensures forall k :: 0 <= k < |blocks| ==> Height(blocks[k]) == blockH && Width(blocks[k]) == blockW
    {
      forall k | 0 <= k < |blocks| ensures Inside(blocks[k], Grid()) {
        InImageInside(blocks[k]);
      }
    }

    /** `Image(loc, block_size, rand, rand_range)`, with the decoded image file
        passed in place of its path. */
    constructor (image: array2<Pixel>, blockSize: (nat, nat), rand: real, randRange: nat)
      requires 0 < image.Length0 && 0 < image.Length1
      requires 0 < blockSize.0 && 0 < blockSize.1
      ensures Valid()
      ensures pixels == image && blocks == []
      ensures blockH == blockSize.0 && blockW == blockSize.1
      ensures this.rand == rand && this.randRange == randRange
    {
      pixels := image;
      blockH, blockW := blockSize.0, blockSize.1;
      blocks := [];
      this.rand := rand;
      this.randRange := randRange;
    }

    /** `_is_right_size`: the buffer can be cut into whole blocks, that is,
        neither dimension needs padding. */
    function IsRightSize(): (right: bool)
      reads this
      requires 0 < blockH && 0 < blockW
      ensures right <==> PadAmount(pixels.Length0, blockH) == 0 && PadAmount(pixels.Length1, blockW) == 0
    {
      var x := pixels.Length1 % blockW;
      var y := pixels.Length0 % blockH;
      if x != 0 then false
      else if y != 0 then false
      else true
    }

    /** `_fix_image`: replaces the buffer by one padded at the bottom and the
        right to whole blocks, the new pixels wrapping around from the
        opposite edge. */
    method FixImage()
      requires Valid()
      modifies this
      ensures Valid() && fresh(pixels) && blocks == old(blocks)
      ensures pixels.Length0 == old(pixels.Length0) + PadAmount(old(pixels.Length0), blockH)
      ensures pixels.Length1 == old(pixels.Length1) + PadAmount(old(pixels.Length1), blockW)
      ensures Grid() == Padded(old(Grid()), pixels.Length0, pixels.Length1)
    {
      var h0, w0 := pixels.Length0, pixels.Length1;
      var dy := PadAmount(h0, blockH);
      var dx := PadAmount(w0, blockW);
      pixels := BorderWrap(pixels, dy, dx);
    }

    /** `get_blocks`: pads the buffer when it does not divide into whole
        blocks, then appends one cell per block of the (padded) buffer in
        row-major order. */
    method GetBlocks()
      requires Valid()
      modifies this
      ensures Valid()
      ensures if old(IsRightSize()) then pixels == old(pixels) else fresh(pixels)
      ensures pixels.Length0 == old(pixels.Length0) + PadAmount(old(pixels.Length0), blockH)
      ensures pixels.Length1 == old(pixels.Length1) + PadAmount(old(pixels.Length1), blockW)
      ensures Grid() == Padded(old(Grid()), pixels.Length0, pixels.Length1)
      ensures blocks == old(blocks) + Tiles(pixels.Length0 / blockH, pixels.Length1 / blockW, blockH, blockW)
    {
      PadToBlocks();
      ghost var padded := Contents(pixels);
      AppendCells();
      assert Grid() == padded;
    }

    /** The first step of `get_blocks`: `_fix_image` runs only when
        `_is_right_size` says the buffer does not divide into whole blocks. */
    method PadToBlocks()
      requires Valid()
      modifies this
      ensures Valid() && blocks == old(blocks)
      ensures if old(IsRightSize()) then pixels == old(pixels) else fresh(pixels)
      ensures pixels.Length0 == old(pixels.Length0) + PadAmount(old(pixels.Length0), blockH)
      ensures pixels.Length1 == old(pixels.Length1) + PadAmount(old(pixels.Length1), blockW)
      ensures Grid() == Padded(old(Grid()), pixels.Length0, pixels.Length1)
    {
      var right := IsRightSize();
      if !right {
        FixImage();
      } else {
        ghost var g0 := Grid();
        assert |g0| == pixels.Length0 && |g0[0]| == pixels.Length1;
        PaddedSameSize(g0);
      }
    }

    /** The rest of `get_blocks`: `num_y` and `num_x` whole blocks fit down
        and across, and the nested loop appends `Block(i, i + block_x, j,
        j + block_y)` for every block-grid row `j` and column `i`, row by
        row. The cells stay within the buffer, so the image stays valid. */
    method AppendCells()
      requires Valid()
      modifies this
      ensures pixels == old(pixels) && Valid()
      ensures blocks == old(blocks) + Tiles(pixels.Length0 / blockH, pixels.Length1 / blockW, blockH, blockW)
    {
      var numY := pixels.Length0 / blockH;
      var numX := pixels.Length1 / blockW;
      FloorTimes(pixels.Length0, blockH);
      FloorTimes(pixels.Length1, blockW);
      var blockY, blockX := blockH, blockW;
      var i, j := 0, 0;
      ghost var before := blocks;
      for y := 0 to numY
        invariant pixels == old(pixels)
        invariant j == y * blockY
        invariant blocks == before + Tiles(y, numX, blockY, blockX)
      {
        i := 0;
        for x := 0 to numX
          invariant pixels == old(pixels)
          invariant i == x * blockX
          invariant blocks == before + Tiles(y, numX, blockY, blockX) + TileRow(y, numX, blockY, blockX)[..x]
        {
          blocks := blocks + [Block(i, i + blockX, j, j + blockY, false, 0)];
          i := i + blockX;
        }
        assert TileRow(y, numX, blockY, blockX)[..numX] == TileRow(y, numX, blockY, blockX);
        TilesStep(y, numX, blockY, blockX);
        j := j + blockY;
      }
      forall k | 0 <= k < |blocks| ensures Fits(blocks[k]) {
        if k >= |before| {
          TileFits(numY, numX, blockY, blockX, k - |before|);
        }
      }
    }

    /** `self.blocks[k].changed = v`: sets one block's flag. */
    method SetChanged(k: nat, v: bool)
      requires Valid() && k < |blocks|
      modifies this
      ensures Valid() && pixels == old(pixels) && blocks == Mark(old(blocks), k, v)
    {
      blocks := Mark(blocks, k, v);
      assert forall m :: 0 <= m < |blocks| ==> SameCell(blocks[m], old(blocks)[m]);
    }

    /** `get_chunk`: a view of the block's region; reading it yields the
        region's current pixels. */
    function GetChunk(block: Block): (chunk: Payload)
      reads this, pixels
      requires InImage(block)
      ensures chunk.View? && chunk.of == block
      ensures Readable(chunk, Grid()) && Read(Grid(), chunk) == Chunk(Grid(), block)
    {
      View(block)
    }

    /** `get_chunks`: one view per block, in order. */
    method GetChunks(bs: seq<Block>) returns (chunks: seq<Payload>)
      requires forall k :: 0 <= k < |bs| ==> InImage(bs[k])
      ensures |chunks| == |bs|
      ensures forall k :: 0 <= k < |bs| ==>
        chunks[k] == View(bs[k]) && Readable(chunks[k], Grid()) && Read(Grid(), chunks[k]) == Chunk(Grid(), bs[k])
    {
      chunks := [];
      for i := 0 to |bs|
        invariant |chunks| == i
        invariant forall k :: 0 <= k < i ==> chunks[k] == View(bs[k])
      {
        chunks := chunks + [GetChunk(bs[i])];
      }
    }

    /** `assign_chunk`: `image[block] = values`. A view is read at the moment
        of the write (numpy copies through a temporary where the regions
        overlap). */
    method AssignChunk(block: Block, values: Payload)
      requires InImage(block) && (values.View? ==> InImage(values.of))
      requires Sized(values, Height(block), Width(block))
      modifies pixels
      ensures Inside(block, old(Grid())) && Readable(values, old(Grid()))
      ensures Grid() == Paste(old(Grid()), block, Read(old(Grid()), values))
    {
      ghost var g0 := Grid();
      var data := Read(Grid(), values);
      for y := block.begY to block.endY
        invariant forall r, c :: 0 <= r < pixels.Length0 && 0 <= c < pixels.Length1 ==>
          pixels[r, c] == if block.begY <= r < y && block.begX <= c < block.endX
                          then data[r - block.begY][c - block.begX] else old(pixels[r, c])
      {
        for x := block.begX to block.endX
          invariant forall r, c :: 0 <= r < pixels.Length0 && 0 <= c < pixels.Length1 ==>
            pixels[r, c] == if (block.begY <= r < y && block.begX <= c < block.endX) || (r == y && block.begX <= c < x)
                            then data[r - block.begY][c - block.begX] else old(pixels[r, c])
        {
          pixels[y, x] := data[y - block.begY][x - block.begX];
        }
      }
      GridIs(Paste(g0, block, data));
    }

    /** `assign_chunks`: writes `values[k]` into `bs[k]` for each k in turn. */
    method AssignChunks(bs: seq<Block>, values: seq<Payload>)
      requires |bs| <= |values|
      requires forall k :: 0 <= k < |bs| ==>
        InImage(bs[k]) && (values[k].View? ==> InImage(values[k].of)) && Sized(values[k], Height(bs[k]), Width(bs[k]))
      modifies pixels
      ensures Assignable(old(Grid()), bs, values)
      ensures Grid() == PasteAll(old(Grid()), bs, values)
    {
      ghost var g0 := Grid();
      for i := 0 to |bs|
        invariant Assignable(g0, bs[..i], values)
        invariant Grid() == PasteAll(g0, bs[..i], values)
      {
        AssignChunk(bs[i], values[i]);
        assert bs[..i + 1][..i] == bs[..i];
      }
      assert bs[..|bs|] == bs;
    }

    /** `swap(block_1, block_2, chunk_1, chunk_2)`: writes chunk_2 into
        block_1, then chunk_1 into block_2. */
    method Swap(block1: Block, block2: Block, chunk1: Payload, chunk2: Payload)
      requires InImage(block1) && InImage(block2)
      requires (chunk2.View? ==> InImage(chunk2.of)) && Sized(chunk2, Height(block1), Width(block1))
      requires (chunk1.View? ==> InImage(chunk1.of)) && Sized(chunk1, Height(block2), Width(block2))
      modifies pixels
      ensures Assignable(old(Grid()), [block1, block2], [chunk2, chunk1])
      ensures Grid() == PasteAll(old(Grid()), [block1, block2], [chunk2, chunk1])
    {
      AssignChunks([block1, block2], [chunk2, chunk1]);
    }

    /** `random_switch`: each unmarked block, when its uniform draw exceeds
        `rand`, draws partners from its window until one is unmarked (at most
        sixteen draws); both are then marked and their regions exchanged. */
    method RandomSwitch(uniforms: seq<real>, picks: seq<nat>)
      requires Valid() && Supplied(|blocks|, 0, uniforms, picks, 0, 0)
      modifies this, pixels
      ensures Valid() && pixels == old(pixels)
      ensures Layout(old(Grid()), old(blocks))
      ensures Snapshot() == Pass(Switch, old(Snapshot()), rand, randRange, uniforms, picks)
    {
      RandomPass(Switch, uniforms, picks);
    }

    /** `random_copy`: as `random_switch`, but on success only the block is
        marked and the partner's region is copied over the block's own. */
    method RandomCopy(uniforms: seq<real>, picks: seq<nat>)
      requires Valid() && Supplied(|blocks|, 0, uniforms, picks, 0, 0)
      modifies this, pixels
      ensures Valid() && pixels == old(pixels)
      ensures Layout(old(Grid()), old(blocks))
      ensures Snapshot() == Pass(CopyOver, old(Snapshot()), rand, randRange, uniforms, picks)
    {
      RandomPass(CopyOver, uniforms, picks);
    }

    /** The loop `random_switch` and `random_copy` share; they differ only in
        what a successful draw does. */
    method RandomPass(kind: Kind, uniforms: seq<real>, picks: seq<nat>)
      requires Valid() && Supplied(|blocks|, 0, uniforms, picks, 0, 0)
      modifies this, pixels
      ensures Valid() && pixels == old(pixels)
      ensures Layout(old(Grid()), old(blocks))
      ensures Snapshot() == Pass(kind, old(Snapshot()), rand, randRange, uniforms, picks)
    {
      ValidLayout();
      var num := |blocks|;
      var u, p := 0, 0;
      ghost var run := PassFrom(kind, Snapshot(), 0, rand, randRange, uniforms, picks, 0, 0);
      for i := 0 to num
        invariant Valid() && pixels == old(pixels) && |blocks| == num
        invariant Layout(Grid(), blocks)
        invariant Supplied(num, i, uniforms, picks, u, p)
        invariant run == PassFrom(kind, Snapshot(), i, rand, randRange, uniforms, picks, u, p)
      {
        u, p := PassTurn(kind, i, uniforms, picks, u, p);
      }
      assert run.state == Snapshot();
    }

    /** One turn of the outer loop, as a step from the rest of the pass at
        block `i` to the rest of the pass at block `i + 1`. */
    method PassTurn(kind: Kind, i: nat, uniforms: seq<real>, picks: seq<nat>, u: nat, p: nat)
      returns (u': nat, p': nat)
      requires Valid() && i < |blocks| && Supplied(|blocks|, i, uniforms, picks, u, p)
      modifies this, pixels
      ensures Valid() && pixels == old(pixels) && |blocks| == old(|blocks|)
      ensures Layout(old(Grid()), old(blocks)) && Layout(Grid(), blocks)
      ensures Supplied(|blocks|, i + 1, uniforms, picks, u', p')
      ensures PassFrom(kind, old(Snapshot()), i, rand, randRange, uniforms, picks, u, p)
           == PassFrom(kind, Snapshot(), i + 1, rand, randRange, uniforms, picks, u', p')
    {
      ValidLayout();
      PassFromStep(kind, Snapshot(), i, rand, randRange, uniforms, picks, u, p);
      u', p' := VisitBlock(kind, i, uniforms, picks, u, p);
      ValidLayout();
    }

    /** One turn of the outer loop, for block `i`, reading the random numbers
        from cursors `u` and `p` and returning the advanced cursors. */
    method VisitBlock(kind: Kind, i: nat, uniforms: seq<real>, picks: seq<nat>, u: nat, p: nat)
      returns (u': nat, p': nat)
      requires Valid() && i < |blocks| && Supplied(|blocks|, i, uniforms, picks, u, p)
      modifies this, pixels
      ensures Valid() && pixels == old(pixels) && Layout(old(Grid()), old(blocks))
      ensures Run(Snapshot(), u', p') == Visit(kind, old(Snapshot()), i, rand, randRange, uniforms, picks, u, p)
    {
      ValidLayout();
      u', p' := u, p;
      var block1 := blocks[i];
      if !block1.changed {
        var r := uniforms[u'];
        u' := u' + 1;
        if r > rand {
          var found, j;
          found, j, p' := DrawPartner(i, picks, p);
          if found {
            PairUp(kind, i, j);
          }
        }
      }
    }

    /** The `while True` loop: draws indices from block `i`'s window, one
        pick each, until one names an unmarked block or sixteen draws are
        spent. Returns whether a partner was found, the last index drawn,
        and the advanced pick cursor. */
    method DrawPartner(i: nat, picks: seq<nat>, p: nat) returns (found: bool, j: nat, p': nat)
      requires i < |blocks| && p + 16 <= |picks|
      ensures p < p' <= p + 16 && j < |blocks|
      ensures Probe(found, j, p' - p) == Attempts(blocks, i, randRange, picks, p, 0)
      ensures found <==> !blocks[j].changed
    {
      var num := |blocks|;
      ghost var probe := Attempts(blocks, i, randRange, picks, p, 0);
      var counter := 0;
      p' := p;
      while true
        invariant counter < 16 && p' == p + counter
        invariant Attempts(blocks, i, randRange, picks, p', counter) == probe
        decreases 16 - counter
      {
        if randRange == 0 {
          j := RandInt(0, num - 1, picks[p']);
        } else {
          var rStart := i - randRange;
          var rEnd := i + randRange;
          if rStart < 0 {
            rStart := 0;
          }
          if rEnd > num - 1 {
            rEnd := num - 1;
          }
          j := RandInt(rStart, rEnd, picks[p']);
        }
        assert j == Drawn(blocks, i, randRange, picks, p', 0);
        p' := p' + 1;
        var block2 := blocks[j];
        counter := counter + 1;
        if !block2.changed {
          found := true;
          return;
        }
        if counter > 15 {
          found := false;
          return;
        }
      }
    }

    /** A successful draw: block `i` paired with block `j` as `kind` says. */
    method PairUp(kind: Kind, i: nat, j: nat)
      requires Valid() && i < |blocks| && j < |blocks|
      modifies this, pixels
      ensures Valid() && pixels == old(pixels) && Layout(old(Grid()), old(blocks))
      ensures Snapshot() == Pair(kind, old(Snapshot()), i, j)
    {
      ValidLayout();
      match kind {
        case Switch => SwitchWith(i, j);
        case CopyOver => CopyFrom(i, j);
      }
    }

    /** The success branch of `random_switch`: mark the partner, mark the
        block, keep a copy of the partner's region, write the block's region
        into the partner's, then the copy into the block's. */
    method SwitchWith(i: nat, j: nat)
      requires Valid() && i < |blocks| && j < |blocks|
      modifies this, pixels
      ensures Valid() && pixels == old(pixels) && Layout(old(Grid()), old(blocks))
      ensures Snapshot() == Pair(Switch, old(Snapshot()), i, j)
    {
      ValidLayout();
      var block1, block2 := blocks[i], blocks[j];
      blocks := Mark(blocks, j, true);
      blocks := Mark(blocks, i, true);
      var temp2 := Copy(Chunk(Grid(), block2));
      AssignChunk(block2, View(block1));
      AssignChunk(block1, temp2);
    }

    /** The success branch of `random_copy`: mark the block, then write a
        view of the partner's region into the block's. */
    method CopyFrom(i: nat, j: nat)
      requires Valid() && i < |blocks| && j < |blocks|
      modifies this, pixels
      ensures Valid() && pixels == old(pixels) && Layout(old(Grid()), old(blocks))
      ensures Snapshot() == Pair(CopyOver, old(Snapshot()), i, j)
    {
      ValidLayout();
      var block1, block2 := blocks[i], blocks[j];
      blocks := Mark(blocks, i, true);
      var temp2 := GetChunk(block2);
      AssignChunk(block1, temp2);
    }
  }
}
