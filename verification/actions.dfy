/** The `Actions` class: `magic`, the pass that pairs each chosen block with
    the partner a metric picks and applies an action to the two; the two
    actions `average` and `average_and_swap`; and the two colour operations
    `swap_colors` and `swap_single_order` on the whole buffer. */
module Actions {
  import opened Pixels
  import opened Grids
  import opened Partition
  import opened Images
  import opened Metrics

  /** Which action `magic` is handed: `average` or `average_and_swap`. */
  datatype Action = DoAverage | DoAverageAndSwap

  // ---------------------------------------------------------------------
  // The actions

  /** The payloads an action may be handed for block `i` of `s`: each reads
      a region of the block size. */
  predicate Fit(s: State, i: nat, c: Payload)
    requires i < |s.blocks|
  {
    Readable(c, s.grid) && Sized(c, Height(s.blocks[i]), Width(s.blocks[i]))
  }

  /** `cv2.addWeighted(c1, 0.5, c2, 0.5, 0)` on two payloads, as a new array. */
  function Blend(g: Grid, c1: Payload, c2: Payload): (avg: Payload)
    requires Readable(c1, g) && Readable(c2, g) && SameDims(Read(g, c1), Read(g, c2))
    ensures avg.Copy? && avg.data == MeanChunk(Read(g, c1), Read(g, c2))
  {
    Copy(MeanChunk(Read(g, c1), Read(g, c2)))
  }

  /** Two payloads that fit one block read equally shaped chunks. */
  lemma FitSameDims(s: State, i: nat, c1: Payload, c2: Payload)
    requires i < |s.blocks| && Fit(s, i, c1) && Fit(s, i, c2)
    ensures Shaped(Read(s.grid, c1), Height(s.blocks[i]), Width(s.blocks[i]))
    ensures Shaped(Read(s.grid, c2), Height(s.blocks[i]), Width(s.blocks[i]))
    ensures SameDims(Read(s.grid, c1), Read(s.grid, c2))
  {
  }

  /** What an action does to the state, given the block indices `i` (`b1`)
      and `j` (`b2`) and its two chunks `c1` and `c2`. `average` clears
      `b2`'s flag and writes the blend into `b1`; `average_and_swap` is
      `assign_chunks([b1, b2], [c2, blend])`, `c2` being read when it is
      written; flags stay as they are. */
  function Effect(action: Action, s: State, i: nat, j: nat, c1: Payload, c2: Payload): (r: State)
    requires Layout(s.grid, s.blocks) && i < |s.blocks| && j < |s.blocks|
    requires Fit(s, i, c1) && Fit(s, i, c2)
    ensures SameDims(r.grid, s.grid) && SameCells(r.blocks, s.blocks)
    ensures Layout(r.grid, r.blocks)
  {
    var g, b1, b2 := s.grid, s.blocks[i], s.blocks[j];
    FitSameDims(s, i, c1, c2);
    var avg := Blend(g, c1, c2);
    match action
    case DoAverage =>
      var r := State(PasteAll(g, [b1], [avg]), Mark(s.blocks, j, false));
      LayoutKept(g, s.blocks, r.grid, r.blocks);
      r
    case DoAverageAndSwap =>
      var r := State(PasteAll(g, [b1, b2], [c2, avg]), s.blocks);
      LayoutKept(g, s.blocks, r.grid, r.blocks);
      r
  }

  /** `average`: block `i` ends up holding the blend of the two chunks; of
      the flags only block `j`'s changes, to clear; a region disjoint from
      block `i` keeps its pixels. */
  lemma AverageResult(s: State, i: nat, j: nat, c1: Payload, c2: Payload)
    requires Layout(s.grid, s.blocks) && i < |s.blocks| && j < |s.blocks|
    requires Fit(s, i, c1) && Fit(s, i, c2)
    ensures var r, g := Effect(DoAverage, s, i, j, c1, c2), s.grid;
      Inside(s.blocks[i], r.grid) && Chunk(r.grid, s.blocks[i]) == MeanChunk(Read(g, c1), Read(g, c2)) &&
      !r.blocks[j].changed &&
      (forall k :: 0 <= k < |s.blocks| && k != j ==> r.blocks[k] == s.blocks[k]) &&
      forall b :: Inside(b, g) && Disjoint(s.blocks[i], b) ==>
        Inside(b, r.grid) && Chunk(r.grid, b) == Chunk(g, b)
  {
    var g, b1 := s.grid, s.blocks[i];
    FitSameDims(s, i, c1, c2);
    var avg := Blend(g, c1, c2);
    PasteAllOne(g, b1, avg);
    ChunkOfPaste(g, b1, avg.data);
    forall b | Inside(b, g) && Disjoint(b1, b)
      ensures Inside(b, Paste(g, b1, avg.data)) && Chunk(Paste(g, b1, avg.data), b) == Chunk(g, b)
    {
      ChunkAfterPasteElsewhere(g, b1, avg.data, b);
    }
  }

  /** `average_and_swap` on two disjoint blocks, handed chunks that do not
      overlap block `i` or are copies: block `i` ends up holding what `c2`
      held, block `j` the blend, every region disjoint from both keeps its
      pixels, and no flag changes. */
  lemma AverageAndSwapResult(s: State, i: nat, j: nat, c1: Payload, c2: Payload)
    requires Layout(s.grid, s.blocks) && i < |s.blocks| && j < |s.blocks|
    requires Fit(s, i, c1) && Fit(s, i, c2)
    requires Disjoint(s.blocks[i], s.blocks[j])
    ensures var r, g, bi, bj := Effect(DoAverageAndSwap, s, i, j, c1, c2), s.grid, s.blocks[i], s.blocks[j];
      Inside(bi, r.grid) && Inside(bj, r.grid) &&
      Chunk(r.grid, bi) == Read(g, c2) && Chunk(r.grid, bj) == MeanChunk(Read(g, c1), Read(g, c2)) &&
      r.blocks == s.blocks &&
      forall b :: Inside(b, g) && Disjoint(bi, b) && Disjoint(bj, b) ==>
        Inside(b, r.grid) && Chunk(r.grid, b) == Chunk(g, b)
  {
    var g, bi, bj := s.grid, s.blocks[i], s.blocks[j];
    FitSameDims(s, i, c1, c2);
    var avg := Blend(g, c1, c2);
    var d2 := Read(g, c2);
    PasteAllTwo(g, bi, bj, c2, avg);
    PasteTwoDisjoint(g, bi, bj, d2, avg.data);
    assert Effect(DoAverageAndSwap, s, i, j, c1, c2).grid == Paste(Paste(g, bi, d2), bj, avg.data);
  }

  /** An action whose two blocks are the same block, handed views of that
      block, leaves the pixels as they were: the blend of a chunk with
      itself is the chunk. */
  lemma EffectOnItself(action: Action, s: State, i: nat)
    requires Layout(s.grid, s.blocks) && i < |s.blocks|
    ensures var v := View(s.blocks[i]);
      Fit(s, i, v) && Effect(action, s, i, i, v, v).grid == s.grid
  {
    var g, b := s.grid, s.blocks[i];
    var v := View(b);
    var c := Chunk(g, b);
    assert Read(g, v) == c;
    MeanChunkSame(c);
    var avg := Blend(g, v, v);
    assert avg.data == c;
    PasteOwnChunk(g, b);
    if action == DoAverage {
      PasteAllOne(g, b, avg);
    } else {
      PasteAllTwo(g, b, b, v, avg);
    }
  }

  /** `average(img, b1, b2, c1, c2)`, with the blocks named by their
      positions `i` and `j` in the block list. */
  method Average(img: Image, i: nat, j: nat, c1: Payload, c2: Payload)
    requires img.Valid() && i < |img.blocks| && j < |img.blocks|
    requires img.Holds(c1) && img.Holds(c2)
    modifies img, img.pixels
    ensures img.Valid() && img.pixels == old(img.pixels)
    ensures Layout(old(img.Grid()), old(img.blocks))
    ensures Fit(old(img.Snapshot()), i, c1) && Fit(old(img.Snapshot()), i, c2)
    ensures img.Snapshot() == Effect(DoAverage, old(img.Snapshot()), i, j, c1, c2)
  {
    img.ValidLayout();
    var b1 := img.blocks[i];
    var g := img.Grid();
    var average := Blend(g, c1, c2);
    img.SetChanged(j, false);
    img.AssignChunk(b1, average);
    PasteAllOne(g, b1, average);
    assert img.Snapshot() == State(PasteAll(g, [b1], [average]), Mark(old(img.blocks), j, false));
  }

  /** `average_and_swap(img, b1, b2, c1, c2)`: `img.swap(b1, b2, blend, c2)`,
      which writes `c2` into `b1` and then the blend into `b2`. */
  method AverageAndSwap(img: Image, i: nat, j: nat, c1: Payload, c2: Payload)
    requires img.Valid() && i < |img.blocks| && j < |img.blocks|
    requires img.Holds(c1) && img.Holds(c2)
    modifies img.pixels
    ensures img.Valid()
    ensures Layout(old(img.Grid()), old(img.blocks))
    ensures Fit(old(img.Snapshot()), i, c1) && Fit(old(img.Snapshot()), i, c2)
    ensures img.Snapshot() == Effect(DoAverageAndSwap, old(img.Snapshot()), i, j, c1, c2)
  {
    img.ValidLayout();
    var b1, b2 := img.blocks[i], img.blocks[j];
    var g := img.Grid();
    var average := Blend(g, c1, c2);
    img.Swap(b1, b2, average, c2);
  }

  /** Dispatches to the action `magic` was handed. */
  method Apply(img: Image, action: Action, i: nat, j: nat, c1: Payload, c2: Payload)
    requires img.Valid() && i < |img.blocks| && j < |img.blocks|
    requires img.Holds(c1) && img.Holds(c2)
    modifies img, img.pixels
    ensures img.Valid() && img.pixels == old(img.pixels)
    ensures Layout(old(img.Grid()), old(img.blocks))
    ensures Fit(old(img.Snapshot()), i, c1) && Fit(old(img.Snapshot()), i, c2)
    ensures img.Snapshot() == Effect(action, old(img.Snapshot()), i, j, c1, c2)
  {
    match action {
      case DoAverage => Average(img, i, j, c1, c2);
      case DoAverageAndSwap => AverageAndSwap(img, i, j, c1, c2);
    }
  }

  // ---------------------------------------------------------------------
  // magic

  /** The partner the metric picks for block `i`: `ssd_similar` (Lt) or
      `ssd_dissimilar` (Gt), the loop as written on the uint8 score. */
  function Chosen(metric: Order, s: State, i: nat): (j: nat)
    requires i < |s.blocks|
    ensures j < |s.blocks|
    ensures j != 0 ==> j != i && !s.blocks[j].changed
  {
    PartnerAsWritten(Candidates(s.blocks, i), ScoresOf(Wrapped, s.grid, s.blocks, i), metric)
  }

  /** One turn of `magic` for block `i` with uniform draw `r`: it fires
      when `r` exceeds `rand` and the block is unmarked. */
  function Turn(metric: Order, action: Action, s: State, i: nat, rand: real, r: real): (t: State)
    requires Layout(s.grid, s.blocks) && i < |s.blocks|
    ensures SameDims(t.grid, s.grid) && SameCells(t.blocks, s.blocks)
    ensures Layout(t.grid, t.blocks)
  {
    if r > rand && !s.blocks[i].changed then Fired(metric, action, s, i) else s
  }

  /** A turn that fires: the metric picks a partner and marks both blocks,
      the two chunks are taken (the partner's after the marking), and the
      action runs on them. */
  function Fired(metric: Order, action: Action, s: State, i: nat): (t: State)
    requires Layout(s.grid, s.blocks) && i < |s.blocks|
    ensures SameDims(t.grid, s.grid) && SameCells(t.blocks, s.blocks)
    ensures Layout(t.grid, t.blocks)
  {
    var j := Chosen(metric, s, i);
    var m := State(s.grid, Mark(Mark(s.blocks, i, true), j, true));
    LayoutKept(s.grid, s.blocks, m.grid, m.blocks);
    Effect(action, m, i, j, View(s.blocks[i]), View(m.blocks[j]))
  }

  /** The state `magic`'s loop leaves after its first `n` turns, started on
      `s`, block `k` drawing `uniforms[k]`. Under `average_and_swap` flags
      are only ever set: a block marked before is still marked after. (Under
      `average` this fails, since the action clears the partner's flag.) */
  function MagicTurns(metric: Order, action: Action, s: State, n: nat, rand: real, uniforms: seq<real>): (t: State)
    requires Layout(s.grid, s.blocks) && n <= |s.blocks| && n <= |uniforms|
    ensures SameDims(t.grid, s.grid) && SameCells(t.blocks, s.blocks)
    ensures Layout(t.grid, t.blocks)
    ensures action == DoAverageAndSwap ==>
      forall k :: 0 <= k < |s.blocks| && s.blocks[k].changed ==> t.blocks[k].changed
  {
    if n == 0 then s
    else
      var p := MagicTurns(metric, action, s, n - 1, rand, uniforms);
      TurnSwapKeepsMarks(metric, action, p, n - 1, rand, uniforms[n - 1]);
      Turn(metric, action, p, n - 1, rand, uniforms[n - 1])
  }

  /** A turn that fires marks block `i`; block `j`, the partner, ends up
      marked under `average_and_swap` and clear under `average` (so under
      `average` a block paired with itself ends up clear); every other flag
      and every rectangle stays. A turn that does not fire changes nothing. */
  lemma TurnFlags(metric: Order, action: Action, s: State, i: nat, rand: real, r: real)
    requires Layout(s.grid, s.blocks) && i < |s.blocks|
    ensures var t, j := Turn(metric, action, s, i, rand, r), Chosen(metric, s, i);
      if r > rand && !s.blocks[i].changed then
        (t.blocks[j].changed <==> action == DoAverageAndSwap) &&
        (j != i ==> t.blocks[i].changed) &&
        forall k :: 0 <= k < |s.blocks| && k != i && k != j ==> t.blocks[k] == s.blocks[k]
      else t == s
  {
  }

  /** The partner of a turn that fires, by the uint8 score: block 0 when
      no unmarked block other than `i` scores beyond the sentinel (for
      `ssd_dissimilar`, when every other block is marked), in which case the
      action still runs, on block 0; otherwise an unmarked block other than
      `i` that scores beyond the sentinel, whose score no other such block
      beats, and the first of them. */
  lemma ChosenPartner(metric: Order, s: State, i: nat)
    requires i < |s.blocks|
    ensures var j, sc := Chosen(metric, s, i), ScoresOf(Wrapped, s.grid, s.blocks, i);
      ((forall k :: 0 <= k < |s.blocks| && k != i && !s.blocks[k].changed ==>
         !Beats(metric, sc[k], Sentinel(metric))) ==> j == 0) &&
      ((exists k :: 0 <= k < |s.blocks| && k != i && !s.blocks[k].changed &&
         Beats(metric, sc[k], Sentinel(metric))) ==>
        j != i && !s.blocks[j].changed && Beats(metric, sc[j], Sentinel(metric)) &&
        (forall k :: 0 <= k < |s.blocks| && k != i && !s.blocks[k].changed ==> !Beats(metric, sc[k], sc[j])) &&
        (forall k :: 0 <= k < j && k != i && !s.blocks[k].changed ==> Beats(metric, sc[j], sc[k])))
  {
    PartnerAmongBlocks(s.blocks, i, ScoresOf(Wrapped, s.grid, s.blocks, i), metric);
  }

  /** On the three-band image of `Metrics.Bands`, with blocks of 1701
      pixels or more, `ssd_similar` picks block 0 for block 0: a turn of
      `magic` that fires there pairs the block with itself, and the other
      two blocks stay unmarked. */
  lemma SimilarPicksItself(h: nat, w: nat)
    requires 0 < h && 0 < w && h * w >= 1701
    ensures var s := State(Bands(h, w), Tiles(1, 3, h, w));
      |s.blocks| == 3 && Chosen(Lt, s, 0) == 0 &&
      !s.blocks[1].changed && !s.blocks[2].changed
  {
    SentinelHidesPartner(h, w);
    TileFits(1, 3, h, w, 1);
    TileFits(1, 3, h, w, 2);
  }

  /** When no draw exceeds `rand` (as with `rand` = 1), `magic` changes
      nothing. */
  lemma {:induction false} MagicIdle(metric: Order, action: Action, s: State, n: nat, rand: real, uniforms: seq<real>)
    requires Layout(s.grid, s.blocks) && n <= |s.blocks| && n <= |uniforms|
    requires forall k :: 0 <= k < |uniforms| ==> uniforms[k] <= rand
    ensures MagicTurns(metric, action, s, n, rand, uniforms) == s
  {
    if n > 0 {
      MagicIdle(metric, action, s, n - 1, rand, uniforms);
      assert uniforms[n - 1] <= rand;
    }
  }

  /** Under `average_and_swap` a turn only ever sets flags. */
  lemma TurnSwapKeepsMarks(metric: Order, action: Action, s: State, i: nat, rand: real, r: real)
    requires Layout(s.grid, s.blocks) && i < |s.blocks|
    ensures action == DoAverageAndSwap ==> var t := Turn(metric, action, s, i, rand, r);
      forall k :: 0 <= k < |s.blocks| && s.blocks[k].changed ==> t.blocks[k].changed
  {
    TurnFlags(metric, action, s, i, rand, r);
  }

  /** `metric(img, block_index)`. */
  method RunMetric(img: Image, metric: Order, blockIndex: nat) returns (newIndex: nat)
    requires img.Valid() && blockIndex < |img.blocks|
    modifies img
    ensures img.Valid() && img.pixels == old(img.pixels) && img.Grid() == old(img.Grid())
    ensures newIndex == Chosen(metric, old(img.Snapshot()), blockIndex)
    ensures img.blocks == Mark(Mark(old(img.blocks), blockIndex, true), newIndex, true)
  {
    if metric == Lt {
      newIndex := SsdSimilar(img, blockIndex);
    } else {
      newIndex := SsdDissimilar(img, blockIndex);
    }
  }

  /** The body of `magic`'s loop for block `blockIndex`, given its draw `r`. */
  method MagicTurn(img: Image, metric: Order, action: Action, blockIndex: nat, r: real)
    requires img.Valid() && blockIndex < |img.blocks|
    modifies img, img.pixels
    ensures img.Valid() && img.pixels == old(img.pixels)
    ensures Layout(old(img.Grid()), old(img.blocks))
    ensures img.Snapshot() == Turn(metric, action, old(img.Snapshot()), blockIndex, img.rand, r)
  {
    img.ValidLayout();
    if r > img.rand {
      var block1 := img.blocks[blockIndex];
      if !block1.changed {
        MagicPair(img, metric, action, blockIndex, block1);
      }
    }
  }

  /** The firing branch of the loop body, with `block1` the block fetched
      before the metric runs. */
  method MagicPair(img: Image, metric: Order, action: Action, blockIndex: nat, block1: Block)
    requires img.Valid() && blockIndex < |img.blocks| && block1 == img.blocks[blockIndex]
    modifies img, img.pixels
    ensures img.Valid() && img.pixels == old(img.pixels)
    ensures Layout(old(img.Grid()), old(img.blocks))
    ensures img.Snapshot() == Fired(metric, action, old(img.Snapshot()), blockIndex)
  {
    img.ValidLayout();
    var newIndex := RunMetric(img, metric, blockIndex);
    ActOn(img, action, blockIndex, newIndex, block1);
  }

  /** Takes views of `block1` and of block `newIndex` as it now stands, and
      runs the action on them. */
  method ActOn(img: Image, action: Action, blockIndex: nat, newIndex: nat, block1: Block)
    requires img.Valid() && blockIndex < |img.blocks| && newIndex < |img.blocks| && img.Fits(block1)
    requires SameCell(block1, img.blocks[blockIndex])
    modifies img, img.pixels
    ensures img.Valid() && img.pixels == old(img.pixels)
    ensures Layout(old(img.Grid()), old(img.blocks))
    ensures Fit(old(img.Snapshot()), blockIndex, View(block1))
    ensures Fit(old(img.Snapshot()), blockIndex, View(old(img.blocks)[newIndex]))
    ensures img.Snapshot() == Effect(action, old(img.Snapshot()), blockIndex, newIndex,
                                     View(block1), View(old(img.blocks)[newIndex]))
  {
    img.ValidLayout();
    var block2 := img.blocks[newIndex];
    var chunks := img.GetChunks([block1, block2]);
    Apply(img, action, blockIndex, newIndex, chunks[0], chunks[1]);
  }

  /** `magic(img, metric, action)`: block `k` draws `uniforms[k]`. */
  method Magic(img: Image, metric: Order, action: Action, uniforms: seq<real>)
    requires img.Valid() && |img.blocks| <= |uniforms|
    modifies img, img.pixels
    ensures img.Valid() && img.pixels == old(img.pixels)
    ensures Layout(old(img.Grid()), old(img.blocks))
    ensures img.Snapshot() == MagicTurns(metric, action, old(img.Snapshot()), |old(img.blocks)|, img.rand, uniforms)
  {
    img.ValidLayout();
    var num := |img.blocks|;
    ghost var start := img.Snapshot();
    for blockIndex := 0 to num
      invariant img.Valid() && img.pixels == old(img.pixels) && |img.blocks| == num
      invariant img.Snapshot() == MagicTurns(metric, action, start, blockIndex, img.rand, uniforms)
    {
      MagicStep(img, metric, action, blockIndex, uniforms, start);
    }
  }

  /** One turn of the loop: the first `i` turns become the first `i + 1`. */
  method MagicStep(img: Image, metric: Order, action: Action, i: nat, uniforms: seq<real>, ghost start: State)
    requires img.Valid() && i < |img.blocks| <= |uniforms|
    requires Layout(start.grid, start.blocks) && |start.blocks| == |img.blocks|
    requires img.Snapshot() == MagicTurns(metric, action, start, i, img.rand, uniforms)
    modifies img, img.pixels
    ensures img.Valid() && img.pixels == old(img.pixels) && |img.blocks| == old(|img.blocks|)
    ensures img.Snapshot() == MagicTurns(metric, action, start, i + 1, img.rand, uniforms)
  {
    MagicTurn(img, metric, action, i, uniforms[i]);
  }

  // ---------------------------------------------------------------------
  // Colour operations

  /** Every pixel with samples `a` and `b` exchanged. */
  function Exchanged(g: Grid, a: nat, b: nat): (r: Grid)
    requires a < 3 && b < 3
    ensures SameDims(r, g)
  {
    seq(|g|, y requires 0 <= y < |g| =>
      seq(|g[y]|, x requires 0 <= x < |g[y]| => Exchange(g[y][x], a, b)))
  }

  /** What `swap_colors` leaves: channels 0 and 1 exchanged in every pixel. */
  function ColorsSwapped(g: Grid): (r: Grid)
    ensures SameDims(r, g)
    ensures forall y, x :: 0 <= y < |g| && 0 <= x < |g[y]| ==>
      Sample(r[y][x], 0) == Sample(g[y][x], 1) && Sample(r[y][x], 1) == Sample(g[y][x], 0) &&
      Sample(r[y][x], 2) == Sample(g[y][x], 2)
  {
    var r := Exchanged(g, 0, 1);
    forall y, x | 0 <= y < |g| && 0 <= x < |g[y]|
      ensures Sample(r[y][x], 0) == Sample(g[y][x], 1) && Sample(r[y][x], 1) == Sample(g[y][x], 0) &&
        Sample(r[y][x], 2) == Sample(g[y][x], 2)
    {
      ExchangeSamples(g[y][x], 0, 1);
    }
    r
  }

  /** Swapping the colours twice gives the buffer back. */
  lemma ColorsSwappedTwice(g: Grid)
    ensures ColorsSwapped(ColorsSwapped(g)) == g
  {
    var r := ColorsSwapped(ColorsSwapped(g));
    forall y, x | 0 <= y < |g| && 0 <= x < |g[y]| ensures r[y][x] == g[y][x] {
      ExchangeTwice(g[y][x], 0, 1);
    }
    GridExt(r, g);
  }

  /** One sample plane, `image[:, :, k]`, copied. */
  function Plane(g: Grid, k: nat): (p: seq<seq<Byte>>)
    requires k < 3
    ensures |p| == |g| && forall y :: 0 <= y < |g| ==> |p[y]| == |g[y]|
  {
    seq(|g|, y requires 0 <= y < |g| => seq(|g[y]|, x requires 0 <= x < |g[y]| => Sample(g[y][x], k)))
  }

  /** `swap_colors(img)`: copies planes 0 and 1, writes the copy of plane 1
      into plane 0, then the copy of plane 0 into plane 1. */
  method SwapColors(img: Image)
    modifies img.pixels
    ensures img.Grid() == ColorsSwapped(old(img.Grid()))
  {
    var g := img.Grid();
    var color1 := Plane(g, 0);
    var color2 := Plane(g, 1);
    var h, w := img.pixels.Length0, img.pixels.Length1;
    forall y, x | 0 <= y < h && 0 <= x < w {
      img.pixels[y, x] := WithSample(img.pixels[y, x], 0, color2[y][x]);
    }
    forall y, x | 0 <= y < h && 0 <= x < w {
      img.pixels[y, x] := WithSample(img.pixels[y, x], 1, color1[y][x]);
    }
    forall y, x | 0 <= y < h && 0 <= x < w
      ensures img.pixels[y, x] == ColorsSwapped(g)[y][x]
    {
      var p, q := img.pixels[y, x], ColorsSwapped(g)[y][x];
      assert Sample(p, 0) == Sample(q, 0) && Sample(p, 1) == Sample(q, 1) && Sample(p, 2) == Sample(q, 2);
    }
    img.GridIs(ColorsSwapped(g));
  }

  /** The row-major position of pixel (y, x) on a buffer `w` wide. */
  function Position(y: nat, x: nat, w: nat): nat {
    y * w + x
  }

  /** What `swap_single_order` leaves on a buffer `w` wide: the pixel at
      row-major position `n` has samples `n % 3` and `(n + 1) % 3`
      exchanged, so the exchanged pair cycles (0, 1), (1, 2), (2, 0) along
      the pixels, carrying over from one row to the next. */
  function OrderSwapped(g: Grid, w: nat): (r: Grid)
    requires forall y :: 0 <= y < |g| ==> |g[y]| == w
    ensures Shaped(r, |g|, w)
    ensures forall y, x :: 0 <= y < |g| && 0 <= x < w ==>
      r[y][x] == Exchange(g[y][x], Position(y, x, w) % 3, (Position(y, x, w) + 1) % 3)
  {
    seq(|g|, y requires 0 <= y < |g| =>
      seq(w, x requires 0 <= x < w => Exchange(g[y][x], Position(y, x, w) % 3, (Position(y, x, w) + 1) % 3)))
  }

  /** Applying the order swap twice gives the buffer back. */
  lemma OrderSwappedTwice(g: Grid, w: nat)
    requires forall y :: 0 <= y < |g| ==> |g[y]| == w
    ensures OrderSwapped(OrderSwapped(g, w), w) == g
  {
    var r := OrderSwapped(OrderSwapped(g, w), w);
    forall y, x | 0 <= y < |g| && 0 <= x < |g[y]| ensures r[y][x] == g[y][x] {
      var n := Position(y, x, w);
      ExchangeTwice(g[y][x], n % 3, (n + 1) % 3);
    }
    GridExt(r, g);
  }

  /** Advancing a counter modulo 3 tracks a position modulo 3. */
  lemma ModSucc(n: nat)
    ensures (n % 3 + 1) % 3 == (n + 1) % 3
  {
  }

  /** `swap_single_order(img)`: visits the pixels row by row, exchanging
      samples `counter` and `next_color` of each, both advancing by one
      modulo 3 after every pixel. */
  method SwapSingleOrder(img: Image)
    modifies img.pixels
    ensures img.Grid() == OrderSwapped(old(img.Grid()), img.pixels.Length1)
  {
    ghost var g0 := img.Grid();
    var counter, nextColor := 0, 1;
    var h, w := img.pixels.Length0, img.pixels.Length1;
    ghost var target := OrderSwapped(g0, w);
    for i := 0 to h
      invariant counter == (i * w) % 3 && nextColor == (i * w + 1) % 3
      invariant forall r, c :: 0 <= r < h && 0 <= c < w ==>
        img.pixels[r, c] == if r < i then target[r][c] else g0[r][c]
    {
      counter, nextColor := SwapRow(img.pixels, i, counter, nextColor, i * w, target);
      assert i * w + w == (i + 1) * w;
    }
    img.GridIs(target);
  }

  /** The inner loop of `swap_single_order` on row `y`, whose first pixel
      has row-major position `start`; the counters come in as the previous
      rows left them. The row becomes row `y` of `target`. */
  method SwapRow(pixels: array2<Pixel>, y: nat, counter0: nat, next0: nat, ghost start: nat, ghost target: Grid)
    returns (counter: nat, nextColor: nat)
    requires y < pixels.Length0 && y < |target| && |target[y]| == pixels.Length1
    requires counter0 == start % 3 && next0 == (start + 1) % 3
    requires forall c :: 0 <= c < pixels.Length1 ==>
      target[y][c] == Exchange(pixels[y, c], (start + c) % 3, (start + c + 1) % 3)
    modifies pixels
    ensures counter == (start + pixels.Length1) % 3 && nextColor == (start + pixels.Length1 + 1) % 3
    ensures forall c :: 0 <= c < pixels.Length1 ==> pixels[y, c] == target[y][c]
    ensures forall r, c :: 0 <= r < pixels.Length0 && r != y && 0 <= c < pixels.Length1 ==> pixels[r, c] == old(pixels[r, c])
  {
    var w := pixels.Length1;
    counter, nextColor := counter0, next0;
    for j := 0 to w
      invariant counter == (start + j) % 3 && nextColor == (start + j + 1) % 3
      invariant forall c :: 0 <= c < j ==> pixels[y, c] == target[y][c]
      invariant forall r, c :: 0 <= r < pixels.Length0 && 0 <= c < w && (r != y || j <= c) ==> pixels[r, c] == old(pixels[r, c])
    {
      pixels[y, j] := Exchange(pixels[y, j], counter, nextColor);
      ModSucc(start + j);
      ModSucc(start + j + 1);
      counter := (counter + 1) % 3;
      nextColor := (nextColor + 1) % 3;
    }
  }
}
