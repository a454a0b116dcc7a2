/** `Metrics.ssd` and its wrappers `ssd_similar` and `ssd_dissimilar`: the
    partner search that pairs a block with the unused block whose region is
    most like (`'lt'`) or most unlike (`'gt'`) its own, and the flags the
    search sets on both. The search is stated once on two sequences, which
    blocks may be picked and what each scores, so that the loop as written
    and the loop as intended can be compared on the same inputs. */
module Metrics {
  import opened Pixels
  import opened Grids
  import opened Scores
  import opened Partition
  import opened Images

  /** The `gtlt` argument: `'gt'` keeps the largest score, every other value
      (`'lt'` among them) keeps the smallest. */
  datatype Order = Lt | Gt

  /** Which score the search ranks blocks by: the wrapped uint8 score numpy
      computes, or the exact sum of squared differences. */
  datatype Measure = Wrapped | Exact

  /** The first value of `similarity` in `ssd`. A first candidate is taken
      only when its score beats it: with `'gt'` whatever it scores, with
      `'lt'` only when it scores below 999999. */
  function Sentinel(o: Order): (v: int)
    ensures forall s: nat :: Beats(o, s, v) <==> (o == Gt || s < 999999)
  {
    if o == Gt then -1 else 999999
  }

  /** Score `s` displaces the kept score `t`: strictly larger for `'gt'`,
      strictly smaller otherwise. */
  predicate Beats(o: Order, s: int, t: int) {
    if o == Gt then s > t else s < t
  }

  function ScoreBy(m: Measure, c1: Grid, c2: Grid): nat
    requires SameDims(c1, c2)
  {
    match m
    case Wrapped => Score(c1, c2)
    case Exact => SumSquares(c1, c2)
  }

  /** The blocks the search may pick for query block `ind`: all others whose
      flag is clear. */
  function Candidates(bs: seq<Block>, ind: nat): (ok: seq<bool>)
    ensures |ok| == |bs|
  {
    seq(|bs|, i requires 0 <= i < |bs| => i != ind && !bs[i].changed)
  }

  /** Block `b2`'s region scored against block `b1`'s region; 0 for a pair
      of blocks that lie outside the grid or differ in size, which a layout
      rules out. */
  function PairScore(m: Measure, g: Grid, b1: Block, b2: Block): nat {
    if Inside(b1, g) && Inside(b2, g) && Height(b1) == Height(b2) && Width(b1) == Width(b2)
    then ScoreBy(m, Chunk(g, b1), Chunk(g, b2))
    else 0
  }

  /** What each block's region scores against the query block's region. */
  function ScoresOf(m: Measure, g: Grid, bs: seq<Block>, ind: nat): (sc: seq<nat>)
    requires ind < |bs|
    ensures |sc| == |bs|
  {
    seq(|bs|, i requires 0 <= i < |bs| => PairScore(m, g, bs[ind], bs[i]))
  }

  /** The loop of `ssd` over the first `n` blocks as written: the pair
      (`most_like_or_dislike`, `similarity`), which starts at index 0 and the
      sentinel and takes a candidate's index and score when the score beats
      the kept one. */
  function SearchAsWritten(ok: seq<bool>, sc: seq<nat>, o: Order, n: nat): (r: (nat, int))
    requires |ok| == |sc| && n <= |ok|
    ensures r == (0, Sentinel(o)) || (r.0 < n && ok[r.0] && r.1 == sc[r.0])
  {
    if n == 0 then (0, Sentinel(o))
    else
      var r := SearchAsWritten(ok, sc, o, n - 1);
      var i := n - 1;
      if ok[i] && Beats(o, sc[i], r.1) then (i, sc[i]) else r
  }

  /** The index `ssd` returns, as written. */
  function PartnerAsWritten(ok: seq<bool>, sc: seq<nat>, o: Order): (p: nat)
    requires |ok| == |sc|
    ensures 0 < |ok| ==> p < |ok|
    ensures p != 0 ==> p < |ok| && ok[p]
  {
    SearchAsWritten(ok, sc, o, |ok|).0
  }

  /** The best candidate seen so far, if any. */
  datatype Best = NoneYet | Best(index: nat, score: nat)

  /** The search as intended: the first candidate is kept whatever it scores,
      and a later one replaces the kept one when it beats it. */
  function Search(ok: seq<bool>, sc: seq<nat>, o: Order, n: nat): (b: Best)
    requires |ok| == |sc| && n <= |ok|
    ensures b.Best? ==> b.index < n && ok[b.index] && b.score == sc[b.index]
    ensures b.NoneYet? <==> forall k :: 0 <= k < n ==> !ok[k]
  {
    if n == 0 then NoneYet
    else
      var b := Search(ok, sc, o, n - 1);
      var i := n - 1;
      if ok[i] && (b.NoneYet? || Beats(o, sc[i], b.score)) then Best(i, sc[i]) else b
  }

  /** The index the search returns; 0 when no block qualifies, as in `ssd`. */
  function Partner(ok: seq<bool>, sc: seq<nat>, o: Order): (p: nat)
    requires |ok| == |sc|
    ensures 0 < |ok| ==> p < |ok|
  {
    match Search(ok, sc, o, |ok|)
    case NoneYet => 0
    case Best(i, _) => i
  }

  /** The kept candidate is optimal among the first `n`, and it is the first
      candidate with that score: every earlier one scores strictly worse. */
  lemma {:induction false} SearchIsBest(ok: seq<bool>, sc: seq<nat>, o: Order, n: nat)
    requires |ok| == |sc| && n <= |ok| && Search(ok, sc, o, n).Best?
    ensures var b := Search(ok, sc, o, n);
      (forall k :: 0 <= k < n && ok[k] ==> !Beats(o, sc[k], b.score)) &&
      (forall k :: 0 <= k < b.index && ok[k] ==> Beats(o, b.score, sc[k]))
  {
    var b := Search(ok, sc, o, n);
    var prev := Search(ok, sc, o, n - 1);
    if prev.Best? {
      SearchIsBest(ok, sc, o, n - 1);
    }
  }

  /** The corrected partner: when some block qualifies, a qualifying block
      that no other qualifying block beats, and the first such; otherwise 0. */
  lemma PartnerIsBest(ok: seq<bool>, sc: seq<nat>, o: Order)
    requires |ok| == |sc|
    ensures (forall k :: 0 <= k < |ok| ==> !ok[k]) ==> Partner(ok, sc, o) == 0
    ensures (exists k :: 0 <= k < |ok| && ok[k]) ==>
      var p := Partner(ok, sc, o);
      p < |ok| && ok[p] &&
      (forall k :: 0 <= k < |ok| && ok[k] ==> !Beats(o, sc[k], sc[p])) &&
      (forall k :: 0 <= k < p && ok[k] ==> Beats(o, sc[p], sc[k]))
  {
    if Search(ok, sc, o, |ok|).Best? {
      SearchIsBest(ok, sc, o, |ok|);
    }
  }

  /** What the loop as written keeps, given what the intended search keeps:
      the same candidate when its score beats the sentinel, and otherwise
      the initial index 0 with the sentinel. */
  function Expected(o: Order, b: Best): (nat, int) {
    if b.Best? && Beats(o, b.score, Sentinel(o)) then (b.index, b.score) else (0, Sentinel(o))
  }

  lemma {:induction false} AsWrittenAgrees(ok: seq<bool>, sc: seq<nat>, o: Order, n: nat)
    requires |ok| == |sc| && n <= |ok|
    ensures SearchAsWritten(ok, sc, o, n) == Expected(o, Search(ok, sc, o, n))
  {
    if n > 0 {
      AsWrittenAgrees(ok, sc, o, n - 1);
    }
  }

  /** With `'gt'` the sentinel -1 is beaten by every score, so the loop as
      written returns the intended partner; with `'lt'` it does so exactly
      when the best score is below 999999. */
  lemma PartnerAgreement(ok: seq<bool>, sc: seq<nat>, o: Order)
    requires |ok| == |sc|
    ensures o == Gt ==> PartnerAsWritten(ok, sc, o) == Partner(ok, sc, o)
    ensures o == Lt && Search(ok, sc, o, |ok|).Best? && Search(ok, sc, o, |ok|).score < 999999 ==>
      PartnerAsWritten(ok, sc, o) == Partner(ok, sc, o)
  {
    AsWrittenAgrees(ok, sc, o, |ok|);
  }

  /** With `'lt'`, when every candidate scores 999999 or more, the loop as
      written returns index 0, whether or not block 0 is a candidate. */
  lemma AsWrittenFallsBack(ok: seq<bool>, sc: seq<nat>)
    requires |ok| == |sc|
    requires forall k :: 0 <= k < |ok| && ok[k] ==> sc[k] >= 999999
    ensures PartnerAsWritten(ok, sc, Lt) == 0
  {
    AsWrittenAgrees(ok, sc, Lt, |ok|);
  }

  /** The index `ssd` returns, as written: 0 when no qualifying block
      scores beyond the sentinel; otherwise a qualifying block that does,
      that no other qualifying block beats, and the first such. */
  lemma PartnerAsWrittenIsBest(ok: seq<bool>, sc: seq<nat>, o: Order)
    requires |ok| == |sc|
    ensures (forall k :: 0 <= k < |ok| && ok[k] ==> !Beats(o, sc[k], Sentinel(o))) ==>
      PartnerAsWritten(ok, sc, o) == 0
    ensures (exists k :: 0 <= k < |ok| && ok[k] && Beats(o, sc[k], Sentinel(o))) ==>
      var p := PartnerAsWritten(ok, sc, o);
      p < |ok| && ok[p] && Beats(o, sc[p], Sentinel(o)) &&
      (forall k :: 0 <= k < |ok| && ok[k] ==> !Beats(o, sc[k], sc[p])) &&
      (forall k :: 0 <= k < p && ok[k] ==> Beats(o, sc[p], sc[k]))
  {
    AsWrittenAgrees(ok, sc, o, |ok|);
    var b := Search(ok, sc, o, |ok|);
    if b.Best? {
      SearchIsBest(ok, sc, o, |ok|);
    }
  }

  /** `PartnerAsWrittenIsBest` for the candidates of query block `ind`,
      stated on the blocks themselves. */
  lemma PartnerAmongBlocks(bs: seq<Block>, ind: nat, sc: seq<nat>, o: Order)
    requires ind < |bs| && |sc| == |bs|
    ensures var p := PartnerAsWritten(Candidates(bs, ind), sc, o);
      ((forall k :: 0 <= k < |bs| && k != ind && !bs[k].changed ==> !Beats(o, sc[k], Sentinel(o))) ==> p == 0) &&
      ((exists k :: 0 <= k < |bs| && k != ind && !bs[k].changed && Beats(o, sc[k], Sentinel(o))) ==>
        p < |bs| && p != ind && !bs[p].changed && Beats(o, sc[p], Sentinel(o)) &&
        (forall k :: 0 <= k < |bs| && k != ind && !bs[k].changed ==> !Beats(o, sc[k], sc[p])) &&
        (forall k :: 0 <= k < p && k != ind && !bs[k].changed ==> Beats(o, sc[p], sc[k])))
  {
    var ok := Candidates(bs, ind);
    assert forall k :: 0 <= k < |ok| ==> (ok[k] <==> k != ind && !bs[k].changed);
    PartnerAsWrittenIsBest(ok, sc, o);
  }

  /** A grey pixel: all three samples equal. */
  function Grey(v: Byte): Pixel {
    Pixel(v, v, v)
  }

  /** The grey level of band `k` in `Bands`. */
  function Level(k: nat): Byte {
    if k == 0 then 0 else if k == 1 then 15 else 14
  }

  /** An image `h` pixels high made of three bands `w` pixels wide, of the
      grey levels 0, 15 and 14 from left to right. */
  function Bands(h: nat, w: nat): (g: Grid)
    requires 0 < w
    ensures Shaped(g, h, 3 * w)
  {
    seq(h, y requires 0 <= y < h => seq(3 * w, x requires 0 <= x < 3 * w => Grey(Level(x / w))))
  }

  /** `get_blocks` with block size (h, w) cuts `Bands(h, w)` into three
      blocks in a row, and block `k` holds band `k` only. */
  lemma BandChunk(h: nat, w: nat, k: nat)
    requires 0 < h && 0 < w && k < 3
    ensures |Tiles(1, 3, h, w)| == 3
    ensures var b := Tiles(1, 3, h, w)[k];
      Inside(b, Bands(h, w)) && Height(b) == h && Width(b) == w &&
      forall y, x :: 0 <= y < h && 0 <= x < w ==> Chunk(Bands(h, w), b)[y][x] == Grey(Level(k))
  {
    CellOf(1, 3, h, w, k);
    TileFits(1, 3, h, w, k);
    var g, b := Bands(h, w), Tiles(1, 3, h, w)[k];
    assert b == Cell(0, k, h, w);
    forall y, x | 0 <= y < h && 0 <= x < w ensures Chunk(g, b)[y][x] == Grey(Level(k)) {
      DivModUnique(k * w + x, w, k, x);
      assert Chunk(g, b)[y][x] == g[y][k * w + x];
    }
  }

  /** Block 0 of `Bands(h, w)` against block `k`: h * w times the score of
      a black pixel against a pixel of band `k`'s grey. */
  lemma BandScore(h: nat, w: nat, k: nat)
    requires 0 < h && 0 < w && k < 3
    ensures |Tiles(1, 3, h, w)| == 3
    ensures ScoresOf(Wrapped, Bands(h, w), Tiles(1, 3, h, w), 0)[k] ==
      h * (w * PixelScore(Grey(0), Grey(Level(k))))
    ensures ScoresOf(Exact, Bands(h, w), Tiles(1, 3, h, w), 0)[k] ==
      h * (w * PixelSsd(Grey(0), Grey(Level(k))))
  {
    BandChunk(h, w, 0);
    BandChunk(h, w, k);
    var g, bs := Bands(h, w), Tiles(1, 3, h, w);
    UniformChunk(Chunk(g, bs[0]), Chunk(g, bs[k]), h, w, Grey(0), Grey(Level(k)));
  }

  /** The per-pixel scores of black against the two greys: the differences
      are small enough that the wrapped square is the exact one. */
  lemma GreyScores()
    ensures PixelScore(Grey(0), Grey(15)) == PixelSsd(Grey(0), Grey(15)) == 675
    ensures PixelScore(Grey(0), Grey(14)) == PixelSsd(Grey(0), Grey(14)) == 588
  {
    assert (0 - 15) % 256 == 241 && 241 * 241 == 58081 && 58081 % 256 == 225;
    assert SquaredDiff8(0, 15) == 225;
    assert (0 - 14) % 256 == 242 && 242 * 242 == 58564 && 58564 % 256 == 196;
    assert SquaredDiff8(0, 14) == 196;
  }

  lemma Regroup(h: nat, w: nat, c: nat)
    ensures h * (w * c) == c * (h * w)
  {
  }

  /** The search on the scores of `Bands(h, w)` when both candidates score
      999999 or more: as written it returns 0, intended is block 2, whose
      score is below block 1's. */
  lemma SentinelSearch(ok: seq<bool>, sc: seq<nat>, n: nat)
    requires ok == [false, true, true] && |sc| == 3
    requires sc[1] == 675 * n && sc[2] == 588 * n && 588 * n >= 999999
    ensures PartnerAsWritten(ok, sc, Lt) == 0 && Partner(ok, sc, Lt) == 2
  {
    assert SearchAsWritten(ok, sc, Lt, 2) == (0, 999999);
    assert Search(ok, sc, Lt, 2) == Best(1, sc[1]);
  }

  /** The 999999 sentinel: once blocks hold 1701 pixels or more (the
      program's own 150 by 150 blocks hold 22500), `ssd_similar` for block 0
      of `Bands(h, w)` should pick block 2, but as written no score beats
      999999 and the search returns 0, the query block itself. This holds
      for the wrapped and for the exact score alike. */
  lemma SentinelHidesPartner(h: nat, w: nat)
    requires 0 < h && 0 < w && h * w >= 1701
    ensures var bs := Tiles(1, 3, h, w);
      var ok := Candidates(bs, 0);
      |bs| == 3 && !ok[0] &&
      PartnerAsWritten(ok, ScoresOf(Wrapped, Bands(h, w), bs, 0), Lt) == 0 &&
      Partner(ok, ScoresOf(Wrapped, Bands(h, w), bs, 0), Lt) == 2 &&
      Partner(ok, ScoresOf(Exact, Bands(h, w), bs, 0), Lt) == 2
  {
    var bs := Tiles(1, 3, h, w);
    BandChunk(h, w, 0);
    var ok := Candidates(bs, 0);
    assert ok == [false, true, true] by {
      TileFits(1, 3, h, w, 0);
      TileFits(1, 3, h, w, 1);
      TileFits(1, 3, h, w, 2);
    }
    BandScore(h, w, 1);
    BandScore(h, w, 2);
    GreyScores();
    var n := h * w;
    Regroup(h, w, 675);
    Regroup(h, w, 588);
    SentinelSearch(ok, ScoresOf(Wrapped, Bands(h, w), bs, 0), n);
    SentinelSearch(ok, ScoresOf(Exact, Bands(h, w), bs, 0), n);
  }

  /** `ssd(img, block_ind, gtlt)`: returns the partner the loop as written
      picks by the uint8 score, then marks the query block and the partner. */
  method Ssd(img: Image, blockInd: nat, gtlt: Order) returns (most: nat)
    requires img.Valid() && blockInd < |img.blocks|
    modifies img
    ensures img.Valid() && img.pixels == old(img.pixels) && img.Grid() == old(img.Grid())
    ensures Layout(old(img.Grid()), old(img.blocks))
    ensures most == PartnerAsWritten(Candidates(old(img.blocks), blockInd),
                                     ScoresOf(Wrapped, old(img.Grid()), old(img.blocks), blockInd), gtlt)
    ensures most < |old(img.blocks)|
    ensures img.blocks == Mark(Mark(old(img.blocks), blockInd, true), most, true)
  {
    most := Pick(img, blockInd, gtlt);
    img.SetChanged(blockInd, true);
    img.SetChanged(most, true);
  }

  /** The partner `ssd` picks for block `blockInd` on the image as it is. */
  method Pick(img: Image, blockInd: nat, gtlt: Order) returns (most: nat)
    requires img.Valid() && blockInd < |img.blocks|
    ensures Layout(img.Grid(), img.blocks)
    ensures most == PartnerAsWritten(Candidates(img.blocks, blockInd),
                                     ScoresOf(Wrapped, img.Grid(), img.blocks, blockInd), gtlt)
    ensures most < |img.blocks|
  {
    img.ValidLayout();
    var g := img.Grid();
    var similarity;
    most, similarity := Rank(img.blocks, blockInd, gtlt, (b1, b2) => PairScore(Wrapped, g, b1, b2),
      Candidates(img.blocks, blockInd), ScoresOf(Wrapped, g, img.blocks, blockInd));
  }

  /** The loop of `ssd` over the blocks `bs`: starts from index 0 and the
      sentinel, scores every candidate against the query block with
      `score`, and keeps one that strictly beats the kept score. `ok` and
      `sc` name the candidates and their scores. */
  method Rank(bs: seq<Block>, blockInd: nat, gtlt: Order, score: (Block, Block) -> nat,
              ghost ok: seq<bool>, ghost sc: seq<nat>)
    returns (most: nat, similarity: int)
    requires blockInd < |bs| && |ok| == |sc| == |bs|
    requires forall i :: 0 <= i < |bs| ==> ok[i] == (i != blockInd && !bs[i].changed)
    requires forall i :: 0 <= i < |bs| ==> sc[i] == score(bs[blockInd], bs[i])
    ensures (most, similarity) == SearchAsWritten(ok, sc, gtlt, |bs|)
  {
    var block := bs[blockInd];
    most := 0;
    if gtlt == Gt {
      similarity := -1;
    } else {
      similarity := 999999;
    }
    for i := 0 to |bs|
      invariant (most, similarity) == SearchAsWritten(ok, sc, gtlt, i)
    {
      if i != blockInd {
        var secondBlock := bs[i];
        if secondBlock.changed == false {
          var ssd := score(block, secondBlock);
          if gtlt == Gt {
            if ssd > similarity {
              similarity := ssd;
              most := i;
            }
          } else {
            if ssd < similarity {
              similarity := ssd;
              most := i;
            }
          }
        }
      }
    }
  }

  /** `ssd_similar`: the loop as written with `'lt'`. */
  method SsdSimilar(img: Image, blockInd: nat) returns (most: nat)
    requires img.Valid() && blockInd < |img.blocks|
    modifies img
    ensures img.Valid() && img.pixels == old(img.pixels) && img.Grid() == old(img.Grid())
    ensures most == PartnerAsWritten(Candidates(old(img.blocks), blockInd),
                                     ScoresOf(Wrapped, old(img.Grid()), old(img.blocks), blockInd), Lt)
    ensures most < |old(img.blocks)|
    ensures img.blocks == Mark(Mark(old(img.blocks), blockInd, true), most, true)
  {
    most := Ssd(img, blockInd, Lt);
  }

  /** `ssd_dissimilar`: the loop as written with `'gt'`. */
  method SsdDissimilar(img: Image, blockInd: nat) returns (most: nat)
    requires img.Valid() && blockInd < |img.blocks|
    modifies img
    ensures img.Valid() && img.pixels == old(img.pixels) && img.Grid() == old(img.Grid())
    ensures most == PartnerAsWritten(Candidates(old(img.blocks), blockInd),
                                     ScoresOf(Wrapped, old(img.Grid()), old(img.blocks), blockInd), Gt)
    ensures most < |old(img.blocks)|
    ensures img.blocks == Mark(Mark(old(img.blocks), blockInd, true), most, true)
  {
    most := Ssd(img, blockInd, Gt);
  }
}
