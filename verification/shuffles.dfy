/** What `random_switch` and `random_copy` compute, as functions of the
    image state and of the random numbers they draw. A run consumes
    `uniforms` (the `random.uniform(0, 1)` draws) and `picks` (raw values
    behind `random.randint`) left to right; `u` and `p` are the cursors. */
module Shuffles {
  import opened Pixels
  import opened Grids
  import opened Partition

  /** Which driver: `random_switch` exchanges the two regions, `random_copy`
      copies the partner's region over the block's own. */
  datatype Kind = Switch | CopyOver

  /** The index range a partner is drawn from for block `i` of `num`: the whole
      list when the radius is 0, otherwise `i` plus or minus the radius,
      clamped to the list. */
  function Window(i: nat, num: nat, randRange: nat): (w: (nat, nat))
    requires i < num
    ensures w.0 <= i <= w.1 < num
    ensures randRange == 0 ==> w.0 == 0 && w.1 == num - 1
    ensures randRange > 0 ==> i - randRange <= w.0 && w.1 <= i + randRange
    ensures randRange > 0 ==> (w.0 == 0 || w.0 == i - randRange) && (w.1 == num - 1 || w.1 == i + randRange)
  {
    if randRange == 0 then (0, num - 1)
    else
      var rStart := if i - randRange < 0 then 0 else i - randRange;
      var rEnd := if i + randRange > num - 1 then num - 1 else i + randRange;
      (rStart, rEnd)
  }

  /** `random.randint(lo, hi)` fed with the raw value `raw`. */
  function RandInt(lo: nat, hi: nat, raw: nat): (j: nat)
    requires lo <= hi
    ensures lo <= j <= hi
  {
    lo + raw % (hi - lo + 1)
  }

  /** The outcome of the retry loop: whether a free partner was met, the
      last index drawn, and how many picks were used. */
  datatype Probe = Probe(found: bool, partner: nat, used: nat)

  /** The `while True` loop from the draw numbered `counter` (counted from 0)
      on: draw an index in the window; stop at the first block whose flag is
      clear, or after the sixteenth draw. */
  function Attempts(bs: seq<Block>, i: nat, randRange: nat, picks: seq<nat>, p: nat, counter: nat): (r: Probe)
    requires i < |bs| && counter < 16 && p + (16 - counter) <= |picks|
    ensures counter < r.used <= 16 && r.partner < |bs|
    decreases 16 - counter
  {
    var j := Drawn(bs, i, randRange, picks, p, 0);
    if !bs[j].changed then Probe(true, j, counter + 1)
    else if counter + 1 > 15 then Probe(false, j, counter + 1)
    else Attempts(bs, i, randRange, picks, p + 1, counter + 1)
  }

  /** The index the `t`-th draw (from 0) of block `i` produces. */
  function Drawn(bs: seq<Block>, i: nat, randRange: nat, picks: seq<nat>, p: nat, t: nat): (j: nat)
    requires i < |bs| && p + t < |picks|
    ensures Window(i, |bs|, randRange).0 <= j <= Window(i, |bs|, randRange).1 < |bs|
  {
    var w := Window(i, |bs|, randRange);
    RandInt(w.0, w.1, picks[p + t])
  }

  /** The retry loop from draw `counter` on ends at its last draw: the
      partner is the index that draw produced (so it lies in the window); the
      loop succeeded exactly when that block is unmarked, and it gives up
      only after the sixteenth draw. */
  lemma {:induction false} AttemptsPartner(bs: seq<Block>, i: nat, randRange: nat, picks: seq<nat>, p: nat, counter: nat)
    requires i < |bs| && counter < 16 && p + (16 - counter) <= |picks|
    ensures var r := Attempts(bs, i, randRange, picks, p, counter);
      && p + (r.used - counter) <= |picks|
      && r.partner == Drawn(bs, i, randRange, picks, p, r.used - counter - 1)
      && (r.found <==> !bs[r.partner].changed)
      && (!r.found ==> r.used == 16)
    decreases 16 - counter
  {
    var j := Drawn(bs, i, randRange, picks, p, 0);
    if !bs[j].changed {
      assert Attempts(bs, i, randRange, picks, p, counter) == Probe(true, j, counter + 1);
    } else if counter + 1 > 15 {
      assert Attempts(bs, i, randRange, picks, p, counter) == Probe(false, j, counter + 1);
    } else {
      AttemptsPartner(bs, i, randRange, picks, p + 1, counter + 1);
      var r := Attempts(bs, i, randRange, picks, p + 1, counter + 1);
      assert Attempts(bs, i, randRange, picks, p, counter) == r;
      DrawnShift(bs, i, randRange, picks, p, r.used - counter - 2);
    }
  }

  /** Draw `t + 1` from cursor `p` is draw `t` from cursor `p + 1`. */
  lemma DrawnShift(bs: seq<Block>, i: nat, randRange: nat, picks: seq<nat>, p: nat, t: nat)
    requires i < |bs| && p + 1 + t < |picks|
    ensures Drawn(bs, i, randRange, picks, p, t + 1) == Drawn(bs, i, randRange, picks, p + 1, t)
  {
    assert p + (t + 1) == (p + 1) + t;
  }

  /** Every draw before the last one met a block already marked. */
  lemma {:induction false} AttemptsSkipMarked(bs: seq<Block>, i: nat, randRange: nat, picks: seq<nat>, p: nat, counter: nat)
    requires i < |bs| && counter < 16 && p + (16 - counter) <= |picks|
    ensures var r := Attempts(bs, i, randRange, picks, p, counter);
      forall t :: 0 <= t < r.used - counter - 1 ==> bs[Drawn(bs, i, randRange, picks, p, t)].changed
    decreases 16 - counter
  {
    var j := Drawn(bs, i, randRange, picks, p, 0);
    if bs[j].changed && counter + 1 <= 15 {
      AttemptsSkipMarked(bs, i, randRange, picks, p + 1, counter + 1);
      var r := Attempts(bs, i, randRange, picks, p + 1, counter + 1);
      forall t | 0 <= t < r.used - counter - 1
        ensures bs[Drawn(bs, i, randRange, picks, p, t)].changed
      {
        if t > 0 {
          DrawnShift(bs, i, randRange, picks, p, t - 1);
        }
      }
    }
  }

  /** The effect of a successful draw pairing block `i` with block `j`.
      Switch: mark `j`, mark `i`, write `i`'s region into `j`'s, then a copy of
      `j`'s old region into `i`'s. CopyOver: mark `i` and write `j`'s region
      into `i`'s. */
  function Pair(kind: Kind, s: State, i: nat, j: nat): (r: State)
    requires Layout(s.grid, s.blocks) && i < |s.blocks| && j < |s.blocks|
    ensures SameDims(r.grid, s.grid) && SameCells(r.blocks, s.blocks)
    ensures Layout(r.grid, r.blocks)
    ensures forall k :: 0 <= k < |s.blocks| ==>
      r.blocks[k].changed == (s.blocks[k].changed || k == i || (kind == Switch && k == j))
  {
    var g, bi, bj := s.grid, s.blocks[i], s.blocks[j];
    var marks := PairMarks(kind, s.blocks, i, j);
    match kind
    case Switch =>
      var g1 := Paste(g, bj, Chunk(g, bi));
      var r := State(Paste(g1, bi, Chunk(g, bj)), marks);
      LayoutKept(g, s.blocks, r.grid, r.blocks);
      r
    case CopyOver =>
      var r := State(Paste(g, bi, Chunk(g, bj)), marks);
      LayoutKept(g, s.blocks, r.grid, r.blocks);
      r
  }

  /** The flags after a successful draw: a switch sets the partner's flag,
      then the block's; a copy sets only the block's. */
  function PairMarks(kind: Kind, bs: seq<Block>, i: nat, j: nat): (r: seq<Block>)
    requires i < |bs| && j < |bs|
    ensures SameCells(r, bs)
    ensures forall k :: 0 <= k < |bs| ==> r[k].changed == (bs[k].changed || k == i || (kind == Switch && k == j))
  {
    match kind
    case Switch => Mark(Mark(bs, j, true), i, true)
    case CopyOver => Mark(bs, i, true)
  }

  /** Cursors and state after a stretch of the pass. */
  datatype Run = Run(state: State, u: nat, p: nat)

  /** Enough random numbers left for the blocks from `i` on: one uniform and
      at most sixteen picks each. */
  predicate Supplied(num: nat, i: nat, uniforms: seq<real>, picks: seq<nat>, u: nat, p: nat) {
    i <= num && u + (num - i) <= |uniforms| && p + 16 * (num - i) <= |picks|
  }

  /** One iteration of the outer loop, for block `i`: a block already marked
      draws nothing; otherwise it draws a uniform and, when that exceeds
      `rand`, runs the retry loop and pairs with the partner if one was free. */
  function Visit(kind: Kind, s: State, i: nat, rand: real, randRange: nat,
                 uniforms: seq<real>, picks: seq<nat>, u: nat, p: nat): (r: Run)
    requires Layout(s.grid, s.blocks) && i < |s.blocks|
    requires Supplied(|s.blocks|, i, uniforms, picks, u, p)
    ensures Layout(r.state.grid, r.state.blocks)
    ensures SameDims(r.state.grid, s.grid) && SameCells(r.state.blocks, s.blocks)
    ensures u <= r.u <= u + 1 && p <= r.p <= p + 16
    ensures forall k :: 0 <= k < |s.blocks| && s.blocks[k].changed ==> r.state.blocks[k].changed
    ensures s.blocks[i].changed ==> r == Run(s, u, p)
    ensures !s.blocks[i].changed && uniforms[u] <= rand ==> r == Run(s, u + 1, p)
  {
    if s.blocks[i].changed then Run(s, u, p)
    else if uniforms[u] > rand then
      var pr := Attempts(s.blocks, i, randRange, picks, p, 0);
      Run(if pr.found then Pair(kind, s, i, pr.partner) else s, u + 1, p + pr.used)
    else Run(s, u + 1, p)
  }

  /** The outer loop from block `i` to the end of the list. It only ever
      sets flags; and when no uniform left exceeds `rand` (as with `rand` = 1,
      since `random.uniform(0, 1)` never exceeds 1) it changes nothing. */
  function PassFrom(kind: Kind, s: State, i: nat, rand: real, randRange: nat,
                    uniforms: seq<real>, picks: seq<nat>, u: nat, p: nat): (r: Run)
    requires Layout(s.grid, s.blocks)
    requires Supplied(|s.blocks|, i, uniforms, picks, u, p)
    ensures Layout(r.state.grid, r.state.blocks)
    ensures SameDims(r.state.grid, s.grid) && SameCells(r.state.blocks, s.blocks)
    ensures u <= r.u <= u + (|s.blocks| - i) && p <= r.p
    ensures forall k :: 0 <= k < |s.blocks| && s.blocks[k].changed ==> r.state.blocks[k].changed
    ensures (forall k :: u <= k < |uniforms| ==> uniforms[k] <= rand) ==> r.state == s
    decreases |s.blocks| - i
  {
    if i == |s.blocks| then Run(s, u, p)
    else
      var v := Visit(kind, s, i, rand, randRange, uniforms, picks, u, p);
      PassFrom(kind, v.state, i + 1, rand, randRange, uniforms, picks, v.u, v.p)
  }

  /** The outer loop's first turn followed by the rest of the loop. */
  lemma PassFromStep(kind: Kind, s: State, i: nat, rand: real, randRange: nat,
                     uniforms: seq<real>, picks: seq<nat>, u: nat, p: nat)
    requires Layout(s.grid, s.blocks) && i < |s.blocks|
    requires Supplied(|s.blocks|, i, uniforms, picks, u, p)
    ensures var v := Visit(kind, s, i, rand, randRange, uniforms, picks, u, p);
      Supplied(|s.blocks|, i + 1, uniforms, picks, v.u, v.p) &&
      PassFrom(kind, s, i, rand, randRange, uniforms, picks, u, p)
        == PassFrom(kind, v.state, i + 1, rand, randRange, uniforms, picks, v.u, v.p)
  {
  }

  /** A whole pass from a fresh start. */
  function Pass(kind: Kind, s: State, rand: real, randRange: nat, uniforms: seq<real>, picks: seq<nat>): (r: State)
    requires Layout(s.grid, s.blocks)
    requires Supplied(|s.blocks|, 0, uniforms, picks, 0, 0)
    ensures Layout(r.grid, r.blocks) && SameDims(r.grid, s.grid) && SameCells(r.blocks, s.blocks)
  {
    PassFrom(kind, s, 0, rand, randRange, uniforms, picks, 0, 0).state
  }

  /** A switch of two non-overlapping blocks exchanges their regions and
      leaves every region disjoint from both as it was. */
  lemma SwitchExchanges(s: State, i: nat, j: nat)
    requires Layout(s.grid, s.blocks) && i < |s.blocks| && j < |s.blocks|
    requires Disjoint(s.blocks[i], s.blocks[j])
    ensures var r, bi, bj := Pair(Switch, s, i, j).grid, s.blocks[i], s.blocks[j];
      Inside(bi, r) && Inside(bj, r) &&
      Chunk(r, bi) == Chunk(s.grid, bj) && Chunk(r, bj) == Chunk(s.grid, bi) &&
      forall b :: Inside(b, s.grid) && Disjoint(bi, b) && Disjoint(bj, b) ==>
        Inside(b, r) && Chunk(r, b) == Chunk(s.grid, b)
  {
    var g, bi, bj := s.grid, s.blocks[i], s.blocks[j];
    var ci, cj := Chunk(g, bi), Chunk(g, bj);
    var g1 := Paste(g, bj, ci);
    PasteInside(g, bj, ci, bi);
    ChunkOfPaste(g, bj, ci);
    ChunkOfPaste(g1, bi, cj);
    DisjointSym(bi, bj);
    ChunkAfterPasteElsewhere(g1, bi, cj, bj);
    forall b | Inside(b, g) && Disjoint(bi, b) && Disjoint(bj, b)
      ensures Inside(b, Paste(g1, bi, cj)) && Chunk(Paste(g1, bi, cj), b) == Chunk(g, b)
    {
      ChunkAfterPasteElsewhere(g, bj, ci, b);
      ChunkAfterPasteElsewhere(g1, bi, cj, b);
    }
  }

  /** A block drawn as its own partner is marked, and its pixels stay. */
  lemma SwitchSelf(s: State, i: nat)
    requires Layout(s.grid, s.blocks) && i < |s.blocks|
    ensures Pair(Switch, s, i, i).grid == s.grid
  {
    var g, b := s.grid, s.blocks[i];
    PasteOwnChunk(g, b);
  }

  /** A copy writes the partner's region over the block's and, when the two
      do not overlap, leaves the partner's region and every region disjoint
      from the block as it was. */
  lemma CopyOverwrites(s: State, i: nat, j: nat)
    requires Layout(s.grid, s.blocks) && i < |s.blocks| && j < |s.blocks|
    ensures var r, bi, bj := Pair(CopyOver, s, i, j).grid, s.blocks[i], s.blocks[j];
      Inside(bi, r) && Chunk(r, bi) == Chunk(s.grid, bj) &&
      forall b :: Inside(b, s.grid) && Disjoint(bi, b) ==> Inside(b, r) && Chunk(r, b) == Chunk(s.grid, b)
  {
    var g, bi, bj := s.grid, s.blocks[i], s.blocks[j];
    ChunkOfPaste(g, bi, Chunk(g, bj));
    forall b | Inside(b, g) && Disjoint(bi, b)
      ensures Inside(b, Paste(g, bi, Chunk(g, bj))) && Chunk(Paste(g, bi, Chunk(g, bj)), b) == Chunk(g, b)
    {
      ChunkAfterPasteElsewhere(g, bi, Chunk(g, bj), b);
    }
  }

  /** With a positive radius, the partner found for block `i` lies within
      `randRange` places of it; with radius 0 it may be any block, `i`
      itself included. */
  lemma PartnerNear(bs: seq<Block>, i: nat, randRange: nat, picks: seq<nat>, p: nat)
    requires i < |bs| && p + 16 <= |picks|
    ensures var r := Attempts(bs, i, randRange, picks, p, 0);
      r.partner < |bs| && (randRange > 0 ==> i - randRange <= r.partner <= i + randRange) &&
      (r.found ==> !bs[r.partner].changed)
  {
    AttemptsPartner(bs, i, randRange, picks, p, 0);
  }
}
