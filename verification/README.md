# fimg block glitcher, modelled in Dafny

fimg cuts an 8-bit, three-channel image into equal blocks. It then walks the
block list once and pairs blocks, either at random (`random_switch`,
`random_copy`) or by a sum-of-squared-differences metric (`magic` with
`ssd_similar` / `ssd_dissimilar`). Each pair is then exchanged, copied,
averaged or averaged-and-swapped in place. Two colour operations
(`swap_colors`, `swap_single_order`) permute the channels of every pixel.

This project models all of that on one mutable `Image` object, and proves
what each operation does to the pixel buffer and to the block flags. The
modules follow the program's structure:

- `Pixels` (pixels.dfy): uint8 samples and pixels; the `cv2.addWeighted`
  0.5/0.5 blend on one sample; the per-sample squared difference, both as
  numpy computes it in uint8 and exactly.
- `Grids` (grids.dfy): grids of pixels, block rectangles with their
  `changed` flag, and reading and writing a block's region. A chunk handed
  to an assignment is either a view of a block (read when the write
  happens, as a numpy view is) or a copy.
- `Scores` (scores.dfy): the block score, as numpy computes it and exactly.
- `Partition` (partition.dfy): `_get_dims`, the wrap padding of
  `cv2.copyMakeBorder`, and the row-major cells that `get_blocks` creates.
- `Shuffles` (shuffles.dfy): `random_switch` / `random_copy` as functions
  of the state and of the random numbers drawn.
- `Images` (image.dfy): the `Image` class. The pixel buffer is an
  `array2<Pixel>` updated in place. The block list is a `seq<Block>` field
  that the methods reassign. It has the region primitives, the padding and
  tiling, and the random drivers as loops proved against `Shuffles`.
- `Metrics` (metrics.dfy): the `ssd` scan loop, proved against the search
  as written: it starts from index 0 and the sentinel and ranks blocks by
  the uint8 score. Beside it is the corrected search (see Findings).
- `Actions` (actions.dfy): `average`, `average_and_swap`, the `magic` loop
  proved against a turn-by-turn specification, and the two colour
  operations.

The randomness is passed in as data. `uniforms` is the sequence of
`random.uniform(0, 1)` draws. `picks` holds the raw values behind
`random.randint(lo, hi)`, which is `lo + raw mod (hi - lo + 1)`. The metric
and the action that `magic` receives as callables are the datatypes
`Order` (`Lt` for `ssd_similar`, `Gt` for `ssd_dissimilar`) and `Action`.

## Model

| member | source | states |
|---|---|---|
| Pixels.WithSample | main.py:248-249 | writing channel k sets that sample and keeps the other two |
| Pixels.ExchangeSamples | main.py:246-249 | copying two channels and writing each into the other exchanges them and keeps the third |
| Pixels.ExchangeTwice | main.py:246-249 | exchanging the same two channels twice restores the pixel |
| Pixels.Mean | main.py:263 | the 0.5/0.5 blend of two samples lies between them, is within half a unit of their exact mean, and rounds a half to the even neighbour |
| Pixels.MeanSame | main.py:263 | blending a sample with itself returns it |
| Pixels.MeanCommutes | main.py:274 | the blend does not depend on argument order |
| Pixels.MeanPixel | main.py:263 | every channel of the blended pixel is the blend of that channel |
| Pixels.SquaredDiff8 | main.py:305 | the uint8 squared difference is below 256 and zero for equal samples |
| Pixels.PixelScore | main.py:305 | a pixel pair's wrapped score is below 768 and zero for equal pixels |
| Pixels.SquaredDiff | main.py:305 | the exact squared difference is zero exactly when the samples are equal |
| Pixels.PixelSsd | main.py:305 | the exact pixel score is zero exactly when the pixels are equal |
| Grids.Chunk | main.py:180-181 | a block's region has the block's height and width, and its pixel (y, x) is the image pixel at the block's offset plus (y, x) |
| Grids.Paste | main.py:195-197 | assigning a region keeps the image's dimensions, sets the pixels the block covers from the values, and keeps all others |
| Grids.ChunkOfPaste | main.py:195-197 | after an assignment the block's region reads back exactly the values assigned |
| Grids.PasteInside | main.py:195-197 | an assignment keeps every block inside the image |
| Grids.ChunkAfterPasteElsewhere | main.py:195-197 | an assignment leaves every region disjoint from the written block unchanged |
| Grids.PasteTwoDisjoint | main.py:200-202 | two assignments to disjoint blocks: each block holds what was written to it, and regions disjoint from both are unchanged |
| Grids.PasteOwnChunk | main.py:195-197 | writing a region's own contents back leaves the image unchanged |
| Grids.ChunkPixel | main.py:181 | one pixel of a block's region is the image pixel at the block's offset |
| Grids.PasteTwiceSameBlock | main.py:195-197 | of two assignments to the same block only the second shows |
| Grids.Read | main.py:180-181 | a view read on the image has the size of its block |
| Grids.PasteAll | main.py:200-202 | `assign_chunks` keeps the image's dimensions |
| Grids.PasteAllOne | main.py:200-202 | `assign_chunks` with one block is one `assign_chunk` |
| Grids.PasteAllTwo | main.py:200-202 | `assign_chunks` with two blocks writes the first, then reads the second value on the image as the first write left it and writes it |
| Grids.MeanChunk | main.py:263 | the blended chunk has the first chunk's shape and each pixel is the per-pixel blend |
| Grids.MeanChunkSame | main.py:263 | blending a chunk with itself returns the chunk |
| Grids.Mark | main.py:264 | setting one block's flag keeps every rectangle and every other block |
| Scores.RowScore | main.py:305 | a row pair's wrapped score is at most 765 per pixel |
| Scores.SumSquaresZero | main.py:305 | the exact block score is zero exactly for identical chunks |
| Scores.ScoreSame | main.py:305 | a chunk's wrapped score against itself is zero |
| Scores.SinglePixel | main.py:305 | one-pixel chunks score what their pixels score, wrapped and exact |
| Scores.WrappedScoreBlind | main.py:305 | two different one-pixel chunks whose wrapped score is 0 while their exact score is 256 |
| Scores.UniformChunk | main.py:305 | an h by w chunk of one pixel against one of another scores h * w times the pixel score, wrapped and exact |
| Partition.PadAmount | main.py:83-88 | `_get_dims` is below the block size, makes the dimension a multiple of it, is the least such amount, and is 0 exactly when the dimension already divides |
| Partition.PaddedKeepsOriginal | main.py:91-94 | wrap padding keeps the original top-left region, and every pixel repeats the original pixel at the wrapped position |
| Partition.Padded | main.py:94 | the wrap-padded image has the requested height and width |
| Partition.PaddedAt | main.py:94 | one pixel of the padded image is the original pixel at the wrapped position |
| Partition.PaddedSameSize | main.py:99-101 | padding to the same size leaves the image unchanged |
| Partition.Tiles | main.py:105-115 | `get_blocks` creates num_y * num_x cells |
| Partition.TilesStep | main.py:109-115 | each pass of the outer loop appends one row of cells, left to right |
| Partition.Cell | main.py:112 | a cell is a bh by bw rectangle at row r * bh and column c * bw, with its flag clear |
| Partition.CellCovers | main.py:112 | a cell covers pixel (y, x) exactly when y / bh and x / bw are its row and column |
| Partition.CellOf | main.py:109-115 | cell k of the list is in grid row k / num_x and column k % num_x |
| Partition.TilesPartition | main.py:109-115 | every pixel of the padded image is covered by exactly one cell |
| Partition.TilesDisjoint | main.py:109-115 | two different cells share no pixel |
| Partition.TileFits | main.py:105-115 | every cell is a bh by bw rectangle inside the padded image, with its flag clear |
| Shuffles.Window | main.py:128-136 | the partner window contains i, lies within the list, is the whole list for radius 0, and is i ± radius clamped to the list otherwise |
| Shuffles.RandInt | main.py:129 | `randint(lo, hi)` lies in [lo, hi] |
| Shuffles.Attempts | main.py:126-147 | the retry loop uses at least one and at most sixteen draws and ends on a valid index |
| Shuffles.AttemptsPartner | main.py:126-147 | the loop ends at its last draw; it succeeds exactly when that block is unmarked, and gives up only after sixteen draws |
| Shuffles.AttemptsSkipMarked | main.py:126-147 | every draw before the last met a marked block |
| Shuffles.PartnerNear | main.py:128-137 | with a positive radius the partner is within the radius of i; a found partner is unmarked |
| Shuffles.PairMarks | main.py:139-141 | a switch sets the flags of both blocks; a copy sets only the block's |
| Shuffles.Pair | main.py:139-145 | a successful draw keeps dimensions and rectangles and sets exactly the flags of the block and (for a switch) the partner |
| Shuffles.SwitchExchanges | main.py:142-144 | a switch of two disjoint blocks exchanges their regions and keeps every region disjoint from both |
| Shuffles.SwitchSelf | main.py:142-144 | a block switched with itself keeps its pixels |
| Shuffles.CopyOverwrites | main.py:172-174 | a copy writes the partner's region over the block's and keeps every region disjoint from the block |
| Shuffles.Visit | main.py:120-147 | one outer turn: a marked block draws nothing and changes nothing; an unmarked block draws one uniform and changes nothing when it does not exceed rand; flags are only set |
| Shuffles.PassFrom | main.py:118-147 | the outer loop keeps dimensions, rectangles and the layout, consumes at most one uniform per block, only ever sets flags, and changes nothing when no uniform exceeds rand |
| Shuffles.PassFromStep | main.py:120-147 | the pass from block i is block i's turn followed by the pass from block i + 1 |
| Shuffles.Pass | main.py:118-147 | a whole pass keeps dimensions, rectangles and the layout |
| Images.BorderWrap | main.py:94 | the new buffer is dy rows taller and dx columns wider and holds the wrap-padded image |
| Images.WrapRow | main.py:94 | one row of the new buffer becomes the padded row, other rows stay |
| Images.Image.constructor | main.py:50-58 | a new image holds the decoded buffer, the block size, rand and rand_range, and no blocks |
| Images.Image.IsRightSize | main.py:71-80 | `_is_right_size` holds exactly when neither dimension needs padding |
| Images.Image.FixImage | main.py:91-94 | `_fix_image` replaces the buffer by the wrap-padded one, whose dimensions are multiples of the block size |
| Images.Image.PadToBlocks | main.py:99-101 | the buffer is replaced only when it does not divide; it then holds the padded image |
| Images.Image.AppendCells | main.py:102-115 | the nested loop appends exactly the row-major cells of the padded buffer after the blocks already listed |
| Images.Image.GetBlocks | main.py:97-115 | `get_blocks` pads to whole blocks and appends one cell per block in row-major order |
| Images.Image.SetChanged | main.py:140-141 | setting one flag changes only that block's flag |
| Images.Image.GetChunk | main.py:180-181 | `get_chunk` is a view whose reading is the block's current region |
| Images.Image.GetChunks | main.py:184-188 | `get_chunks` returns one view per block, in order |
| Images.Image.AssignChunk | main.py:195-197 | the buffer becomes the old image with the block's region overwritten by the value, read before the write |
| Images.Image.AssignChunks | main.py:200-202 | the buffer becomes the values written one after another, each read after the earlier writes |
| Images.Image.Swap | main.py:191-192 | `swap` writes chunk_2 into block_1 and then chunk_1 into block_2 |
| Images.Image.RandomSwitch | main.py:118-147 | the buffer and flags become the switch pass of the old state |
| Images.Image.RandomCopy | main.py:150-177 | the buffer and flags become the copy pass of the old state |
| Images.Image.RandomPass | main.py:118-147 | the shared outer loop computes the pass |
| Images.Image.PassTurn | main.py:120-147 | one loop turn advances the pass from block i to block i + 1 |
| Images.Image.VisitBlock | main.py:121-147 | one loop body computes one turn, with the advanced cursors |
| Images.Image.DrawPartner | main.py:125-147 | the `while True` loop uses one to sixteen picks, succeeds exactly on an unmarked block, and matches the retry function |
| Images.Image.PairUp | main.py:139-145 | a successful draw applies the switch or the copy |
| Images.Image.SwitchWith | main.py:139-145 | the switch branch marks both blocks and exchanges their regions through a copy of the partner's |
| Images.Image.CopyFrom | main.py:171-175 | the copy branch marks the block and writes a view of the partner's region over it |
| Metrics.Candidates | main.py:297-302 | one entry per block, saying whether the scan may pick it |
| Metrics.Sentinel | main.py:293-296 | a first candidate displaces the starting value whatever it scores under 'gt', and only when it scores below 999999 under 'lt' |
| Metrics.SearchAsWritten | main.py:292-313 | the loop as written keeps either the initial index 0 and the sentinel, or a candidate and its score |
| Metrics.PartnerAsWritten | main.py:292-320 | the index `ssd` returns is a valid block index, and a candidate when it is not 0 |
| Metrics.PartnerAsWrittenIsBest | main.py:292-320 | `ssd` returns 0 when no candidate scores beyond the sentinel; otherwise a candidate that does, that no candidate beats, the first such |
| Metrics.PartnerAmongBlocks | main.py:297-320 | the same, stated on the blocks: 0 when no unmarked block other than the query block scores beyond the sentinel; otherwise such a block that no other beats, the first such |
| Metrics.Search | main.py:297-313 | the corrected search keeps a candidate and its score, and keeps none exactly when there is no candidate |
| Metrics.Partner | main.py:292-320 | the returned index is a valid block index |
| Metrics.SearchIsBest | main.py:297-313 | the kept candidate is beaten by no candidate, and every earlier candidate scores strictly worse, so ties go to the first |
| Metrics.PartnerIsBest | main.py:291-320 | the corrected search returns 0 when no block qualifies; otherwise a qualifying block no other beats, the first such |
| Metrics.AsWrittenAgrees | main.py:292-313 | the loop as written keeps the corrected search's candidate when it beats the sentinel, else (0, sentinel) |
| Metrics.PartnerAgreement | main.py:292-313 | for 'gt' the loop as written always agrees with the corrected search; for 'lt' it does when the best score is below 999999 |
| Metrics.AsWrittenFallsBack | main.py:292-296 | for 'lt', when every candidate scores 999999 or more, the loop as written returns 0 |
| Metrics.SentinelHidesPartner | main.py:292-313 | an image of three grey bands with blocks of 1701 pixels or more: as written `ssd_similar` for block 0 returns 0, the query block itself, while the intended partner is block 2 |
| Metrics.Rank | main.py:292-313 | the scan loop, from index 0 and the sentinel with strict comparisons, computes the search as written over all blocks |
| Metrics.Pick | main.py:291-313 | the partner picked is the one the search as written returns on the uint8 scores |
| Metrics.Ssd | main.py:285-320 | `ssd` keeps the buffer unchanged, returns the partner the search as written picks by the uint8 score, and sets exactly the flags of the query block and the partner |
| Metrics.SsdSimilar | main.py:323-329 | `ssd_similar` is the search as written with 'lt' on the uint8 score |
| Metrics.SsdDissimilar | main.py:332-338 | `ssd_dissimilar` is the search as written with 'gt' on the uint8 score |
| Actions.Effect | main.py:259-275 | an action keeps the image's dimensions, the rectangles and the layout |
| Actions.AverageResult | main.py:259-265 | `average`: b1's region holds the blend of the two chunks, b2's flag is cleared, every other flag stays, and every region disjoint from b1 keeps its pixels |
| Actions.AverageAndSwapResult | main.py:268-275 | `average_and_swap` on disjoint blocks: b1 holds what c2 held, b2 holds the blend, no flag changes, regions disjoint from both keep their pixels |
| Actions.EffectOnItself | main.py:259-275 | either action on a block paired with itself leaves the pixels unchanged |
| Actions.Average | main.py:259-265 | the method computes the `average` effect on the image |
| Actions.AverageAndSwap | main.py:268-275 | the method computes the `average_and_swap` effect on the image |
| Actions.Apply | main.py:230 | the action handed to `magic` is applied |
| Actions.Chosen | main.py:227 | the metric's partner is a valid block index, and an unmarked block other than i when it is not 0 |
| Actions.ChosenPartner | main.py:227-228 | the partner is 0 when no unmarked block other than i scores beyond the sentinel by the uint8 score; otherwise an unmarked block other than i that does, that no other such block beats, the first such |
| Actions.SimilarPicksItself | main.py:227-228 | on the three-band image with blocks of 1701 pixels or more, `ssd_similar` gives block 0 itself as block 0's partner although blocks 1 and 2 are unmarked |
| Actions.Turn | main.py:221-230 | one turn keeps dimensions, rectangles and the layout |
| Actions.Fired | main.py:223-230 | a turn that fires keeps dimensions, rectangles and the layout |
| Actions.TurnFlags | main.py:221-230 | a turn fires only when its draw exceeds rand and the block is unmarked; it then marks the block, leaves the partner marked under `average_and_swap` and clear under `average`, and keeps every other flag; otherwise it changes nothing |
| Actions.TurnSwapKeepsMarks | main.py:221-230 | under `average_and_swap` a turn only ever sets flags |
| Actions.MagicTurns | main.py:218-230 | the first n turns keep dimensions, rectangles and the layout; under `average_and_swap` a marked block stays marked |
| Actions.MagicIdle | main.py:218-230 | when no draw exceeds rand, `magic` changes nothing |
| Actions.RunMetric | main.py:227 | `metric(img, block_index)` returns the partner and marks the block and the partner |
| Actions.MagicTurn | main.py:221-230 | the loop body computes one turn |
| Actions.MagicPair | main.py:223-230 | the firing branch runs the metric, then the action, on views taken after the marking |
| Actions.ActOn | main.py:228-230 | the action runs on views of block_1 and of the partner |
| Actions.Magic | main.py:218-230 | `magic` visits every block index once, in order, drawing `uniforms[k]` for block k, and leaves the state of all the turns |
| Actions.MagicStep | main.py:220-230 | the loop goes from the first i turns to the first i + 1 |
| Actions.ColorsSwapped | main.py:233-237 | `swap_colors` leaves channel 0 holding the old channel 1, channel 1 holding the old channel 0, channel 2 unchanged |
| Actions.ColorsSwappedTwice | main.py:233-237 | swapping the colours twice restores the image |
| Actions.Plane | main.py:234-235 | a copied channel plane has the image's shape |
| Actions.SwapColors | main.py:233-237 | the method leaves the colour-swapped image |
| Actions.OrderSwapped | main.py:240-251 | the pixel at row-major position n has channels n % 3 and (n + 1) % 3 exchanged, carried over from row to row |
| Actions.OrderSwappedTwice | main.py:240-251 | applying `swap_single_order` twice restores the image |
| Actions.SwapSingleOrder | main.py:240-251 | the method leaves the order-swapped image |
| Actions.SwapRow | main.py:245-251 | the inner loop transforms one row, returns the counters advanced by the row's width, and keeps the other rows |

## Left out

- File input and output are not modelled. The constructor takes the decoded buffer instead of reading it with `ndimage.imread`; `save` and the `__main__` script are left out.
- `Block.__str__` is left out, and so are the fields `loc`, `actions` and `metrics`, which the core never reads.
- The `print 'oops'` branch of `get_blocks` is left out. It prints and then appends no cells. After padding, both dimensions are at least one block, so it is never taken.
- `random.uniform` and `random.randint` are passed in as the sequences `uniforms` and `picks`. Which values a real generator produces is left open.
- `cv2.addWeighted` is modelled on integers: the exact mean, rounded half to even. This equals OpenCV's float computation followed by its rounding.
- A Block is a value in a list, identified by its position. Python shares Block objects between the list and local variables. The only writes through a shared object are the flag writes, which the model makes on the list entry. The unused `id` field is kept.
- `magic` accepts any callable as metric and action. The model covers the two metrics and two actions of the program.
- Images with other than three 8-bit channels are not modelled.
- Images.Image.constructor: requires positive block sizes, a natural `rand_range` and a non-empty buffer. With a block size of 0 the code raises ZeroDivisionError in `_is_right_size` and `_get_dims` (main.py:74-75, 85). With a negative `rand_range` the clamped window has `r_start > r_end`, so `random.randint` raises ValueError (main.py:128-137, 159-169). Neither error path is modelled.
- Metrics.PairScore: scores 0 for a pair of blocks outside the image or of different sizes. This case does not arise for blocks created by `get_blocks`.
- Actions.AverageAndSwapResult: stated for disjoint blocks only. Overlapping blocks are covered by `Actions.Effect` (the write order of `assign_chunks`) and, for a block paired with itself, by `Actions.EffectOnItself`.
- Shuffles.SwitchExchanges: stated for disjoint blocks only. A block switched with itself is covered by `Shuffles.SwitchSelf`.

## Notes on the code

- Retry cap: `random_switch` and `random_copy` increment `counter` before the `counter > 15` test, so they make up to sixteen draws.
- No partner: when no candidate beats the sentinel, `ssd` returns 0 and marks block 0, and `magic` still runs the action on the pair (block, block 0). When the block is block 0 itself, the pair is the block with itself.
- Window: `ssd` scans the whole block list. Only `random_switch` and `random_copy` use `rand_range`.
- `average_and_swap` calls `swap(b1, b2, blend, c2)`, which writes `c2` (b2's pixels) into b1 and then the blend into b2.
- Blocks larger than the image: `get_blocks` only prints, and after padding the case cannot arise.
- The block score is computed on uint8 arrays, which wrap (see Findings).

## Findings

The methods (`Metrics.Ssd`, `Actions.Magic` and the members they are proved against) model the code as written. The corrected members stand beside them, with the intended property proved.

| source | as written | input that shows it | evidently intended | confidence | as-written member | corrected member |
|---|---|---|---|---|---|---|
| main.py:305 | `(chunk_1 - chunk_2)**2` is computed on uint8 chunks, so each difference and each square wrap modulo 256 before `np.sum` | one-pixel chunks with samples (16, 0, 0) and (0, 0, 0): the score is 0, although they differ and the exact sum is 256 | the exact sum of squared differences, which is zero only for identical chunks | not executed | Scores.WrappedScoreBlind | Scores.SumSquaresZero |
| main.py:296 | `ssd_similar` starts from 999999 and keeps only scores strictly below it | a 150 by 450 image of three grey bands (levels 0, 15, 14) with 150 by 150 blocks: the other two blocks score 15187500 and 13230000 against block 0. Neither beats 999999, so the scan returns 0, the query block itself | the unused block with the smallest score, block 2 | not executed | Metrics.SentinelHidesPartner | Metrics.PartnerIsBest |
