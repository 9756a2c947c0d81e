# libadiff content-defined-chunking diff, modelled in Dafny

libadiff compares two streams of samples (bytes or audio frames). It works in three steps:

1. **Chunking.** Each stream is cut into content-defined chunks. A chunk ends where the low bits of a rolling window hash are zero.
2. **Matching.** The chunk lists of the two sides are compared by chunk hash.
3. **Hunks.** Runs of chunks that only one side has become changed regions, called hunks.

The repository contains several drafts of this pipeline. The model covers each of them:

- **Types** (`types.dfy`): chunks, views and hunks. Linked lists are sequences, C `unsigned` positions are naturals, and `hash` is a 32-bit newtype.
- **CountingTable** (`src/hash_counting_table.c`): the hash multiset, modelled as a map from hash to a positive count.
- **HunkFactory** (`src/hunk.c`): the chunk-to-hunk matcher.
  - `HunkFactoryLoop` is the loop as written. Its invariant is that the counting table holds exactly the hashes of the `b` chunks after the cursor.
  - It is proved equal to a table-free recursion (`Gaps`).
- **Block** and **Diff** (`src/block.c`, `src/diff.c`): the anchor/virtual-offset pipeline.
  - `unique_blocks` turns the gaps between common chunks into blocks labelled with the preceding common ("anchor") chunk's hash.
  - `pair_blocks` merges two block lists into one virtual coordinate stream.
- **ContentChunker**, **Chunker**, **Bdiff** (`src/chunk.c`, `src/bdiff.c`): the two chunkers.
  - They share one scanning recursion, which differs only in the end of the trailing chunk.
  - `src/bdiff.c`'s loop uses the concrete Rabin hash. It is proved equal to the recursion, buffer by buffer, through `test_reader`.
- **Rabin** (`src/rabin.c`): the 9-bit GF(2) hash modulo t^9 + t + 1, on `bv32`.
- **Fetcher**: `test_reader` and the do-while read loop.
- **Narrowing** (`src/narrowing.c`): refines chunk-aligned rough hunks to sample boundaries. It uses common-prefix and common-suffix searches, the slide aligner, and the carried start shoves. The C `assert`s become `Failure` results.
- **PyDiff** (`diff.py`): the Python draft. It covers the window chunker, the first-occurrence chunk dictionary, `_find_prev_common_chunk`, contiguous runs, and the `_do_diff` merge.
- **DraftDiff** (`diff.c`): the earliest C draft. It covers `view_new` with 32-bit wrap-around, the hash set, and the order-preserving `unique_blocks` filter.
- **Overlay** (`python/util.py`): `overlay_lists`.
- **PolyRabin** (`python/rabin.py`): tuple-polynomial `sub`, `concat`, `f`, and the script's rolling loop.

The hash functions whose bodies are not part of this model are function parameters of the chunkers. These are the window hash, the hash of `include/rabin.h`, glib's string hash and Python's `hash`. Each is applied to the units fed since the last reset, which is exact for any deterministic hash that can be reset. Reads from a fetcher are slices of a sequence.

## Model

| member | source | states |
|---|---|---|
| Types.GaplessIsOrdered | src/chunk.c:54-56 | a chained chunk list (each chunk starts where the previous ended) has well-formed, non-overlapping, ordered views |
| Types.GaplessEndsBounded | src/chunk.c:54-56 | in a chained list every chunk ends no later than the last chunk |
| Types.GaplessMonotone | src/chunk.c:54-56 | in a chained list starts never decrease and an earlier chunk ends before a later one starts |
| CountingTable.Get | src/hash_counting_table.h:21-27 | the count of a key, and 0 exactly when the key is absent |
| CountingTable.Inc | src/hash_counting_table.c:14-20 | returns the pre-increment count (0 for an absent key), raises only that key's count and by exactly 1, keeps every stored count positive |
| CountingTable.Dec | src/hash_counting_table.c:27-36 | returns the pre-decrement count; an absent key leaves the table unchanged; count 1 removes the key; a larger count drops by one; other keys are untouched |
| CountingTable.IncThenDec | src/hash_counting_table.c:14-36 | inc followed by dec on the same key restores the original table |
| CountingTable.FromSeqCounts | src/hunk.c:5-13 | the table built by one inc per hash counts exactly the multiset of the hashes |
| CountingTable.DecFront | src/diff.c:14-25 | popping the first hash of a list from the table of that list succeeds and leaves the table of the rest |
| CountingTable.TableTestVectors | tests/unittest_hash_counting_table.c:9-32 | on the fixture {1, 2, 2}: inc(3) returns 0, then 1, inc(2) returns 2; dec returns 0, 1, 0, 2, 1 |
| Block.BlockNew | src/block.c:3-8 | the block starts at the anchor's end, ends at the given end and carries the anchor's hash, not a content hash |
| Block.ZeroAnchor | src/diff.c:22-23 | with the zero anchor a block starts at 0 and carries hash 0 |
| Fetcher.TestReader | src/bdiff.c:63-75 | copies k = min(n_items, length - pos) items from pos, advances pos by k and returns k |
| Fetcher.ReadAll | src/bdiff.c:19-34 | the do-while read loop reads the rest of the data in order and stops on the first call returning 0, which happens only at the end; with request size 0 nothing is read |
| Rabin.HashDataReset | src/rabin.c:40-48 | the reset state has h = 1 and equals the state `Rabin.HashDataInit` returns |
| Rabin.F | src/rabin.c:33-38 | f leaves i < 512 unchanged and returns i XOR 515 for every i >= 512, which is below 512 when i < 1024 |
| Rabin.TPow | src/rabin.c:9-11 | t^l modulo the irreducible polynomial fits in 9 bits |
| Rabin.MaskIsShift | src/rabin.c:53 | the mask 0x1 << (p - 1) selects bit p - 1 of the byte |
| Rabin.UpdateBitIsF | src/rabin.c:52-59 | `Rabin.UpdateBit`, one turn of the bit loop: for a 9-bit hash one round is "multiply by t, add the bit, reduce with f" and stays below 512 |
| Rabin.HashDataUpdate | src/rabin.c:50-62 | hash_data_update against `Rabin.UpdateByte`: the bit loop feeds the byte most significant bit first, stores and returns the new hash; a hash below 512 stays below 512 |
| Rabin.ShiftInBit | src/rabin.c:52-59 | one round shifts in bit p - 1 and XORs with 515 when bit 9 is set |
| Rabin.RabinHash | src/rabin.c:40-62 | the hash of any byte sequence fed into a fresh state is below 512 |
| Rabin.RabinHashSnoc | src/rabin.c:50-62 | hashing one more byte is one more hash_data_update |
| Rabin.UpdateBitsBounded | src/rabin.c:51-60 | any number of rounds of the bit loop keeps a 9-bit hash below 512 |
| Rabin.UpdateByteBounded | src/rabin.c:50-62 | hash_data_update keeps a 9-bit hash below 512 |
| Rabin.FPowTL | src/rabin.c:12-31 | f_pow_t_l returns 1 << l for l < 9, and in general t^l modulo t^9 + t + 1, never above 0x1FF |
| Rabin.PowBelowDegree | src/rabin.c:13-15 | below degree 9, t^l needs no reduction: it is 1 << l |
| Rabin.MulTStep | src/rabin.c:20-29 | one round of the do-while multiplies the 9-bit polynomial partial + quotient * t^8 by t modulo the polynomial |
| ContentChunker.ScanTiles | src/bdiff.c:19-40 | `ContentChunker.Scan`, the read loop and tail: the scan emits a chained list from the open chunk's start to the end of the data plus the tail, and emits nothing only when nothing is left to read |
| ContentChunker.SplitTiles | src/bdiff.c:15-40 | `ContentChunker.Split`, split_data over any chunk hash: empty data gives no chunks; otherwise the chunks start at 0, are contiguous and end at the units read plus the tail |
| ContentChunker.ScanCharacterized | src/bdiff.c:21-33 | the scan from any reset point satisfies the boundary characterization |
| ContentChunker.NoBoundaryExtend | src/bdiff.c:23 | a unit that is not a boundary extends the boundary-free stretch since the reset |
| ContentChunker.CharacterizedCons | src/bdiff.c:23-30 | a closed chunk followed by the chunks scanned after its reset is characterized |
| ContentChunker.SplitCharacterized | src/bdiff.c:22-36 | every chunk but the last ends at the first unit since the previous reset whose window hash has a zero low byte, and carries the hash of the units fed since that reset; the last chunk contains no boundary |
| ContentChunker.CharacterizedUnique | src/bdiff.c:19-40 | two chained lists that start at the same position and satisfy the characterization for the same data are equal |
| ContentChunker.ShortUnique | src/bdiff.c:35-36 | if either characterized list is a single chunk, both are the same trailing chunk |
| ContentChunker.ClosedNotTrailing | src/bdiff.c:23-36 | no reset point starts both a closed chunk and the trailing chunk |
| ContentChunker.FirstBoundaryUnique | src/bdiff.c:23 | two "first boundary since the reset" positions coincide |
| ContentChunker.SplitUnique | src/bdiff.c:19-40 | any chained list satisfying the boundary characterization is the chunker's output |
| ContentChunker.ScanShift | src/chunk.c:60-61 | scanning data behind a prefix, from a reset point, gives the scan of the data alone moved by the prefix length |
| ContentChunker.ScanShiftBoundary | src/chunk.c:53-61 | the ScanShift step at a boundary: the closed chunk moves by the prefix length too |
| ContentChunker.ScanShiftInner | src/chunk.c:48-52 | the ScanShift step inside a chunk: both scans only update the chunk hash |
| ContentChunker.FedShift | src/chunk.c:48-52 | the units fed since a reset behind a prefix are the units fed in the data alone |
| ContentChunker.ScanIgnoresConsumed | src/chunk.c:60-61 | after a reset the scan does not depend on any unit before the reset point |
| ContentChunker.ScanAfterBoundary | src/chunk.c:53-61 | after chunk k is closed, the rest of the output is a fresh scan from the reset that followed it |
| ContentChunker.Resync | src/chunk.c:60-61 | two streams that agree after a closed chunk in each give the same remaining chunks, each moved by where its closing unit sits |
| Chunker.ChunkNew | src/chunk.c:6-15 | the new chunk has the given start, end and hash and is linked after the tail; the earlier chunks are unchanged |
| Chunker.SplitSamplesTiles | src/chunk.c:35-72 | `Chunker.SplitSamples`, split_data of the chunk test: the first chunk starts at 0 and chunks are contiguous; there are no chunks iff no samples; otherwise the last chunk ends at the number of samples plus one |
| Chunker.SplitSamplesBoundaries | src/chunk.c:44-62 | the boundary test is made at a sample's last byte: every chunk but the last ends at the first sample since the reset whose last byte zeroes the low byte of the window hash |
| Chunker.SplitSamplesResync | src/chunk.c:60-61 | two sample streams that agree after a boundary in each end in the same number of chunks with equal trailing hashes, starts and ends moved by the boundary offset |
| Bdiff.RabinDigest | src/bdiff.c:22 | the chunk hash of the bytes fed since the last reset fits in 9 bits |
| Bdiff.SplitDataTiles | src/bdiff.c:15-40 | `Bdiff.SplitData`, the byte chunker: its chunks start at 0 and are contiguous, there are none iff the data is empty, the last ends at the total read, and every hash is below 512 |
| Bdiff.CharacterizedHashes | src/bdiff.c:22-36 | every chunk hash is a Rabin hash or inherited from one, so it fits in 9 bits |
| Bdiff.RabinStep | src/bdiff.c:22 | feeding byte i updates the hash of the bytes fed since the reset to the hash including byte i |
| Bdiff.AdvanceHash | src/bdiff.c:22 | the updated Rabin state is the chunk hash of the bytes fed since the last reset, byte i included |
| Bdiff.AdvanceKeeps | src/bdiff.c:21-32 | one byte of the inner loop keeps the loop's locals in step with the reference chunker |
| Bdiff.BoundaryKeeps | src/bdiff.c:23-30 | at a boundary the chunk [start, i) with the current hash is emitted, the next chunk starts at i, the hash is reset and the locals stay in step |
| Bdiff.ProcessByte | src/bdiff.c:22-32 | the inner-loop body over byte i keeps the locals in step with the reference chunker |
| Bdiff.ProcessBuffer | src/bdiff.c:21-33 | the inner loop over one fetched buffer keeps the locals in step and advances by the buffer's length |
| Bdiff.FetchAndScan | src/bdiff.c:19-34 | one outer turn fetches with test_reader and scans what was read; a fetch of 0 happens only at the end of the data |
| Bdiff.ScanFinish | src/bdiff.c:35-40 | emitting the open chunk only when bytes remain after the last boundary completes the reference chunker |
| Bdiff.SplitDataLoop | src/bdiff.c:10-42 | split_data as written, with 4096-byte fetches, computes the reference chunk list |
| Bdiff.UniqueBlocksWellFormed | src/diff.c:9-49 | the blocks unique to a chained chunk list are non-empty and ordered |
| Bdiff.BdiffSame | src/bdiff.c:44-55 | with the corrected pair_blocks, a stream diffed against itself gives no hunks |
| Bdiff.BdiffSound | src/bdiff.c:44-55 | `Bdiff.Bdiff` with the corrected pair_blocks: its hunks carry, on each side, exactly that side's unique blocks in order, follow one another in virtual space, and fail only on a paired-start mismatch |
| Diff.Marks | src/diff.c:14-25 | chunk k is common iff the other side has more chunks with its hash than ours has before k |
| Diff.PopStep | src/diff.c:25 | a pop succeeds exactly for a common chunk, and the multiset then holds the other side's hashes not yet consumed |
| Diff.WalkFollowsMarks | src/diff.c:21-46 | the multiset walk builds the same blocks as the gap walk over the common marks |
| Diff.UniqueBlocksByMarks | src/diff.c:9-49 | unique_blocks equals the gap walk over the chunks that are common |
| Diff.AnchorOfPrev | src/diff.c:29 | a block built from the last common chunk carries that anchor's hash and starts at its end |
| Diff.CloseGapCoverage | src/diff.c:27-33 | closing the gap at the next common chunk's start (or at the last chunk's end) keeps "in a block iff not in a common chunk" exact up to that chunk |
| Diff.CommonStep | src/diff.c:25-35 | at a common chunk the gap before it becomes a block if non-empty and the chunk becomes the anchor |
| Diff.UniqueStep | src/diff.c:24-36 | a chunk that is not common only extends the gap |
| Diff.LastStep | src/diff.c:38-46 | the last chunk ends the final gap at its start if it is common, at its end otherwise |
| Diff.GapBlocksResult | src/diff.c:21-46 | the walk ends with blocks covering exactly the positions no common chunk covers |
| Diff.UniqueBlocksShape | src/diff.c:9-49 | `Diff.UniqueBlocks` on a chained list: blocks are non-empty, ordered and inside the data; a position is in a block iff no common chunk covers it; every block carries the hash of the common chunk ending where it starts, or 0 at position 0 |
| Diff.AllCommon | src/diff.c:14-25 | against itself every chunk is common |
| Diff.GapBlocksAllCommon | src/diff.c:27 | when every chunk is common there are no gaps and no blocks |
| Diff.UniqueBlocksIdentical | tests/unittest_block.c:26-28 | identical chained chunk lists have no unique blocks |
| Diff.BlockVectorsTrivial | tests/unittest_block.c:9-28 | no chunks of our own gives none; nothing to compare with gives the block (0, 3, hash 0); identical lists give none |
| Diff.BlockVectorAllUnique | tests/unittest_block.c:30-33 | all chunks unique gives the single block (0, 3, hash 0) |
| Diff.BlockVectorInsertAtStart | tests/unittest_block.c:35-42 | an insertion at the start gives the block (0, 1, hash 0) |
| Diff.BlockVectorChangeAtStart | tests/unittest_block.c:44-52 | a change at the start gives the block (0, 1, hash 0) |
| Diff.BlockVectorChangeAtEnd | tests/unittest_block.c:54-64 | a change at the end gives the block (2, 3) anchored on hash 2 |
| Diff.BlockVectorChangeInMiddle | tests/unittest_block.c:66-76 | a change in the middle gives the block (1, 2) anchored on hash 1 |
| Diff.PairBlocksAsWrittenCrashes | src/diff.c:74-79 | `Diff.PairBlocksAsWritten` and its merge `Diff.MergeAsWritten` as written: a = [(5, 6)] and b = [(0, 1)] with different anchors emit the later a block first, then take the a branch with no a block left |
| Diff.PairBlocksCorrected | src/diff.c:74-84 | with the corrected choice the same input succeeds, emitting the b block at 0 and then the a block |
| Diff.MergeProjects | src/diff.c:55-89 | `Diff.Merge`, the corrected merge: its a-sides are the remaining a blocks in order, its b-sides the remaining b blocks, every hunk has a side, and it fails only on the start assertion |
| Diff.PairedProjects | src/diff.c:62-72 | a paired hunk in front keeps both projections |
| Diff.AProjects | src/diff.c:74-78 | an a-only hunk in front keeps both projections |
| Diff.BProjects | src/diff.c:80-84 | a b-only hunk in front keeps both projections |
| Diff.MergeOrdered | src/diff.c:55-89 | the corrected merge emits hunks in increasing virtual order, each ending before the next starts |
| Diff.PairedPending | src/diff.c:65-70 | after a paired hunk both sides resume at its virtual start plus max(a length, b length) |
| Diff.APending | src/diff.c:76-78 | after an a-only hunk the b offset grows by its length, so pending blocks start after it |
| Diff.BPending | src/diff.c:81-83 | after a b-only hunk the a offset grows by its length, so pending blocks start after it |
| Diff.PairedCons | src/diff.c:62-72 | a paired hunk at the common virtual start followed by an ordered rest is ordered |
| Diff.ACons | src/diff.c:74-78 | an a-only hunk at its virtual start followed by an ordered rest is ordered |
| Diff.BCons | src/diff.c:80-84 | a b-only hunk at its virtual start followed by an ordered rest is ordered |
| Diff.PairBlocksSound | src/diff.c:51-91 | `Diff.PairBlocks`, the corrected pair_blocks: on ordered non-empty blocks, every block appears exactly once on its own side in order, hunks follow one another in virtual space, and only a paired-start mismatch fails |
| Diff.MergeAgainstNothing | src/diff.c:74-78 | with no b blocks every a block becomes an a-only hunk at its own start |
| Diff.PairBlocksLoop | src/diff.c:51-91 | the loop with running offsets and starts computes the corrected merge |
| DraftDiff.ViewNew | diff.c:16-23 | the view keeps start and end, its data offset is start, and its length is end - start modulo 2^32 |
| DraftDiff.ViewNewRoundTrip | diff.c:16-23 | start plus length leads back to end modulo 2^32 |
| DraftDiff.HashSetNew | diff.c:46-52 | a new hash set contains nothing |
| DraftDiff.HashSetInsert | diff.c:54-56 | after insert the hash is present and no other membership changes |
| DraftDiff.InsertAllContains | diff.c:54-60 | hash_set_contains is true iff the hash was present or inserted |
| DraftDiff.Unique | diff.c:76-81 | the reference filter keeps exactly the chunks whose hash is not in the set |
| DraftDiff.UniqueOrdered | diff.c:76-83 | the filter keeps the original order |
| DraftDiff.Reverse | diff.c:83 | g_slist_reverse puts element k at position n - 1 - k |
| DraftDiff.CollectHashes | diff.c:69-73 | the first loop inserts every hash of the other list |
| DraftDiff.CollectUnique | diff.c:75-83 | prepending the survivors and reversing gives the filter in original order |
| DraftDiff.UniqueSnoc | diff.c:77-79 | one more chunk is kept exactly when its hash is absent |
| DraftDiff.ReverseSnoc | diff.c:78 | prepending then reversing is appending |
| DraftDiff.UniqueBlocks | diff.c:66-84 | unique_blocks returns the chunks of ours whose hash no chunk of the other list has, in order |
| DraftDiff.UniqueBlocksExact | diff.c:66-84 | the result is an order-preserving subsequence, and a chunk is in it iff it is in ours and no chunk of the other list has its hash |
| HunkFactory.PossiblyAppend | src/hunk.c:15-32 | appends the hunk (a_start, a_end, b_start, b_end) iff one of its views is non-empty, leaving the earlier hunks alone |
| HunkFactory.FirstFrom | src/hunk.c:47-50 | the index the inner while stops at: the first chunk at or after the cursor with the hash |
| HunkFactory.GapsCommonStep | src/hunk.c:45-60 | a chunk of a with a partner after the cursor reports the gap before the pair and moves both gap starts past it |
| HunkFactory.GapsSkipStep | src/hunk.c:44-45 | a chunk of a without a partner after the cursor changes nothing |
| HunkFactory.OccursFromCount | src/hunk.c:45 | a hash occurs after the cursor iff the table built from the suffix counts it |
| HunkFactory.DecAdvance | src/hunk.c:48-49 | popping the hash of the chunk under the cursor succeeds and keeps the table equal to the suffix's hashes |
| HunkFactory.SkipToMatch | src/hunk.c:47-50 | the inner while stops at the first matching chunk, never past the end of b, with the table still counting the suffix |
| HunkFactory.Pop | src/hunk.c:59-60 | popping the matched chunk moves the cursor past it and keeps the table in step |
| HunkFactory.TakeMatch | src/hunk.c:47-60 | skip to the first matching chunk and pop it, keeping the table in step |
| HunkFactory.MatchCommon | src/hunk.c:45-61 | the matching branch of the outer loop keeps the table invariant and the remaining hunks |
| HunkFactory.MatchOne | src/hunk.c:44-62 | one iteration of the outer loop keeps the table invariant and the remaining hunks |
| HunkFactory.HunkFactoryLoop | src/hunk.c:34-72 | hunk_factory as written computes the table-free gap recursion `HunkFactory.Gaps` |
| HunkFactory.GapsNonEmpty | src/hunk.c:15-31 | every hunk the recursion reports is non-empty on some side |
| HunkFactory.MatchNonEmpty | src/hunk.c:18 | no hunk is empty on both sides |
| HunkFactory.GapsIdentical | src/hunk.c:44-68 | with equal lists every chunk pairs with itself and no gap opens |
| HunkFactory.MatchIdentical | tests/unittest_hunk.c:13-15 | a chained list compared with itself yields no hunks |
| HunkFactory.MatchAEmpty | tests/unittest_hunk.c:27-32 | with a empty the only hunk is (0, 0, 0, end of b), or none when b is empty too |
| HunkFactory.GapsAgainstNothing | src/hunk.c:44-68 | with b empty no chunk pairs and the trailing hunk covers a |
| HunkFactory.MatchBEmpty | tests/unittest_hunk.c:34-39 | with b empty the only hunk is (0, end of a, 0, 0), or none when a is empty too |
| HunkFactory.AppendOrdered | src/hunk.c:52-57 | a gap hunk starting at the previous ends keeps the list ordered |
| HunkFactory.OrderedSnoc | src/hunk.c:24-27 | a well-formed hunk after the last one extends an ordered list |
| HunkFactory.GapsOrdered | src/hunk.c:44-68 | `HunkFactory.Gaps`, the gap recursion, keeps the hunks well-formed and ordered |
| HunkFactory.MatchOrdered | src/hunk.c:34-72 | `HunkFactory.MatchChunks`, hunk_factory's result: for chained lists the hunks are well-formed and do not overlap on either side |
| HunkFactory.DuplicateAnchorsMatch | tests/unittest_hunk.c:167-172 | the duplicate-anchor lists give exactly (3, 6, 3, 5) and (8, 10, 7, 10) |
| HunkFactory.DuplicateAnchorsPairs | src/hunk.c:45-60 | the three leading chunks pair without a gap |
| HunkFactory.DuplicateAnchorsSkips | src/hunk.c:44-45 | a[3..6] carry a hash b no longer has and are skipped |
| HunkFactory.NoHashTwo | tests/unittest_hunk.c:155-165 | no chunk of b from index 3 on has hash 2 |
| HunkFactory.DuplicateAnchorsGap | src/hunk.c:47-60 | a[6] pairs with b[5], reporting (3, 6, 3, 5); a[7] pairs with b[6] |
| HunkFactory.DuplicateAnchorsTail | src/hunk.c:63-68 | the last chunks find no partner and the trailing hunk is (8, 10, 7, 10) |
| HunkFactory.DuplicateAnchorsChunks | tests/unittest_hunk.c:145-165 | the fixture's unit chunks, written out |
| HunkFactory.DuplicateAnchorsVector | tests/unittest_hunk.c:144-176 | test_consecutive_duplicate_anchors: the hunks are (3, 6, 3, 5) and (8, 10, 7, 10) |
| Narrowing.Min | src/narrowing.c:7-9 | the smaller of two values |
| Narrowing.Min3 | src/narrowing.c:11-14 | the smallest of three values |
| Narrowing.Max | src/narrowing.c:16-18 | the larger of two values |
| Narrowing.ClampedSubtract | src/narrowing.c:131-133 | a - b when a > b, else 0 |
| Narrowing.ReadAt | src/narrowing.c:40-45 | a read returns at most n items from the position, fewer only at the end of the data |
| Narrowing.CommonPrefix | src/narrowing.c:32-66 | the common prefix is at most the cap, within both sides, and stops at the cap, an end, or a difference |
| Narrowing.CommonPrefixAgrees | src/narrowing.c:47-54 | the skipped samples agree pairwise |
| Narrowing.CommonPrefixUnique | src/narrowing.c:32-66 | any count with the common-prefix properties is the common prefix |
| Narrowing.PrefixStep | src/narrowing.c:51-53 | an agreeing sample adds one to the prefix; a differing one ends it |
| Narrowing.PrefixExhausted | src/narrowing.c:55-62 | where either side has run out nothing more is shared |
| Narrowing.FindStartDelta | src/narrowing.c:32-66 | find_start_delta, reading in batches, returns the common prefix capped at max_length |
| Narrowing.StartBatch | src/narrowing.c:40-63 | one pass either ends the search with the rest of the prefix or consumes a full agreeing batch |
| Narrowing.ComparePrefix | src/narrowing.c:47-54 | the byte loop over a batch returns the index of the first differing sample, or the shorter read's length |
| Narrowing.CommonSuffix | src/narrowing.c:72-94 | the common suffix before the ends is at most the cap and stops at the cap or a difference |
| Narrowing.CommonSuffixAgrees | src/narrowing.c:83-90 | the samples of the common suffix agree pairwise |
| Narrowing.CommonSuffixUnique | src/narrowing.c:72-94 | any count with the common-suffix properties is the common suffix |
| Narrowing.ScannedAll | src/narrowing.c:78-93 | after the whole window is scanned, end_delta is the common suffix |
| Narrowing.ScanOne | src/narrowing.c:86-89 | a difference at window position p sets end_delta to the positions after it |
| Narrowing.ScanBatch | src/narrowing.c:83-90 | the inner loop over one batch keeps end_delta equal to the positions after the last difference seen |
| Narrowing.FindEndDelta | src/narrowing.c:72-94 | find_end_delta, against `Narrowing.EndDelta`: it returns the common suffix of the last end_delta samples, or a failed read assertion |
| Narrowing.Slidey | src/narrowing.c:100-126 | slidey_aligner returns at most the slide distance it is given |
| Narrowing.SlideyLargest | src/narrowing.c:104-125 | the result is the largest slide that aligns, or 0 when none does |
| Narrowing.AlignedMeans | src/narrowing.c:105-123 | a slide of d aligns iff d + 1 samples agree from fixed_start and from sliding_end - d |
| Narrowing.PrefixAll | src/narrowing.c:47-65 | when the next cap samples exist and agree the common prefix is the cap |
| Narrowing.Realign | src/narrowing.c:150-166 | the slide keeps the earlier hunks well-formed and their number unchanged; a shove survives only on a side that carried one; with nothing carried the state is unchanged |
| Narrowing.TrimEnd | src/narrowing.c:195-203 | the end trim is at most both lengths and max_chunk_size |
| Narrowing.TrimEndCommon | src/narrowing.c:195-205 | what the end trim removes agrees on both sides |
| Narrowing.Place | src/narrowing.c:167-205 | placing a rough hunk either drops it and carries no shove, or appends exactly one well-formed hunk after the earlier ones, whose starts are the rough starts plus the carried shoves plus one common prefix on both sides; a shove is carried on at most one side; a common prefix longer than max_chunk_size fails |
| Narrowing.PlaceAt | src/narrowing.c:173-205 | after the start shove, the hunk is dropped with no shove carried iff both starts sit at their ends; both starts past their ends fail; otherwise one well-formed hunk starting at the given starts is appended after the earlier ones, each shove is how far its start overtook its end (at most one side), and both shoved ends are trimmed by the same amount |
| Narrowing.AppendPlaced | src/narrowing.c:182-205 | the appended hunk runs from the starts and is well-formed; both ends are trimmed by one shared amount, the common suffix of the last min3 samples (none when min3 is 0); it fails iff that window runs past the data; the shoves are carried |
| Narrowing.NarrowStep | src/narrowing.c:149-206 | one round keeps the state well-formed, adds at most one hunk and carries at most one shove |
| Narrowing.NarrowFrom | src/narrowing.c:149-206 | the loop adds at most one hunk per rough hunk |
| Narrowing.BdiffNarrow | src/narrowing.c:140-208 | bdiff_narrow returns at most one well-formed precise hunk per rough hunk |
| Narrowing.PlaceTrimsCommon | src/narrowing.c:167-205 | with nothing carried the precise hunk lies inside the rough one, and only equal, agreeing counts of samples are dropped at both starts and both ends |
| Narrowing.TrimsCommonOf | src/narrowing.c:182-205 | the hunk past an agreeing prefix and before an agreeing suffix loses only common context |
| Narrowing.UnshovedPrefix | src/narrowing.c:167-172 | the skipped prefix agrees on both sides and the samples after it differ |
| Narrowing.UnshovedSuffix | src/narrowing.c:195-205 | the trimmed suffix agrees on both sides |
| Narrowing.PlacedUnshoved | src/narrowing.c:167-205 | an unshoved placement appends the rough hunk less the prefix and the trim |
| Narrowing.PlaceAtUnshoved | src/narrowing.c:182-205 | starts inside the rough ends give the hunk from the starts to the ends less the trim |
| Narrowing.NarrowSingle | src/narrowing.c:140-208 | one rough hunk with nothing carried narrows to its placement |
| Narrowing.PlaceKnown | src/narrowing.c:167-205 | with a known prefix and trim the placed hunk is spelled out |
| Narrowing.PlaceAtKnown | src/narrowing.c:173-205 | starts inside the ends, not both at them, place the hunk up to the ends less the trim |
| Narrowing.PlaceInside | src/narrowing.c:167-172 | below the cap, the placement starts past the common prefix |
| Narrowing.PlaceUnfolds | src/narrowing.c:167-170 | a placement succeeds only when the common prefix stays below max_chunk_size + 1 |
| Narrowing.PlaceAtInside | src/narrowing.c:173-192 | starts inside the rough ends, not both at them, append a hunk from the starts to the rough ends with no shove carried |
| Narrowing.AppendPlacedTrim | src/narrowing.c:195-205 | a successful trim appends the hunk from the starts to the ends less the trim |
| Narrowing.NarrowVector | tests/unittest_narrowing.c:18-29 | (7, 23, 7, 23) narrows to (10, 20, 10, 20) |
| Narrowing.NarrowPair | src/narrowing.c:149-206 | two rough hunks, the first placed with no shove, narrow to the two placements |
| Narrowing.NarrowSizesDifferVector | tests/unittest_narrowing.c:31-42 | (6, 22, 6, 32) narrows to (10, 20, 10, 30) |
| Narrowing.NarrowInsertionVector | tests/unittest_narrowing.c:44-55 | (10, 20, 10, 10) stays as it is |
| Narrowing.NarrowInsertionAtEndVector | tests/unittest_narrowing.c:57-68 | (15, 20, 15, 15) stays as it is |
| Narrowing.NarrowOverStartVector | tests/unittest_narrowing.c:70-81 | (0, 20, 0, 22) narrows to (0, 16, 0, 18) |
| Narrowing.NarrowIsStartVector | tests/unittest_narrowing.c:83-94 | (0, 25, 0, 35) narrows to (0, 0, 0, 10) |
| Narrowing.NarrowOverEndVector | tests/unittest_narrowing.c:96-107 | (12, 31, 12, 38) narrows to (16, 31, 16, 38) |
| Narrowing.NarrowIsEndVector | tests/unittest_narrowing.c:109-128 | (12, 30, 12, 38) narrows to (30, 30, 30, 38), and swapped to (30, 38, 30, 30) |
| Narrowing.NarrowIsEndOneWay | tests/unittest_narrowing.c:109-128 | on all-zero sides of lengths 30 and 38, in either order, the hunk from 12 to the ends narrows to start at 30 on both sides |
| Narrowing.MultihunkFirst | tests/unittest_narrowing.c:135-141 | the first rough hunk (8, 22, 8, 22) places as (10, 20, 10, 20) |
| Narrowing.MultihunkSecond | tests/unittest_narrowing.c:133-142 | the second rough hunk (26, 45, 26, 45) places as (30, 40, 30, 40) |
| Narrowing.NarrowMultihunkVector | tests/unittest_narrowing.c:130-145 | the two rough hunks narrow to (10, 20, 10, 20) and (30, 40, 30, 40) |
| Narrowing.NarrowLongVector | tests/unittest_narrowing.c:147-159 | (7324, 69237, 7324, 69237) narrows to (15001, 65001, 15001, 65001) |
| PyDiff.Start | diff.py:23-25 | a chunk starts at the previous chunk's end, 0 for the first, and never after its own end |
| PyDiff.Boundaries | diff.py:104-108 | the boundary positions are exactly the window positions whose hash has zero low five bits, in increasing order |
| PyDiff.ChunkGenTiles | diff.py:99-109 | `PyDiff.ChunkGen`, chunk_gen: the chunks are chained, all but the last end exactly at the boundaries, the last ends at len(data), and data shorter than the window gives one chunk |
| PyDiff.KeysFrom | diff.py:111-112 | iterating the chunk dictionary yields increasing chunk indices whose hash was not seen before |
| PyDiff.Keys | diff.py:111-112 | the dictionary keys are increasing chunk indices |
| PyDiff.KeysFromDistinct | diff.py:111-112 | no key shares its hash with an earlier chunk |
| PyDiff.KeysFromCover | diff.py:111-112 | every chunk's hash was seen already or is the hash of a key |
| PyDiff.KeysFirstOccurrences | diff.py:111-112 | the keys are exactly the first occurrences of each chunk hash, in order |
| PyDiff.FindPrevCommon | diff.py:115-119 | the nearest chunk at or before the start whose hash the other side has, or None when no chunk on the chain has one |
| PyDiff.RunsFrom | diff.py:122-131 | the block generator's runs start at the first survivor |
| PyDiff.RunsFromShape | diff.py:126-130 | runs split only where two survivors are not adjacent chunks, and run ends are survivors |
| PyDiff.RunsFromSpans | diff.py:122-131 | the runs cover exactly the survivors from the open run on |
| PyDiff.SpansGap | diff.py:127-129 | a non-adjacent survivor closes the run and opens a new one |
| PyDiff.SpansAdjacent | diff.py:130 | an adjacent survivor extends the open run |
| PyDiff.RunsPartition | diff.py:122-131 | the runs are maximal, partition the survivors in order, and there are none iff there are no survivors |
| PyDiff.Survivors | diff.py:134-136 | the survivors are exactly the keys whose hash the other side lacks |
| PyDiff.SurvivorsIncreasing | diff.py:134-136 | the survivors keep the keys' increasing order |
| PyDiff.UniqRuns | diff.py:133-136 | every block runs over valid chunk indices, first before last |
| PyDiff.UniqRunsCover | diff.py:133-136 | the blocks are the maximal runs of first-occurrence chunks the other side lacks |
| PyDiff.HunkLen | diff.py:82-86 | a hunk is at least as long as each present side, and at least 1, because an absent or empty b counts as 1 |
| PyDiff.KeyIndex | diff.py:152-153 | a_diffs.keys().index(pcc): the first position of the key, or absent |
| PyDiff.Store | diff.py:144-146 | a_diffs[pcc] = block keeps an existing key's place, otherwise appends |
| PyDiff.Inserted | diff.py:156-159 | the skipped a blocks become a-only hunks at the same virtual start |
| PyDiff.MergeStepSound | diff.py:150-168 | one b block keeps hunk starts ordered and below virt_idx, only appends, and adds exactly that block to the b sides |
| PyDiff.MergeStepHunks | diff.py:151-168 | `PyDiff.MergeStep`, the hunks one b block emits: b-only without a key; the skipped a-only hunks and then a change when the key lies past prev + 1; otherwise just the change; prev_a_block_idx becomes the key's index |
| PyDiff.SkipSound | diff.py:154-160 | `PyDiff.Skip`: the skipped a-only hunks keep starts ordered and advance virt_idx by their summed length |
| PyDiff.AppendHunk | diff.py:167-168 | appending a hunk at virt_idx and advancing by its length keeps starts ordered |
| PyDiff.MergeSound | diff.py:150-168 | over the whole loop the starts never decrease and the b sides are the b blocks in order |
| PyDiff.MergeKeepsOrder | diff.py:150-168 | the loop keeps hunk starts non-decreasing |
| PyDiff.MergeBSides | diff.py:150-168 | the loop's b sides are the b blocks in order |
| PyDiff.MergeStepBSides | diff.py:162-168 | one iteration adds exactly its b block to the b sides |
| PyDiff.SkipBSides | diff.py:158-159 | the a-only hunks add no b side |
| PyDiff.Keyed | diff.py:46-58 | each run becomes a block from its first chunk's start to its last chunk's end |
| PyDiff.StoreAll | diff.py:143-146 | filling a_diffs keeps every stored block well-formed |
| PyDiff.DoDiffSidesSound | diff.py:138-169 | _do_diff's hunk starts never decrease and its b sides are exactly b's unique blocks in order |
| PyDiff.DoDiffSound | diff.py:138-169 | `PyDiff.DoDiff`: the same as for two chunked sources, whose chunks are chained |
| PyDiff.NoSurvivors | diff.py:134-136 | against its own hashes nothing survives |
| PyDiff.DoDiffSame | diff.py:138-169 | a source diffed against itself gives no hunks |
| PyDiff.HunkLenCases | diff.py:82-86 | an a-only hunk counts max(len a, 1), a b-only hunk max(len b, 1), and a change max(len a, len b, 1) |
| Overlay.OverlayFromSound | python/util.py:20-25 | the loop keeps the length, writes new[t] at t + offset inside base, and leaves other positions alone |
| Overlay.OverlayListsSound | python/util.py:15-25 | `Overlay.OverlayLists`: overlay_lists never changes the length; base[i + offset] == new[i] inside base; positions outside [offset, offset + len(new)) are unchanged |
| Overlay.OverlayListsPointwise | python/util.py:19-25 | the result is covered positions from new and the rest from base |
| Overlay.OverlayNoOp | python/util.py:19-25 | an offset past the end of base, or new ending before position 0, changes nothing |
| Overlay.OverlayVectors | python/test_util.py:32-45 | the expected overlays of '+' * i over '---' at offsets 0, 1, 5, -1 and -4 |
| PolyRabin.Pad | python/rabin.py:9-11 | left-pads with zeros to the given length |
| PolyRabin.Sub | python/rabin.py:8-12 | sub's result has the length of the longer tuple and is made of bits |
| PolyRabin.SubXor | python/rabin.py:8-12 | right-aligned coefficients are added modulo 2 |
| PolyRabin.SubAligned | python/rabin.py:12 | on equal lengths coefficient k is a[k] + b[k] modulo 2 |
| PolyRabin.SubSlices | python/rabin.py:12 | on equal lengths sub commutes with slicing |
| PolyRabin.SubCommutes | python/rabin.py:8-12 | sub is commutative |
| PolyRabin.SubSelf | python/rabin.py:8-12 | sub(a, a) is all zeros for every list a |
| PolyRabin.Concat | python/rabin.py:15-16 | concat appends exactly one element |
| PolyRabin.Last | python/rabin.py:23-25 | s[-n:] is the last n elements, or all of a shorter tuple |
| PolyRabin.F | python/rabin.py:19-25 | f returns at most len(ip) - 1 coefficients |
| PolyRabin.FReduces | python/rabin.py:21-25 | f reduces by ip iff the tuple is full length with a leading 1, and otherwise drops the leading coefficient |
| PolyRabin.StepKeepsBits | python/rabin.py:34-35 | concatenating a bit and reducing gives len(ip) - 1 bits |
| PolyRabin.Roll | python/rabin.py:30-36 | one turn of the script's loop gives a hash of len(ip) - 1 coefficients |
| PolyRabin.RollBits | python/rabin.py:30-35 | on bits, one turn gives bits again |
| PolyRabin.RollAll | python/rabin.py:28-36 | the hash after n turns has len(ip) - 1 coefficients |
| PolyRabin.RollAllBits | python/rabin.py:28-36 | over a stream of bits the hash is always len(ip) - 1 bits |
| PolyRabin.RollAllStep | python/rabin.py:30-35 | one more turn keeps the hash a tuple of bits |

## Findings

| source | as written | input that shows it | evidently intended | confidence | as-written member | corrected member |
|---|---|---|---|---|---|---|
| src/diff.c:74 | `(b == NULL) \|\| (a_start > b_start)` emits the a block when it starts LATER than the b block. After a is exhausted, `a_start` keeps its stale value and the a branch dereferences a NULL `a`. | a = [(5, 6, hash 1)], b = [(0, 1, hash 2)]: the a block goes out first, then the b block compares against the stale a_start 5 > 0 and the a branch runs with a == NULL | emit the a block when b is exhausted, or when a is pending and starts no later than b (earlier block first; on ties the model chooses a first, where the C as written puts b first) | high, not executed | Diff.PairBlocksAsWrittenCrashes | Diff.PairBlocksCorrected, Diff.PairBlocksSound |

`Diff.PairBlocks` (the corrected merge) is what `Bdiff.Bdiff` uses. `Diff.PairBlocksAsWritten` keeps the original comparison.

## Behaviour kept as written

- The merge in `src/diff.c` emits the later block first (line 74), and once `a` is exhausted it dereferences a NULL `a` (see Findings). The comments at lines 75 and 80 call each emitted block "the next insertion in our virtual stream of diffs", which only holds when the earlier block goes first, so the corrected merge puts the earlier block first. On ties the C as written puts the b block first; putting the a block first is this model's choice. The as-written function is kept, and the corrected one is used downstream.
- `diff_hunk_new` builds each hunk from its two views only (`src/diff_hunk.c` line 6), so the `start` field of every hunk pair_blocks returns stays 0. `Diff.DiffHunk.at` records the virtual start that pair_blocks computes in its locals `a_start` and `b_start` at the moment it emits the hunk. The ordering statements (`Diff.MergeOrdered`, `Diff.PairedCons`, `Diff.ACons`, `Diff.BCons`, `Diff.PairBlocksSound`, `Bdiff.BdiffSound`) are about that computed value, not about a field of the C's output.
- `diff.py` compares chunks by hash only: `__eq__` compares the two `__hash__` values (lines 34-40). The model does the same, so dictionary membership is by hash.
- In `diff.py`, `__neq__` is not a special method, so `chunk.prev != prev_chunk` at line 127 compares identity. The model splits runs where two survivors are not adjacent chunks. That is what identity of the `prev` chunk means for chunks of one chain.
- `diff.py`'s `DiffHunk.__len__` counts an absent b side as 1 and an absent a side as 0 (`PyDiff.HunkLen`). The model keeps this asymmetry.
- `diff.py` slices the skipped a blocks as `a_diffs.values()[prev_a_block_idx:a_block_idx]` (lines 156-157), starting at `prev_a_block_idx` itself. An a block that was already paired with an earlier b block is therefore emitted again as an a-only hunk, and a blocks after the last paired key are never emitted. `PyDiff.Skip` keeps both.
- `src/chunk.c` ends the trailing chunk one sample past the samples read (line 68). The test expects this, at 10401 for 10400 samples. The model keeps the +1.
- `slidey_aligner` compares the leading sample and then `d` following samples, `d + 1` in all (`Narrowing.AlignedMeans`).

## Left out

- Audio I/O, the CLI programs, the terminal UI and the subprocess driver: none of them is part of this model.
- The `main()` demos in `src/diff.c`, `src/bdiff.c` and `diff.c`; the empty `diff_new` in `diff.c`; and `chunk_new` in `diff.c`, which calls glib's `g_str_hash` on a copied string.
- `windowed_hash` and `window_data_*` in `src/rabin.c` disagree with `include/rabin.h`. The window hash is therefore a function parameter (`window`) of every chunker.
- The chunk hash of `src/chunk.c` (the `include/rabin.h` API with polynomial 141) is a function parameter (`digest`), because its definition is not part of this model.
- glib's and Python's `hash` are function parameters, so hash collisions are not modelled. Two chunks with equal hashes count as equal, as in the code.
- `caching_property` and `Time` in `python/util.py`: caching and float formatting, outside the diff core.
- Memory management (`chunk_free`, `hunk_free`, `block_free`, `src/diff_hunk.c`): linked lists are sequences.
- Buffered fetch and seek in `src/narrowing.c`: reads are slices, and the batch size `buf_size / sample_size` is a positive parameter `batch`.
- `max_chunk_size` and `buf_size` of `bdiff_defs.h`: that header is not part of this model, so `maxChunk` is a parameter.
- The fake fetcher of the chunk test (`tests/fake_fetcher.c`, used by `tests/unittest_chunk.c`) draws pseudo-random data, which is not reproduced. The test's resynchronisation claim is proved for all streams instead (`Chunker.SplitSamplesResync`), and its concrete end value 10401 is not.
- `Overlay.OverlayLists`: assumes base and new are distinct lists, as at every call in `python/test_util.py`. Python writes into base in place while reading new, so `overlay_lists(l, l, 1)` on [1, 2, 3] gives [1, 1, 1], while the model gives [1, 1, 2].
- `Diff.PairBlocksSound`: requires well-formed, ordered blocks, which is what `unique_blocks` produces (`Bdiff.UniqueBlocksWellFormed`). For malformed blocks the C's unsigned `a->end - a->start` would wrap, and the model does not follow that.
- `Chunker.SplitSamples`: requires a positive sample size. `src/chunk.c` line 42 divides `buf_size` by `sample_size` without a guard, so a sample size of 0 divides by zero; that error path is not modelled.
- `Narrowing.FindStartDelta`: requires a positive batch. With `sample_size` above `buf_size` the C would request 0 samples and stop at once, and that is not modelled.
- `Narrowing.FindEndDelta`: requires the trimmed window to lie at or after position 0, as the seek to `a_end - end_delta` needs. A wrapped seek is not modelled.
- `Narrowing.Slidey`: requires the slide distance not to exceed `sliding_end`, which bdiff_narrow guarantees through `min3`. A wrapped seek is not modelled.
- `Narrowing.BdiffNarrow`: rough hunks must be well-formed (start <= end on both sides), as hunk_factory produces them. C `unsigned` positions are unbounded naturals here.
- `Narrowing.BdiffNarrow`: its own contract states only that at most one well-formed hunk comes out per rough hunk. Where each precise hunk lies (starts = rough starts + carried shoves + one shared common prefix; ends trimmed by one shared common suffix) is stated per rough hunk by `Narrowing.Place`, `Narrowing.PlaceAt` and `Narrowing.AppendPlaced`, and for unshoved hunks by `Narrowing.NarrowSingle`, `Narrowing.NarrowPair` and `Narrowing.PlaceTrimsCommon`; it is not lifted to the whole output list.
- `DraftDiff.UniqueBlocks`: requires a non-empty other list, because the C reads its first element before the loop. `DraftDiff.ViewNew` is the only place where 32-bit wrap-around is modelled.
- `Rabin.FPowTL`: the input must fit in 32 bits. For l >= 9 the C's `l + 1 - hash_len` then runs its do-while l - 8 times.
- `PolyRabin.F`: models the function, not the `print` side effect. The rolling loop of `python/rabin.py` is modelled (`PolyRabin.RollAll`), but its `print`s are not.
