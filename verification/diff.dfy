/**
 * src/diff.c: the anchor/virtual-offset pipeline.
 *
 * `unique_blocks` walks one side's chunk list, popping each hash from a
 * multiset of the other side's hashes. A successful pop marks the chunk as
 * common, and every non-empty gap before a common chunk (or before the end
 * of the data) becomes a block labelled with the hash of the common chunk
 * before it (the anchor).
 *
 * `pair_blocks` merges the two block lists into one virtual coordinate
 * stream: blocks with equal anchors are paired, and a block present on one
 * side only shifts the other side's later blocks by its length.
 */
module Diff {
  import opened Types
  import opened Wrappers
  import CountingTable
  import opened Block

  // ---------------------------------------------------------------------
  // unique_blocks
  // ---------------------------------------------------------------------

  /**
   * The loop of unique_blocks from chunk i on, with the multiset `t` of the
   * other side's hashes not yet popped, the last common chunk `prev` and the
   * blocks built so far. The last chunk is handled after the loop: if it is
   * common the final gap ends at its start, otherwise at its end.
   */
  function UniqueWalk(ours: seq<Chunk>, i: nat, t: CountingTable.Table, prev: Chunk, acc: seq<Chunk>): seq<Chunk>
    requires i < |ours|
    decreases |ours| - i
  {
    var popped := CountingTable.Dec(t, ours[i].hash);
    if i == |ours| - 1 then
      var hunkEnd := if popped.0 > 0 then ours[i].start else ours[i].end;
      CloseGap(acc, prev, hunkEnd)
    else if popped.0 > 0 then
      UniqueWalk(ours, i + 1, popped.1, ours[i], CloseGap(acc, prev, ours[i].start))
    else
      UniqueWalk(ours, i + 1, popped.1, prev, acc)
  }

  /** Closing the gap after `prev` at `end` adds a block, unless the gap is empty. */
  function CloseGap(acc: seq<Chunk>, prev: Chunk, end: nat): seq<Chunk> {
    if end != prev.end then acc + [BlockNew(prev, end)] else acc
  }

  /** unique_blocks: the blocks of `ours` that are absent from `theirs`, with their anchors. */
  function UniqueBlocks(ours: seq<Chunk>, theirs: seq<Chunk>): seq<Chunk> {
    if |ours| == 0 then [] else UniqueWalk(ours, 0, CountingTable.FromSeq(Hashes(theirs)), ZeroChunk, [])
  }

  /** How many chunks of `cs` carry hash `h`. */
  function Occurrences(cs: seq<Chunk>, h: Hash): nat {
    multiset(Hashes(cs))[h]
  }

  /**
   * Chunk k of `ours` is common when the other side has more chunks with
   * its hash than `ours` has before k: each common chunk consumes one
   * occurrence of its hash from the other side.
   */
  predicate IsCommon(ours: seq<Chunk>, theirs: seq<Chunk>, k: nat)
    requires k < |ours|
  {
    Occurrences(ours[..k], ours[k].hash) < Occurrences(theirs, ours[k].hash)
  }

  function Marks(ours: seq<Chunk>, theirs: seq<Chunk>): (m: seq<bool>)
    ensures |m| == |ours|
    ensures forall k :: 0 <= k < |ours| ==> m[k] == IsCommon(ours, theirs, k)
  {
    seq(|ours|, k requires 0 <= k < |ours| => IsCommon(ours, theirs, k))
  }

  /** The same walk with the common chunks given by `marks` instead of a multiset. */
  function GapBlocks(ours: seq<Chunk>, marks: seq<bool>, i: nat, prev: Chunk, acc: seq<Chunk>): seq<Chunk>
    requires |marks| == |ours| && i < |ours|
    decreases |ours| - i
  {
    if i == |ours| - 1 then
      var hunkEnd := if marks[i] then ours[i].start else ours[i].end;
      CloseGap(acc, prev, hunkEnd)
    else if marks[i] then
      GapBlocks(ours, marks, i + 1, ours[i], CloseGap(acc, prev, ours[i].start))
    else
      GapBlocks(ours, marks, i + 1, prev, acc)
  }

  /** What the multiset holds after i chunks of `ours` were popped from it. */
  function Remaining(ours: seq<Chunk>, theirs: seq<Chunk>, i: nat, h: Hash): nat
    requires i <= |ours|
  {
    if Occurrences(theirs, h) > Occurrences(ours[..i], h) then Occurrences(theirs, h) - Occurrences(ours[..i], h) else 0
  }

  ghost predicate Tracks(t: CountingTable.Table, ours: seq<Chunk>, theirs: seq<Chunk>, i: nat)
    requires i <= |ours|
  {
    && CountingTable.Valid(t)
    && forall h :: CountingTable.Get(t, h) == Remaining(ours, theirs, i, h)
  }

  /** One pop: it succeeds exactly for a common chunk, and the multiset stays in step. */
  lemma PopStep(t: CountingTable.Table, ours: seq<Chunk>, theirs: seq<Chunk>, i: nat)
    requires i < |ours| && Tracks(t, ours, theirs, i)
    ensures (CountingTable.Dec(t, ours[i].hash).0 > 0) == IsCommon(ours, theirs, i)
    ensures Tracks(CountingTable.Dec(t, ours[i].hash).1, ours, theirs, i + 1)
  {
    assert ours[..i + 1] == ours[..i] + [ours[i]];
    assert Hashes(ours[..i + 1]) == Hashes(ours[..i]) + [ours[i].hash];
  }

  lemma {:induction false} WalkFollowsMarks(ours: seq<Chunk>, theirs: seq<Chunk>, i: nat, t: CountingTable.Table,
                                            prev: Chunk, acc: seq<Chunk>)
    requires i < |ours| && Tracks(t, ours, theirs, i)
    ensures UniqueWalk(ours, i, t, prev, acc) == GapBlocks(ours, Marks(ours, theirs), i, prev, acc)
    decreases |ours| - i
  {
    PopStep(t, ours, theirs, i);
    if i < |ours| - 1 {
      var popped := CountingTable.Dec(t, ours[i].hash);
      if popped.0 > 0 {
        WalkFollowsMarks(ours, theirs, i + 1, popped.1, ours[i], CloseGap(acc, prev, ours[i].start));
      } else {
        WalkFollowsMarks(ours, theirs, i + 1, popped.1, prev, acc);
      }
    }
  }

  /**
   * The multiset walk of unique_blocks marks exactly the common chunks:
   * its output is the gap walk over the chunks `IsCommon` selects.
   */
  lemma UniqueBlocksByMarks(ours: seq<Chunk>, theirs: seq<Chunk>)
    requires |ours| > 0
    ensures UniqueBlocks(ours, theirs) == GapBlocks(ours, Marks(ours, theirs), 0, ZeroChunk, [])
  {
    var t := CountingTable.FromSeq(Hashes(theirs));
    CountingTable.FromSeqCounts(Hashes(theirs));
    assert ours[..0] == [];
    assert Tracks(t, ours, theirs, 0);
    WalkFollowsMarks(ours, theirs, 0, t, ZeroChunk, []);
  }

  /** Position p lies in one of the blocks. */
  ghost predicate InBlocks(bs: seq<Chunk>, p: nat) {
    exists n :: 0 <= n < |bs| && bs[n].start <= p < bs[n].end
  }

  /** Position p lies in one of the first i chunks that are marked common. */
  ghost predicate InMarked(ours: seq<Chunk>, marks: seq<bool>, i: nat, p: nat)
    requires |marks| == |ours| && i <= |ours|
  {
    exists k :: 0 <= k < i && marks[k] && ours[k].start <= p < ours[k].end
  }

  /** A block labelled with the zero anchor, or with a common chunk that ends where it starts. */
  ghost predicate Anchored(ours: seq<Chunk>, marks: seq<bool>, b: Chunk)
    requires |marks| == |ours|
  {
    || (b.start == 0 && b.hash == 0)
    || exists k :: 0 <= k < |ours| && marks[k] && ours[k].end == b.start && ours[k].hash == b.hash
  }

  /** Non-empty, ordered blocks. */
  ghost predicate ProperBlocks(bs: seq<Chunk>) {
    && (forall n :: 0 <= n < |bs| ==> bs[n].start < bs[n].end)
    && (forall n :: 0 < n < |bs| ==> bs[n - 1].end <= bs[n].start)
  }

  /** The state of the gap walk before chunk i. */
  ghost predicate WalkInv(ours: seq<Chunk>, marks: seq<bool>, i: nat, prev: Chunk, acc: seq<Chunk>)
    requires |marks| == |ours| && i < |ours|
  {
    && prev.end <= ours[i].start
    && (prev == ZeroChunk || exists k :: 0 <= k < i && marks[k] && ours[k] == prev)
    && (forall k :: 0 <= k < i && marks[k] ==> ours[k].end <= prev.end)
    && ProperBlocks(acc)
    && (forall n :: 0 <= n < |acc| ==> acc[n].end <= prev.end && Anchored(ours, marks, acc[n]))
    && (forall p: nat :: p < prev.end ==> (InBlocks(acc, p) <==> !InMarked(ours, marks, i, p)))
  }

  /** The result of the gap walk: blocks cover exactly the positions no common chunk covers. */
  ghost predicate WalkResult(ours: seq<Chunk>, marks: seq<bool>, bs: seq<Chunk>)
    requires |marks| == |ours|
  {
    && ProperBlocks(bs)
    && (forall n :: 0 <= n < |bs| ==> bs[n].end <= LastEnd(ours) && Anchored(ours, marks, bs[n]))
    && (forall p: nat :: p < LastEnd(ours) ==> (InBlocks(bs, p) <==> !InMarked(ours, marks, |ours|, p)))
  }

  lemma AnchorOfPrev(ours: seq<Chunk>, marks: seq<bool>, i: nat, prev: Chunk, end: nat)
    requires |marks| == |ours| && i < |ours|
    requires prev == ZeroChunk || exists k :: 0 <= k < i && marks[k] && ours[k] == prev
    ensures Anchored(ours, marks, BlockNew(prev, end))
  {
  }

  /** Blocks before `limit`, plus one block [limit, e) beyond them. */
  lemma InBlocksSnoc(acc: seq<Chunk>, b: Chunk, p: nat, limit: nat)
    requires forall n :: 0 <= n < |acc| ==> acc[n].end <= limit
    requires b.start == limit
    ensures InBlocks(acc + [b], p) <==> (InBlocks(acc, p) || (b.start <= p < b.end))
  {
    var bs := acc + [b];
    if InBlocks(bs, p) {
      var n :| 0 <= n < |bs| && bs[n].start <= p < bs[n].end;
      if n < |acc| {
        assert acc[n] == bs[n];
      }
    }
    if InBlocks(acc, p) {
      var n :| 0 <= n < |acc| && acc[n].start <= p < acc[n].end;
      assert bs[n] == acc[n];
    }
    if b.start <= p < b.end {
      assert bs[|acc|] == b;
    }
  }

  /** A position beyond every block is in none of them. */
  lemma NotInBlocksBeyond(acc: seq<Chunk>, p: nat, limit: nat)
    requires forall n :: 0 <= n < |acc| ==> acc[n].end <= limit
    requires limit <= p
    ensures !InBlocks(acc, p)
  {
  }

  /** Adding chunk i to the marked set changes coverage only inside chunk i. */
  lemma InMarkedStep(ours: seq<Chunk>, marks: seq<bool>, i: nat, p: nat)
    requires |marks| == |ours| && i < |ours|
    ensures InMarked(ours, marks, i + 1, p) <==>
      (InMarked(ours, marks, i, p) || (marks[i] && ours[i].start <= p < ours[i].end))
  {
    if InMarked(ours, marks, i + 1, p) {
      var k :| 0 <= k < i + 1 && marks[k] && ours[k].start <= p < ours[k].end;
    }
  }

  /** No marked chunk before i reaches past `limit`. */
  lemma NotInMarkedBeyond(ours: seq<Chunk>, marks: seq<bool>, i: nat, p: nat, limit: nat)
    requires |marks| == |ours| && i <= |ours|
    requires forall k :: 0 <= k < i && marks[k] ==> ours[k].end <= limit
    requires limit <= p
    ensures !InMarked(ours, marks, i, p)
  {
  }

  /**
   * Closing the gap before chunk i, at its start when it is common and at
   * its end otherwise, keeps coverage exact up to the end of chunk i.
   */
  lemma CloseGapCoverage(ours: seq<Chunk>, marks: seq<bool>, i: nat, prev: Chunk, acc: seq<Chunk>, end: nat, p: nat)
    requires |marks| == |ours| && i < |ours| && prev.end <= ours[i].start
    requires end == if marks[i] then ours[i].start else ours[i].end
    requires forall n :: 0 <= n < |acc| ==> acc[n].end <= prev.end
    requires forall k :: 0 <= k < i && marks[k] ==> ours[k].end <= prev.end
    requires p < prev.end ==> (InBlocks(acc, p) <==> !InMarked(ours, marks, i, p))
    requires p < ours[i].end
    ensures InBlocks(CloseGap(acc, prev, end), p) <==> !InMarked(ours, marks, i + 1, p)
  {
    InMarkedStep(ours, marks, i, p);
    if end != prev.end {
      InBlocksSnoc(acc, BlockNew(prev, end), p, prev.end);
    }
    if p >= prev.end {
      NotInBlocksBeyond(acc, p, prev.end);
      NotInMarkedBeyond(ours, marks, i, p, prev.end);
    }
  }

  /** The walk step at a common chunk that is not the last one. */
  lemma CommonStep(ours: seq<Chunk>, marks: seq<bool>, i: nat, prev: Chunk, acc: seq<Chunk>)
    requires Gapless(ours) && |marks| == |ours| && i + 1 < |ours| && marks[i]
    requires WalkInv(ours, marks, i, prev, acc)
    ensures WalkInv(ours, marks, i + 1, ours[i], CloseGap(acc, prev, ours[i].start))
  {
    if ours[i].start != prev.end {
      AnchorOfPrev(ours, marks, i, prev, ours[i].start);
    }
    forall p: nat | p < ours[i].end
      ensures InBlocks(CloseGap(acc, prev, ours[i].start), p) <==> !InMarked(ours, marks, i + 1, p)
    {
      CloseGapCoverage(ours, marks, i, prev, acc, ours[i].start, p);
    }
  }

  /** The walk step at a chunk that is neither common nor the last one. */
  lemma UniqueStep(ours: seq<Chunk>, marks: seq<bool>, i: nat, prev: Chunk, acc: seq<Chunk>)
    requires Gapless(ours) && |marks| == |ours| && i + 1 < |ours| && !marks[i]
    requires WalkInv(ours, marks, i, prev, acc)
    ensures WalkInv(ours, marks, i + 1, prev, acc)
  {
    forall p: nat | p < prev.end
      ensures InBlocks(acc, p) <==> !InMarked(ours, marks, i + 1, p)
    {
      InMarkedStep(ours, marks, i, p);
    }
  }

  /** The final step at the last chunk. */
  lemma LastStep(ours: seq<Chunk>, marks: seq<bool>, prev: Chunk, acc: seq<Chunk>)
    requires Gapless(ours) && |marks| == |ours| && |ours| > 0
    requires WalkInv(ours, marks, |ours| - 1, prev, acc)
    ensures WalkResult(ours, marks, GapBlocks(ours, marks, |ours| - 1, prev, acc))
  {
    var i := |ours| - 1;
    var hunkEnd := if marks[i] then ours[i].start else ours[i].end;
    if hunkEnd != prev.end {
      AnchorOfPrev(ours, marks, i, prev, hunkEnd);
    }
    forall p: nat | p < LastEnd(ours)
      ensures InBlocks(CloseGap(acc, prev, hunkEnd), p) <==> !InMarked(ours, marks, |ours|, p)
    {
      CloseGapCoverage(ours, marks, i, prev, acc, hunkEnd, p);
    }
  }

  lemma {:induction false} GapBlocksResult(ours: seq<Chunk>, marks: seq<bool>, i: nat, prev: Chunk, acc: seq<Chunk>)
    requires Gapless(ours) && |marks| == |ours| && i < |ours|
    requires WalkInv(ours, marks, i, prev, acc)
    ensures WalkResult(ours, marks, GapBlocks(ours, marks, i, prev, acc))
    decreases |ours| - i
  {
    if i == |ours| - 1 {
      LastStep(ours, marks, prev, acc);
    } else if marks[i] {
      var acc' := CloseGap(acc, prev, ours[i].start);
      CommonStep(ours, marks, i, prev, acc);
      GapBlocksResult(ours, marks, i + 1, ours[i], acc');
      assert GapBlocks(ours, marks, i, prev, acc) == GapBlocks(ours, marks, i + 1, ours[i], acc');
    } else {
      UniqueStep(ours, marks, i, prev, acc);
      GapBlocksResult(ours, marks, i + 1, prev, acc);
      assert GapBlocks(ours, marks, i, prev, acc) == GapBlocks(ours, marks, i + 1, prev, acc);
    }
  }

  /**
   * For a gapless chunk list, unique_blocks returns non-empty, ordered
   * blocks inside the data. A position is in a block exactly when no common
   * chunk covers it, and every block carries the hash of the common chunk
   * that ends where it starts, or hash 0 when it starts at 0.
   */
  lemma UniqueBlocksShape(ours: seq<Chunk>, theirs: seq<Chunk>)
    requires Gapless(ours)
    ensures WalkResult(ours, Marks(ours, theirs), UniqueBlocks(ours, theirs))
  {
    if |ours| > 0 {
      UniqueBlocksByMarks(ours, theirs);
      var marks := Marks(ours, theirs);
      assert WalkInv(ours, marks, 0, ZeroChunk, []);
      GapBlocksResult(ours, marks, 0, ZeroChunk, []);
    }
  }

  /** A list compared with itself: every chunk is common. */
  lemma AllCommon(cs: seq<Chunk>, k: nat)
    requires k < |cs|
    ensures IsCommon(cs, cs, k)
  {
    var h := cs[k].hash;
    assert Hashes(cs) == Hashes(cs[..k]) + Hashes(cs[k..]);
    assert Hashes(cs[k..])[0] == h;
    assert h in multiset(Hashes(cs[k..]));
    assert multiset(Hashes(cs)) == multiset(Hashes(cs[..k])) + multiset(Hashes(cs[k..]));
  }

  lemma {:induction false} GapBlocksAllCommon(cs: seq<Chunk>, marks: seq<bool>, i: nat, prev: Chunk)
    requires Gapless(cs) && |marks| == |cs| && 0 < i < |cs|
    requires forall k :: 0 <= k < |cs| ==> marks[k]
    requires prev == cs[i - 1]
    ensures GapBlocks(cs, marks, i, prev, []) == []
    decreases |cs| - i
  {
    if i < |cs| - 1 {
      GapBlocksAllCommon(cs, marks, i + 1, cs[i]);
    }
  }

  /** Identical gapless chunk lists have no unique blocks. */
  lemma UniqueBlocksIdentical(cs: seq<Chunk>)
    requires Gapless(cs)
    ensures UniqueBlocks(cs, cs) == []
  {
    if |cs| > 0 {
      UniqueBlocksByMarks(cs, cs);
      var marks := Marks(cs, cs);
      forall k | 0 <= k < |cs|
        ensures marks[k]
      {
        AllCommon(cs, k);
      }
      if |cs| > 1 {
        GapBlocksAllCommon(cs, marks, 1, cs[0]);
      }
    }
  }

  /** The chunk list c0, c1, c2 of tests/unittest_block.c. */
  const TestChunks: seq<Chunk> := [Chunk(0, 1, 1), Chunk(1, 2, 2), Chunk(2, 3, 3)]

  /** tests/unittest_block.c: no chunks of our own, or nothing to compare with. */
  lemma BlockVectorsTrivial()
    ensures UniqueBlocks([], TestChunks) == []
    ensures UniqueBlocks(TestChunks, []) == [Chunk(0, 3, 0)]
    ensures UniqueBlocks(TestChunks, TestChunks) == []
  {
    UniqueBlocksIdentical(TestChunks);
  }

  /** tests/unittest_block.c: every chunk unique. */
  lemma BlockVectorAllUnique()
    ensures UniqueBlocks(TestChunks, [Chunk(0, 4, 4)]) == [Chunk(0, 3, 0)]
  {
    CountingTable.FromSeqCounts(Hashes([Chunk(0, 4, 4)]));
  }

  /** tests/unittest_block.c: an insertion at the start. */
  lemma BlockVectorInsertAtStart()
    ensures UniqueBlocks(TestChunks, TestChunks[1..]) == [Chunk(0, 1, 0)]
  {
    CountingTable.FromSeqCounts(Hashes(TestChunks[1..]));
  }

  /** tests/unittest_block.c: a change at the start. */
  lemma BlockVectorChangeAtStart()
    ensures UniqueBlocks(TestChunks, [Chunk(0, 1, 4), Chunk(1, 2, 2), Chunk(2, 3, 3)]) == [Chunk(0, 1, 0)]
  {
    CountingTable.FromSeqCounts(Hashes([Chunk(0, 1, 4), Chunk(1, 2, 2), Chunk(2, 3, 3)]));
  }

  /** tests/unittest_block.c: a change at the end, anchored on the middle chunk. */
  lemma BlockVectorChangeAtEnd()
    ensures UniqueBlocks(TestChunks, [Chunk(0, 1, 1), Chunk(1, 2, 2), Chunk(2, 3, 4)]) == [Chunk(2, 3, 2)]
  {
    var theirs := [Chunk(0, 1, 1), Chunk(1, 2, 2), Chunk(2, 3, 4)];
    var t0 := CountingTable.FromSeq(Hashes(theirs));
    CountingTable.FromSeqCounts(Hashes(theirs));
    assert Hashes(theirs) == [1, 2, 4];
    assert multiset(Hashes(theirs)) == multiset{1, 2, 4};
    var p0 := CountingTable.Dec(t0, 1);
    var p1 := CountingTable.Dec(p0.1, 2);
    assert p0.0 == 1 && p1.0 == 1 && CountingTable.Dec(p1.1, 3).0 == 0;
  }

  /** tests/unittest_block.c: a change in the middle, anchored on the first chunk. */
  lemma BlockVectorChangeInMiddle()
    ensures UniqueBlocks(TestChunks, [Chunk(0, 1, 1), Chunk(1, 2, 4), Chunk(2, 3, 3)]) == [Chunk(1, 2, 1)]
  {
    var theirs := [Chunk(0, 1, 1), Chunk(1, 2, 4), Chunk(2, 3, 3)];
    var t0 := CountingTable.FromSeq(Hashes(theirs));
    CountingTable.FromSeqCounts(Hashes(theirs));
    assert Hashes(theirs) == [1, 4, 3];
    assert multiset(Hashes(theirs)) == multiset{1, 4, 3};
    var p0 := CountingTable.Dec(t0, 1);
    var p1 := CountingTable.Dec(p0.1, 2);
    assert p0.0 == 1 && p1.0 == 0 && CountingTable.Dec(p1.1, 3).0 == 1;
  }

  // ---------------------------------------------------------------------
  // pair_blocks
  // ---------------------------------------------------------------------

  /**
   * diff_hunk: the a-side and b-side views it pairs (either may be absent).
   * `at` is the virtual start pair_blocks computes in its locals `a_start`
   * and `b_start` when it emits the hunk; diff_hunk_new never stores it, so
   * the C hunk's own `start` field stays 0.
   */
  datatype DiffHunk = DiffHunk(at: nat, a: Option<View>, b: Option<View>)

  /** The two ways pair_blocks as written can fail. */
  datatype PairError =
    | StartMismatch     // the assertion that paired blocks start together fails
    | NullDereference   // the a-only branch is taken with no a block left

  predicate WellFormedBlocks(cs: seq<Chunk>) {
    forall k :: 0 <= k < |cs| ==> cs[k].start <= cs[k].end
  }

  function Max(x: nat, y: nat): nat {
    if x > y then x else y
  }

  function Extent(v: Option<View>): nat {
    if v.Some? && v.value.WellFormed() then v.value.Length() else 0
  }

  /** The virtual length of a hunk: the longer of its two sides. */
  function HunkLen(h: DiffHunk): nat {
    Max(Extent(h.a), Extent(h.b))
  }

  /**
   * The loop of pair_blocks as written, from block i of `a` and block j of
   * `b`. `aStart` and `bStart` keep their values from the previous round
   * when a side is exhausted, as the C variables do.
   */
  function MergeAsWritten(a: seq<Chunk>, b: seq<Chunk>, i: nat, j: nat, aOff: nat, bOff: nat,
                          aStart: nat, bStart: nat): Result<seq<DiffHunk>, PairError>
    requires i <= |a| && j <= |b| && WellFormedBlocks(a) && WellFormedBlocks(b)
    decreases |a| - i + |b| - j
  {
    if i == |a| && j == |b| then Success([])
    else
      var sa := if i < |a| then a[i].start + aOff else aStart;
      var sb := if j < |b| then b[j].start + bOff else bStart;
      if i < |a| && j < |b| && a[i].hash == b[j].hash then
        if sa != sb then Failure(StartMismatch)
        else
          var aLen := a[i].end - a[i].start;
          var bLen := b[j].end - b[j].start;
          var len := Max(aLen, bLen);
          var rest :- MergeAsWritten(a, b, i + 1, j + 1, aOff + (len - aLen), bOff + (len - bLen), sa, sb);
          Success([DiffHunk(sa, Some(a[i].AsView()), Some(b[j].AsView()))] + rest)
      else if j == |b| || sa > sb then
        if i == |a| then Failure(NullDereference)
        else
          var rest :- MergeAsWritten(a, b, i + 1, j, aOff, bOff + (a[i].end - a[i].start), sa, sb);
          Success([DiffHunk(sa, Some(a[i].AsView()), None)] + rest)
      else
        var rest :- MergeAsWritten(a, b, i, j + 1, aOff + (b[j].end - b[j].start), bOff, sa, sb);
        Success([DiffHunk(sb, None, Some(b[j].AsView()))] + rest)
  }

  /**
   * pair_blocks with the comparison as written; each hunk also records the
   * virtual start the C computes but does not store.
   */
  function PairBlocksAsWritten(a: seq<Chunk>, b: seq<Chunk>): Result<seq<DiffHunk>, PairError>
    requires WellFormedBlocks(a) && WellFormedBlocks(b)
  {
    MergeAsWritten(a, b, 0, 0, 0, 0, 0, 0)
  }

  /**
   * The comparison in pair_blocks is inverted: the a block is emitted when
   * it starts later than the b block. With a late a block and an early b
   * block the a block goes out first; the b block then compares against the
   * stale a start and the a branch is taken with no a block left.
   */
  lemma PairBlocksAsWrittenCrashes()
    ensures PairBlocksAsWritten([Chunk(5, 6, 1)], [Chunk(0, 1, 2)]) == Failure(NullDereference)
  {
  }

  /**
   * The merge with the evidently intended choice: the a block goes next
   * when b is exhausted or when a is pending and starts no later than b
   * (a first on ties).
   */
  function Merge(a: seq<Chunk>, b: seq<Chunk>, i: nat, j: nat, aOff: nat, bOff: nat): Result<seq<DiffHunk>, PairError>
    requires i <= |a| && j <= |b| && WellFormedBlocks(a) && WellFormedBlocks(b)
    decreases |a| - i + |b| - j
  {
    if i == |a| && j == |b| then Success([])
    else if i < |a| && j < |b| && a[i].hash == b[j].hash then
      if a[i].start + aOff != b[j].start + bOff then Failure(StartMismatch)
      else
        var aLen := a[i].end - a[i].start;
        var bLen := b[j].end - b[j].start;
        var len := Max(aLen, bLen);
        var rest :- Merge(a, b, i + 1, j + 1, aOff + (len - aLen), bOff + (len - bLen));
        Success([DiffHunk(a[i].start + aOff, Some(a[i].AsView()), Some(b[j].AsView()))] + rest)
    else if j == |b| || (i < |a| && a[i].start + aOff <= b[j].start + bOff) then
      var rest :- Merge(a, b, i + 1, j, aOff, bOff + (a[i].end - a[i].start));
      Success([DiffHunk(a[i].start + aOff, Some(a[i].AsView()), None)] + rest)
    else
      var rest :- Merge(a, b, i, j + 1, aOff + (b[j].end - b[j].start), bOff);
      Success([DiffHunk(b[j].start + bOff, None, Some(b[j].AsView()))] + rest)
  }

  /** pair_blocks with the corrected choice of the next one-sided block. */
  function PairBlocks(a: seq<Chunk>, b: seq<Chunk>): Result<seq<DiffHunk>, PairError>
    requires WellFormedBlocks(a) && WellFormedBlocks(b)
  {
    Merge(a, b, 0, 0, 0, 0)
  }

  /** On the input that crashes the original, the corrected merge places b first. */
  lemma PairBlocksCorrected()
    ensures PairBlocks([Chunk(5, 6, 1)], [Chunk(0, 1, 2)]).Success?
    ensures PairBlocks([Chunk(5, 6, 1)], [Chunk(0, 1, 2)]).value
         == [DiffHunk(0, None, Some(View(0, 1))), DiffHunk(6, Some(View(5, 6)), None)]
  {
    var a, b := [Chunk(5, 6, 1)], [Chunk(0, 1, 2)];
    assert Merge(a, b, 1, 1, 1, 1) == Success([]);
    assert a[0].AsView() == View(5, 6) && b[0].AsView() == View(0, 1);
    assert Merge(a, b, 0, 1, 1, 0) == Success([DiffHunk(6, Some(View(5, 6)), None)] + []);
    assert a[0].hash != b[0].hash && a[0].start > b[0].start;
    var r := Merge(a, b, 0, 0, 0, 0);
    assert r.Success?;
    assert r.value[0] == DiffHunk(0, None, Some(View(0, 1)));
    assert r.value[1..] == [DiffHunk(6, Some(View(5, 6)), None)];
    assert r.value == [r.value[0]] + r.value[1..];
  }

  function Views(cs: seq<Chunk>): (vs: seq<View>)
    ensures |vs| == |cs|
    ensures forall k :: 0 <= k < |cs| ==> vs[k] == cs[k].AsView()
  {
    seq(|cs|, k requires 0 <= k < |cs| => cs[k].AsView())
  }

  /** The a-side views of a hunk list, in order. */
  function ASides(hs: seq<DiffHunk>): seq<View> {
    if |hs| == 0 then [] else (if hs[0].a.Some? then [hs[0].a.value] else []) + ASides(hs[1..])
  }

  /** The b-side views of a hunk list, in order. */
  function BSides(hs: seq<DiffHunk>): seq<View> {
    if |hs| == 0 then [] else (if hs[0].b.Some? then [hs[0].b.value] else []) + BSides(hs[1..])
  }

  /** Prepending one hunk to the merge of the rest. */
  lemma SidesCons(h: DiffHunk, rest: seq<DiffHunk>)
    ensures ASides([h] + rest) == (if h.a.Some? then [h.a.value] else []) + ASides(rest)
    ensures BSides([h] + rest) == (if h.b.Some? then [h.b.value] else []) + BSides(rest)
  {
    assert ([h] + rest)[1..] == rest;
  }

  lemma ViewsCons(cs: seq<Chunk>, i: nat)
    requires i < |cs|
    ensures Views(cs[i..]) == [cs[i].AsView()] + Views(cs[i + 1..])
  {
  }

  /**
   * The merge loses nothing and invents nothing: the a-sides of its hunks
   * are the remaining a blocks in order, the b-sides the remaining b blocks,
   * every hunk has at least one side, and the only way it fails is the
   * start assertion on a paired hunk.
   */
  lemma {:induction false} MergeProjects(a: seq<Chunk>, b: seq<Chunk>, i: nat, j: nat, aOff: nat, bOff: nat)
    requires i <= |a| && j <= |b| && WellFormedBlocks(a) && WellFormedBlocks(b)
    ensures var r := Merge(a, b, i, j, aOff, bOff);
      && (r.Failure? ==> r.error == StartMismatch)
      && (r.Success? ==> ASides(r.value) == Views(a[i..]) && BSides(r.value) == Views(b[j..]))
      && (r.Success? ==> forall m :: 0 <= m < |r.value| ==> r.value[m].a.Some? || r.value[m].b.Some?)
    decreases |a| - i + |b| - j
  {
    if i == |a| && j == |b| {
    } else if i < |a| && j < |b| && a[i].hash == b[j].hash {
      if a[i].start + aOff == b[j].start + bOff {
        var aLen := a[i].end - a[i].start;
        var bLen := b[j].end - b[j].start;
        var len := Max(aLen, bLen);
        MergeProjects(a, b, i + 1, j + 1, aOff + (len - aLen), bOff + (len - bLen));
        PairedProjects(a, b, i, j, aOff, bOff);
      }
    } else if j == |b| || (i < |a| && a[i].start + aOff <= b[j].start + bOff) {
      MergeProjects(a, b, i + 1, j, aOff, bOff + (a[i].end - a[i].start));
      AProjects(a, b, i, j, aOff, bOff);
    } else {
      MergeProjects(a, b, i, j + 1, aOff + (b[j].end - b[j].start), bOff);
      BProjects(a, b, i, j, aOff, bOff);
    }
  }

  /** The hunks of a merge from blocks i and j project onto the remaining blocks of each side. */
  ghost predicate Projects(a: seq<Chunk>, b: seq<Chunk>, i: nat, j: nat, r: Result<seq<DiffHunk>, PairError>)
    requires i <= |a| && j <= |b|
  {
    && (r.Failure? ==> r.error == StartMismatch)
    && (r.Success? ==> ASides(r.value) == Views(a[i..]) && BSides(r.value) == Views(b[j..]))
    && (r.Success? ==> forall m :: 0 <= m < |r.value| ==> r.value[m].a.Some? || r.value[m].b.Some?)
  }

  /** A paired hunk in front keeps the projections. */
  lemma PairedProjects(a: seq<Chunk>, b: seq<Chunk>, i: nat, j: nat, aOff: nat, bOff: nat)
    requires i < |a| && j < |b| && WellFormedBlocks(a) && WellFormedBlocks(b)
    requires a[i].hash == b[j].hash && a[i].start + aOff == b[j].start + bOff
    requires var aLen := a[i].end - a[i].start;
      var bLen := b[j].end - b[j].start;
      var len := Max(aLen, bLen);
      Projects(a, b, i + 1, j + 1, Merge(a, b, i + 1, j + 1, aOff + (len - aLen), bOff + (len - bLen)))
    ensures Projects(a, b, i, j, Merge(a, b, i, j, aOff, bOff))
  {
    var aLen := a[i].end - a[i].start;
    var bLen := b[j].end - b[j].start;
    var len := Max(aLen, bLen);
    var r := Merge(a, b, i + 1, j + 1, aOff + (len - aLen), bOff + (len - bLen));
    if r.Success? {
      var h := DiffHunk(a[i].start + aOff, Some(a[i].AsView()), Some(b[j].AsView()));
      assert Merge(a, b, i, j, aOff, bOff) == Success([h] + r.value);
      SidesCons(h, r.value);
      ViewsCons(a, i);
      ViewsCons(b, j);
    }
  }

  /** An a-only hunk in front keeps the projections. */
  lemma AProjects(a: seq<Chunk>, b: seq<Chunk>, i: nat, j: nat, aOff: nat, bOff: nat)
    requires i < |a| && j <= |b| && WellFormedBlocks(a) && WellFormedBlocks(b)
    requires !(j < |b| && a[i].hash == b[j].hash)
    requires j < |b| ==> a[i].start + aOff <= b[j].start + bOff
    requires Projects(a, b, i + 1, j, Merge(a, b, i + 1, j, aOff, bOff + (a[i].end - a[i].start)))
    ensures Projects(a, b, i, j, Merge(a, b, i, j, aOff, bOff))
  {
    var r := Merge(a, b, i + 1, j, aOff, bOff + (a[i].end - a[i].start));
    if r.Success? {
      var h := DiffHunk(a[i].start + aOff, Some(a[i].AsView()), None);
      assert Merge(a, b, i, j, aOff, bOff) == Success([h] + r.value);
      SidesCons(h, r.value);
      ViewsCons(a, i);
    }
  }

  /** A b-only hunk in front keeps the projections. */
  lemma BProjects(a: seq<Chunk>, b: seq<Chunk>, i: nat, j: nat, aOff: nat, bOff: nat)
    requires i <= |a| && j < |b| && WellFormedBlocks(a) && WellFormedBlocks(b)
    requires !(i < |a| && a[i].hash == b[j].hash)
    requires i < |a| ==> b[j].start + bOff < a[i].start + aOff
    requires Projects(a, b, i, j + 1, Merge(a, b, i, j + 1, aOff + (b[j].end - b[j].start), bOff))
    ensures Projects(a, b, i, j, Merge(a, b, i, j, aOff, bOff))
  {
    var r := Merge(a, b, i, j + 1, aOff + (b[j].end - b[j].start), bOff);
    if r.Success? {
      var h := DiffHunk(b[j].start + bOff, None, Some(b[j].AsView()));
      assert Merge(a, b, i, j, aOff, bOff) == Success([h] + r.value);
      SidesCons(h, r.value);
      ViewsCons(b, j);
    }
  }

  /** Hunks that follow one another in virtual space without overlapping. */
  ghost predicate VirtuallyOrdered(hs: seq<DiffHunk>) {
    forall m :: 0 < m < |hs| ==> hs[m - 1].at + HunkLen(hs[m - 1]) <= hs[m].at
  }

  /** Every pending block starts, in virtual space, at or after `low`. */
  ghost predicate PendingFrom(a: seq<Chunk>, b: seq<Chunk>, i: nat, j: nat, aOff: nat, bOff: nat, low: nat)
    requires i <= |a| && j <= |b|
  {
    && (i < |a| ==> low <= a[i].start + aOff)
    && (j < |b| ==> low <= b[j].start + bOff)
  }

  /** A successful merge whose hunks are virtually ordered and start at or after `low`. */
  ghost predicate OrderedAfter(r: Result<seq<DiffHunk>, PairError>, low: nat) {
    r.Success? ==> VirtuallyOrdered(r.value) && (|r.value| > 0 ==> low <= r.value[0].at)
  }

  lemma ConsOrdered(h: DiffHunk, rest: seq<DiffHunk>)
    requires VirtuallyOrdered(rest)
    requires |rest| > 0 ==> h.at + HunkLen(h) <= rest[0].at
    ensures VirtuallyOrdered([h] + rest)
  {
  }

  /**
   * The corrected merge emits hunks in increasing virtual order, each
   * starting no earlier than the pending blocks and ending before the next
   * one starts.
   */
  lemma {:induction false} MergeOrdered(a: seq<Chunk>, b: seq<Chunk>, i: nat, j: nat, aOff: nat, bOff: nat, low: nat)
    requires i <= |a| && j <= |b| && WellFormedBlocks(a) && WellFormedBlocks(b)
    requires OrderedChunks(a) && OrderedChunks(b)
    requires PendingFrom(a, b, i, j, aOff, bOff, low)
    ensures OrderedAfter(Merge(a, b, i, j, aOff, bOff), low)
    decreases |a| - i + |b| - j
  {
    if i == |a| && j == |b| {
    } else if i < |a| && j < |b| && a[i].hash == b[j].hash {
      if a[i].start + aOff == b[j].start + bOff {
        var aLen := a[i].end - a[i].start;
        var bLen := b[j].end - b[j].start;
        var len := Max(aLen, bLen);
        PairedPending(a, b, i, j, aOff, bOff);
        MergeOrdered(a, b, i + 1, j + 1, aOff + (len - aLen), bOff + (len - bLen), a[i].start + aOff + len);
        PairedCons(a, b, i, j, aOff, bOff);
      }
    } else if j == |b| || (i < |a| && a[i].start + aOff <= b[j].start + bOff) {
      var aLen := a[i].end - a[i].start;
      APending(a, b, i, j, aOff, bOff);
      MergeOrdered(a, b, i + 1, j, aOff, bOff + aLen, a[i].start + aOff + aLen);
      ACons(a, b, i, j, aOff, bOff);
    } else {
      var bLen := b[j].end - b[j].start;
      BPending(a, b, i, j, aOff, bOff);
      MergeOrdered(a, b, i, j + 1, aOff + bLen, bOff, b[j].start + bOff + bLen);
      BCons(a, b, i, j, aOff, bOff);
    }
  }

  /** After a paired hunk, the pending blocks start at or after its virtual end. */
  lemma PairedPending(a: seq<Chunk>, b: seq<Chunk>, i: nat, j: nat, aOff: nat, bOff: nat)
    requires i < |a| && j < |b| && WellFormedBlocks(a) && WellFormedBlocks(b)
    requires OrderedChunks(a) && OrderedChunks(b)
    requires a[i].start + aOff == b[j].start + bOff
    ensures var aLen := a[i].end - a[i].start;
      var bLen := b[j].end - b[j].start;
      var len := Max(aLen, bLen);
      PendingFrom(a, b, i + 1, j + 1, aOff + (len - aLen), bOff + (len - bLen), a[i].start + aOff + len)
  {
  }

  /** After an a-only hunk emitted no later than the pending b block. */
  lemma APending(a: seq<Chunk>, b: seq<Chunk>, i: nat, j: nat, aOff: nat, bOff: nat)
    requires i < |a| && j <= |b| && WellFormedBlocks(a) && WellFormedBlocks(b)
    requires OrderedChunks(a)
    requires j < |b| ==> a[i].start + aOff <= b[j].start + bOff
    ensures PendingFrom(a, b, i + 1, j, aOff, bOff + (a[i].end - a[i].start), a[i].start + aOff + (a[i].end - a[i].start))
  {
  }

  /** After a b-only hunk emitted before the pending a block. */
  lemma BPending(a: seq<Chunk>, b: seq<Chunk>, i: nat, j: nat, aOff: nat, bOff: nat)
    requires i <= |a| && j < |b| && WellFormedBlocks(a) && WellFormedBlocks(b)
    requires OrderedChunks(b)
    requires i < |a| ==> b[j].start + bOff < a[i].start + aOff
    ensures PendingFrom(a, b, i, j + 1, aOff + (b[j].end - b[j].start), bOff, b[j].start + bOff + (b[j].end - b[j].start))
  {
  }

  lemma PairedCons(a: seq<Chunk>, b: seq<Chunk>, i: nat, j: nat, aOff: nat, bOff: nat)
    requires i < |a| && j < |b| && WellFormedBlocks(a) && WellFormedBlocks(b)
    requires a[i].hash == b[j].hash && a[i].start + aOff == b[j].start + bOff
    requires var aLen := a[i].end - a[i].start;
      var bLen := b[j].end - b[j].start;
      var len := Max(aLen, bLen);
      OrderedAfter(Merge(a, b, i + 1, j + 1, aOff + (len - aLen), bOff + (len - bLen)), a[i].start + aOff + len)
    ensures OrderedAfter(Merge(a, b, i, j, aOff, bOff), a[i].start + aOff)
  {
    var aLen := a[i].end - a[i].start;
    var bLen := b[j].end - b[j].start;
    var len := Max(aLen, bLen);
    var h := DiffHunk(a[i].start + aOff, Some(a[i].AsView()), Some(b[j].AsView()));
    assert HunkLen(h) == len;
    var r := Merge(a, b, i + 1, j + 1, aOff + (len - aLen), bOff + (len - bLen));
    if r.Success? {
      ConsOrdered(h, r.value);
    }
  }

  lemma ACons(a: seq<Chunk>, b: seq<Chunk>, i: nat, j: nat, aOff: nat, bOff: nat)
    requires i < |a| && j <= |b| && WellFormedBlocks(a) && WellFormedBlocks(b)
    requires !(j < |b| && a[i].hash == b[j].hash)
    requires j < |b| ==> a[i].start + aOff <= b[j].start + bOff
    requires var aLen := a[i].end - a[i].start;
      OrderedAfter(Merge(a, b, i + 1, j, aOff, bOff + aLen), a[i].start + aOff + aLen)
    ensures OrderedAfter(Merge(a, b, i, j, aOff, bOff), a[i].start + aOff)
  {
    var aLen := a[i].end - a[i].start;
    var h := DiffHunk(a[i].start + aOff, Some(a[i].AsView()), None);
    assert HunkLen(h) == aLen;
    var r := Merge(a, b, i + 1, j, aOff, bOff + aLen);
    if r.Success? {
      ConsOrdered(h, r.value);
    }
  }

  lemma BCons(a: seq<Chunk>, b: seq<Chunk>, i: nat, j: nat, aOff: nat, bOff: nat)
    requires i <= |a| && j < |b| && WellFormedBlocks(a) && WellFormedBlocks(b)
    requires !(i < |a| && a[i].hash == b[j].hash)
    requires i < |a| ==> b[j].start + bOff < a[i].start + aOff
    requires var bLen := b[j].end - b[j].start;
      OrderedAfter(Merge(a, b, i, j + 1, aOff + bLen, bOff), b[j].start + bOff + bLen)
    ensures OrderedAfter(Merge(a, b, i, j, aOff, bOff), b[j].start + bOff)
  {
    var bLen := b[j].end - b[j].start;
    var h := DiffHunk(b[j].start + bOff, None, Some(b[j].AsView()));
    assert HunkLen(h) == bLen;
    var r := Merge(a, b, i, j + 1, aOff + bLen, bOff);
    if r.Success? {
      ConsOrdered(h, r.value);
    }
  }

  /**
   * pair_blocks (corrected) on ordered block lists: every block appears
   * exactly once on its own side and in order, the hunks follow one another
   * in virtual space, and only a start mismatch of paired blocks fails.
   */
  lemma PairBlocksSound(a: seq<Chunk>, b: seq<Chunk>)
    requires OrderedChunks(a) && OrderedChunks(b)
    ensures WellFormedBlocks(a) && WellFormedBlocks(b)
    ensures var r := PairBlocks(a, b);
      && (r.Failure? ==> r.error == StartMismatch)
      && (r.Success? ==> ASides(r.value) == Views(a) && BSides(r.value) == Views(b))
      && (r.Success? ==> VirtuallyOrdered(r.value))
  {
    MergeProjects(a, b, 0, 0, 0, 0);
    MergeOrdered(a, b, 0, 0, 0, 0, 0);
    assert a[0..] == a && b[0..] == b;
  }

  /** With no b blocks every a block is an a-only hunk at its own start. */
  lemma {:induction false} MergeAgainstNothing(a: seq<Chunk>, i: nat, bOff: nat)
    requires i <= |a| && WellFormedBlocks(a)
    ensures Merge(a, [], i, 0, 0, bOff).Success?
    ensures var hs := Merge(a, [], i, 0, 0, bOff).value;
      |hs| == |a| - i && forall m :: 0 <= m < |hs| ==> hs[m] == DiffHunk(a[i + m].start, Some(a[i + m].AsView()), None)
    decreases |a| - i
  {
    if i < |a| {
      MergeAgainstNothing(a, i + 1, bOff + (a[i].end - a[i].start));
    }
  }

  /** The prefix `hs` in front of a merge result, failures passed through. */
  function Prepend(hs: seq<DiffHunk>, r: Result<seq<DiffHunk>, PairError>): Result<seq<DiffHunk>, PairError> {
    if r.Failure? then r else Success(hs + r.value)
  }

  /**
   * pair_blocks as a loop (corrected), with the running offsets; it
   * computes the merge.
   */
  method PairBlocksLoop(a: seq<Chunk>, b: seq<Chunk>) returns (r: Result<seq<DiffHunk>, PairError>)
    requires WellFormedBlocks(a) && WellFormedBlocks(b)
    ensures r == PairBlocks(a, b)
  {
    var hs: seq<DiffHunk> := [];
    var i: nat, j: nat := 0, 0;
    var aOff: nat, bOff: nat := 0, 0;
    PrependNothing(Merge(a, b, 0, 0, 0, 0));
    while i < |a| || j < |b|
      invariant i <= |a| && j <= |b|
      invariant PairBlocks(a, b) == Prepend(hs, Merge(a, b, i, j, aOff, bOff))
      decreases |a| - i + |b| - j
    {
      var h: DiffHunk;
      ghost var before := Merge(a, b, i, j, aOff, bOff);
      if i < |a| && j < |b| && a[i].hash == b[j].hash {
        var aStart, bStart := a[i].start + aOff, b[j].start + bOff;
        if aStart != bStart {
          return Failure(StartMismatch);
        }
        h := DiffHunk(aStart, Some(a[i].AsView()), Some(b[j].AsView()));
        var aLen := a[i].end - a[i].start;
        var bLen := b[j].end - b[j].start;
        var len := Max(aLen, bLen);
        aOff := aOff + (len - aLen);
        bOff := bOff + (len - bLen);
        i, j := i + 1, j + 1;
      } else if j == |b| || (i < |a| && a[i].start + aOff <= b[j].start + bOff) {
        h := DiffHunk(a[i].start + aOff, Some(a[i].AsView()), None);
        bOff := bOff + (a[i].end - a[i].start);
        i := i + 1;
      } else {
        h := DiffHunk(b[j].start + bOff, None, Some(b[j].AsView()));
        aOff := aOff + (b[j].end - b[j].start);
        j := j + 1;
      }
      assert before == Prepend([h], Merge(a, b, i, j, aOff, bOff));
      PrependTwice(hs, h, Merge(a, b, i, j, aOff, bOff));
      hs := hs + [h];
    }
    assert hs + [] == hs;
    r := Success(hs);
  }

  lemma PrependNothing(r: Result<seq<DiffHunk>, PairError>)
    ensures Prepend([], r) == r
  {
    if r.Success? {
      assert [] + r.value == r.value;
    }
  }

  lemma PrependTwice(hs: seq<DiffHunk>, h: DiffHunk, r: Result<seq<DiffHunk>, PairError>)
    ensures Prepend(hs, Prepend([h], r)) == Prepend(hs + [h], r)
  {
    if r.Success? {
      assert hs + ([h] + r.value) == hs + [h] + r.value;
    }
  }
}
