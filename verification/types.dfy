/**
 * Records shared by the chunkers, the chunk-to-hunk matcher, the block
 * builder and the narrowing pass (include/diff_types.h, src/chunk.h).
 * Positions are sample indices; the C `unsigned` fields are modelled as
 * unbounded naturals.
 */
module Types {

  type byte = bv8

  /** The 32-bit unsigned hash of src/hash.h. */
  newtype Hash = x: int | 0 <= x < 0x1_0000_0000

  /** A half-open slice [start, end) of one data stream. */
  datatype View = View(start: nat, end: nat) {
    predicate IsEmpty() {
      start == end
    }

    predicate WellFormed() {
      start <= end
    }

    function Length(): nat
      requires WellFormed()
    {
      end - start
    }
  }

  /** A chunk (or a block, which shares the representation): a view plus a hash. */
  datatype Chunk = Chunk(start: nat, end: nat, hash: Hash) {
    function AsView(): View {
      View(start, end)
    }
  }

  /** A changed region: the slice of `a` that corresponds to the slice of `b`. */
  datatype Hunk = Hunk(a: View, b: View)

  /** The chunk that sits before the first real chunk: empty, at 0, hash 0. */
  const ZeroChunk := Chunk(0, 0, 0)

  function Hashes(cs: seq<Chunk>): (hs: seq<Hash>)
    ensures |hs| == |cs|
    ensures forall i :: 0 <= i < |cs| ==> hs[i] == cs[i].hash
  {
    seq(|cs|, i requires 0 <= i < |cs| => cs[i].hash)
  }

  /** End of the last chunk, or 0 for an empty list (the zero chunk's end). */
  function LastEnd(cs: seq<Chunk>): nat {
    if |cs| == 0 then 0 else cs[|cs| - 1].end
  }

  /**
   * A gapless chunk list: the first chunk starts at 0, every chunk is
   * well-formed and every later chunk starts where the previous one ended.
   */
  ghost predicate Gapless(cs: seq<Chunk>) {
    && (|cs| > 0 ==> cs[0].start == 0)
    && (forall i :: 0 <= i < |cs| ==> cs[i].start <= cs[i].end)
    && (forall i :: 0 < i < |cs| ==> cs[i].start == cs[i - 1].end)
  }

  /** Views that are well-formed and follow one another without overlap. */
  ghost predicate OrderedChunks(cs: seq<Chunk>) {
    && (forall i :: 0 <= i < |cs| ==> cs[i].start <= cs[i].end)
    && (forall i :: 0 < i < |cs| ==> cs[i - 1].end <= cs[i].start)
  }

  /** Hunks whose views are well-formed and strictly ordered on both sides. */
  ghost predicate OrderedHunks(hs: seq<Hunk>) {
    && (forall i :: 0 <= i < |hs| ==> hs[i].a.WellFormed() && hs[i].b.WellFormed())
    && (forall i :: 0 < i < |hs| ==> hs[i - 1].a.end <= hs[i].a.start && hs[i - 1].b.end <= hs[i].b.start)
  }

  lemma GaplessIsOrdered(cs: seq<Chunk>)
    requires Gapless(cs)
    ensures OrderedChunks(cs)
  {
  }

  /** In a gapless list every chunk ends no later than the last one. */
  lemma {:induction false} GaplessEndsBounded(cs: seq<Chunk>, i: nat)
    requires Gapless(cs)
    requires i < |cs|
    ensures cs[i].start <= cs[i].end <= LastEnd(cs)
    decreases |cs| - i
  {
    if i + 1 < |cs| {
      GaplessEndsBounded(cs, i + 1);
    }
  }

  /** In a gapless list, starts never decrease and an earlier chunk ends before a later one starts. */
  lemma {:induction false} GaplessMonotone(cs: seq<Chunk>, i: nat, k: nat)
    requires Gapless(cs)
    requires i <= k < |cs|
    ensures cs[i].start <= cs[k].start
    ensures i < k ==> cs[i].end <= cs[k].start
    decreases k - i
  {
    if i < k {
      GaplessMonotone(cs, i, k - 1);
    }
  }
}
