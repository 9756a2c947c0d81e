/**
 * src/block.c: a block shares the chunk representation, but its hash is
 * the hash of the common "anchor" chunk that precedes it, not a hash of
 * its own contents.
 */
module Block {
  import opened Types

  /** block_new: the block from the anchor's end to `end`, labelled with the anchor's hash. */
  function BlockNew(anchor: Chunk, end: nat): (b: Chunk)
    ensures b.AsView() == View(anchor.end, end)
    ensures b.hash == anchor.hash
  {
    Chunk(anchor.end, end, anchor.hash)
  }

  /** With the zero anchor a block starts at 0 and carries hash 0. */
  lemma ZeroAnchor(end: nat)
    ensures BlockNew(ZeroChunk, end) == Chunk(0, end, 0)
  {
  }
}
