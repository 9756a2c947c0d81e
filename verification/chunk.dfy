/**
 * src/chunk.c: the sample-based chunker. Each sample is several bytes;
 * every byte is fed to the chunk hash and to the window hash, but the
 * boundary test is made only at the last byte of a sample, so chunk
 * positions count samples. The trailing chunk ends one sample past the
 * number of samples read.
 *
 * The chunk hash here uses the hashing API of include/rabin.h with the
 * polynomial 141, whose definition is not part of this model: both hashes
 * are functions of the bytes fed since the last reset.
 */
module Chunker {
  import opened Types
  import opened ContentChunker

  /** buf_size: the bytes one fetch may fill. */
  const BufSize: nat := 16384

  /** The irreducible polynomial passed to hash_data_init. */
  const IrreduciblePolynomial: Hash := 141

  /** chunk_new: the new chunk is linked after the current tail of the list. */
  function ChunkNew(cs: seq<Chunk>, start: nat, end: nat, h: Hash): (r: seq<Chunk>)
    ensures |r| == |cs| + 1 && r[..|cs|] == cs
    ensures r[|cs|].AsView() == View(start, end) && r[|cs|].hash == h
  {
    cs + [Chunk(start, end, h)]
  }

  /** The bytes of a run of samples, in order. */
  function Flatten(samples: seq<seq<byte>>): seq<byte> {
    if |samples| == 0 then [] else Flatten(samples[..|samples| - 1]) + samples[|samples| - 1]
  }

  /**
   * split_data of src/chunk.c over the samples the fetcher delivers. A
   * fetch asks for buf_size / sample_size samples, so a sample larger than
   * the buffer makes the first fetch return 0 and nothing is chunked.
   */
  function SplitSamples(sampleSize: nat, samples: seq<seq<byte>>, digest: seq<byte> -> Hash,
                        window: seq<byte> -> Hash): seq<Chunk>
    requires sampleSize > 0
  {
    if BufSize / sampleSize == 0 then []
    else Split(samples, (s: seq<seq<byte>>) => digest(Flatten(s)), (s: seq<seq<byte>>) => window(Flatten(s)), 1)
  }

  /**
   * The chunks start at 0 and follow one another; no data gives no chunks,
   * and otherwise the last chunk ends at the number of samples plus one.
   */
  lemma SplitSamplesTiles(sampleSize: nat, samples: seq<seq<byte>>, digest: seq<byte> -> Hash, window: seq<byte> -> Hash)
    requires 0 < sampleSize <= BufSize
    ensures var cs := SplitSamples(sampleSize, samples, digest, window);
      && Gapless(cs)
      && (|cs| == 0 <==> |samples| == 0)
      && (|samples| > 0 ==> LastEnd(cs) == |samples| + 1)
  {
    SplitTiles(samples, (s: seq<seq<byte>>) => digest(Flatten(s)), (s: seq<seq<byte>>) => window(Flatten(s)), 1);
  }

  /**
   * The boundary rule: every chunk but the last ends at the first sample
   * since the previous reset whose last byte brings the low byte of the
   * window hash to zero.
   */
  lemma SplitSamplesBoundaries(sampleSize: nat, samples: seq<seq<byte>>, digest: seq<byte> -> Hash, window: seq<byte> -> Hash)
    requires 0 < sampleSize <= BufSize
    ensures Characterized(samples, (s: seq<seq<byte>>) => digest(Flatten(s)), (s: seq<seq<byte>>) => window(Flatten(s)), 1,
                          0, 0, SplitSamples(sampleSize, samples, digest, window))
  {
    SplitCharacterized(samples, (s: seq<seq<byte>>) => digest(Flatten(s)), (s: seq<seq<byte>>) => window(Flatten(s)), 1);
  }

  /**
   * Two streams that agree after a boundary in each end in the same chunks,
   * moved by the difference in where the boundaries sit: the trailing
   * chunks have equal hashes, and starts and ends differ by that amount.
   */
  lemma SplitSamplesResync(sampleSize: nat, x: seq<seq<byte>>, y: seq<seq<byte>>,
                           digest: seq<byte> -> Hash, window: seq<byte> -> Hash, kx: nat, ky: nat)
    requires 0 < sampleSize <= BufSize
    requires var cs := SplitSamples(sampleSize, x, digest, window);
      var ds := SplitSamples(sampleSize, y, digest, window);
      && kx + 1 < |cs| && ky + 1 < |ds|
      && cs[kx].end + 1 < |x| && ds[ky].end + 1 < |y|
      && x[cs[kx].end + 1..] == y[ds[ky].end + 1..]
    ensures var cs := SplitSamples(sampleSize, x, digest, window);
      var ds := SplitSamples(sampleSize, y, digest, window);
      && |cs| - kx == |ds| - ky
      && cs[|cs| - 1].hash == ds[|ds| - 1].hash
      && cs[|cs| - 1].start + ds[ky].end == ds[|ds| - 1].start + cs[kx].end
      && cs[|cs| - 1].end + ds[ky].end == ds[|ds| - 1].end + cs[kx].end
  {
    var dg := (s: seq<seq<byte>>) => digest(Flatten(s));
    var wn := (s: seq<seq<byte>>) => window(Flatten(s));
    var cs := Split(x, dg, wn, 1);
    var ds := Split(y, dg, wn, 1);
    Resync(x, y, dg, wn, 1, kx, ky);
    var sx := Shift(cs[kx + 1..], ds[ky].end);
    var sy := Shift(ds[ky + 1..], cs[kx].end);
    assert sx[|sx| - 1] == sy[|sy| - 1];
  }
}
