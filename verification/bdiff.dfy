/**
 * src/bdiff.c: the byte-based chunker, whose chunk hash is the 9-bit
 * rolling hash of src/rabin.c, and the composition that turns two byte
 * streams into diff hunks.
 */
module Bdiff {
  import opened Types
  import opened Wrappers
  import Rabin
  import Fetcher
  import opened ContentChunker
  import opened Diff

  /** buf_size: the bytes one fetch may fill. */
  const BufSize: nat := 4096

  /** The chunk hash of the bytes fed since the last reset. */
  function RabinDigest(s: seq<byte>): (h: Hash)
    ensures h < 512
  {
    Rabin.RabinHash(s) as int as Hash
  }

  /** split_data of src/bdiff.c: one unit per byte, trailing chunk ending at the bytes read. */
  function SplitData(data: seq<byte>, window: seq<byte> -> Hash): seq<Chunk> {
    Split(data, RabinDigest, window, 0)
  }

  /** No data gives no chunks; otherwise the chunks tile the data exactly. */
  lemma SplitDataTiles(data: seq<byte>, window: seq<byte> -> Hash)
    ensures var cs := SplitData(data, window);
      && Gapless(cs)
      && (|cs| == 0 <==> |data| == 0)
      && LastEnd(cs) == |data|
      && forall k :: 0 <= k < |cs| ==> cs[k].hash < 512
  {
    SplitTiles(data, RabinDigest, window, 0);
    SplitCharacterized(data, RabinDigest, window, 0);
    CharacterizedHashes(data, window, 0, 0, SplitData(data, window));
  }

  /** Every chunk hash is a Rabin hash, or inherited from one, so it fits in 9 bits. */
  lemma {:induction false} CharacterizedHashes(data: seq<byte>, window: seq<byte> -> Hash, from0: nat, h0: Hash, cs: seq<Chunk>)
    requires h0 < 512 && Characterized(data, RabinDigest, window, 0, from0, h0, cs)
    ensures forall k :: 0 <= k < |cs| ==> cs[k].hash < 512
    decreases |cs|
  {
    if |cs| > 1 {
      CharacterizedHashes(data, window, cs[0].end + 1, cs[0].hash, cs[1..]);
      forall k | 0 < k < |cs|
        ensures cs[k].hash < 512
      {
        assert cs[k] == cs[1..][k - 1];
      }
    }
  }

  /** Feeding byte `i` to the hash of the bytes fed since `from`. */
  lemma RabinStep(data: seq<byte>, from: nat, i: nat)
    requires from <= i < |data|
    ensures Rabin.UpdateByte(Rabin.RabinHash(data[from..i]), data[i]) == Rabin.RabinHash(data[from..i + 1])
  {
    Rabin.RabinHashSnoc(data[from..i + 1], data[from..i], data[i]);
  }

  /**
   * The locals of split_data between two bytes: the chunks emitted so far,
   * the index of the first byte fed to the hash since the last reset, where
   * the open chunk starts, the last chunk hash and the Rabin hash state.
   */
  datatype Scanner = Scanner(cs: seq<Chunk>, from: nat, start: nat, h: Hash, hd: Rabin.HashData)

  /** Before byte i the scanner holds the hash of the bytes since `from`, and finishes into SplitData. */
  ghost predicate ScanState(data: seq<byte>, window: seq<byte> -> Hash, st: Scanner, i: nat) {
    && st.start <= st.from <= i <= |data|
    && st.hd.h == Rabin.RabinHash(data[st.from..i])
    && st.cs + Scan(data, RabinDigest, window, 0, i, st.from, st.start, st.h) == SplitData(data, window)
  }

  /**
   * The inner loop of split_data for byte i, as a function: update the
   * chunk hash, and at a boundary close the chunk and reset the hash state.
   */
  function Advance(data: seq<byte>, window: seq<byte> -> Hash, st: Scanner, i: nat): (r: Scanner)
    requires st.from <= i < |data|
    ensures r.from <= i + 1
  {
    var hv := Rabin.UpdateByte(st.hd.h, data[i]);
    var h := hv as int as Hash;
    if IsBoundary(window(data[st.from..i + 1])) then
      Scanner(st.cs + [Chunk(st.start, i, h)], i + 1, i, h, Rabin.HashDataReset(Rabin.HashData(hv)))
    else
      st.(h := h, hd := Rabin.HashData(hv))
  }

  /** The updated Rabin state is the hash of the bytes fed since `from`, byte i included. */
  lemma AdvanceHash(data: seq<byte>, window: seq<byte> -> Hash, st: Scanner, i: nat)
    requires i < |data| && ScanState(data, window, st, i)
    ensures Rabin.UpdateByte(st.hd.h, data[i]) == Rabin.RabinHash(data[st.from..i + 1])
    ensures Rabin.UpdateByte(st.hd.h, data[i]) as int as Hash == RabinDigest(Fed(data, st.from, i))
  {
    Rabin.UpdateByteBounded(Rabin.RabinHash(data[st.from..i]), data[i]);
    RabinStep(data, st.from, i);
  }

  /** One byte keeps the scanner in step with SplitData. */
  lemma AdvanceKeeps(data: seq<byte>, window: seq<byte> -> Hash, st: Scanner, i: nat)
    requires i < |data| && ScanState(data, window, st, i)
    ensures ScanState(data, window, Advance(data, window, st, i), i + 1)
  {
    AdvanceHash(data, window, st, i);
    if IsBoundary(window(data[st.from..i + 1])) {
      BoundaryKeeps(data, window, st, i);
    } else {
      assert !BoundaryAt(data, window, st.from, i);
    }
  }

  /** At a boundary the closed chunk moves from the scan into the emitted list. */
  lemma BoundaryKeeps(data: seq<byte>, window: seq<byte> -> Hash, st: Scanner, i: nat)
    requires i < |data| && ScanState(data, window, st, i)
    requires IsBoundary(window(data[st.from..i + 1]))
    requires Rabin.UpdateByte(st.hd.h, data[i]) as int as Hash == RabinDigest(Fed(data, st.from, i))
    ensures ScanState(data, window, Advance(data, window, st, i), i + 1)
  {
    var h := RabinDigest(Fed(data, st.from, i));
    var r := Advance(data, window, st, i);
    assert BoundaryAt(data, window, st.from, i);
    var rest := Scan(data, RabinDigest, window, 0, i + 1, i + 1, i, h);
    assert Scan(data, RabinDigest, window, 0, i, st.from, st.start, st.h) == [Chunk(st.start, i, h)] + rest;
    assert r.cs == st.cs + [Chunk(st.start, i, h)];
    assert data[i + 1..i + 1] == [];
    assert st.cs + ([Chunk(st.start, i, h)] + rest) == r.cs + rest;
  }

  /**
   * The body of the inner loop of split_data: the hash update runs the bit
   * loop of hash_data_update.
   */
  method ProcessByte(data: seq<byte>, window: seq<byte> -> Hash, st0: Scanner, i: nat, next: byte) returns (st: Scanner)
    requires i < |data| && next == data[i] && ScanState(data, window, st0, i)
    ensures ScanState(data, window, st, i + 1)
  {
    AdvanceKeeps(data, window, st0, i);
    var r: Rabin.HashData, hv: bv32 := Rabin.HashDataUpdate(st0.hd, next);
    var h: Hash := hv as int as Hash;
    if IsBoundary(window(data[st0.from..i + 1])) {
      st := Scanner(st0.cs + [Chunk(st0.start, i, h)], i + 1, i, h, Rabin.HashDataReset(r));
    } else {
      st := st0.(h := h, hd := r);
    }
    assert st == Advance(data, window, st0, i);
  }

  /**
   * The inner loop of split_data: every byte of one fetched buffer, in
   * order, keeps the scanner in step with SplitData.
   */
  method ProcessBuffer(data: seq<byte>, window: seq<byte> -> Hash, buffer: seq<byte>, pos: nat, st0: Scanner)
    returns (st: Scanner, next: nat)
    requires pos + |buffer| <= |data| && buffer == data[pos..pos + |buffer|] && ScanState(data, window, st0, pos)
    ensures next == pos + |buffer|
    ensures ScanState(data, window, st, next)
  {
    var end := pos + |buffer|;
    st := st0;
    var i := pos;
    while i < end
      invariant pos <= i <= end && ScanState(data, window, st, i)
    {
      assert buffer[i - pos] == data[i];
      st := ProcessByte(data, window, st, i, buffer[i - pos]);
      i := i + 1;
    }
    next := i;
  }

  /**
   * One turn of split_data's outer loop: fetch up to buf_size bytes with
   * test_reader and feed them all. A fetch of 0 bytes happens only at the
   * end of the data.
   */
  method FetchAndScan(data: seq<byte>, window: seq<byte> -> Hash, td0: Fetcher.TestData<byte>, st0: Scanner)
    returns (nRead: nat, td: Fetcher.TestData<byte>, st: Scanner)
    requires td0.data == data && ScanState(data, window, st0, td0.pos)
    ensures td.data == data && td.pos == td0.pos + nRead && ScanState(data, window, st, td.pos)
    ensures nRead == 0 ==> td.pos == |data|
  {
    var read := Fetcher.TestReader(td0, BufSize);
    nRead, td := read.count, read.next;
    assert |read.buffer| == nRead && read.buffer == data[td0.pos..td0.pos + nRead];
    var next;
    st, next := ProcessBuffer(data, window, read.buffer, td0.pos, st0);
    assert next == td.pos;
  }

  /** After the last byte, emitting the open chunk (if any) completes SplitData. */
  lemma ScanFinish(data: seq<byte>, window: seq<byte> -> Hash, st: Scanner)
    requires ScanState(data, window, st, |data|)
    ensures (if |data| > st.start then st.cs + [Chunk(st.start, |data|, st.h)] else st.cs) == SplitData(data, window)
  {
    if |data| <= st.start {
      assert st.cs + [] == st.cs;
    }
  }

  /**
   * split_data of src/bdiff.c as written: fetch up to buf_size bytes at a
   * time with test_reader until a fetch returns 0, feeding every byte to
   * the Rabin hash and the window hash, then emit the trailing chunk.
   */
  method SplitDataLoop(data: seq<byte>, window: seq<byte> -> Hash) returns (cs: seq<Chunk>)
    ensures cs == SplitData(data, window)
  {
    var td := Fetcher.TestData(data, 0);
    var st := Scanner([], 0, 0, 0, Rabin.HashDataInit());
    var totalRead: nat := 0;
    var nRead: nat := 1;
    assert data[0..0] == [];
    while nRead > 0
      invariant td.data == data && td.pos == totalRead
      invariant ScanState(data, window, st, totalRead)
      invariant nRead == 0 ==> totalRead == |data|
      decreases |data| - totalRead, nRead
    {
      nRead, td, st := FetchAndScan(data, window, td, st);
      totalRead := totalRead + nRead;
    }
    ScanFinish(data, window, st);
    cs := st.cs;
    if totalRead > st.start {
      cs := cs + [Chunk(st.start, totalRead, st.h)];
    }
  }

  /** The blocks of a chunk list that are absent from the other are non-empty and ordered. */
  lemma UniqueBlocksWellFormed(ours: seq<Chunk>, theirs: seq<Chunk>)
    requires Gapless(ours)
    ensures WellFormedBlocks(UniqueBlocks(ours, theirs)) && OrderedChunks(UniqueBlocks(ours, theirs))
  {
    UniqueBlocksShape(ours, theirs);
  }

  /**
   * bdiff: chunk both streams, take the blocks unique to each side, and
   * merge them into diff hunks (with the corrected merge).
   */
  function Bdiff(x: seq<byte>, y: seq<byte>, window: seq<byte> -> Hash): Result<seq<DiffHunk>, PairError> {
    var cx := SplitData(x, window);
    var cy := SplitData(y, window);
    SplitDataTiles(x, window);
    SplitDataTiles(y, window);
    UniqueBlocksWellFormed(cx, cy);
    UniqueBlocksWellFormed(cy, cx);
    PairBlocks(UniqueBlocks(cx, cy), UniqueBlocks(cy, cx))
  }

  /** A stream compared with itself has no hunks. */
  lemma BdiffSame(x: seq<byte>, window: seq<byte> -> Hash)
    ensures Bdiff(x, x, window) == Success([])
  {
    SplitDataTiles(x, window);
    UniqueBlocksIdentical(SplitData(x, window));
  }

  /**
   * The a-sides of the hunks are exactly the blocks unique to `x`, in
   * order, and the b-sides those unique to `y`; the hunks follow one
   * another in virtual space; only a start mismatch of paired blocks fails.
   */
  lemma BdiffSound(x: seq<byte>, y: seq<byte>, window: seq<byte> -> Hash)
    ensures var cx := SplitData(x, window);
      var cy := SplitData(y, window);
      var r := Bdiff(x, y, window);
      && (r.Failure? ==> r.error == StartMismatch)
      && (r.Success? ==> ASides(r.value) == Views(UniqueBlocks(cx, cy)) && BSides(r.value) == Views(UniqueBlocks(cy, cx)))
      && (r.Success? ==> VirtuallyOrdered(r.value))
  {
    var cx := SplitData(x, window);
    var cy := SplitData(y, window);
    SplitDataTiles(x, window);
    SplitDataTiles(y, window);
    UniqueBlocksWellFormed(cx, cy);
    UniqueBlocksWellFormed(cy, cx);
    PairBlocksSound(UniqueBlocks(cx, cy), UniqueBlocks(cy, cx));
  }
}
