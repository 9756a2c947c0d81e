/**
 * The content-defined chunking loop shared by split_data in src/bdiff.c
 * (one unit = one byte) and split_data in src/chunk.c (one unit = one
 * sample of several bytes).
 *
 * Both loops feed every unit to a running chunk hash and to a window hash.
 * When the low 8 bits of the window hash are zero the current unit closes
 * the chunk: a chunk [start, i) is emitted carrying the chunk hash that
 * includes unit i, the next chunk starts at i, and both hashes are reset,
 * so unit i is never fed again. At the end of the data a trailing chunk
 * from the last start is emitted if any unit was read after it; its end is
 * the number of units read plus `tail` (0 in src/bdiff.c, 1 in src/chunk.c).
 *
 * Both hashes are deterministic functions of the units fed since the last
 * reset, so they are modelled as functions of that slice: `digest` for the
 * chunk hash and `window` for the window hash.
 */
module ContentChunker {
  import opened Types

  /** The boundary test of both loops: the low 8 bits of the window hash are zero. */
  predicate IsBoundary(w: Hash) {
    w % 256 == 0
  }

  /** The units fed since the reset at `from`, up to and including unit j. */
  function Fed<T>(units: seq<T>, from: nat, j: nat): seq<T>
    requires from <= j < |units|
  {
    units[from..j + 1]
  }

  /** Unit j closes a chunk when the slice fed since `from` is fed to the window. */
  predicate BoundaryAt<T>(units: seq<T>, window: seq<T> -> Hash, from: nat, j: nat)
    requires from <= j < |units|
  {
    IsBoundary(window(Fed(units, from, j)))
  }

  /** No unit in [from, e) closes a chunk. */
  predicate NoBoundaryBefore<T>(units: seq<T>, window: seq<T> -> Hash, from: nat, e: nat)
    requires from <= e <= |units|
  {
    forall j :: from <= j < e ==> !BoundaryAt(units, window, from, j)
  }

  /**
   * The scanning loop from unit i on. `from` is the first unit fed since
   * the last reset, `start` the start of the open chunk and `h` the last
   * chunk hash computed.
   */
  function Scan<T>(units: seq<T>, digest: seq<T> -> Hash, window: seq<T> -> Hash, tail: nat,
                   i: nat, from: nat, start: nat, h: Hash): seq<Chunk>
    requires start <= from <= i <= |units|
    decreases |units| - i
  {
    if i == |units| then
      if i > start then [Chunk(start, i + tail, h)] else []
    else
      var ch := digest(Fed(units, from, i));
      if BoundaryAt(units, window, from, i) then
        [Chunk(start, i, ch)] + Scan(units, digest, window, tail, i + 1, i + 1, i, ch)
      else
        Scan(units, digest, window, tail, i + 1, from, start, ch)
  }

  /** The chunk list of a whole stream. */
  function Split<T>(units: seq<T>, digest: seq<T> -> Hash, window: seq<T> -> Hash, tail: nat): seq<Chunk> {
    Scan(units, digest, window, tail, 0, 0, 0, 0)
  }

  /**
   * The scan emits a chained list from `start` to the end of the data plus
   * `tail`, and emits nothing only when nothing is left to read.
   */
  lemma {:induction false} ScanTiles<T>(units: seq<T>, digest: seq<T> -> Hash, window: seq<T> -> Hash, tail: nat,
                                        i: nat, from: nat, start: nat, h: Hash)
    requires start <= from <= i <= |units|
    ensures var cs := Scan(units, digest, window, tail, i, from, start, h);
      && (|cs| == 0 <==> i == |units| && i == start)
      && (|cs| > 0 ==> cs[0].start == start && LastEnd(cs) == |units| + tail)
      && (forall k :: 0 <= k < |cs| ==> cs[k].start <= cs[k].end)
      && (forall k :: 0 < k < |cs| ==> cs[k].start == cs[k - 1].end)
    decreases |units| - i
  {
    if i < |units| {
      var ch := digest(Fed(units, from, i));
      if BoundaryAt(units, window, from, i) {
        ScanTiles(units, digest, window, tail, i + 1, i + 1, i, ch);
      } else {
        ScanTiles(units, digest, window, tail, i + 1, from, start, ch);
      }
    }
  }

  /** Empty data gives no chunks; otherwise the chunks tile [0, units + tail). */
  lemma SplitTiles<T>(units: seq<T>, digest: seq<T> -> Hash, window: seq<T> -> Hash, tail: nat)
    ensures var cs := Split(units, digest, window, tail);
      && Gapless(cs)
      && (|cs| == 0 <==> |units| == 0)
      && LastEnd(cs) == if |units| == 0 then 0 else |units| + tail
  {
    ScanTiles(units, digest, window, tail, 0, 0, 0, 0);
  }

  /**
   * A chunk closed by a boundary: the unit at its end is the first one
   * since the reset at `f` whose window hash has a zero low byte, and its
   * hash covers the units from `f` to that unit inclusive.
   */
  predicate ClosedChunk<T>(units: seq<T>, digest: seq<T> -> Hash, window: seq<T> -> Hash, f: nat, c: Chunk) {
    && f <= c.end < |units|
    && NoBoundaryBefore(units, window, f, c.end)
    && BoundaryAt(units, window, f, c.end)
    && c.hash == digest(Fed(units, f, c.end))
  }

  /**
   * The trailing chunk: no unit after the reset at `f` is a boundary, it
   * ends `tail` past the data, and its hash covers the rest of the data,
   * or is inherited when nothing was fed after the reset.
   */
  predicate TrailingChunk<T>(units: seq<T>, digest: seq<T> -> Hash, window: seq<T> -> Hash, tail: nat,
                             f: nat, c: Chunk, prev: Hash) {
    && f <= |units|
    && NoBoundaryBefore(units, window, f, |units|)
    && c.end == |units| + tail
    && c.hash == if f < |units| then digest(units[f..]) else prev
  }

  /**
   * Every chunk but the last is closed by a boundary, the last one is the
   * trailing chunk. The list starts from the reset point `from0` with the
   * inherited hash `h0`; after a closed chunk the next reset is the unit
   * after its end, and the hash it leaves behind is its own.
   */
  predicate Characterized<T>(units: seq<T>, digest: seq<T> -> Hash, window: seq<T> -> Hash, tail: nat,
                             from0: nat, h0: Hash, cs: seq<Chunk>)
    decreases |cs|
  {
    if |cs| == 0 then true
    else if |cs| == 1 then TrailingChunk(units, digest, window, tail, from0, cs[0], h0)
    else
      && ClosedChunk(units, digest, window, from0, cs[0])
      && Characterized(units, digest, window, tail, cs[0].end + 1, cs[0].hash, cs[1..])
  }

  lemma {:induction false} ScanCharacterized<T>(units: seq<T>, digest: seq<T> -> Hash, window: seq<T> -> Hash, tail: nat,
                                                i: nat, from: nat, start: nat, h: Hash)
    requires start <= from <= i <= |units|
    requires NoBoundaryBefore(units, window, from, i)
    requires from < i ==> h == digest(units[from..i])
    ensures Characterized(units, digest, window, tail, from, h, Scan(units, digest, window, tail, i, from, start, h))
    decreases |units| - i
  {
    if i == |units| {
      if i > start {
        assert from < i ==> units[from..] == units[from..i];
      }
    } else {
      var ch := digest(Fed(units, from, i));
      if BoundaryAt(units, window, from, i) {
        ScanCharacterized(units, digest, window, tail, i + 1, i + 1, i, ch);
        ScanTiles(units, digest, window, tail, i + 1, i + 1, i, ch);
        CharacterizedCons(units, digest, window, tail, from, h, Chunk(start, i, ch),
                          Scan(units, digest, window, tail, i + 1, i + 1, i, ch));
      } else {
        NoBoundaryExtend(units, window, from, i);
        ScanCharacterized(units, digest, window, tail, i + 1, from, start, ch);
      }
    }
  }

  lemma NoBoundaryExtend<T>(units: seq<T>, window: seq<T> -> Hash, from: nat, i: nat)
    requires from <= i < |units|
    requires NoBoundaryBefore(units, window, from, i)
    requires !BoundaryAt(units, window, from, i)
    ensures NoBoundaryBefore(units, window, from, i + 1)
  {
  }

  /** A closed chunk followed by the chunks scanned after its reset. */
  lemma CharacterizedCons<T>(units: seq<T>, digest: seq<T> -> Hash, window: seq<T> -> Hash, tail: nat,
                             from: nat, h: Hash, c: Chunk, rest: seq<Chunk>)
    requires ClosedChunk(units, digest, window, from, c)
    requires Characterized(units, digest, window, tail, c.end + 1, c.hash, rest)
    requires |rest| > 0
    ensures Characterized(units, digest, window, tail, from, h, [c] + rest)
  {
    assert ([c] + rest)[1..] == rest;
  }

  /**
   * The boundary rule of both chunkers: a chunk other than the last ends at
   * unit e exactly when unit e is the first unit since the previous reset
   * whose window hash has a zero low byte; the last chunk contains no such
   * unit.
   */
  lemma SplitCharacterized<T>(units: seq<T>, digest: seq<T> -> Hash, window: seq<T> -> Hash, tail: nat)
    ensures Characterized(units, digest, window, tail, 0, 0, Split(units, digest, window, tail))
  {
    ScanCharacterized(units, digest, window, tail, 0, 0, 0, 0);
  }

  /**
   * A characterized gapless list starting at the reset point is unique: two
   * such lists for the same data are equal.
   */
  lemma {:induction false} CharacterizedUnique<T>(units: seq<T>, digest: seq<T> -> Hash, window: seq<T> -> Hash, tail: nat,
                                                  from0: nat, h0: Hash, cs: seq<Chunk>, ds: seq<Chunk>)
    requires Characterized(units, digest, window, tail, from0, h0, cs)
    requires Characterized(units, digest, window, tail, from0, h0, ds)
    requires |cs| > 0 && |ds| > 0 && cs[0].start == ds[0].start
    requires forall k :: 0 < k < |cs| ==> cs[k].start == cs[k - 1].end
    requires forall k :: 0 < k < |ds| ==> ds[k].start == ds[k - 1].end
    ensures cs == ds
    decreases |cs|
  {
    if |cs| > 1 && |ds| > 1 {
      FirstBoundaryUnique(units, window, from0, cs[0].end, ds[0].end);
      GaplessTail(cs);
      GaplessTail(ds);
      CharacterizedUnique(units, digest, window, tail, cs[0].end + 1, cs[0].hash, cs[1..], ds[1..]);
      SameHeadSameTail(cs, ds);
    } else {
      ShortUnique(units, digest, window, tail, from0, h0, cs, ds);
    }
  }

  /** The tail of a gapless list is gapless and starts where the head ends. */
  lemma GaplessTail(cs: seq<Chunk>)
    requires |cs| > 1 && forall k :: 0 < k < |cs| ==> cs[k].start == cs[k - 1].end
    ensures cs[1..][0].start == cs[0].end
    ensures forall k :: 0 < k < |cs[1..]| ==> cs[1..][k].start == cs[1..][k - 1].end
  {
  }

  /** Lists with equal heads and equal tails are equal. */
  lemma SameHeadSameTail(cs: seq<Chunk>, ds: seq<Chunk>)
    requires |cs| > 0 && |ds| > 0 && cs[0] == ds[0] && cs[1..] == ds[1..]
    ensures cs == ds
  {
    assert cs == [cs[0]] + cs[1..];
    assert ds == [ds[0]] + ds[1..];
  }

  /** When either list has a single chunk, both are the same single trailing chunk. */
  lemma ShortUnique<T>(units: seq<T>, digest: seq<T> -> Hash, window: seq<T> -> Hash, tail: nat,
                       from0: nat, h0: Hash, cs: seq<Chunk>, ds: seq<Chunk>)
    requires Characterized(units, digest, window, tail, from0, h0, cs)
    requires Characterized(units, digest, window, tail, from0, h0, ds)
    requires |cs| > 0 && |ds| > 0 && cs[0].start == ds[0].start
    requires |cs| == 1 || |ds| == 1
    ensures cs == ds
  {
    if |cs| > 1 {
      ClosedNotTrailing(units, digest, window, tail, from0, cs[0], ds[0], h0);
    } else if |ds| > 1 {
      ClosedNotTrailing(units, digest, window, tail, from0, ds[0], cs[0], h0);
    }
  }

  /** No reset point starts both a closed chunk and the trailing chunk. */
  lemma ClosedNotTrailing<T>(units: seq<T>, digest: seq<T> -> Hash, window: seq<T> -> Hash, tail: nat,
                             f: nat, c: Chunk, d: Chunk, prev: Hash)
    ensures !(ClosedChunk(units, digest, window, f, c) && TrailingChunk(units, digest, window, tail, f, d, prev))
  {
  }

  /** Two "first boundary since f" positions coincide. */
  lemma FirstBoundaryUnique<T>(units: seq<T>, window: seq<T> -> Hash, f: nat, e1: nat, e2: nat)
    requires f <= e1 < |units| && f <= e2 < |units|
    requires NoBoundaryBefore(units, window, f, e1) && BoundaryAt(units, window, f, e1)
    requires NoBoundaryBefore(units, window, f, e2) && BoundaryAt(units, window, f, e2)
    ensures e1 == e2
  {
  }

  /** The characterization pins down the chunker's output. */
  lemma SplitUnique<T>(units: seq<T>, digest: seq<T> -> Hash, window: seq<T> -> Hash, tail: nat, ds: seq<Chunk>)
    requires |units| > 0
    requires Gapless(ds) && |ds| > 0
    requires Characterized(units, digest, window, tail, 0, 0, ds)
    ensures ds == Split(units, digest, window, tail)
  {
    var cs := Split(units, digest, window, tail);
    SplitTiles(units, digest, window, tail);
    SplitCharacterized(units, digest, window, tail);
    CharacterizedUnique(units, digest, window, tail, 0, 0, cs, ds);
  }

  /** A chunk list moved `n` units later in the stream. */
  function Shift(cs: seq<Chunk>, n: nat): (r: seq<Chunk>)
    ensures |r| == |cs|
    ensures forall k :: 0 <= k < |cs| ==>
      r[k].start == cs[k].start + n && r[k].end == cs[k].end + n && r[k].hash == cs[k].hash
  {
    seq(|cs|, k requires 0 <= k < |cs| => Chunk(cs[k].start + n, cs[k].end + n, cs[k].hash))
  }

  /** Scanning data behind a prefix gives the scan of the data alone, moved by the prefix length. */
  lemma {:induction false} ScanShift<T>(pre: seq<T>, d: seq<T>, digest: seq<T> -> Hash, window: seq<T> -> Hash, tail: nat,
                                        i: nat, from: nat, start: nat, h: Hash)
    requires start <= from <= i <= |d|
    ensures Scan(pre + d, digest, window, tail, |pre| + i, |pre| + from, |pre| + start, h)
         == Shift(Scan(d, digest, window, tail, i, from, start, h), |pre|)
    decreases |d| - i
  {
    var n := |pre|;
    if i == |d| {
      if i > start {
        ShiftSingle(Chunk(start, i + tail, h), n);
      }
    } else {
      var ch := digest(Fed(d, from, i));
      if BoundaryAt(d, window, from, i) {
        ScanShift(pre, d, digest, window, tail, i + 1, i + 1, i, ch);
        ScanShiftBoundary(pre, d, digest, window, tail, i, from, start, h);
      } else {
        ScanShift(pre, d, digest, window, tail, i + 1, from, start, ch);
        ScanShiftInner(pre, d, digest, window, tail, i, from, start, h);
      }
    }
  }

  /** One step of ScanShift at a boundary: the closed chunk moves by the prefix length too. */
  lemma ScanShiftBoundary<T>(pre: seq<T>, d: seq<T>, digest: seq<T> -> Hash, window: seq<T> -> Hash, tail: nat,
                             i: nat, from: nat, start: nat, h: Hash)
    requires start <= from <= i < |d| && BoundaryAt(d, window, from, i)
    requires var ch := digest(Fed(d, from, i));
      Scan(pre + d, digest, window, tail, |pre| + (i + 1), |pre| + (i + 1), |pre| + i, ch)
      == Shift(Scan(d, digest, window, tail, i + 1, i + 1, i, ch), |pre|)
    ensures Scan(pre + d, digest, window, tail, |pre| + i, |pre| + from, |pre| + start, h)
         == Shift(Scan(d, digest, window, tail, i, from, start, h), |pre|)
  {
    var x, n := pre + d, |pre|;
    FedShift(pre, d, from, i);
    var ch := digest(Fed(d, from, i));
    var rest := Scan(d, digest, window, tail, i + 1, i + 1, i, ch);
    assert Scan(d, digest, window, tail, i, from, start, h) == [Chunk(start, i, ch)] + rest;
    assert Scan(x, digest, window, tail, n + i, n + from, n + start, h)
        == [Chunk(n + start, n + i, ch)] + Scan(x, digest, window, tail, n + (i + 1), n + (i + 1), n + i, ch);
    ShiftCons(Chunk(start, i, ch), rest, n);
  }

  /** One step of ScanShift inside a chunk: both scans only update the hash. */
  lemma ScanShiftInner<T>(pre: seq<T>, d: seq<T>, digest: seq<T> -> Hash, window: seq<T> -> Hash, tail: nat,
                          i: nat, from: nat, start: nat, h: Hash)
    requires start <= from <= i < |d| && !BoundaryAt(d, window, from, i)
    requires var ch := digest(Fed(d, from, i));
      Scan(pre + d, digest, window, tail, |pre| + (i + 1), |pre| + from, |pre| + start, ch)
      == Shift(Scan(d, digest, window, tail, i + 1, from, start, ch), |pre|)
    ensures Scan(pre + d, digest, window, tail, |pre| + i, |pre| + from, |pre| + start, h)
         == Shift(Scan(d, digest, window, tail, i, from, start, h), |pre|)
  {
    var x, n := pre + d, |pre|;
    FedShift(pre, d, from, i);
    var ch := digest(Fed(d, from, i));
    assert Scan(d, digest, window, tail, i, from, start, h) == Scan(d, digest, window, tail, i + 1, from, start, ch);
    assert Scan(x, digest, window, tail, n + i, n + from, n + start, h)
        == Scan(x, digest, window, tail, n + (i + 1), n + from, n + start, ch);
  }

  /** The units fed behind a prefix are the units fed in the data alone. */
  lemma FedShift<T>(pre: seq<T>, d: seq<T>, from: nat, i: nat)
    requires from <= i < |d|
    ensures Fed(pre + d, |pre| + from, |pre| + i) == Fed(d, from, i)
  {
    assert (pre + d)[|pre|..] == d;
    assert (pre + d)[|pre| + from..|pre| + i + 1] == d[from..i + 1];
  }

  lemma ShiftSingle(c: Chunk, n: nat)
    ensures Shift([c], n) == [Chunk(c.start + n, c.end + n, c.hash)]
  {
  }

  lemma ShiftCons(c: Chunk, rest: seq<Chunk>, n: nat)
    ensures Shift([c] + rest, n) == [Chunk(c.start + n, c.end + n, c.hash)] + Shift(rest, n)
  {
  }

  /** The scan from a reset point does not look at the units before it. */
  lemma {:induction false} ScanIgnoresConsumed<T>(x: seq<T>, y: seq<T>, digest: seq<T> -> Hash, window: seq<T> -> Hash,
                                                  tail: nat, i: nat, from: nat, start: nat, hx: Hash, hy: Hash)
    requires start <= from <= i <= |x| == |y|
    requires x[from..] == y[from..]
    requires i == |x| ==> hx == hy
    ensures Scan(x, digest, window, tail, i, from, start, hx) == Scan(y, digest, window, tail, i, from, start, hy)
    decreases |x| - i
  {
    if i < |x| {
      assert Fed(x, from, i) == x[from..][..i + 1 - from] == Fed(y, from, i);
      var ch := digest(Fed(x, from, i));
      if BoundaryAt(x, window, from, i) {
        assert x[i + 1..] == x[from..][i + 1 - from..];
        assert y[i + 1..] == y[from..][i + 1 - from..];
        ScanIgnoresConsumed(x, y, digest, window, tail, i + 1, i + 1, i, ch, ch);
      } else {
        ScanIgnoresConsumed(x, y, digest, window, tail, i + 1, from, start, ch, ch);
      }
    }
  }

  /** After chunk k is closed, the rest of the output is a fresh scan from the reset that followed it. */
  lemma {:induction false} ScanAfterBoundary<T>(units: seq<T>, digest: seq<T> -> Hash, window: seq<T> -> Hash, tail: nat,
                                                i: nat, from: nat, start: nat, h: Hash, k: nat)
    requires start <= from <= i <= |units|
    requires k + 1 < |Scan(units, digest, window, tail, i, from, start, h)|
    ensures var cs := Scan(units, digest, window, tail, i, from, start, h);
      && cs[k].start <= cs[k].end < |units|
      && cs[k + 1..] == Scan(units, digest, window, tail, cs[k].end + 1, cs[k].end + 1, cs[k].end, cs[k].hash)
    decreases |units| - i
  {
    var cs := Scan(units, digest, window, tail, i, from, start, h);
    var ch := digest(Fed(units, from, i));
    if BoundaryAt(units, window, from, i) {
      var rest := Scan(units, digest, window, tail, i + 1, i + 1, i, ch);
      assert cs == [Chunk(start, i, ch)] + rest;
      if k > 0 {
        ScanAfterBoundary(units, digest, window, tail, i + 1, i + 1, i, ch, k - 1);
        assert cs[k + 1..] == rest[k..];
      }
    } else {
      ScanAfterBoundary(units, digest, window, tail, i + 1, from, start, ch, k);
    }
  }

  /**
   * Resynchronisation: two streams whose data agree after a closed chunk
   * in each give the same remaining chunks, each moved by where its
   * closing unit sits.
   */
  lemma Resync<T>(x: seq<T>, y: seq<T>, digest: seq<T> -> Hash, window: seq<T> -> Hash, tail: nat, kx: nat, ky: nat)
    requires kx + 1 < |Split(x, digest, window, tail)|
    requires ky + 1 < |Split(y, digest, window, tail)|
    requires Split(x, digest, window, tail)[kx].end + 1 < |x|
    requires Split(y, digest, window, tail)[ky].end + 1 < |y|
    requires x[Split(x, digest, window, tail)[kx].end + 1..] == y[Split(y, digest, window, tail)[ky].end + 1..]
    ensures var cs := Split(x, digest, window, tail);
      var ds := Split(y, digest, window, tail);
      Shift(cs[kx + 1..], ds[ky].end) == Shift(ds[ky + 1..], cs[kx].end)
  {
    var cs := Split(x, digest, window, tail);
    var ds := Split(y, digest, window, tail);
    ScanAfterBoundary(x, digest, window, tail, 0, 0, 0, 0, kx);
    ScanAfterBoundary(y, digest, window, tail, 0, 0, 0, 0, ky);
    var ex, ey := cs[kx].end, ds[ky].end;
    var rx, ry := x[ex..], y[ey..];
    assert x == x[..ex] + rx;
    assert y == y[..ey] + ry;
    ScanShift(x[..ex], rx, digest, window, tail, 1, 1, 0, cs[kx].hash);
    ScanShift(y[..ey], ry, digest, window, tail, 1, 1, 0, ds[ky].hash);
    assert rx[1..] == x[ex + 1..];
    assert ry[1..] == y[ey + 1..];
    ScanIgnoresConsumed(rx, ry, digest, window, tail, 1, 1, 0, cs[kx].hash, ds[ky].hash);
    var t := Scan(rx, digest, window, tail, 1, 1, 0, cs[kx].hash);
    assert cs[kx + 1..] == Shift(t, ex);
    assert ds[ky + 1..] == Shift(t, ey);
    ShiftShift(t, ex, ey);
  }

  lemma ShiftShift(t: seq<Chunk>, m: nat, n: nat)
    ensures Shift(Shift(t, m), n) == Shift(Shift(t, n), m)
  {
  }
}
