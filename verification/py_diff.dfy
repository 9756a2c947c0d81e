/**
 * diff.py: the Python draft of the chunking diff. A chunk records only its
 * end and its predecessor; chunk k of a side is preceded by chunk k - 1, so
 * a chunked side is its data and the list of chunk ends. Chunks compare
 * equal when their hashes are equal, and dictionary membership is by hash.
 *
 * Python's `hash` is a function parameter: `hash` for chunk data and
 * `windowHash` for the rolling window. Python's `h & 0b11111` equals the
 * non-negative remainder h % 32, also for negative h.
 */
module PyDiff {
  import opened Wrappers

  /** A chunked source: chunk k spans [Start(k), ends[k]) of `data`. */
  datatype Side<T> = Side(data: seq<T>, ends: seq<nat>)

  /** What _chunk_gen produces: at least one chunk, ends non-decreasing, the last at the data end. */
  ghost predicate Chained<T>(s: Side<T>) {
    && |s.ends| > 0
    && s.ends[|s.ends| - 1] == |s.data|
    && (forall k, k' :: 0 <= k <= k' < |s.ends| ==> s.ends[k] <= s.ends[k'])
  }

  /** Strictly increasing indices. */
  ghost predicate Increasing(ks: seq<nat>) {
    forall m, m' :: 0 <= m < m' < |ks| ==> ks[m] < ks[m']
  }

  /** Chunk.start: the previous chunk's end, 0 for the first chunk. */
  function Start<T>(s: Side<T>, k: nat): (r: nat)
    requires Chained(s) && k < |s.ends|
    ensures r <= s.ends[k] <= |s.data|
  {
    if k == 0 then 0 else s.ends[k - 1]
  }

  /** Chunk.__hash__: the hash of the chunk's data. */
  function ChunkHash<T>(s: Side<T>, hash: seq<T> -> int, k: nat): int
    requires Chained(s) && k < |s.ends|
  {
    hash(s.data[Start(s, k)..s.ends[k]])
  }

  // ---------------------------------------------------------------------
  // _chunk_gen
  // ---------------------------------------------------------------------

  /** The window at p fits in the data and its hash has its low five bits zero. */
  predicate IsBoundary<T>(data: seq<T>, windowSize: nat, windowHash: seq<T> -> int, p: nat) {
    p + windowSize <= |data| && windowHash(data[p..p + windowSize]) % 32 == 0
  }

  /** The boundary window positions from i on. */
  function Boundaries<T>(data: seq<T>, windowSize: nat, windowHash: seq<T> -> int, i: nat): (r: seq<nat>)
    ensures forall m :: 0 <= m < |r| ==> i <= r[m] && r[m] + windowSize <= |data|
    ensures Increasing(r)
    ensures forall p: nat :: p in r <==> i <= p && IsBoundary(data, windowSize, windowHash, p)
    decreases |data| + 1 - i
  {
    if i + windowSize > |data| then []
    else if IsBoundary(data, windowSize, windowHash, i) then [i] + Boundaries(data, windowSize, windowHash, i + 1)
    else Boundaries(data, windowSize, windowHash, i + 1)
  }

  /** _chunk_gen: a chunk ends at every boundary, and a last chunk ends at the data end. */
  function ChunkGen<T>(data: seq<T>, windowSize: nat, windowHash: seq<T> -> int): Side<T> {
    Side(data, Boundaries(data, windowSize, windowHash, 0) + [|data|])
  }

  /**
   * The chunks tile the data: they are chained, the chunks but the last end
   * exactly at the boundary window positions, and data shorter than the
   * window gives one chunk.
   */
  lemma ChunkGenTiles<T>(data: seq<T>, windowSize: nat, windowHash: seq<T> -> int)
    ensures var s := ChunkGen(data, windowSize, windowHash);
      var inner := s.ends[..|s.ends| - 1];
      && Chained(s)
      && (forall p: nat :: p in inner <==> IsBoundary(data, windowSize, windowHash, p))
      && (|data| < windowSize ==> |s.ends| == 1)
  {
    var bs := Boundaries(data, windowSize, windowHash, 0);
    var s := ChunkGen(data, windowSize, windowHash);
    assert s.ends[..|s.ends| - 1] == bs;
    forall k, k' | 0 <= k <= k' < |s.ends|
      ensures s.ends[k] <= s.ends[k']
    {
      if k < k' < |bs| {
        assert bs[k] < bs[k'];
      }
    }
  }

  // ---------------------------------------------------------------------
  // _chunk_od: the ordered dictionary of a side's chunks
  // ---------------------------------------------------------------------

  /** The hashes of a side's chunks: what `chunk in chunks_od` tests. */
  function HashSet<T>(s: Side<T>, hash: seq<T> -> int): set<int>
    requires Chained(s)
  {
    set k | 0 <= k < |s.ends| :: ChunkHash(s, hash, k)
  }

  /** The hashes of the chunks at the given indices, in order. */
  function HashesOf<T>(s: Side<T>, hash: seq<T> -> int, ks: seq<nat>): (r: seq<int>)
    requires Chained(s) && forall m :: 0 <= m < |ks| ==> ks[m] < |s.ends|
    ensures |r| == |ks| && forall m :: 0 <= m < |ks| ==> r[m] == ChunkHash(s, hash, ks[m])
  {
    seq(|ks|, m requires 0 <= m < |ks| => ChunkHash(s, hash, ks[m]))
  }

  /**
   * The keys of the ordered dictionary from chunk k on, given the hashes
   * already present: a chunk equal to an earlier one only replaces its
   * value, so the key stays the earlier chunk.
   */
  function KeysFrom<T>(s: Side<T>, hash: seq<T> -> int, k: nat, seen: set<int>): (r: seq<nat>)
    requires Chained(s) && k <= |s.ends|
    ensures forall m :: 0 <= m < |r| ==> k <= r[m] < |s.ends| && ChunkHash(s, hash, r[m]) !in seen
    ensures Increasing(r)
    decreases |s.ends| - k
  {
    if k == |s.ends| then []
    else if ChunkHash(s, hash, k) in seen then KeysFrom(s, hash, k + 1, seen)
    else [k] + KeysFrom(s, hash, k + 1, seen + {ChunkHash(s, hash, k)})
  }

  /** Iterating _chunk_od(data): the first chunk of each hash, in order. */
  function Keys<T>(s: Side<T>, hash: seq<T> -> int): (r: seq<nat>)
    requires Chained(s)
    ensures forall m :: 0 <= m < |r| ==> r[m] < |s.ends|
    ensures Increasing(r)
  {
    KeysFrom(s, hash, 0, {})
  }

  /** No key shares its hash with an earlier chunk. */
  lemma {:induction false} KeysFromDistinct<T>(s: Side<T>, hash: seq<T> -> int, k: nat, seen: set<int>)
    requires Chained(s) && k <= |s.ends|
    requires forall j :: 0 <= j < k ==> ChunkHash(s, hash, j) in seen
    ensures forall m, j :: 0 <= m < |KeysFrom(s, hash, k, seen)| && 0 <= j < KeysFrom(s, hash, k, seen)[m] ==>
      ChunkHash(s, hash, j) != ChunkHash(s, hash, KeysFrom(s, hash, k, seen)[m])
    decreases |s.ends| - k
  {
    if k < |s.ends| {
      var h := ChunkHash(s, hash, k);
      var seen' := if h in seen then seen else seen + {h};
      KeysFromDistinct(s, hash, k + 1, seen');
      var r := KeysFrom(s, hash, k, seen);
      var rest := KeysFrom(s, hash, k + 1, seen');
      if h !in seen {
        assert r == [k] + rest;
        forall m, j | 0 < m < |r| && 0 <= j < r[m]
          ensures ChunkHash(s, hash, j) != ChunkHash(s, hash, r[m])
        {
          assert r[m] == rest[m - 1];
        }
      }
    }
  }

  /** Every chunk's hash is already present or is the hash of a key. */
  lemma {:induction false} KeysFromCover<T>(s: Side<T>, hash: seq<T> -> int, k: nat, seen: set<int>)
    requires Chained(s) && k <= |s.ends|
    ensures forall j :: k <= j < |s.ends| ==>
      ChunkHash(s, hash, j) in seen || ChunkHash(s, hash, j) in HashesOf(s, hash, KeysFrom(s, hash, k, seen))
    decreases |s.ends| - k
  {
    if k < |s.ends| {
      var h := ChunkHash(s, hash, k);
      var seen' := if h in seen then seen else seen + {h};
      KeysFromCover(s, hash, k + 1, seen');
      if h !in seen {
        var rest := KeysFrom(s, hash, k + 1, seen');
        assert HashesOf(s, hash, KeysFrom(s, hash, k, seen)) == [h] + HashesOf(s, hash, rest);
      }
    }
  }

  /**
   * The dictionary's keys are the first chunk of each hash, in order: no
   * key's hash occurs earlier, and every chunk's hash is some key's hash.
   */
  lemma KeysFirstOccurrences<T>(s: Side<T>, hash: seq<T> -> int)
    requires Chained(s)
    ensures Increasing(Keys(s, hash))
    ensures forall m, j :: 0 <= m < |Keys(s, hash)| && 0 <= j < Keys(s, hash)[m] ==>
      ChunkHash(s, hash, j) != ChunkHash(s, hash, Keys(s, hash)[m])
    ensures forall j :: 0 <= j < |s.ends| ==> ChunkHash(s, hash, j) in HashesOf(s, hash, Keys(s, hash))
  {
    KeysFromDistinct(s, hash, 0, {});
    KeysFromCover(s, hash, 0, {});
  }

  // ---------------------------------------------------------------------
  // _find_prev_common_chunk
  // ---------------------------------------------------------------------

  /** Walk the prev chain from chunk k to the first chunk whose hash the other side has. */
  function FindPrevCommon<T>(s: Side<T>, hash: seq<T> -> int, k: nat, other: set<int>): (r: Option<nat>)
    requires Chained(s) && k < |s.ends|
    ensures r.Some? ==> r.value <= k && ChunkHash(s, hash, r.value) in other
    ensures r.Some? ==> forall j :: r.value < j <= k ==> ChunkHash(s, hash, j) !in other
    ensures r.None? ==> forall j :: 0 <= j <= k ==> ChunkHash(s, hash, j) !in other
    decreases k
  {
    if ChunkHash(s, hash, k) in other then Some(k)
    else if k == 0 then None
    else FindPrevCommon(s, hash, k - 1, other)
  }

  // ---------------------------------------------------------------------
  // _contiguous_block_gen and _uniq_blocks
  // ---------------------------------------------------------------------

  /** A block: the chunks first..last of a side. */
  datatype Run = Run(first: nat, last: nat)

  /**
   * _contiguous_block_gen from position m of the surviving chunk indices,
   * with the open block starting at chunk `first` and the last survivor
   * `prev`: `chunk.prev != prev_chunk` compares identities, so a block ends
   * where the next survivor does not directly follow the previous one.
   */
  function RunsFrom(ks: seq<nat>, m: nat, first: nat, prev: nat): (r: seq<Run>)
    requires 0 < m <= |ks|
    ensures |r| > 0 && r[0].first == first
    decreases |ks| - m
  {
    if m == |ks| then [Run(first, prev)]
    else if ks[m] != prev + 1 then [Run(first, prev)] + RunsFrom(ks, m + 1, ks[m], ks[m])
    else RunsFrom(ks, m + 1, first, ks[m])
  }

  /** _contiguous_block_gen: no survivors, no blocks (the first `next` ends the generator). */
  function Runs(ks: seq<nat>): seq<Run> {
    if |ks| == 0 then [] else RunsFrom(ks, 1, ks[0], ks[0])
  }

  /** The chunk indices a run covers. */
  function Span(r: Run): (s: seq<nat>)
    ensures |s| == if r.first <= r.last then r.last - r.first + 1 else 0
    ensures forall t :: 0 <= t < |s| ==> s[t] == r.first + t
  {
    if r.first > r.last then [] else seq(r.last - r.first + 1, t => r.first + t)
  }

  function Spans(rs: seq<Run>): seq<nat> {
    if |rs| == 0 then [] else Span(rs[0]) + Spans(rs[1..])
  }

  /** Runs split only where two survivors are not adjacent chunks. */
  ghost predicate MaximalRuns(rs: seq<Run>) {
    && (forall m :: 0 <= m < |rs| ==> rs[m].first <= rs[m].last)
    && (forall m :: 0 < m < |rs| ==> rs[m - 1].last + 1 < rs[m].first)
  }

  lemma SpansCons(r: Run, rs: seq<Run>)
    ensures Spans([r] + rs) == Span(r) + Spans(rs)
  {
    assert ([r] + rs)[1..] == rs;
  }

  lemma SpanSingle(k: nat)
    ensures Span(Run(k, k)) == [k]
  {
  }

  lemma SliceCons(ks: seq<nat>, m: nat)
    requires m < |ks|
    ensures ks[m..] == [ks[m]] + ks[m + 1..]
  {
  }

  lemma MoveAcross(head: seq<nat>, x: nat, rest: seq<nat>)
    ensures (head + [x]) + rest == head + ([x] + rest)
  {
  }

  /** One more survivor extends the open run. */
  lemma SpanExtend(first: nat, prev: nat)
    requires first <= prev
    ensures Span(Run(first, prev + 1)) == Span(Run(first, prev)) + [prev + 1]
  {
  }

  /** The runs are maximal, and their ends are survivors. */
  lemma {:induction false} RunsFromShape(ks: seq<nat>, m: nat, first: nat, prev: nat)
    requires 0 < m <= |ks| && first <= prev == ks[m - 1] && first in ks
    requires Increasing(ks)
    ensures var rs := RunsFrom(ks, m, first, prev);
      && MaximalRuns(rs)
      && forall t :: 0 <= t < |rs| ==> rs[t].first in ks && rs[t].last in ks
    decreases |ks| - m
  {
    if m < |ks| {
      assert ks[m - 1] < ks[m];
      if ks[m] != prev + 1 {
        RunsFromShape(ks, m + 1, ks[m], ks[m]);
        var rest := RunsFrom(ks, m + 1, ks[m], ks[m]);
        var rs := [Run(first, prev)] + rest;
        forall j | 0 < j < |rs|
          ensures rs[j - 1].last + 1 < rs[j].first
        {
          if j > 1 {
            assert rs[j - 1] == rest[j - 2] && rs[j] == rest[j - 1];
          }
        }
      } else {
        RunsFromShape(ks, m + 1, first, ks[m]);
      }
    }
  }

  /** The runs cover exactly the survivors from the open run on. */
  lemma {:induction false} RunsFromSpans(ks: seq<nat>, m: nat, first: nat, prev: nat)
    requires 0 < m <= |ks| && first <= prev
    requires Increasing(ks)
    ensures Span(Run(first, prev)) + ks[m..] == Spans(RunsFrom(ks, m, first, prev))
    decreases |ks| - m
  {
    if m == |ks| {
      assert Spans([Run(first, prev)]) == Span(Run(first, prev)) + Spans([]);
    } else if ks[m] != prev + 1 {
      RunsFromSpans(ks, m + 1, ks[m], ks[m]);
      SpansGap(ks, m, first, prev);
    } else {
      RunsFromSpans(ks, m + 1, first, ks[m]);
      SpansAdjacent(ks, m, first, prev);
    }
  }

  lemma SpansGap(ks: seq<nat>, m: nat, first: nat, prev: nat)
    requires 0 < m < |ks| && first <= prev && ks[m] != prev + 1
    requires Span(Run(ks[m], ks[m])) + ks[m + 1..] == Spans(RunsFrom(ks, m + 1, ks[m], ks[m]))
    ensures Span(Run(first, prev)) + ks[m..] == Spans(RunsFrom(ks, m, first, prev))
  {
    var rest := RunsFrom(ks, m + 1, ks[m], ks[m]);
    assert Spans(rest) == ks[m..] by {
      SpanSingle(ks[m]);
      SliceCons(ks, m);
    }
    assert RunsFrom(ks, m, first, prev) == [Run(first, prev)] + rest;
    SpansCons(Run(first, prev), rest);
  }

  lemma SpansAdjacent(ks: seq<nat>, m: nat, first: nat, prev: nat)
    requires 0 < m < |ks| && first <= prev && ks[m] == prev + 1
    requires Span(Run(first, ks[m])) + ks[m + 1..] == Spans(RunsFrom(ks, m + 1, first, ks[m]))
    ensures Span(Run(first, prev)) + ks[m..] == Spans(RunsFrom(ks, m, first, prev))
  {
    assert RunsFrom(ks, m, first, prev) == RunsFrom(ks, m + 1, first, ks[m]);
    var head := Span(Run(first, prev));
    assert Span(Run(first, ks[m])) + ks[m + 1..] == head + ks[m..] by {
      SpanExtend(first, prev);
      SliceCons(ks, m);
      MoveAcross(head, ks[m], ks[m + 1..]);
    }
  }

  /**
   * _contiguous_block_gen partitions strictly increasing chunk indices into
   * maximal runs of adjacent chunks: the runs cover exactly the survivors,
   * in order, two runs never touch, and no survivors give no runs.
   */
  lemma RunsPartition(ks: seq<nat>)
    requires Increasing(ks)
    ensures MaximalRuns(Runs(ks)) && Spans(Runs(ks)) == ks
    ensures forall t :: 0 <= t < |Runs(ks)| ==> Runs(ks)[t].first in ks && Runs(ks)[t].last in ks
    ensures |Runs(ks)| == 0 <==> |ks| == 0
  {
    if |ks| > 0 {
      RunsFromShape(ks, 1, ks[0], ks[0]);
      RunsFromSpans(ks, 1, ks[0], ks[0]);
      assert Span(Run(ks[0], ks[0])) + ks[1..] == ks;
    }
  }

  /** The survivors of _uniq_blocks: the dictionary keys whose hash the other side lacks. */
  function Survivors<T>(s: Side<T>, hash: seq<T> -> int, keys: seq<nat>, other: set<int>): (r: seq<nat>)
    requires Chained(s) && forall m :: 0 <= m < |keys| ==> keys[m] < |s.ends|
    ensures |r| <= |keys|
    ensures forall m :: 0 <= m < |r| ==> r[m] in keys && r[m] < |s.ends| && ChunkHash(s, hash, r[m]) !in other
    ensures forall k :: k in keys && ChunkHash(s, hash, k) !in other ==> k in r
  {
    if |keys| == 0 then []
    else
      var rest := Survivors(s, hash, keys[1..], other);
      if ChunkHash(s, hash, keys[0]) in other then rest else [keys[0]] + rest
  }

  lemma {:induction false} SurvivorsIncreasing<T>(s: Side<T>, hash: seq<T> -> int, keys: seq<nat>, other: set<int>)
    requires Chained(s) && forall m :: 0 <= m < |keys| ==> keys[m] < |s.ends|
    requires Increasing(keys)
    ensures Increasing(Survivors(s, hash, keys, other))
    decreases |keys|
  {
    if |keys| > 0 {
      IncreasingTail(keys);
      SurvivorsIncreasing(s, hash, keys[1..], other);
      SurvivorsAbove(s, hash, keys[1..], other, keys[0]);
      var rest := Survivors(s, hash, keys[1..], other);
      if ChunkHash(s, hash, keys[0]) !in other {
        IncreasingCons(keys[0], rest);
      }
    }
  }

  /** The tail of an increasing sequence is increasing and lies above its head. */
  lemma IncreasingTail(ks: seq<nat>)
    requires |ks| > 0 && Increasing(ks)
    ensures Increasing(ks[1..]) && forall m :: 0 <= m < |ks[1..]| ==> ks[0] < ks[1..][m]
  {
    forall m | 0 <= m < |ks[1..]|
      ensures ks[0] < ks[1..][m]
    {
      assert ks[1..][m] == ks[m + 1];
    }
  }

  /** Prepending an element below every element keeps a sequence increasing. */
  lemma IncreasingCons(k: nat, ks: seq<nat>)
    requires Increasing(ks) && forall m :: 0 <= m < |ks| ==> k < ks[m]
    ensures Increasing([k] + ks)
  {
    var r := [k] + ks;
    forall m, m' | 0 <= m < m' < |r|
      ensures r[m] < r[m']
    {
      assert r[m'] == ks[m' - 1];
      if m > 0 {
        assert r[m] == ks[m - 1];
      }
    }
  }

  /** Survivors are drawn from the keys, so a bound below every key bounds them too. */
  lemma {:induction false} SurvivorsAbove<T>(s: Side<T>, hash: seq<T> -> int, keys: seq<nat>, other: set<int>, lo: int)
    requires Chained(s) && forall m :: 0 <= m < |keys| ==> keys[m] < |s.ends|
    requires forall m :: 0 <= m < |keys| ==> lo < keys[m]
    ensures forall m :: 0 <= m < |Survivors(s, hash, keys, other)| ==> lo < Survivors(s, hash, keys, other)[m]
    decreases |keys|
  {
    if |keys| > 0 {
      SurvivorsAbove(s, hash, keys[1..], other, lo);
    }
  }

  /** _uniq_blocks: the maximal runs of first-occurrence chunks whose hash the other side lacks. */
  function UniqRuns<T>(s: Side<T>, hash: seq<T> -> int, other: set<int>): (rs: seq<Run>)
    requires Chained(s)
    ensures forall m :: 0 <= m < |rs| ==> rs[m].first <= rs[m].last < |s.ends|
  {
    var sv := Survivors(s, hash, Keys(s, hash), other);
    SurvivorsIncreasing(s, hash, Keys(s, hash), other);
    RunsPartition(sv);
    MembersBelow(sv, |s.ends|);
    Runs(sv)
  }

  /** A bound on every element holds for every member. */
  lemma MembersBelow(ks: seq<nat>, n: nat)
    requires forall m :: 0 <= m < |ks| ==> ks[m] < n
    ensures forall k :: k in ks ==> k < n
  {
  }

  /**
   * The unique blocks of a side cover, in order, exactly the first
   * occurrences of the hashes the other side lacks, as maximal runs.
   */
  lemma UniqRunsCover<T>(s: Side<T>, hash: seq<T> -> int, other: set<int>)
    requires Chained(s)
    ensures var rs := UniqRuns(s, hash, other);
      && MaximalRuns(rs)
      && (forall k :: k in Spans(rs) <==> k in Keys(s, hash) && ChunkHash(s, hash, k) !in other)
  {
    var sv := Survivors(s, hash, Keys(s, hash), other);
    SurvivorsIncreasing(s, hash, Keys(s, hash), other);
    RunsPartition(sv);
  }

  // ---------------------------------------------------------------------
  // Block, DiffHunk and _do_diff
  // ---------------------------------------------------------------------

  /** A Block's position: from its first chunk's start to its last chunk's end. */
  datatype Block = Block(start: nat, end: nat)

  /** Block.__len__. */
  function BlockLen(b: Block): int {
    b.end - b.start
  }

  function BlockOf<T>(s: Side<T>, r: Run): Block
    requires Chained(s) && r.first < |s.ends| && r.last < |s.ends|
  {
    Block(Start(s, r.first), s.ends[r.last])
  }

  /** DiffHunk: a virtual start and an optional block from each side. */
  datatype PyHunk = PyHunk(start: int, a: Option<Block>, b: Option<Block>)

  /**
   * DiffHunk.__len__: the longer side. A block is false when its length is
   * 0, so an absent or empty a counts 0 and an absent or empty b counts 1.
   */
  function HunkLen(h: PyHunk): (r: int)
    ensures h.a.Some? ==> r >= BlockLen(h.a.value)
    ensures h.b.Some? ==> r >= BlockLen(h.b.value)
    ensures h.b.None? || BlockLen(h.b.value) >= 0 ==> r >= 1
  {
    var aLen := if h.a.Some? && BlockLen(h.a.value) != 0 then BlockLen(h.a.value) else 0;
    var bLen := if h.b.Some? && BlockLen(h.b.value) != 0 then BlockLen(h.b.value) else 1;
    if aLen > bLen then aLen else bLen
  }

  /** The a_diffs ordered dictionary: keys are the previous common chunk's hash, or None. */
  type ADiffs = seq<(Option<int>, Block)>

  function KeyIndex(d: ADiffs, key: Option<int>): (r: Option<nat>)
    ensures r.Some? ==> r.value < |d| && d[r.value].0 == key && forall m :: 0 <= m < r.value ==> d[m].0 != key
    ensures r.None? ==> forall m :: 0 <= m < |d| ==> d[m].0 != key
  {
    if |d| == 0 then None
    else if d[0].0 == key then Some(0)
    else
      var r := KeyIndex(d[1..], key);
      if r.Some? then Some(r.value + 1) else None
  }

  /** a_diffs[key] = block: an existing key keeps its place and takes the new value. */
  function Store(d: ADiffs, key: Option<int>, b: Block): (r: ADiffs)
    ensures KeyIndex(d, key).Some? ==> |r| == |d| && r == d[KeyIndex(d, key).value := (key, b)]
    ensures KeyIndex(d, key).None? ==> r == d + [(key, b)]
  {
    var i := KeyIndex(d, key);
    if i.Some? then d[i.value := (key, b)] else d + [(key, b)]
  }

  /** The a-only hunks of one skipped stretch of a_diffs: all at the same virtual start. */
  function Inserted(blocks: seq<Block>, virt: int): (r: seq<PyHunk>)
    ensures |r| == |blocks|
    ensures forall m :: 0 <= m < |r| ==> r[m] == PyHunk(virt, Some(blocks[m]), None)
  {
    seq(|blocks|, m requires 0 <= m < |blocks| => PyHunk(virt, Some(blocks[m]), None))
  }

  function SumLen(blocks: seq<Block>): int {
    if |blocks| == 0 then 0 else SumLen(blocks[..|blocks| - 1]) + BlockLen(blocks[|blocks| - 1])
  }

  function Values(d: ADiffs): (r: seq<Block>)
    ensures |r| == |d| && forall m :: 0 <= m < |d| ==> r[m] == d[m].1
  {
    seq(|d|, m requires 0 <= m < |d| => d[m].1)
  }

  /** The loop state of _do_diff: the hunks so far, virt_idx and prev_a_block_idx. */
  datatype MergeState = MergeState(result: seq<PyHunk>, virt: int, prevIdx: nat)

  /**
   * One iteration of _do_diff's loop for a b block whose previous common
   * chunk has key `key`: when the key is in a_diffs at index i, first the
   * a-only hunks of a skipped stretch, then a hunk pairing both blocks;
   * otherwise a b-only hunk. virt_idx advances by the hunk's length.
   */
  function MergeStep(d: ADiffs, st: MergeState, key: Option<int>, b: Block): MergeState {
    var i := KeyIndex(d, key);
    var mid := Skip(d, st, i);
    var h := PyHunk(mid.virt, if i.Some? then Some(d[i.value].1) else None, Some(b));
    MergeState(mid.result + [h], mid.virt + HunkLen(h), if i.Some? then i.value else st.prevIdx)
  }

  /** With a_diffs index i beyond prev_a_block_idx + 1, the a-only hunks of the blocks in between. */
  function Skip(d: ADiffs, st: MergeState, i: Option<nat>): MergeState {
    if i.Some? && i.value > st.prevIdx + 1 && i.value <= |d| then
      var skipped := Values(d)[st.prevIdx..i.value];
      MergeState(st.result + Inserted(skipped, st.virt), st.virt + SumLen(skipped), st.prevIdx)
    else st
  }

  /** _do_diff's loop over the b blocks, each paired with its previous-common key. */
  function Merge(d: ADiffs, st: MergeState, bs: seq<(Option<int>, Block)>): MergeState
    decreases |bs|
  {
    if |bs| == 0 then st else Merge(d, MergeStep(d, st, bs[0].0, bs[0].1), bs[1..])
  }

  /** The b blocks of the hunks that have one, in order. */
  function BSides(hs: seq<PyHunk>): seq<Block> {
    if |hs| == 0 then []
    else if hs[|hs| - 1].b.Some? then BSides(hs[..|hs| - 1]) + [hs[|hs| - 1].b.value]
    else BSides(hs[..|hs| - 1])
  }

  /** Hunk starts never decrease and never pass the running virt_idx. */
  ghost predicate StartsOrdered(st: MergeState) {
    && (forall m :: 0 < m < |st.result| ==> st.result[m - 1].start <= st.result[m].start)
    && (forall m :: 0 <= m < |st.result| ==> st.result[m].start <= st.virt)
  }

  lemma BSidesAppend(hs: seq<PyHunk>, more: seq<PyHunk>)
    ensures BSides(hs + more) == BSides(hs) + BSides(more)
    decreases |more|
  {
    if |more| == 0 {
      assert hs + more == hs;
    } else {
      var init := more[..|more| - 1];
      assert hs + more == (hs + init) + [more[|more| - 1]];
      assert (hs + more)[..|hs + more| - 1] == hs + init;
      BSidesAppend(hs, init);
    }
  }

  lemma BSidesInserted(blocks: seq<Block>, virt: int)
    ensures BSides(Inserted(blocks, virt)) == []
    decreases |blocks|
  {
    if |blocks| > 0 {
      var r := Inserted(blocks, virt);
      assert r[..|r| - 1] == Inserted(blocks[..|blocks| - 1], virt);
      BSidesInserted(blocks[..|blocks| - 1], virt);
    }
  }

  lemma SumLenNonNegative(blocks: seq<Block>)
    requires forall m :: 0 <= m < |blocks| ==> blocks[m].start <= blocks[m].end
    ensures SumLen(blocks) >= 0
    decreases |blocks|
  {
    if |blocks| > 0 {
      SumLenNonNegative(blocks[..|blocks| - 1]);
    }
  }

  /**
   * One loop iteration appends one hunk holding the b block, after the
   * a-only hunks of a skipped stretch of a_diffs, all at one virtual start;
   * virt_idx then advances past their summed length. Starts stay ordered.
   */
  lemma MergeStepSound(d: ADiffs, st: MergeState, key: Option<int>, b: Block)
    requires StartsOrdered(st) && b.start <= b.end
    requires forall m :: 0 <= m < |d| ==> d[m].1.start <= d[m].1.end
    ensures StartsOrdered(MergeStep(d, st, key, b))
    ensures |MergeStep(d, st, key, b).result| > |st.result|
    ensures MergeStep(d, st, key, b).result[..|st.result|] == st.result
    ensures BSides(MergeStep(d, st, key, b).result) == BSides(st.result) + [b]
  {
    var i := KeyIndex(d, key);
    var mid := Skip(d, st, i);
    SkipSound(d, st, i);
    var h := PyHunk(mid.virt, if i.Some? then Some(d[i.value].1) else None, Some(b));
    var next := MergeStep(d, st, key, b);
    assert next == MergeState(mid.result + [h], mid.virt + HunkLen(h), next.prevIdx);
    AppendHunk(mid, h, b, next.prevIdx);
    PrefixKept(st.result, mid.result, h);
    MergeStepBSides(d, st, key, b);
  }

  /**
   * The hunks one iteration appends: a b-only hunk at virt_idx when the key
   * is absent; when the key's index skips past prev_a_block_idx + 1, the
   * a-only hunks of the skipped blocks, all at virt_idx, and then the paired
   * hunk at virt_idx advanced by their summed length.
   */
  lemma MergeStepHunks(d: ADiffs, st: MergeState, key: Option<int>, b: Block)
    ensures KeyIndex(d, key).None? ==>
      MergeStep(d, st, key, b).result == st.result + [PyHunk(st.virt, None, Some(b))]
    ensures KeyIndex(d, key).Some? && KeyIndex(d, key).value > st.prevIdx + 1 ==>
      MergeStep(d, st, key, b).result ==
        st.result + Inserted(Values(d)[st.prevIdx..KeyIndex(d, key).value], st.virt)
        + [PyHunk(st.virt + SumLen(Values(d)[st.prevIdx..KeyIndex(d, key).value]), Some(d[KeyIndex(d, key).value].1), Some(b))]
    ensures KeyIndex(d, key).Some? && KeyIndex(d, key).value <= st.prevIdx + 1 ==>
      MergeStep(d, st, key, b).result == st.result + [PyHunk(st.virt, Some(d[KeyIndex(d, key).value].1), Some(b))]
    ensures KeyIndex(d, key).Some? ==> MergeStep(d, st, key, b).prevIdx == KeyIndex(d, key).value
  {
  }

  lemma SkipSound(d: ADiffs, st: MergeState, i: Option<nat>)
    requires StartsOrdered(st)
    requires forall m :: 0 <= m < |d| ==> d[m].1.start <= d[m].1.end
    ensures var mid := Skip(d, st, i);
      && StartsOrdered(mid) && mid.virt >= st.virt
      && |mid.result| >= |st.result| && mid.result[..|st.result|] == st.result
  {
    if i.Some? && i.value > st.prevIdx + 1 && i.value <= |d| {
      var skipped := Values(d)[st.prevIdx..i.value];
      SumLenNonNegative(skipped);
      var mid := Skip(d, st, i);
      assert mid.result[..|st.result|] == st.result;
    } else {
      assert st.result[..|st.result|] == st.result;
    }
  }

  lemma AppendHunk(mid: MergeState, h: PyHunk, b: Block, prevIdx: nat)
    requires StartsOrdered(mid) && h.start == mid.virt && h.b == Some(b) && b.start <= b.end
    ensures StartsOrdered(MergeState(mid.result + [h], mid.virt + HunkLen(h), prevIdx))
  {
  }

  lemma PrefixKept(pre: seq<PyHunk>, hs: seq<PyHunk>, h: PyHunk)
    requires |pre| <= |hs| && hs[..|pre|] == pre
    ensures (hs + [h])[..|pre|] == pre
  {
    assert (hs + [h])[..|pre|] == hs[..|pre|];
  }

  /** Over the whole loop: starts ordered, and the b sides are the b blocks in order. */
  lemma MergeSound(d: ADiffs, st: MergeState, bs: seq<(Option<int>, Block)>)
    requires StartsOrdered(st)
    requires forall m :: 0 <= m < |bs| ==> bs[m].1.start <= bs[m].1.end
    requires forall m :: 0 <= m < |d| ==> d[m].1.start <= d[m].1.end
    ensures StartsOrdered(Merge(d, st, bs))
    ensures BSides(Merge(d, st, bs).result) == BSides(st.result) + Values(bs)
  {
    MergeKeepsOrder(d, st, bs);
    MergeBSides(d, st, bs);
  }

  lemma {:induction false} MergeKeepsOrder(d: ADiffs, st: MergeState, bs: seq<(Option<int>, Block)>)
    requires StartsOrdered(st)
    requires forall m :: 0 <= m < |bs| ==> bs[m].1.start <= bs[m].1.end
    requires forall m :: 0 <= m < |d| ==> d[m].1.start <= d[m].1.end
    ensures StartsOrdered(Merge(d, st, bs))
    decreases |bs|
  {
    if |bs| > 0 {
      MergeStepSound(d, st, bs[0].0, bs[0].1);
      MergeKeepsOrder(d, MergeStep(d, st, bs[0].0, bs[0].1), bs[1..]);
    }
  }

  lemma {:induction false} MergeBSides(d: ADiffs, st: MergeState, bs: seq<(Option<int>, Block)>)
    ensures BSides(Merge(d, st, bs).result) == BSides(st.result) + Values(bs)
    decreases |bs|
  {
    if |bs| > 0 {
      var st1 := MergeStep(d, st, bs[0].0, bs[0].1);
      MergeStepBSides(d, st, bs[0].0, bs[0].1);
      assert Merge(d, st, bs) == Merge(d, st1, bs[1..]);
      MergeBSides(d, st1, bs[1..]);
      ValuesCons(bs);
      assert BSides(st1.result) + Values(bs[1..]) == BSides(st.result) + ([bs[0].1] + Values(bs[1..]));
    }
  }

  /** One iteration adds exactly its b block to the b sides. */
  lemma MergeStepBSides(d: ADiffs, st: MergeState, key: Option<int>, b: Block)
    ensures BSides(MergeStep(d, st, key, b).result) == BSides(st.result) + [b]
  {
    var i := KeyIndex(d, key);
    var mid := Skip(d, st, i);
    SkipBSides(d, st, i);
    var h := PyHunk(mid.virt, if i.Some? then Some(d[i.value].1) else None, Some(b));
    assert (mid.result + [h])[..|mid.result|] == mid.result;
  }

  /** The a-only hunks of a skipped stretch add no b side. */
  lemma SkipBSides(d: ADiffs, st: MergeState, i: Option<nat>)
    ensures BSides(Skip(d, st, i).result) == BSides(st.result)
  {
    if i.Some? && i.value > st.prevIdx + 1 && i.value <= |d| {
      var skipped := Values(d)[st.prevIdx..i.value];
      BSidesAppend(st.result, Inserted(skipped, st.virt));
      BSidesInserted(skipped, st.virt);
    }
  }

  lemma ValuesCons(bs: ADiffs)
    requires |bs| > 0
    ensures Values(bs) == [bs[0].1] + Values(bs[1..])
  {
    assert Values(bs)[1..] == Values(bs[1..]);
  }

  /** The previous-common key of a run: the hash of the nearest common chunk at or before its start. */
  function PccKey<T>(s: Side<T>, hash: seq<T> -> int, r: Run, other: set<int>): Option<int>
    requires Chained(s) && r.first < |s.ends|
  {
    var p := FindPrevCommon(s, hash, r.first, other);
    if p.Some? then Some(ChunkHash(s, hash, p.value)) else None
  }

  /** The runs of a side as blocks keyed by their previous common chunk. */
  function Keyed<T>(s: Side<T>, hash: seq<T> -> int, rs: seq<Run>, other: set<int>): (r: seq<(Option<int>, Block)>)
    requires Chained(s) && forall m :: 0 <= m < |rs| ==> rs[m].first <= rs[m].last < |s.ends|
    ensures |r| == |rs|
    ensures forall m :: 0 <= m < |r| ==> r[m].1 == BlockOf(s, rs[m]) && r[m].1.start <= r[m].1.end
  {
    seq(|rs|, m requires 0 <= m < |rs| => (PccKey(s, hash, rs[m], other), BlockOf(s, rs[m])))
  }

  /** Filling a_diffs block by block. */
  function StoreAll(d: ADiffs, entries: seq<(Option<int>, Block)>): (r: ADiffs)
    requires forall m :: 0 <= m < |d| ==> d[m].1.start <= d[m].1.end
    requires forall m :: 0 <= m < |entries| ==> entries[m].1.start <= entries[m].1.end
    ensures forall m :: 0 <= m < |r| ==> r[m].1.start <= r[m].1.end
    decreases |entries|
  {
    if |entries| == 0 then d else StoreAll(Store(d, entries[0].0, entries[0].1), entries[1..])
  }

  /** _do_diff on two chunked sides. */
  function DoDiffSides<T>(a: Side<T>, b: Side<T>, hash: seq<T> -> int): seq<PyHunk>
    requires Chained(a) && Chained(b)
  {
    var ha, hb := HashSet(a, hash), HashSet(b, hash);
    var d := StoreAll([], Keyed(a, hash, UniqRuns(a, hash, hb), hb));
    Merge(d, MergeState([], 0, 0), Keyed(b, hash, UniqRuns(b, hash, ha), ha)).result
  }

  /** Diff(data_a, data_b, window_size)._do_diff(). */
  function DoDiff<T>(dataA: seq<T>, dataB: seq<T>, windowSize: nat, windowHash: seq<T> -> int, hash: seq<T> -> int): seq<PyHunk> {
    ChunkGenTiles(dataA, windowSize, windowHash);
    ChunkGenTiles(dataB, windowSize, windowHash);
    DoDiffSides(ChunkGen(dataA, windowSize, windowHash), ChunkGen(dataB, windowSize, windowHash), hash)
  }

  /**
   * The hunk starts never decrease, and the b sides of the hunks are
   * exactly the unique blocks of b, in order.
   */
  lemma DoDiffSidesSound<T>(a: Side<T>, b: Side<T>, hash: seq<T> -> int)
    requires Chained(a) && Chained(b)
    ensures var hs := DoDiffSides(a, b, hash);
      && (forall m :: 0 < m < |hs| ==> hs[m - 1].start <= hs[m].start)
      && BSides(hs) == Values(Keyed(b, hash, UniqRuns(b, hash, HashSet(a, hash)), HashSet(a, hash)))
  {
    var ha, hb := HashSet(a, hash), HashSet(b, hash);
    var d := StoreAll([], Keyed(a, hash, UniqRuns(a, hash, hb), hb));
    MergeSound(d, MergeState([], 0, 0), Keyed(b, hash, UniqRuns(b, hash, ha), ha));
    assert BSides([]) == [];
  }

  /** The same for Diff(data_a, data_b): the chunked sides are those of _chunk_gen. */
  lemma DoDiffSound<T>(dataA: seq<T>, dataB: seq<T>, windowSize: nat, windowHash: seq<T> -> int, hash: seq<T> -> int)
    ensures var a := ChunkGen(dataA, windowSize, windowHash);
      var b := ChunkGen(dataB, windowSize, windowHash);
      var hs := DoDiff(dataA, dataB, windowSize, windowHash, hash);
      && Chained(a) && Chained(b)
      && (forall m :: 0 < m < |hs| ==> hs[m - 1].start <= hs[m].start)
      && BSides(hs) == Values(Keyed(b, hash, UniqRuns(b, hash, HashSet(a, hash)), HashSet(a, hash)))
  {
    ChunkGenTiles(dataA, windowSize, windowHash);
    ChunkGenTiles(dataB, windowSize, windowHash);
    DoDiffSidesSound(ChunkGen(dataA, windowSize, windowHash), ChunkGen(dataB, windowSize, windowHash), hash);
  }

  /** Survivors against a side's own hashes: none. */
  lemma NoSurvivors<T>(s: Side<T>, hash: seq<T> -> int, keys: seq<nat>)
    requires Chained(s) && forall m :: 0 <= m < |keys| ==> keys[m] < |s.ends|
    ensures Survivors(s, hash, keys, HashSet(s, hash)) == []
  {
  }

  /** Identity: a source diffed against itself has no hunks. */
  lemma DoDiffSame<T>(data: seq<T>, windowSize: nat, windowHash: seq<T> -> int, hash: seq<T> -> int)
    ensures DoDiff(data, data, windowSize, windowHash, hash) == []
  {
    var s := ChunkGen(data, windowSize, windowHash);
    ChunkGenTiles(data, windowSize, windowHash);
    KeysFirstOccurrences(s, hash);
    NoSurvivors(s, hash, Keys(s, hash));
    assert UniqRuns(s, hash, HashSet(s, hash)) == [];
  }

  /**
   * DiffHunk.__len__ on the three shapes of hunk, for blocks of
   * non-negative length: an empty b still counts 1.
   */
  lemma HunkLenCases(start: int, a: Block, b: Block)
    requires a.start <= a.end && b.start <= b.end
    ensures HunkLen(PyHunk(start, Some(a), None)) == if a.end - a.start >= 1 then a.end - a.start else 1
    ensures HunkLen(PyHunk(start, None, Some(b))) == if b.end - b.start >= 1 then b.end - b.start else 1
    ensures HunkLen(PyHunk(start, Some(a), Some(b))) ==
      if a.end - a.start > b.end - b.start && a.end - a.start >= 1 then a.end - a.start
      else if b.end - b.start >= 1 then b.end - b.start else 1
  {
  }
}
