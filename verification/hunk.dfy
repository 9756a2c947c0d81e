/**
 * The chunk-to-hunk matcher of src/hunk.c (`hunk_factory`, declared as
 * `diff_chunks` in src/hunk.h). It walks the chunks of `a` in order; for a
 * chunk whose hash still occurs among the chunks of `b` after the `b`
 * cursor, it moves the cursor to the first such chunk and reports the gap
 * before the two common chunks as a hunk.
 */
module HunkFactory {
  import opened Types
  import CountingTable

  /**
   * possibly_append_hunk: append the hunk (aStart, aEnd, bStart, bEnd)
   * only when at least one of its two views is non-empty.
   */
  function PossiblyAppend(hs: seq<Hunk>, aStart: nat, aEnd: nat, bStart: nat, bEnd: nat): (r: seq<Hunk>)
    ensures |r| == |hs| || |r| == |hs| + 1
    ensures r[..|hs|] == hs
    ensures |r| == |hs| + 1 <==> aStart != aEnd || bStart != bEnd
    ensures |r| == |hs| + 1 ==> r[|hs|] == Hunk(View(aStart, aEnd), View(bStart, bEnd))
  {
    if aStart != aEnd || bStart != bEnd then
      hs + [Hunk(View(aStart, aEnd), View(bStart, bEnd))]
    else
      hs
  }

  /** Some chunk of `b` at index `j` or later has hash `h`. */
  predicate OccursFrom(b: seq<Chunk>, j: nat, h: Hash)
    decreases |b| - j
  {
    j < |b| && (b[j].hash == h || OccursFrom(b, j + 1, h))
  }

  /** The first index at or after `j` whose chunk has hash `h`. */
  function FirstFrom(b: seq<Chunk>, j: nat, h: Hash): (k: nat)
    requires OccursFrom(b, j, h)
    ensures j <= k < |b| && b[k].hash == h
    ensures forall m :: j <= m < k ==> b[m].hash != h
    decreases |b| - j
  {
    if b[j].hash == h then j else FirstFrom(b, j + 1, h)
  }

  /**
   * The matcher as a recursion without the counting table: `i` indexes
   * the next chunk of `a`, `j` the next chunk of `b` after the cursor,
   * `sa`/`sb` are where the pending gap starts on each side.
   */
  function Gaps(a: seq<Chunk>, b: seq<Chunk>, i: nat, j: nat, sa: nat, sb: nat, acc: seq<Hunk>): seq<Hunk>
    requires i <= |a| && j <= |b|
    decreases |a| - i
  {
    if i == |a| then
      PossiblyAppend(acc, sa, LastEnd(a), sb, LastEnd(b))
    else if OccursFrom(b, j, a[i].hash) then
      var k := FirstFrom(b, j, a[i].hash);
      Gaps(a, b, i + 1, k + 1, a[i].end, b[k].end, PossiblyAppend(acc, sa, a[i].start, sb, b[k].start))
    else
      Gaps(a, b, i + 1, j, sa, sb, acc)
  }

  /** When a[i] has a partner b[k] at or after the cursor, the gap before the pair is reported. */
  lemma GapsCommonStep(a: seq<Chunk>, b: seq<Chunk>, i: nat, j: nat, sa: nat, sb: nat, acc: seq<Hunk>, k: nat)
    requires i < |a| && j <= |b| && OccursFrom(b, j, a[i].hash) && k == FirstFrom(b, j, a[i].hash)
    ensures Gaps(a, b, i, j, sa, sb, acc)
      == Gaps(a, b, i + 1, k + 1, a[i].end, b[k].end, PossiblyAppend(acc, sa, a[i].start, sb, b[k].start))
  {
  }

  lemma GapsSkipStep(a: seq<Chunk>, b: seq<Chunk>, i: nat, j: nat, sa: nat, sb: nat, acc: seq<Hunk>)
    requires i < |a| && j <= |b| && !OccursFrom(b, j, a[i].hash)
    ensures Gaps(a, b, i, j, sa, sb, acc) == Gaps(a, b, i + 1, j, sa, sb, acc)
  {
  }

  /** The hunks between the chunk lists `a` and `b`. */
  function MatchChunks(a: seq<Chunk>, b: seq<Chunk>): seq<Hunk> {
    Gaps(a, b, 0, 0, 0, 0, [])
  }

  lemma {:induction false} OccursFromCount(b: seq<Chunk>, j: nat, h: Hash)
    requires j <= |b|
    ensures OccursFrom(b, j, h) <==> multiset(Hashes(b)[j..])[h] > 0
    decreases |b| - j
  {
    if j < |b| {
      OccursFromCount(b, j + 1, h);
      assert Hashes(b)[j..] == [b[j].hash] + Hashes(b)[j + 1..];
    }
  }

  /** The counting table counts exactly the hashes of `b` from index `j` on. */
  ghost predicate CountsSuffix(table: CountingTable.Table, b: seq<Chunk>, j: nat)
    requires j <= |b|
  {
    && CountingTable.Valid(table)
    && forall g :: CountingTable.Get(table, g) == multiset(Hashes(b)[j..])[g]
  }

  /** Moving the cursor past b[j] and popping its hash keeps the table in step. */
  lemma DecAdvance(table: CountingTable.Table, b: seq<Chunk>, j: nat)
    requires j < |b| && CountsSuffix(table, b, j)
    ensures CountingTable.Dec(table, b[j].hash).0 > 0
    ensures CountsSuffix(CountingTable.Dec(table, b[j].hash).1, b, j + 1)
  {
    CountingTable.DecFront(table, Hashes(b)[j..]);
    assert Hashes(b)[j..][1..] == Hashes(b)[j + 1..];
  }

  /**
   * The inner `while` of hunk_factory: advance the `b` cursor to the next
   * chunk with hash `h`, popping each skipped hash from the table.
   */
  method SkipToMatch(b: seq<Chunk>, j0: nat, table0: CountingTable.Table, h: Hash)
    returns (j: nat, table: CountingTable.Table)
    requires j0 <= |b| && CountsSuffix(table0, b, j0)
    requires CountingTable.Get(table0, h) != 0
    ensures OccursFrom(b, j0, h) && j == FirstFrom(b, j0, h)
    ensures CountsSuffix(table, b, j)
  {
    OccursFromCount(b, j0, h);
    ghost var k := FirstFrom(b, j0, h);
    j, table := j0, table0;
    while b[j].hash != h
      invariant j0 <= j <= k && OccursFrom(b, j, h) && FirstFrom(b, j, h) == k
      invariant CountsSuffix(table, b, j)
      decreases k - j
    {
      DecAdvance(table, b, j);
      table := CountingTable.Dec(table, b[j].hash).1;
      j := j + 1;
    }
  }

  /** Pop the hash of the matched chunk b[k] and move the cursor past it. */
  method Pop(b: seq<Chunk>, k: nat, table0: CountingTable.Table) returns (table: CountingTable.Table)
    requires k < |b| && CountsSuffix(table0, b, k)
    ensures CountsSuffix(table, b, k + 1)
  {
    DecAdvance(table0, b, k);
    table := CountingTable.Dec(table0, b[k].hash).1;
  }

  /** Skip `b` to the first chunk with hash `h` and pop that chunk too. */
  method TakeMatch(b: seq<Chunk>, j0: nat, table0: CountingTable.Table, h: Hash)
    returns (k: nat, table: CountingTable.Table)
    requires j0 <= |b| && CountsSuffix(table0, b, j0)
    requires CountingTable.Get(table0, h) != 0
    ensures OccursFrom(b, j0, h) && k == FirstFrom(b, j0, h)
    ensures CountsSuffix(table, b, k + 1)
  {
    var skipped;
    k, skipped := SkipToMatch(b, j0, table0, h);
    table := Pop(b, k, skipped);
  }

  /**
   * The matching branch of hunk_factory's outer loop: a[i]'s hash is still
   * counted, so skip `b` to the matching chunk, report the gap before the
   * pair and move both gap starts past it.
   */
  method MatchCommon(a: seq<Chunk>, b: seq<Chunk>, i: nat, j0: nat, table0: CountingTable.Table,
                     startA0: nat, startB0: nat, hs0: seq<Hunk>)
    returns (hs: seq<Hunk>, startA: nat, startB: nat, j: nat, table: CountingTable.Table)
    requires i < |a| && j0 <= |b| && CountsSuffix(table0, b, j0)
    requires CountingTable.Get(table0, a[i].hash) != 0
    ensures j <= |b| && CountsSuffix(table, b, j)
    ensures Gaps(a, b, i + 1, j, startA, startB, hs) == Gaps(a, b, i, j0, startA0, startB0, hs0)
  {
    var k;
    k, table := TakeMatch(b, j0, table0, a[i].hash);
    hs := PossiblyAppend(hs0, startA0, a[i].start, startB0, b[k].start);
    startA, startB, j := a[i].end, b[k].end, k + 1;
    GapsCommonStep(a, b, i, j0, startA0, startB0, hs0, k);
  }

  /**
   * One iteration of hunk_factory's outer loop, for the chunk a[i]: a hash
   * no longer counted means a[i] has no partner after the cursor, and only
   * `i` moves on.
   */
  method MatchOne(a: seq<Chunk>, b: seq<Chunk>, i: nat, j0: nat, table0: CountingTable.Table,
                  startA0: nat, startB0: nat, hs0: seq<Hunk>)
    returns (hs: seq<Hunk>, startA: nat, startB: nat, j: nat, table: CountingTable.Table)
    requires i < |a| && j0 <= |b| && CountsSuffix(table0, b, j0)
    ensures j <= |b| && CountsSuffix(table, b, j)
    ensures Gaps(a, b, i + 1, j, startA, startB, hs) == Gaps(a, b, i, j0, startA0, startB0, hs0)
  {
    if CountingTable.Get(table0, a[i].hash) != 0 {
      hs, startA, startB, j, table := MatchCommon(a, b, i, j0, table0, startA0, startB0, hs0);
    } else {
      OccursFromCount(b, j0, a[i].hash);
      hs, startA, startB, j, table := hs0, startA0, startB0, j0, table0;
      GapsSkipStep(a, b, i, j0, startA0, startB0, hs0);
    }
  }

  /**
   * hunk_factory. The counting table holds, between iterations, exactly
   * the hashes of the `b` chunks after the cursor; that is what makes the
   * inner search stop before the end of `b`.
   */
  method HunkFactoryLoop(a: seq<Chunk>, b: seq<Chunk>) returns (hs: seq<Hunk>)
    ensures hs == MatchChunks(a, b)
  {
    var table := CountingTable.FromSeq(Hashes(b));
    CountingTable.FromSeqCounts(Hashes(b));
    assert Hashes(b)[0..] == Hashes(b);
    hs := [];
    var startA: nat, startB: nat := 0, 0;
    var i: nat, j: nat := 0, 0;
    while i < |a|
      invariant i <= |a| && j <= |b|
      invariant CountsSuffix(table, b, j)
      invariant Gaps(a, b, i, j, startA, startB, hs) == MatchChunks(a, b)
      decreases |a| - i
    {
      hs, startA, startB, j, table := MatchOne(a, b, i, j, table, startA, startB, hs);
      i := i + 1;
    }
    hs := PossiblyAppend(hs, startA, LastEnd(a), startB, LastEnd(b));
  }

  /** Every reported hunk has a non-empty view on at least one side. */
  ghost predicate AllNonEmpty(hs: seq<Hunk>) {
    forall m :: 0 <= m < |hs| ==> !hs[m].a.IsEmpty() || !hs[m].b.IsEmpty()
  }

  lemma {:induction false} GapsNonEmpty(a: seq<Chunk>, b: seq<Chunk>, i: nat, j: nat, sa: nat, sb: nat, acc: seq<Hunk>)
    requires i <= |a| && j <= |b| && AllNonEmpty(acc)
    ensures AllNonEmpty(Gaps(a, b, i, j, sa, sb, acc))
    decreases |a| - i
  {
    if i < |a| {
      if OccursFrom(b, j, a[i].hash) {
        var k := FirstFrom(b, j, a[i].hash);
        GapsNonEmpty(a, b, i + 1, k + 1, a[i].end, b[k].end, PossiblyAppend(acc, sa, a[i].start, sb, b[k].start));
      } else {
        GapsNonEmpty(a, b, i + 1, j, sa, sb, acc);
      }
    }
  }

  /** No hunk is empty on both sides. */
  lemma MatchNonEmpty(a: seq<Chunk>, b: seq<Chunk>)
    ensures AllNonEmpty(MatchChunks(a, b))
  {
    GapsNonEmpty(a, b, 0, 0, 0, 0, []);
  }

  lemma {:induction false} GapsIdentical(cs: seq<Chunk>, i: nat, s: nat)
    requires Gapless(cs) && i <= |cs|
    requires s == (if i == 0 then 0 else cs[i - 1].end)
    ensures Gaps(cs, cs, i, i, s, s, []) == []
    decreases |cs| - i
  {
    if i < |cs| {
      assert OccursFrom(cs, i, cs[i].hash);
      assert FirstFrom(cs, i, cs[i].hash) == i;
      GapsIdentical(cs, i + 1, cs[i].end);
    }
  }

  /** A gapless chunk list compared with itself yields no hunks. */
  lemma MatchIdentical(cs: seq<Chunk>)
    requires Gapless(cs)
    ensures MatchChunks(cs, cs) == []
  {
    GapsIdentical(cs, 0, 0);
  }

  /** With no chunks on side a, the only hunk is all of b (if b is non-empty). */
  lemma MatchAEmpty(b: seq<Chunk>)
    ensures MatchChunks([], b) == if LastEnd(b) == 0 then [] else [Hunk(View(0, 0), View(0, LastEnd(b)))]
  {
  }

  lemma {:induction false} GapsAgainstNothing(a: seq<Chunk>, i: nat)
    requires i <= |a|
    ensures Gaps(a, [], i, 0, 0, 0, []) == PossiblyAppend([], 0, LastEnd(a), 0, 0)
    decreases |a| - i
  {
    if i < |a| {
      GapsAgainstNothing(a, i + 1);
    }
  }

  /** With no chunks on side b, the only hunk is all of a (if a is non-empty). */
  lemma MatchBEmpty(a: seq<Chunk>)
    ensures MatchChunks(a, []) == if LastEnd(a) == 0 then [] else [Hunk(View(0, LastEnd(a)), View(0, 0))]
  {
    GapsAgainstNothing(a, 0);
  }

  /** Where each side's pending gap starts, relative to the chunks still to come. */
  ghost predicate GapState(a: seq<Chunk>, b: seq<Chunk>, i: nat, j: nat, sa: nat, sb: nat, acc: seq<Hunk>)
    requires i <= |a| && j <= |b|
  {
    && (i < |a| ==> sa <= a[i].start) && sa <= LastEnd(a)
    && (j < |b| ==> sb <= b[j].start) && sb <= LastEnd(b)
    && OrderedHunks(acc)
    && (|acc| > 0 ==> acc[|acc| - 1].a.end <= sa && acc[|acc| - 1].b.end <= sb)
  }

  lemma AppendOrdered(acc: seq<Hunk>, sa: nat, ea: nat, sb: nat, eb: nat)
    requires OrderedHunks(acc) && sa <= ea && sb <= eb
    requires |acc| > 0 ==> acc[|acc| - 1].a.end <= sa && acc[|acc| - 1].b.end <= sb
    ensures OrderedHunks(PossiblyAppend(acc, sa, ea, sb, eb))
    ensures var r := PossiblyAppend(acc, sa, ea, sb, eb);
      |r| > 0 ==> r[|r| - 1].a.end <= ea && r[|r| - 1].b.end <= eb
  {
    if sa != ea || sb != eb {
      OrderedSnoc(acc, Hunk(View(sa, ea), View(sb, eb)));
    }
  }

  /** A well-formed hunk after the last one extends an ordered list. */
  lemma OrderedSnoc(hs: seq<Hunk>, h: Hunk)
    requires OrderedHunks(hs) && h.a.WellFormed() && h.b.WellFormed()
    requires |hs| > 0 ==> hs[|hs| - 1].a.end <= h.a.start && hs[|hs| - 1].b.end <= h.b.start
    ensures OrderedHunks(hs + [h])
  {
    var r := hs + [h];
    forall i | 0 <= i < |r|
      ensures r[i].a.WellFormed() && r[i].b.WellFormed()
    {
      if i < |hs| {
        assert r[i] == hs[i];
      }
    }
    forall i | 0 < i < |r|
      ensures r[i - 1].a.end <= r[i].a.start && r[i - 1].b.end <= r[i].b.start
    {
      if i < |hs| {
        assert r[i - 1] == hs[i - 1] && r[i] == hs[i];
      }
    }
  }

  lemma {:induction false} GapsOrdered(a: seq<Chunk>, b: seq<Chunk>, i: nat, j: nat, sa: nat, sb: nat, acc: seq<Hunk>)
    requires Gapless(a) && Gapless(b)
    requires i <= |a| && j <= |b| && GapState(a, b, i, j, sa, sb, acc)
    ensures OrderedHunks(Gaps(a, b, i, j, sa, sb, acc))
    decreases |a| - i
  {
    if i == |a| {
      AppendOrdered(acc, sa, LastEnd(a), sb, LastEnd(b));
    } else if OccursFrom(b, j, a[i].hash) {
      var k := FirstFrom(b, j, a[i].hash);
      GaplessMonotone(b, j, k);
      GaplessEndsBounded(a, i);
      GaplessEndsBounded(b, k);
      AppendOrdered(acc, sa, a[i].start, sb, b[k].start);
      var acc' := PossiblyAppend(acc, sa, a[i].start, sb, b[k].start);
      GapsOrdered(a, b, i + 1, k + 1, a[i].end, b[k].end, acc');
    } else {
      GaplessEndsBounded(a, i);
      GapsOrdered(a, b, i + 1, j, sa, sb, acc);
    }
  }

  /**
   * For gapless chunk lists the hunks are well-formed and follow one
   * another without overlap on both sides.
   */
  lemma MatchOrdered(a: seq<Chunk>, b: seq<Chunk>)
    requires Gapless(a) && Gapless(b)
    ensures OrderedHunks(MatchChunks(a, b))
  {
    if |a| > 0 {
      GaplessEndsBounded(a, 0);
    }
    if |b| > 0 {
      GaplessEndsBounded(b, 0);
    }
    GapsOrdered(a, b, 0, 0, 0, 0, []);
  }

  /** Single-sample chunks at 0, 1, 2, ... carrying the given hashes. */
  function UnitChunks(hashes: seq<Hash>): (cs: seq<Chunk>)
    ensures |cs| == |hashes|
    ensures forall i :: 0 <= i < |cs| ==> cs[i] == Chunk(i, i + 1, hashes[i])
  {
    seq(|hashes|, i requires 0 <= i < |hashes| => Chunk(i, i + 1, hashes[i]))
  }

  /** The chunks of test_consecutive_duplicate_anchors, written out. */
  const DuplicateA: seq<Chunk> := [Chunk(0, 1, 1), Chunk(1, 2, 1), Chunk(2, 3, 1), Chunk(3, 4, 2), Chunk(4, 5, 2),
                                   Chunk(5, 6, 2), Chunk(6, 7, 1), Chunk(7, 8, 1), Chunk(8, 9, 3), Chunk(9, 10, 3)]
  const DuplicateB: seq<Chunk> := [Chunk(0, 1, 1), Chunk(1, 2, 1), Chunk(2, 3, 1), Chunk(3, 4, 4), Chunk(4, 5, 4),
                                   Chunk(5, 6, 1), Chunk(6, 7, 1), Chunk(7, 8, 5), Chunk(8, 9, 5), Chunk(9, 10, 5)]

  /** On the written-out chunks the matcher reports the two gaps. */
  lemma DuplicateAnchorsMatch(a: seq<Chunk>, b: seq<Chunk>)
    requires a == DuplicateA && b == DuplicateB
    ensures MatchChunks(a, b) == [Hunk(View(3, 6), View(3, 5)), Hunk(View(8, 10), View(7, 10))]
  {
    DuplicateAnchorsPairs(a, b);
    DuplicateAnchorsSkips(a, b);
    DuplicateAnchorsGap(a, b);
    DuplicateAnchorsTail(a, b);
  }

  /** The three leading pairs match without a gap. */
  lemma DuplicateAnchorsPairs(a: seq<Chunk>, b: seq<Chunk>)
    requires a == DuplicateA && b == DuplicateB
    ensures Gaps(a, b, 0, 0, 0, 0, []) == Gaps(a, b, 3, 3, 3, 3, [])
  {
    GapsCommonStep(a, b, 0, 0, 0, 0, [], 0);
    GapsCommonStep(a, b, 1, 1, 1, 1, [], 1);
    GapsCommonStep(a, b, 2, 2, 2, 2, [], 2);
  }

  /** a[3..6] carry hash 2, which no chunk of b after b[2] has. */
  lemma DuplicateAnchorsSkips(a: seq<Chunk>, b: seq<Chunk>)
    requires a == DuplicateA && b == DuplicateB
    ensures Gaps(a, b, 3, 3, 3, 3, []) == Gaps(a, b, 6, 3, 3, 3, [])
  {
    NoHashTwo(b);
    GapsSkipStep(a, b, 3, 3, 3, 3, []);
    GapsSkipStep(a, b, 4, 3, 3, 3, []);
    GapsSkipStep(a, b, 5, 3, 3, 3, []);
  }

  lemma NoHashTwo(b: seq<Chunk>)
    requires b == DuplicateB
    ensures !OccursFrom(b, 3, 2)
  {
    assert !OccursFrom(b, 10, 2);
    assert !OccursFrom(b, 7, 2);
    assert !OccursFrom(b, 5, 2);
  }

  /** a[6] pairs with b[5], reporting the gap a[3..6] / b[3..5]; a[7] pairs with b[6]. */
  lemma DuplicateAnchorsGap(a: seq<Chunk>, b: seq<Chunk>)
    requires a == DuplicateA && b == DuplicateB
    ensures Gaps(a, b, 6, 3, 3, 3, []) == Gaps(a, b, 8, 7, 8, 7, [Hunk(View(3, 6), View(3, 5))])
  {
    assert FirstFrom(b, 5, 1) == 5;
    assert FirstFrom(b, 4, 1) == 5;
    GapsCommonStep(a, b, 6, 3, 3, 3, [], 5);
    GapsCommonStep(a, b, 7, 6, 7, 6, [Hunk(View(3, 6), View(3, 5))], 6);
  }

  /** a[8] and a[9] carry hash 3, which no chunk of b after b[6] has; the tails form the last gap. */
  lemma DuplicateAnchorsTail(a: seq<Chunk>, b: seq<Chunk>)
    requires a == DuplicateA && b == DuplicateB
    ensures Gaps(a, b, 8, 7, 8, 7, [Hunk(View(3, 6), View(3, 5))])
         == [Hunk(View(3, 6), View(3, 5)), Hunk(View(8, 10), View(7, 10))]
  {
    assert !OccursFrom(b, 8, 3);
    assert !OccursFrom(b, 7, 3);
    GapsSkipStep(a, b, 8, 7, 8, 7, [Hunk(View(3, 6), View(3, 5))]);
    GapsSkipStep(a, b, 9, 7, 8, 7, [Hunk(View(3, 6), View(3, 5))]);
  }

  /** UnitChunks builds the chunks written out above. */
  lemma DuplicateAnchorsChunks()
    ensures UnitChunks([1, 1, 1, 2, 2, 2, 1, 1, 3, 3]) == DuplicateA
    ensures UnitChunks([1, 1, 1, 4, 4, 1, 1, 5, 5, 5]) == DuplicateB
  {
  }

  /** tests/unittest_hunk.c, test_consecutive_duplicate_anchors. */
  lemma DuplicateAnchorsVector()
    ensures MatchChunks(UnitChunks([1, 1, 1, 2, 2, 2, 1, 1, 3, 3]), UnitChunks([1, 1, 1, 4, 4, 1, 1, 5, 5, 5]))
         == [Hunk(View(3, 6), View(3, 5)), Hunk(View(8, 10), View(7, 10))]
  {
    DuplicateAnchorsChunks();
    DuplicateAnchorsMatch(DuplicateA, DuplicateB);
  }
}
