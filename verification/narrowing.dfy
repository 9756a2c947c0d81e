/**
 * src/narrowing.c: refine "rough" hunks, whose ends sit on chunk
 * boundaries, to exact sample boundaries. A hunk's start moves forward
 * past the samples both sides share, its end moves back past the samples
 * both sides share at the end, and a hunk whose start was pushed past its
 * end makes the next hunk slide to realign.
 *
 * Samples are compared whole (the source compares their bytes one by one,
 * which finds the same first differing sample). Reading is modelled as
 * slicing a sequence: a read from a position returns the next items up to
 * the end of the data, and nothing past it.
 */
module Narrowing {
  import opened Types
  import opened Wrappers

  /** The failed assertions of src/narrowing.c. */
  datatype NarrowError =
    | StartDeltaOverflow  // the start search ran the full max_chunk_size + 1 samples
    | BothShoved          // both sides of a hunk had their start pushed past their end
    | ShortRead           // a read that must return data returned less

  function Min(x: nat, y: nat): (r: nat)
    ensures r <= x && r <= y && (r == x || r == y)
  {
    if x < y then x else y
  }

  function Min3(x: nat, y: nat, z: nat): (r: nat)
    ensures r <= x && r <= y && r <= z && (r == x || r == y || r == z)
  {
    Min(Min(x, y), z)
  }

  function Max(x: nat, y: nat): (r: nat)
    ensures r >= x && r >= y && (r == x || r == y)
  {
    if x > y then x else y
  }

  /** clamped_subtract: x - y, or 0 where the unsigned subtraction would wrap. */
  function ClampedSubtract(x: nat, y: nat): (r: nat)
    ensures x > y ==> r + y == x
    ensures x <= y ==> r == 0
  {
    if x > y then x - y else 0
  }

  /** A read of up to n items from position pos, stopping at the end of the data. */
  function ReadAt<T>(s: seq<T>, pos: nat, n: nat): (r: seq<T>)
    ensures |r| <= n
    ensures pos + |r| <= |s| || |r| == 0
    ensures |r| == n || pos + |r| >= |s|
    ensures forall t :: 0 <= t < |r| ==> r[t] == s[pos + t]
  {
    if pos >= |s| then [] else s[pos..Min(pos + n, |s|)]
  }

  // ---------------------------------------------------------------------
  // find_start_delta
  // ---------------------------------------------------------------------

  /**
   * The number of samples a[i..] and b[j..] share at their start, at most
   * `cap`: it stops at the first difference or where either side runs out.
   */
  function CommonPrefix<T(==)>(a: seq<T>, b: seq<T>, i: nat, j: nat, cap: nat): (n: nat)
    ensures n <= cap
    ensures n > 0 ==> i + n <= |a| && j + n <= |b|
    ensures n == cap || i + n >= |a| || j + n >= |b| || a[i + n] != b[j + n]
    decreases cap
  {
    if cap == 0 || i >= |a| || j >= |b| || a[i] != b[j] then 0
    else 1 + CommonPrefix(a, b, i + 1, j + 1, cap - 1)
  }

  /** The samples the common prefix skips agree pairwise. */
  lemma {:induction false} CommonPrefixAgrees<T>(a: seq<T>, b: seq<T>, i: nat, j: nat, cap: nat)
    ensures forall t :: i <= t < i + CommonPrefix(a, b, i, j, cap) ==> a[t] == b[t - i + j]
    decreases cap
  {
    if cap > 0 && i < |a| && j < |b| && a[i] == b[j] {
      CommonPrefixAgrees(a, b, i + 1, j + 1, cap - 1);
    }
  }

  /** Any count with the common-prefix properties is the common prefix. */
  lemma {:induction false} CommonPrefixUnique<T>(a: seq<T>, b: seq<T>, i: nat, j: nat, cap: nat, n: nat)
    requires n <= cap
    requires n > 0 ==> i + n <= |a| && j + n <= |b|
    requires forall t :: i <= t < i + n ==> a[t] == b[t - i + j]
    requires n == cap || i + n >= |a| || j + n >= |b| || a[i + n] != b[j + n]
    ensures n == CommonPrefix(a, b, i, j, cap)
    decreases cap
  {
    if n > 0 {
      assert a[i] == b[i - i + j];
      CommonPrefixUnique(a, b, i + 1, j + 1, cap - 1, n - 1);
    }
  }

  /** One more agreeing sample adds one to the common prefix; a disagreeing one ends it. */
  lemma PrefixStep<T>(a: seq<T>, b: seq<T>, i: nat, j: nat, cap: nat)
    requires 0 < cap && i < |a| && j < |b|
    ensures a[i] == b[j] ==> CommonPrefix(a, b, i, j, cap) == 1 + CommonPrefix(a, b, i + 1, j + 1, cap - 1)
    ensures a[i] != b[j] ==> CommonPrefix(a, b, i, j, cap) == 0
  {
  }

  /** Where either side has run out, nothing more is shared. */
  lemma PrefixExhausted<T>(a: seq<T>, b: seq<T>, i: nat, j: nat, cap: nat)
    requires i >= |a| || j >= |b|
    ensures CommonPrefix(a, b, i, j, cap) == 0
  {
  }

  /**
   * find_start_delta as written: read both sides in batches of at most
   * `batch` samples (buf_size / sample_size) and stop at the first
   * difference, at the end of the shorter side, or after `maxLength`
   * samples. The batching does not change the answer.
   */
  method FindStartDelta<T(==)>(a: seq<T>, b: seq<T>, aStart: nat, bStart: nat, maxLength: nat, batch: nat)
    returns (d: nat)
    requires batch > 0
    ensures d == CommonPrefix(a, b, aStart, bStart, maxLength)
  {
    ghost var total := CommonPrefix(a, b, aStart, bStart, maxLength);
    var delta: nat := 0;
    var i, j, rest := aStart, bStart, maxLength;
    while delta < maxLength
      invariant delta <= maxLength && i == aStart + delta && j == bStart + delta && rest == maxLength - delta
      invariant total == delta + CommonPrefix(a, b, i, j, rest)
      decreases maxLength - delta
    {
      var done: bool;
      done, d := StartBatch(a, b, i, j, rest, batch);
      if done {
        return delta + d;
      }
      delta, i, j, rest := delta + d, i + d, j + d, rest - d;
    }
    d := delta;
  }

  /**
   * One pass of find_start_delta's loop from positions i and j with `cap`
   * samples left: either the search ends here with the rest of the common
   * prefix, or a full batch agreed and the search goes on.
   */
  method StartBatch<T(==)>(a: seq<T>, b: seq<T>, i: nat, j: nat, cap: nat, batch: nat)
    returns (done: bool, k: nat)
    requires batch > 0 && cap > 0
    ensures done ==> k == CommonPrefix(a, b, i, j, cap)
    ensures !done ==> 0 < k <= cap && CommonPrefix(a, b, i, j, cap) == k + CommonPrefix(a, b, i + k, j + k, cap - k)
  {
    var request := Min(batch, cap);
    var bufA := ReadAt(a, i, request);
    var bufB := ReadAt(b, j, request);
    var minRead := Min(|bufA|, |bufB|);
    k := ComparePrefix(a, b, i, j, cap, bufA, bufB);
    if k < minRead {
      return true, k;
    }
    if |bufA| != |bufB| {
      PrefixExhausted(a, b, i + k, j + k, cap - k);
      return true, minRead;
    }
    if minRead == 0 {
      PrefixExhausted(a, b, i, j, cap);
      return true, 0;
    }
    done := false;
  }

  /**
   * The byte loop of find_start_delta over one batch: the index of the
   * first differing sample, or the shorter read's length when none differs.
   * Up to that index the common prefix advances one sample at a time.
   */
  method ComparePrefix<T(==)>(a: seq<T>, b: seq<T>, i: nat, j: nat, cap: nat, bufA: seq<T>, bufB: seq<T>)
    returns (k: nat)
    requires |bufA| <= cap && |bufB| <= cap
    requires i + |bufA| <= |a| || |bufA| == 0
    requires j + |bufB| <= |b| || |bufB| == 0
    requires forall t :: 0 <= t < |bufA| ==> bufA[t] == a[i + t]
    requires forall t :: 0 <= t < |bufB| ==> bufB[t] == b[j + t]
    ensures k <= |bufA| && k <= |bufB|
    ensures CommonPrefix(a, b, i, j, cap) == k + CommonPrefix(a, b, i + k, j + k, cap - k)
    ensures k < |bufA| && k < |bufB| ==> CommonPrefix(a, b, i + k, j + k, cap - k) == 0
  {
    k := 0;
    ghost var x, y, rest := i, j, cap;
    while k < |bufA| && k < |bufB|
      invariant k <= |bufA| && k <= |bufB|
      invariant x == i + k && y == j + k && rest == cap - k
      invariant CommonPrefix(a, b, i, j, cap) == k + CommonPrefix(a, b, x, y, rest)
      decreases |bufA| - k
    {
      PrefixStep(a, b, x, y, rest);
      if bufA[k] != bufB[k] {
        return;
      }
      k, x, y, rest := k + 1, x + 1, y + 1, rest - 1;
    }
  }

  // ---------------------------------------------------------------------
  // find_end_delta
  // ---------------------------------------------------------------------

  /**
   * The number of samples the windows ending at aEnd and bEnd share at
   * their end, at most `cap`.
   */
  function CommonSuffix<T(==)>(a: seq<T>, b: seq<T>, aEnd: nat, bEnd: nat, cap: nat): (n: nat)
    requires cap <= aEnd <= |a| && cap <= bEnd <= |b|
    ensures n <= cap
    ensures n == cap || a[aEnd - n - 1] != b[bEnd - n - 1]
    decreases cap
  {
    if cap == 0 || a[aEnd - 1] != b[bEnd - 1] then 0
    else 1 + CommonSuffix(a, b, aEnd - 1, bEnd - 1, cap - 1)
  }

  /** The samples of the common suffix agree pairwise. */
  lemma {:induction false} CommonSuffixAgrees<T>(a: seq<T>, b: seq<T>, aEnd: nat, bEnd: nat, cap: nat)
    requires cap <= aEnd <= |a| && cap <= bEnd <= |b|
    ensures forall t :: aEnd - CommonSuffix(a, b, aEnd, bEnd, cap) <= t < aEnd ==> a[t] == b[t - aEnd + bEnd]
    decreases cap
  {
    if cap > 0 && a[aEnd - 1] == b[bEnd - 1] {
      CommonSuffixAgrees(a, b, aEnd - 1, bEnd - 1, cap - 1);
    }
  }

  /** Any count with the common-suffix properties is the common suffix. */
  lemma {:induction false} CommonSuffixUnique<T>(a: seq<T>, b: seq<T>, aEnd: nat, bEnd: nat, cap: nat, n: nat)
    requires cap <= aEnd <= |a| && cap <= bEnd <= |b|
    requires n <= cap
    requires forall t :: aEnd - n <= t < aEnd ==> a[t] == b[t - aEnd + bEnd]
    requires n == cap || a[aEnd - n - 1] != b[bEnd - n - 1]
    ensures n == CommonSuffix(a, b, aEnd, bEnd, cap)
    decreases cap
  {
    if cap > 0 && a[aEnd - 1] == b[bEnd - 1] && n > 0 {
      CommonSuffixUnique(a, b, aEnd - 1, bEnd - 1, cap - 1, n - 1);
    }
  }

  /**
   * find_end_delta's answer: the common suffix of the last `endDelta`
   * samples before aEnd and bEnd, or a short read when a window runs past
   * the end of its data. An empty window reads nothing.
   */
  function EndDelta<T(==)>(a: seq<T>, b: seq<T>, endDelta: nat, aEnd: nat, bEnd: nat): Result<nat, NarrowError>
    requires endDelta <= aEnd && endDelta <= bEnd
  {
    if endDelta == 0 then Success(0)
    else if aEnd <= |a| && bEnd <= |b| then Success(CommonSuffix(a, b, aEnd, bEnd, endDelta))
    else Failure(ShortRead)
  }

  /** Window position p of the end search compares a[aEnd - e + p] with b[bEnd - e + p]. */
  predicate SameAt<T(==)>(a: seq<T>, b: seq<T>, e: nat, aEnd: nat, bEnd: nat, p: nat)
    requires e <= aEnd <= |a| && e <= bEnd <= |b| && p < e
  {
    a[aEnd - e + p] == b[bEnd - e + p]
  }

  /**
   * The value of end_delta after the forward scan has looked at window
   * positions [0, scanned): e when they all matched, else the number of
   * positions after the last difference.
   */
  ghost predicate ScannedTo<T>(a: seq<T>, b: seq<T>, e: nat, aEnd: nat, bEnd: nat, scanned: nat, result: nat)
    requires e <= aEnd <= |a| && e <= bEnd <= |b| && scanned <= e
  {
    || (result == e && forall p :: 0 <= p < scanned ==> SameAt(a, b, e, aEnd, bEnd, p))
    || (&& result < e && e - 1 - result < scanned
        && !SameAt(a, b, e, aEnd, bEnd, e - 1 - result)
        && forall p :: e - 1 - result < p < scanned ==> SameAt(a, b, e, aEnd, bEnd, p))
  }

  /** A full scan finds the common suffix. */
  lemma ScannedAll<T>(a: seq<T>, b: seq<T>, e: nat, aEnd: nat, bEnd: nat, result: nat)
    requires e <= aEnd <= |a| && e <= bEnd <= |b|
    requires ScannedTo(a, b, e, aEnd, bEnd, e, result)
    ensures result == CommonSuffix(a, b, aEnd, bEnd, e)
  {
    forall t | aEnd - result <= t < aEnd
      ensures a[t] == b[t - aEnd + bEnd]
    {
      assert SameAt(a, b, e, aEnd, bEnd, t - aEnd + e);
    }
    if result < e {
      assert !SameAt(a, b, e, aEnd, bEnd, e - 1 - result);
    }
    CommonSuffixUnique(a, b, aEnd, bEnd, e, result);
  }

  /** One more window position scanned. */
  lemma ScanOne<T>(a: seq<T>, b: seq<T>, e: nat, aEnd: nat, bEnd: nat, p: nat, result: nat)
    requires e <= aEnd <= |a| && e <= bEnd <= |b| && p < e
    requires ScannedTo(a, b, e, aEnd, bEnd, p, result)
    ensures SameAt(a, b, e, aEnd, bEnd, p) ==> ScannedTo(a, b, e, aEnd, bEnd, p + 1, result)
    ensures !SameAt(a, b, e, aEnd, bEnd, p) ==> ScannedTo(a, b, e, aEnd, bEnd, p + 1, e - p - 1)
  {
  }

  /**
   * The inner loop of find_end_delta over one batch of `n` samples read at
   * window position e - lsd: every difference sets end_delta to the count
   * of positions after it.
   */
  method ScanBatch<T(==)>(a: seq<T>, b: seq<T>, e: nat, aEnd: nat, bEnd: nat, lsd: nat,
                          bufA: seq<T>, bufB: seq<T>, result0: nat)
    returns (result: nat)
    requires e <= aEnd <= |a| && e <= bEnd <= |b| && 0 < lsd <= e
    requires |bufA| == |bufB| <= lsd
    requires forall t :: 0 <= t < |bufA| ==> bufA[t] == a[aEnd - lsd + t] && bufB[t] == b[bEnd - lsd + t]
    requires ScannedTo(a, b, e, aEnd, bEnd, e - lsd, result0)
    ensures ScannedTo(a, b, e, aEnd, bEnd, e - lsd + |bufA|, result)
  {
    result := result0;
    var idx: nat := 0;
    while idx < |bufA|
      invariant idx <= |bufA|
      invariant ScannedTo(a, b, e, aEnd, bEnd, e - lsd + idx, result)
      decreases |bufA| - idx
    {
      ScanOne(a, b, e, aEnd, bEnd, e - lsd + idx, result);
      if bufA[idx] != bufB[idx] {
        result := lsd - idx - 1;
      }
      idx := idx + 1;
    }
  }

  /**
   * find_end_delta as written: scan the windows forward in batches; the
   * last difference seen decides the answer. A read of `a` that returns
   * nothing, or a read of `b` shorter than the read of `a`, is a failed
   * assertion.
   */
  method FindEndDelta<T(==)>(a: seq<T>, b: seq<T>, endDelta: nat, aEnd: nat, bEnd: nat, batch: nat)
    returns (r: Result<nat, NarrowError>)
    requires batch > 0 && endDelta <= aEnd && endDelta <= bEnd
    ensures r == EndDelta(a, b, endDelta, aEnd, bEnd)
  {
    var result: nat := endDelta;
    var lsd: nat := endDelta;
    while lsd > 0
      invariant lsd <= endDelta
      invariant lsd == endDelta ==> result == endDelta
      invariant lsd < endDelta ==> aEnd - lsd <= |a| && bEnd - lsd <= |b|
      invariant aEnd <= |a| && bEnd <= |b| ==> ScannedTo(a, b, endDelta, aEnd, bEnd, endDelta - lsd, result)
      decreases lsd
    {
      var bufA := ReadAt(a, aEnd - lsd, Min(batch, lsd));
      if |bufA| == 0 {
        return Failure(ShortRead);
      }
      var bufB := ReadAt(b, bEnd - lsd, |bufA|);
      if |bufB| != |bufA| {
        return Failure(ShortRead);
      }
      if aEnd <= |a| && bEnd <= |b| {
        result := ScanBatch(a, b, endDelta, aEnd, bEnd, lsd, bufA, bufB, result);
      }
      lsd := lsd - |bufA|;
    }
    if endDelta > 0 {
      ScannedAll(a, b, endDelta, aEnd, bEnd, result);
    }
    r := Success(result);
  }

  // ---------------------------------------------------------------------
  // slidey_aligner
  // ---------------------------------------------------------------------

  /**
   * The test slidey_aligner applies for a slide of d: the sample at
   * fixedStart equals the one d before slidingEnd, and the d samples after
   * each of them agree.
   */
  predicate Aligned<T(==)>(fixed: seq<T>, sliding: seq<T>, fixedStart: nat, slidingEnd: nat, d: nat)
    requires d <= slidingEnd
  {
    && fixedStart < |fixed| && slidingEnd - d < |sliding|
    && fixed[fixedStart] == sliding[slidingEnd - d]
    && CommonPrefix(fixed, sliding, fixedStart + 1, slidingEnd - d + 1, d) == d
  }

  /**
   * slidey_aligner: try slides from `d` down to 1 and return the first that
   * aligns, or 0. Each try reads one sample from each side; a read that
   * returns nothing is a failed assertion.
   */
  function Slidey<T(==)>(fixed: seq<T>, sliding: seq<T>, fixedStart: nat, slidingEnd: nat, d: nat): (r: Result<nat, NarrowError>)
    requires d <= slidingEnd
    ensures r.Success? ==> r.value <= d
    decreases d
  {
    if d == 0 then Success(0)
    else if fixedStart >= |fixed| || slidingEnd - d >= |sliding| then Failure(ShortRead)
    else if Aligned(fixed, sliding, fixedStart, slidingEnd, d) then Success(d)
    else Slidey(fixed, sliding, fixedStart, slidingEnd, d - 1)
  }

  /**
   * slidey_aligner returns at most its slide distance: the largest slide
   * that aligns, or 0 when none does.
   */
  lemma {:induction false} SlideyLargest<T>(fixed: seq<T>, sliding: seq<T>, fixedStart: nat, slidingEnd: nat, d: nat)
    requires d <= slidingEnd
    ensures var r := Slidey(fixed, sliding, fixedStart, slidingEnd, d);
      r.Success? ==>
        && r.value <= d
        && (r.value > 0 ==> Aligned(fixed, sliding, fixedStart, slidingEnd, r.value))
        && (forall e :: r.value < e <= d ==> !Aligned(fixed, sliding, fixedStart, slidingEnd, e))
    decreases d
  {
    if d > 0 && fixedStart < |fixed| && slidingEnd - d < |sliding| && !Aligned(fixed, sliding, fixedStart, slidingEnd, d) {
      SlideyLargest(fixed, sliding, fixedStart, slidingEnd, d - 1);
    }
  }

  /** An aligned slide of d means d + 1 samples agree, starting at fixedStart and at slidingEnd - d. */
  lemma AlignedMeans<T>(fixed: seq<T>, sliding: seq<T>, fixedStart: nat, slidingEnd: nat, d: nat)
    requires d <= slidingEnd
    ensures Aligned(fixed, sliding, fixedStart, slidingEnd, d) <==>
      (&& fixedStart + d < |fixed| && slidingEnd < |sliding|
       && fixed[fixedStart..fixedStart + d + 1] == sliding[slidingEnd - d..slidingEnd + 1])
  {
    var i, j := fixedStart + 1, slidingEnd - d + 1;
    if Aligned(fixed, sliding, fixedStart, slidingEnd, d) {
      var n := CommonPrefix(fixed, sliding, i, j, d);
      CommonPrefixAgrees(fixed, sliding, i, j, d);
      assert fixedStart + d < |fixed| && slidingEnd < |sliding| by {
        if d > 0 {
          assert i + n <= |fixed| && j + n <= |sliding|;
        }
      }
      var fs, ss := fixed[fixedStart..fixedStart + d + 1], sliding[slidingEnd - d..slidingEnd + 1];
      forall t | 0 <= t < d + 1
        ensures fs[t] == ss[t]
      {
        if t > 0 {
          assert fixed[fixedStart + t] == sliding[fixedStart + t - i + j];
        }
      }
    }
    if && fixedStart + d < |fixed| && slidingEnd < |sliding|
       && fixed[fixedStart..fixedStart + d + 1] == sliding[slidingEnd - d..slidingEnd + 1]
    {
      assert fixed[fixedStart..fixedStart + d + 1][0] == sliding[slidingEnd - d..slidingEnd + 1][0];
      forall t | i <= t < i + d
        ensures fixed[t] == sliding[t - i + j]
      {
        assert fixed[fixedStart..fixedStart + d + 1][t - fixedStart] == sliding[slidingEnd - d..slidingEnd + 1][t - fixedStart];
      }
      PrefixAll(fixed, sliding, i, j, d);
    }
  }

  /** When the next `cap` samples all agree and exist, the common prefix is `cap`. */
  lemma {:induction false} PrefixAll<T>(a: seq<T>, b: seq<T>, i: nat, j: nat, cap: nat)
    requires i + cap <= |a| && j + cap <= |b|
    requires forall t :: i <= t < i + cap ==> a[t] == b[t - i + j]
    ensures CommonPrefix(a, b, i, j, cap) == cap
    decreases cap
  {
    if cap > 0 {
      assert a[i] == b[i - i + j];
      PrefixAll(a, b, i + 1, j + 1, cap - 1);
    }
  }

  // ---------------------------------------------------------------------
  // bdiff_narrow
  // ---------------------------------------------------------------------

  /** The precise hunks so far and the start shoves carried to the next rough hunk. */
  datatype NarrowState = NarrowState(hunks: seq<Hunk>, shoveA: nat, shoveB: nat)

  predicate WellFormedHunk(h: Hunk) {
    h.a.WellFormed() && h.b.WellFormed()
  }

  /** Between rough hunks: precise hunks are well-formed, and a shove needs a hunk to act on. */
  ghost predicate StateOk(st: NarrowState) {
    && (forall m :: 0 <= m < |st.hunks| ==> WellFormedHunk(st.hunks[m]))
    && (st.shoveA > 0 || st.shoveB > 0 ==> |st.hunks| > 0)
  }

  /**
   * The slide at the top of the loop: a start shove carried on side a
   * slides the previous hunk's b end back to realign, and likewise for b.
   */
  function Realign<T(==)>(a: seq<T>, b: seq<T>, maxChunk: nat, st: NarrowState, rough: Hunk): (r: Result<NarrowState, NarrowError>)
    requires StateOk(st) && WellFormedHunk(rough)
    ensures r.Success? ==> StateOk(r.value) && |r.value.hunks| == |st.hunks|
    ensures r.Success? ==> (r.value.shoveA > 0 ==> st.shoveA > 0) && (r.value.shoveB > 0 ==> st.shoveB > 0)
    ensures r.Success? && st.shoveA == 0 && st.shoveB == 0 ==> r.value == st
  {
    if st.shoveA > 0 then
      var t := st.hunks[|st.hunks| - 1];
      var s :- Slidey(a, b, rough.a.start, t.b.end, Min3(t.b.Length(), rough.a.Length(), maxChunk));
      Success(NarrowState(st.hunks[..|st.hunks| - 1] + [Hunk(t.a, View(t.b.start, t.b.end - s))], s, st.shoveB))
    else if st.shoveB > 0 then
      var t := st.hunks[|st.hunks| - 1];
      var s :- Slidey(b, a, rough.b.start, t.a.end, Min3(t.a.Length(), rough.b.Length(), maxChunk));
      Success(NarrowState(st.hunks[..|st.hunks| - 1] + [Hunk(View(t.a.start, t.a.end - s), t.b)], st.shoveA, s))
    else
      Success(st)
  }

  /**
   * The end trim of a placed hunk: find_end_delta over the last
   * min(both lengths, max_chunk_size) samples, at most that many.
   */
  function TrimEnd<T(==)>(a: seq<T>, b: seq<T>, maxChunk: nat, aStart: nat, aEnd: nat, bStart: nat, bEnd: nat): (r: Result<nat, NarrowError>)
    requires aStart <= aEnd && bStart <= bEnd
    ensures r.Success? ==> r.value <= aEnd - aStart && r.value <= bEnd - bStart && r.value <= maxChunk
  {
    var endDelta := Min3(aEnd - aStart, bEnd - bStart, maxChunk);
    if endDelta > 0 then EndDelta(a, b, endDelta, aEnd, bEnd) else Success(0)
  }

  /** What the end trim removes is read from the data, and agrees on both sides. */
  lemma TrimEndCommon<T>(a: seq<T>, b: seq<T>, maxChunk: nat, aStart: nat, aEnd: nat, bStart: nat, bEnd: nat)
    requires aStart <= aEnd && bStart <= bEnd
    ensures var r := TrimEnd(a, b, maxChunk, aStart, aEnd, bStart, bEnd);
      r.Success? && r.value > 0 ==> aEnd <= |a| && bEnd <= |b| && a[aEnd - r.value..aEnd] == b[bEnd - r.value..bEnd]
  {
    var r := TrimEnd(a, b, maxChunk, aStart, aEnd, bStart, bEnd);
    if r.Success? && r.value > 0 {
      CommonSuffixAgrees(a, b, aEnd, bEnd, Min3(aEnd - aStart, bEnd - bStart, maxChunk));
      SlicesAgree(a, b, aEnd - r.value, bEnd - r.value, r.value);
    }
  }

  /**
   * The rest of bdiff_narrow's loop for one rough hunk, after the realign:
   * skip the common prefix (the same count on both sides, starting from the
   * carried shoves), drop the hunk if nothing is left, otherwise append it,
   * extend both ends by any start that overtook its end, and trim the
   * common suffix from both ends.
   */
  function Place<T(==)>(a: seq<T>, b: seq<T>, maxChunk: nat, hunks: seq<Hunk>, carriedA: nat, carriedB: nat, rough: Hunk)
    : (r: Result<NarrowState, NarrowError>)
    requires WellFormedHunk(rough)
    ensures r.Success? ==> r.value.shoveA == 0 || r.value.shoveB == 0
    ensures r.Success? && |r.value.hunks| == |hunks| ==> r.value == NarrowState(hunks, 0, 0)
    ensures r.Success? && |r.value.hunks| != |hunks| ==>
      && |r.value.hunks| == |hunks| + 1 && r.value.hunks[..|hunks|] == hunks
      && WellFormedHunk(r.value.hunks[|hunks|])
    ensures CommonPrefix(a, b, rough.a.start + carriedA, rough.b.start + carriedB, maxChunk + 1) == maxChunk + 1 ==>
      r == Failure(StartDeltaOverflow)
    ensures r.Success? && |r.value.hunks| == |hunks| + 1 ==>
      var sd := CommonPrefix(a, b, rough.a.start + carriedA, rough.b.start + carriedB, maxChunk + 1);
      && r.value.hunks[|hunks|].a.start == rough.a.start + carriedA + sd
      && r.value.hunks[|hunks|].b.start == rough.b.start + carriedB + sd
  {
    var startDelta := CommonPrefix(a, b, rough.a.start + carriedA, rough.b.start + carriedB, maxChunk + 1);
    if startDelta == maxChunk + 1 then Failure(StartDeltaOverflow)
    else PlaceAt(a, b, maxChunk, hunks, rough, rough.a.start + carriedA + startDelta, rough.b.start + carriedB + startDelta)
  }

  /**
   * Placing from the starts past the common prefix: a hunk with both starts
   * at its ends is dropped; a start past its end shoves both ends, which
   * may happen on one side only.
   */
  function PlaceAt<T(==)>(a: seq<T>, b: seq<T>, maxChunk: nat, hunks: seq<Hunk>, rough: Hunk, aStart: nat, bStart: nat)
    : (r: Result<NarrowState, NarrowError>)
    requires WellFormedHunk(rough)
    ensures r.Success? ==> r.value.shoveA == 0 || r.value.shoveB == 0
    ensures r.Success? && |r.value.hunks| == |hunks| ==> r.value == NarrowState(hunks, 0, 0)
    ensures r.Success? && |r.value.hunks| != |hunks| ==>
      && |r.value.hunks| == |hunks| + 1 && r.value.hunks[..|hunks|] == hunks
      && WellFormedHunk(r.value.hunks[|hunks|])
    ensures aStart == rough.a.end && bStart == rough.b.end ==> r == Success(NarrowState(hunks, 0, 0))
    ensures aStart > rough.a.end && bStart > rough.b.end ==> r == Failure(BothShoved)
    ensures r.Success? && |r.value.hunks| == |hunks| ==> aStart == rough.a.end && bStart == rough.b.end
    ensures r.Success? && |r.value.hunks| != |hunks| ==>
      && r.value.hunks[|hunks|].a.start == aStart && r.value.hunks[|hunks|].b.start == bStart
      && r.value.shoveA == (if aStart > rough.a.end then aStart - rough.a.end else 0)
      && r.value.shoveB == (if bStart > rough.b.end then bStart - rough.b.end else 0)
      && r.value.hunks[|hunks|].a.end <= rough.a.end + r.value.shoveA + r.value.shoveB
      && rough.a.end + r.value.shoveA + r.value.shoveB - r.value.hunks[|hunks|].a.end
         == rough.b.end + r.value.shoveA + r.value.shoveB - r.value.hunks[|hunks|].b.end
  {
    if bStart == rough.b.end && aStart == rough.a.end then
      Success(NarrowState(hunks, 0, 0))
    else
      var shoveA := ClampedSubtract(aStart, rough.a.end);
      var shoveB := ClampedSubtract(bStart, rough.b.end);
      if shoveA > 0 && shoveB > 0 then Failure(BothShoved)
      else
        var aEnd := rough.a.end + Max(shoveA, shoveB);
        var bEnd := rough.b.end + Max(shoveA, shoveB);
        AppendPlaced(a, b, maxChunk, hunks, aStart, aEnd, bStart, bEnd, shoveA, shoveB)
  }

  /** The hunk from the starts to the ends, less the common suffix, appended with the shoves to carry. */
  function AppendPlaced<T(==)>(a: seq<T>, b: seq<T>, maxChunk: nat, hunks: seq<Hunk>,
                               aStart: nat, aEnd: nat, bStart: nat, bEnd: nat, shoveA: nat, shoveB: nat)
    : (r: Result<NarrowState, NarrowError>)
    requires aStart <= aEnd && bStart <= bEnd
    ensures r.Success? ==> r.value.shoveA == shoveA && r.value.shoveB == shoveB
    ensures r.Success? ==> |r.value.hunks| == |hunks| + 1 && r.value.hunks[..|hunks|] == hunks
    ensures r.Success? ==> WellFormedHunk(r.value.hunks[|hunks|])
    ensures r.Success? ==> r.value.hunks[|hunks|].a.start == aStart && r.value.hunks[|hunks|].b.start == bStart
    ensures r.Success? ==> aEnd - r.value.hunks[|hunks|].a.end == bEnd - r.value.hunks[|hunks|].b.end
    ensures r.Success? && Min3(aEnd - aStart, bEnd - bStart, maxChunk) == 0 ==>
      r.value.hunks[|hunks|] == Hunk(View(aStart, aEnd), View(bStart, bEnd))
    ensures r.Success? && Min3(aEnd - aStart, bEnd - bStart, maxChunk) > 0 ==>
      && aEnd <= |a| && bEnd <= |b|
      && aEnd - r.value.hunks[|hunks|].a.end == CommonSuffix(a, b, aEnd, bEnd, Min3(aEnd - aStart, bEnd - bStart, maxChunk))
    ensures r.Failure? <==> Min3(aEnd - aStart, bEnd - bStart, maxChunk) > 0 && (aEnd > |a| || bEnd > |b|)
  {
    match TrimEnd(a, b, maxChunk, aStart, aEnd, bStart, bEnd)
    case Failure(e) => Failure(e)
    case Success(trim) =>
      assert (hunks + [Hunk(View(aStart, aEnd - trim), View(bStart, bEnd - trim))])[..|hunks|] == hunks;
      Success(NarrowState(hunks + [Hunk(View(aStart, aEnd - trim), View(bStart, bEnd - trim))], shoveA, shoveB))
  }

  /** One round of bdiff_narrow's loop for one rough hunk: realign, then place it. */
  function NarrowStep<T(==)>(a: seq<T>, b: seq<T>, maxChunk: nat, st: NarrowState, rough: Hunk): (r: Result<NarrowState, NarrowError>)
    requires StateOk(st) && WellFormedHunk(rough)
    ensures r.Success? ==> StateOk(r.value)
    ensures r.Success? ==> |r.value.hunks| == |st.hunks| || |r.value.hunks| == |st.hunks| + 1
    ensures r.Success? ==> r.value.shoveA == 0 || r.value.shoveB == 0
  {
    var st1 :- Realign(a, b, maxChunk, st, rough);
    Place(a, b, maxChunk, st1.hunks, st1.shoveA, st1.shoveB, rough)
  }

  /** The loop of bdiff_narrow from rough hunk k on. */
  function NarrowFrom<T(==)>(a: seq<T>, b: seq<T>, maxChunk: nat, st: NarrowState, rough: seq<Hunk>, k: nat): (r: Result<NarrowState, NarrowError>)
    requires StateOk(st) && k <= |rough|
    requires forall m :: 0 <= m < |rough| ==> WellFormedHunk(rough[m])
    ensures r.Success? ==> StateOk(r.value) && |r.value.hunks| <= |st.hunks| + (|rough| - k)
    decreases |rough| - k
  {
    if k == |rough| then Success(st)
    else
      var st1 :- NarrowStep(a, b, maxChunk, st, rough[k]);
      NarrowFrom(a, b, maxChunk, st1, rough, k + 1)
  }

  /**
   * bdiff_narrow: at most one well-formed precise hunk per rough hunk.
   * `maxChunk` is max_chunk_size, whose value is not part of this model.
   */
  function BdiffNarrow<T(==)>(a: seq<T>, b: seq<T>, maxChunk: nat, rough: seq<Hunk>): (r: Result<seq<Hunk>, NarrowError>)
    requires forall m :: 0 <= m < |rough| ==> WellFormedHunk(rough[m])
    ensures r.Success? ==> |r.value| <= |rough|
    ensures r.Success? ==> forall m :: 0 <= m < |r.value| ==> WellFormedHunk(r.value[m])
  {
    var st :- NarrowFrom(a, b, maxChunk, NarrowState([], 0, 0), rough, 0);
    Success(st.hunks)
  }

  /**
   * With no shove carried in, a rough hunk that narrows to a hunk whose
   * starts stay within the rough ends loses only common context: the same
   * number of samples at the start of both sides, which agree, and the same
   * number at the end of both sides, which agree. The precise hunk lies
   * inside the rough one, and when both its starts lie strictly inside, the
   * samples at them differ.
   */
  lemma PlaceTrimsCommon<T>(a: seq<T>, b: seq<T>, maxChunk: nat, hunks: seq<Hunk>, rough: Hunk)
    requires WellFormedHunk(rough) && rough.a.end <= |a| && rough.b.end <= |b|
    requires Place(a, b, maxChunk, hunks, 0, 0, rough).Success?
    requires |Place(a, b, maxChunk, hunks, 0, 0, rough).value.hunks| == |hunks| + 1
    requires var r := Place(a, b, maxChunk, hunks, 0, 0, rough).value; r.shoveA == 0 && r.shoveB == 0
    ensures TrimsCommon(a, b, rough, Place(a, b, maxChunk, hunks, 0, 0, rough).value.hunks[|hunks|])
  {
    var sd := CommonPrefix(a, b, rough.a.start, rough.b.start, maxChunk + 1);
    var trim := PlacedUnshoved(a, b, maxChunk, hunks, rough, sd);
    UnshovedTrimsCommon(a, b, maxChunk, rough, sd, trim);
  }

  /** The unshoved hunk past the common prefix and before the end trim loses only common context. */
  lemma UnshovedTrimsCommon<T>(a: seq<T>, b: seq<T>, maxChunk: nat, rough: Hunk, sd: nat, trim: nat)
    requires WellFormedHunk(rough) && rough.a.end <= |a| && rough.b.end <= |b|
    requires sd == CommonPrefix(a, b, rough.a.start, rough.b.start, maxChunk + 1) && sd < maxChunk + 1
    requires rough.a.start + sd <= rough.a.end && rough.b.start + sd <= rough.b.end
    requires TrimEnd(a, b, maxChunk, rough.a.start + sd, rough.a.end, rough.b.start + sd, rough.b.end) == Success(trim)
    ensures TrimsCommon(a, b, rough, Hunk(View(rough.a.start + sd, rough.a.end - trim), View(rough.b.start + sd, rough.b.end - trim)))
  {
    UnshovedPrefix(a, b, maxChunk, rough, sd);
    UnshovedSuffix(a, b, maxChunk, rough.a.start + sd, rough.a.end, rough.b.start + sd, rough.b.end, trim);
    TrimsCommonOf(a, b, rough, sd, trim);
  }

  /**
   * `h` lies inside `rough` and loses only common context: the same number
   * of samples at the start of both sides, which agree, and the same number
   * at the end of both sides, which agree; when both its starts lie strictly
   * inside, the samples at them differ.
   */
  ghost predicate TrimsCommon<T>(a: seq<T>, b: seq<T>, rough: Hunk, h: Hunk)
    requires rough.a.end <= |a| && rough.b.end <= |b|
  {
    && rough.a.start <= h.a.start <= h.a.end <= rough.a.end
    && rough.b.start <= h.b.start <= h.b.end <= rough.b.end
    && h.a.start - rough.a.start == h.b.start - rough.b.start
    && a[rough.a.start..h.a.start] == b[rough.b.start..h.b.start]
    && rough.a.end - h.a.end == rough.b.end - h.b.end
    && a[h.a.end..rough.a.end] == b[h.b.end..rough.b.end]
    && (h.a.start < rough.a.end && h.b.start < rough.b.end ==> a[h.a.start] != b[h.b.start])
  }

  /** The hunk past an agreeing prefix of `sd` samples and before an agreeing suffix of `trim` samples. */
  lemma TrimsCommonOf<T>(a: seq<T>, b: seq<T>, rough: Hunk, sd: nat, trim: nat)
    requires rough.a.end <= |a| && rough.b.end <= |b|
    requires rough.a.start + sd + trim <= rough.a.end && rough.b.start + sd + trim <= rough.b.end
    requires a[rough.a.start..rough.a.start + sd] == b[rough.b.start..rough.b.start + sd]
    requires rough.a.start + sd < rough.a.end && rough.b.start + sd < rough.b.end ==>
      a[rough.a.start + sd] != b[rough.b.start + sd]
    requires a[rough.a.end - trim..rough.a.end] == b[rough.b.end - trim..rough.b.end]
    ensures TrimsCommon(a, b, rough, Hunk(View(rough.a.start + sd, rough.a.end - trim), View(rough.b.start + sd, rough.b.end - trim)))
  {
  }

  /** The skipped common prefix agrees on both sides, and the samples after it differ. */
  lemma UnshovedPrefix<T>(a: seq<T>, b: seq<T>, maxChunk: nat, rough: Hunk, sd: nat)
    requires rough.a.end <= |a| && rough.b.end <= |b|
    requires sd == CommonPrefix(a, b, rough.a.start, rough.b.start, maxChunk + 1) && sd < maxChunk + 1
    requires rough.a.start + sd <= rough.a.end && rough.b.start + sd <= rough.b.end
    ensures a[rough.a.start..rough.a.start + sd] == b[rough.b.start..rough.b.start + sd]
    ensures rough.a.start + sd < rough.a.end && rough.b.start + sd < rough.b.end ==>
      a[rough.a.start + sd] != b[rough.b.start + sd]
  {
    CommonPrefixAgrees(a, b, rough.a.start, rough.b.start, maxChunk + 1);
    SlicesAgree(a, b, rough.a.start, rough.b.start, sd);
  }

  /** The trimmed common suffix agrees on both sides. */
  lemma UnshovedSuffix<T>(a: seq<T>, b: seq<T>, maxChunk: nat, aStart: nat, aEnd: nat, bStart: nat, bEnd: nat, trim: nat)
    requires aStart <= aEnd <= |a| && bStart <= bEnd <= |b|
    requires TrimEnd(a, b, maxChunk, aStart, aEnd, bStart, bEnd) == Success(trim)
    ensures trim <= aEnd - aStart && trim <= bEnd - bStart
    ensures a[aEnd - trim..aEnd] == b[bEnd - trim..bEnd]
  {
    TrimEndCommon(a, b, maxChunk, aStart, aEnd, bStart, bEnd);
    if trim == 0 {
      assert a[aEnd..aEnd] == [] == b[bEnd..bEnd];
    }
  }

  /** The hunk an unshoved placement appends, spelled out, for the common prefix `sd`. */
  lemma PlacedUnshoved<T>(a: seq<T>, b: seq<T>, maxChunk: nat, hunks: seq<Hunk>, rough: Hunk, sd: nat) returns (trim: nat)
    requires WellFormedHunk(rough) && sd == CommonPrefix(a, b, rough.a.start, rough.b.start, maxChunk + 1)
    requires Place(a, b, maxChunk, hunks, 0, 0, rough).Success?
    requires |Place(a, b, maxChunk, hunks, 0, 0, rough).value.hunks| == |hunks| + 1
    requires var r := Place(a, b, maxChunk, hunks, 0, 0, rough).value; r.shoveA == 0 && r.shoveB == 0
    ensures sd < maxChunk + 1 && rough.a.start + sd <= rough.a.end && rough.b.start + sd <= rough.b.end
    ensures TrimEnd(a, b, maxChunk, rough.a.start + sd, rough.a.end, rough.b.start + sd, rough.b.end) == Success(trim)
    ensures Place(a, b, maxChunk, hunks, 0, 0, rough).value.hunks[|hunks|]
         == Hunk(View(rough.a.start + sd, rough.a.end - trim), View(rough.b.start + sd, rough.b.end - trim))
  {
    PlaceUnfolds(a, b, maxChunk, hunks, rough, sd);
    PlaceInside(a, b, maxChunk, hunks, rough, sd);
    var aStart, bStart := rough.a.start + sd, rough.b.start + sd;
    assert Place(a, b, maxChunk, hunks, 0, 0, rough) == PlaceAt(a, b, maxChunk, hunks, rough, aStart, bStart);
    trim := PlaceAtUnshoved(a, b, maxChunk, hunks, rough, aStart, bStart);
  }

  /** An appended hunk without shoves runs from the starts to the rough ends, less the trim. */
  lemma PlaceAtUnshoved<T>(a: seq<T>, b: seq<T>, maxChunk: nat, hunks: seq<Hunk>, rough: Hunk, aStart: nat, bStart: nat)
    returns (trim: nat)
    requires WellFormedHunk(rough)
    requires PlaceAt(a, b, maxChunk, hunks, rough, aStart, bStart).Success?
    requires |PlaceAt(a, b, maxChunk, hunks, rough, aStart, bStart).value.hunks| == |hunks| + 1
    requires PlaceAt(a, b, maxChunk, hunks, rough, aStart, bStart).value.shoveA == 0
    requires PlaceAt(a, b, maxChunk, hunks, rough, aStart, bStart).value.shoveB == 0
    ensures aStart <= rough.a.end && bStart <= rough.b.end
    ensures TrimEnd(a, b, maxChunk, aStart, rough.a.end, bStart, rough.b.end) == Success(trim)
    ensures PlaceAt(a, b, maxChunk, hunks, rough, aStart, bStart).value.hunks[|hunks|]
         == Hunk(View(aStart, rough.a.end - trim), View(bStart, rough.b.end - trim))
  {
    assert ClampedSubtract(aStart, rough.a.end) == 0 && ClampedSubtract(bStart, rough.b.end) == 0;
    trim := TrimEnd(a, b, maxChunk, aStart, rough.a.end, bStart, rough.b.end).value;
  }

  /** Samples that agree pairwise over a stretch make equal slices. */
  lemma SlicesAgree<T>(a: seq<T>, b: seq<T>, i: nat, j: nat, n: nat)
    requires i + n <= |a| && j + n <= |b|
    requires forall t :: i <= t < i + n ==> a[t] == b[t - i + j]
    ensures a[i..i + n] == b[j..j + n]
  {
    var sa, sb := a[i..i + n], b[j..j + n];
    forall t | 0 <= t < n
      ensures sa[t] == sb[t]
    {
      assert a[i + t] == b[i + t - i + j];
    }
  }

  /** A single rough hunk with nothing carried in narrows to its placement. */
  lemma NarrowSingle<T>(a: seq<T>, b: seq<T>, maxChunk: nat, rough: Hunk)
    requires WellFormedHunk(rough)
    ensures var p := Place(a, b, maxChunk, [], 0, 0, rough);
      BdiffNarrow(a, b, maxChunk, [rough]) == if p.Success? then Success(p.value.hunks) else Failure(p.error)
  {
    var st := NarrowState([], 0, 0);
    var p := Place(a, b, maxChunk, [], 0, 0, rough);
    assert Realign(a, b, maxChunk, st, rough) == Success(st);
    assert NarrowStep(a, b, maxChunk, st, rough) == p;
    if p.Success? {
      assert NarrowFrom(a, b, maxChunk, p.value, [rough], 1) == Success(p.value);
    }
  }

  /**
   * Placing a rough hunk whose sides share `sd` samples at the start and
   * `trim` at the end, with the starts staying inside the rough ends.
   */
  lemma PlaceKnown<T>(a: seq<T>, b: seq<T>, maxChunk: nat, hunks: seq<Hunk>, rough: Hunk, sd: nat, trim: nat)
    requires WellFormedHunk(rough)
    requires sd == CommonPrefix(a, b, rough.a.start, rough.b.start, maxChunk + 1) && sd <= maxChunk
    requires rough.a.start + sd <= rough.a.end && rough.b.start + sd <= rough.b.end
    requires rough.a.start + sd < rough.a.end || rough.b.start + sd < rough.b.end
    requires TrimEnd(a, b, maxChunk, rough.a.start + sd, rough.a.end, rough.b.start + sd, rough.b.end) == Success(trim)
    ensures Place(a, b, maxChunk, hunks, 0, 0, rough)
         == Success(NarrowState(hunks + [Hunk(View(rough.a.start + sd, rough.a.end - trim),
                                              View(rough.b.start + sd, rough.b.end - trim))], 0, 0))
  {
    var p := Place(a, b, maxChunk, hunks, 0, 0, rough);
    PlaceInside(a, b, maxChunk, hunks, rough, sd);
    PlaceAtKnown(a, b, maxChunk, hunks, rough, rough.a.start + sd, rough.b.start + sd, trim);
  }

  /** Starts inside the rough ends, not both at them, place the hunk up to the ends less the trim. */
  lemma PlaceAtKnown<T>(a: seq<T>, b: seq<T>, maxChunk: nat, hunks: seq<Hunk>, rough: Hunk, aStart: nat, bStart: nat, trim: nat)
    requires WellFormedHunk(rough) && aStart <= rough.a.end && bStart <= rough.b.end
    requires aStart < rough.a.end || bStart < rough.b.end
    requires TrimEnd(a, b, maxChunk, aStart, rough.a.end, bStart, rough.b.end) == Success(trim)
    ensures PlaceAt(a, b, maxChunk, hunks, rough, aStart, bStart)
         == Success(NarrowState(hunks + [Hunk(View(aStart, rough.a.end - trim), View(bStart, rough.b.end - trim))], 0, 0))
  {
    PlaceAtInside(a, b, maxChunk, hunks, rough, aStart, bStart);
    AppendPlacedTrim(a, b, maxChunk, hunks, aStart, rough.a.end, bStart, rough.b.end, trim);
  }

  /** With nothing carried in and a common prefix shorter than the cap, the placement starts past it. */
  lemma PlaceInside<T>(a: seq<T>, b: seq<T>, maxChunk: nat, hunks: seq<Hunk>, rough: Hunk, sd: nat)
    requires WellFormedHunk(rough) && sd == CommonPrefix(a, b, rough.a.start, rough.b.start, maxChunk + 1) && sd <= maxChunk
    ensures Place(a, b, maxChunk, hunks, 0, 0, rough) == PlaceAt(a, b, maxChunk, hunks, rough, rough.a.start + sd, rough.b.start + sd)
  {
    var aStart, bStart := rough.a.start + 0, rough.b.start + 0;
    assert aStart == rough.a.start && bStart == rough.b.start;
    assert CommonPrefix(a, b, aStart, bStart, maxChunk + 1) == sd;
  }

  /** With nothing carried in, place_hunk fails when the common prefix reaches its cap. */
  lemma PlaceUnfolds<T>(a: seq<T>, b: seq<T>, maxChunk: nat, hunks: seq<Hunk>, rough: Hunk, sd: nat)
    requires WellFormedHunk(rough) && sd == CommonPrefix(a, b, rough.a.start, rough.b.start, maxChunk + 1)
    ensures Place(a, b, maxChunk, hunks, 0, 0, rough).Success? ==> sd < maxChunk + 1
  {
  }

  /** Starts inside the rough ends, not both at them, shove nothing. */
  lemma PlaceAtInside<T>(a: seq<T>, b: seq<T>, maxChunk: nat, hunks: seq<Hunk>, rough: Hunk, aStart: nat, bStart: nat)
    requires WellFormedHunk(rough) && aStart <= rough.a.end && bStart <= rough.b.end
    requires aStart < rough.a.end || bStart < rough.b.end
    ensures PlaceAt(a, b, maxChunk, hunks, rough, aStart, bStart)
         == AppendPlaced(a, b, maxChunk, hunks, aStart, rough.a.end, bStart, rough.b.end, 0, 0)
  {
    assert ClampedSubtract(aStart, rough.a.end) == 0 && ClampedSubtract(bStart, rough.b.end) == 0;
  }

  /** A successful trim of `trim` common samples appends the hunk from the starts to the ends less the trim. */
  lemma AppendPlacedTrim<T>(a: seq<T>, b: seq<T>, maxChunk: nat, hunks: seq<Hunk>,
                            aStart: nat, aEnd: nat, bStart: nat, bEnd: nat, trim: nat)
    requires aStart <= aEnd && bStart <= bEnd
    requires TrimEnd(a, b, maxChunk, aStart, aEnd, bStart, bEnd) == Success(trim)
    ensures AppendPlaced(a, b, maxChunk, hunks, aStart, aEnd, bStart, bEnd, 0, 0)
         == Success(NarrowState(hunks + [Hunk(View(aStart, aEnd - trim), View(bStart, bEnd - trim))], 0, 0))
  {
  }

  /** Build_narrowable_data(3, {9, 19, 24}, {0, x, 2}): 0 up to 9, x up to 19, 2 up to 24. */
  function ThreeSteps(x: nat): (s: seq<nat>)
    ensures |s| == 25
  {
    seq(25, p => if p <= 9 then 0 else if p <= 19 then x else 2)
  }

  /** tests/unittest_narrowing.c, narrowing: (7, 23, 7, 23) narrows to (10, 20, 10, 20). */
  lemma NarrowVector(maxChunk: nat)
    requires maxChunk >= 13
    ensures BdiffNarrow(ThreeSteps(1), ThreeSteps(3), maxChunk, [Hunk(View(7, 23), View(7, 23))]).Success?
    ensures BdiffNarrow(ThreeSteps(1), ThreeSteps(3), maxChunk, [Hunk(View(7, 23), View(7, 23))]).value
         == [Hunk(View(10, 20), View(10, 20))]
  {
    var a, b := ThreeSteps(1), ThreeSteps(3);
    var rough := Hunk(View(7, 23), View(7, 23));
    CommonPrefixUnique(a, b, 7, 7, maxChunk + 1, 3);
    CommonSuffixUnique(a, b, 23, 23, 13, 3);
    assert TrimEnd(a, b, maxChunk, 10, 23, 10, 23) == Success(3);
    PlaceKnown(a, b, maxChunk, [], rough, 3, 3);
    NarrowSingle(a, b, maxChunk, rough);
  }

  /** Two rough hunks, the first placed without leaving a shove. */
  lemma NarrowPair<T>(a: seq<T>, b: seq<T>, maxChunk: nat, first: Hunk, second: Hunk, placed: seq<Hunk>)
    requires WellFormedHunk(first) && WellFormedHunk(second)
    requires forall m :: 0 <= m < |placed| ==> WellFormedHunk(placed[m])
    requires Place(a, b, maxChunk, [], 0, 0, first) == Success(NarrowState(placed, 0, 0))
    ensures var p := Place(a, b, maxChunk, placed, 0, 0, second);
      BdiffNarrow(a, b, maxChunk, [first, second]) == if p.Success? then Success(p.value.hunks) else Failure(p.error)
  {
    var st0, st1 := NarrowState([], 0, 0), NarrowState(placed, 0, 0);
    var p := Place(a, b, maxChunk, placed, 0, 0, second);
    assert Realign(a, b, maxChunk, st0, first) == Success(st0);
    assert NarrowStep(a, b, maxChunk, st0, first) == Success(st1);
    assert Realign(a, b, maxChunk, st1, second) == Success(st1);
    assert NarrowStep(a, b, maxChunk, st1, second) == p;
    var rough := [first, second];
    assert NarrowFrom(a, b, maxChunk, st0, rough, 0) == NarrowFrom(a, b, maxChunk, st1, rough, 1);
    if p.Success? {
      assert NarrowFrom(a, b, maxChunk, p.value, rough, 2) == Success(p.value);
    } else {
      assert NarrowFrom(a, b, maxChunk, st1, rough, 1) == Failure(p.error);
    }
  }

  /** tests/unittest_narrowing.c, narrowing_differing_sizes: (6, 22, 6, 32) narrows to (10, 20, 10, 30). */
  lemma NarrowSizesDifferVector(maxChunk: nat)
    requires maxChunk >= 12
    ensures var b := seq(35, p => if p <= 9 then 0 else if p <= 29 then 3 else 2);
      && BdiffNarrow(ThreeSteps(1), b, maxChunk, [Hunk(View(6, 22), View(6, 32))]).Success?
      && BdiffNarrow(ThreeSteps(1), b, maxChunk, [Hunk(View(6, 22), View(6, 32))]).value == [Hunk(View(10, 20), View(10, 30))]
  {
    var a, b := ThreeSteps(1), seq(35, p => if p <= 9 then 0 else if p <= 29 then 3 else 2);
    var rough := Hunk(View(6, 22), View(6, 32));
    CommonPrefixUnique(a, b, 6, 6, maxChunk + 1, 4);
    CommonSuffixUnique(a, b, 22, 32, 12, 2);
    assert TrimEnd(a, b, maxChunk, 10, 22, 10, 32) == Success(2);
    PlaceKnown(a, b, maxChunk, [], rough, 4, 2);
    NarrowSingle(a, b, maxChunk, rough);
  }

  /** tests/unittest_narrowing.c, narrowing_insertion: (10, 20, 10, 10) stays as it is. */
  lemma NarrowInsertionVector(maxChunk: nat)
    ensures var a := seq(25, p => if 10 <= p <= 19 then 1 else 0);
      var b := Zeros(15);
      && BdiffNarrow(a, b, maxChunk, [Hunk(View(10, 20), View(10, 10))]).Success?
      && BdiffNarrow(a, b, maxChunk, [Hunk(View(10, 20), View(10, 10))]).value == [Hunk(View(10, 20), View(10, 10))]
  {
    var a, b := seq(25, p => if 10 <= p <= 19 then 1 else 0), Zeros(15);
    var rough := Hunk(View(10, 20), View(10, 10));
    CommonPrefixUnique(a, b, 10, 10, maxChunk + 1, 0);
    PlaceKnown(a, b, maxChunk, [], rough, 0, 0);
    NarrowSingle(a, b, maxChunk, rough);
  }

  /** tests/unittest_narrowing.c, insertion_at_end: (15, 20, 15, 15) stays as it is. */
  lemma NarrowInsertionAtEndVector(maxChunk: nat)
    ensures var a := seq(20, p => if p <= 14 then 0 else 1);
      var b := Zeros(15);
      && BdiffNarrow(a, b, maxChunk, [Hunk(View(15, 20), View(15, 15))]).Success?
      && BdiffNarrow(a, b, maxChunk, [Hunk(View(15, 20), View(15, 15))]).value == [Hunk(View(15, 20), View(15, 15))]
  {
    var a, b := seq(20, p => if p <= 14 then 0 else 1), Zeros(15);
    var rough := Hunk(View(15, 20), View(15, 15));
    CommonPrefixUnique(a, b, 15, 15, maxChunk + 1, 0);
    PlaceKnown(a, b, maxChunk, [], rough, 0, 0);
    NarrowSingle(a, b, maxChunk, rough);
  }

  /** tests/unittest_narrowing.c, narrowing_change_over_start: (0, 20, 0, 22) narrows to (0, 16, 0, 18). */
  lemma NarrowOverStartVector(maxChunk: nat)
    requires maxChunk >= 20
    ensures var a := seq(31, p => if p <= 15 then 2 else 1);
      var b := seq(33, p => if p <= 17 then 3 else 1);
      && BdiffNarrow(a, b, maxChunk, [Hunk(View(0, 20), View(0, 22))]).Success?
      && BdiffNarrow(a, b, maxChunk, [Hunk(View(0, 20), View(0, 22))]).value == [Hunk(View(0, 16), View(0, 18))]
  {
    var a, b := seq(31, p => if p <= 15 then 2 else 1), seq(33, p => if p <= 17 then 3 else 1);
    var rough := Hunk(View(0, 20), View(0, 22));
    CommonPrefixUnique(a, b, 0, 0, maxChunk + 1, 0);
    CommonSuffixUnique(a, b, 20, 22, 20, 4);
    assert TrimEnd(a, b, maxChunk, 0, 20, 0, 22) == Success(4);
    PlaceKnown(a, b, maxChunk, [], rough, 0, 4);
    NarrowSingle(a, b, maxChunk, rough);
  }

  /** tests/unittest_narrowing.c, narrowing_change_is_start: (0, 25, 0, 35) narrows to (0, 0, 0, 10). */
  lemma NarrowIsStartVector(maxChunk: nat)
    requires maxChunk >= 25
    ensures var a := seq(30, p => 1);
      var b := seq(40, p => if p <= 9 then 0 else 1);
      && BdiffNarrow(a, b, maxChunk, [Hunk(View(0, 25), View(0, 35))]).Success?
      && BdiffNarrow(a, b, maxChunk, [Hunk(View(0, 25), View(0, 35))]).value == [Hunk(View(0, 0), View(0, 10))]
  {
    var a, b := seq(30, p => 1), seq(40, p => if p <= 9 then 0 else 1);
    var rough := Hunk(View(0, 25), View(0, 35));
    CommonPrefixUnique(a, b, 0, 0, maxChunk + 1, 0);
    CommonSuffixUnique(a, b, 25, 35, 25, 25);
    assert TrimEnd(a, b, maxChunk, 0, 25, 0, 35) == Success(25);
    PlaceKnown(a, b, maxChunk, [], rough, 0, 25);
    NarrowSingle(a, b, maxChunk, rough);
  }

  /** tests/unittest_narrowing.c, narrowing_change_over_end: (12, 31, 12, 38) narrows to (16, 31, 16, 38). */
  lemma NarrowOverEndVector(maxChunk: nat)
    requires maxChunk >= 4
    ensures var a := seq(31, p => if p <= 15 then 0 else 1);
      var b := seq(38, p => if p <= 15 then 0 else 2);
      && BdiffNarrow(a, b, maxChunk, [Hunk(View(12, 31), View(12, 38))]).Success?
      && BdiffNarrow(a, b, maxChunk, [Hunk(View(12, 31), View(12, 38))]).value == [Hunk(View(16, 31), View(16, 38))]
  {
    var a, b := seq(31, p => if p <= 15 then 0 else 1), seq(38, p => if p <= 15 then 0 else 2);
    var rough := Hunk(View(12, 31), View(12, 38));
    CommonPrefixUnique(a, b, 12, 12, maxChunk + 1, 4);
    CommonSuffixUnique(a, b, 31, 38, Min3(15, 22, maxChunk), 0);
    assert TrimEnd(a, b, maxChunk, 16, 31, 16, 38) == Success(0);
    PlaceKnown(a, b, maxChunk, [], rough, 4, 0);
    NarrowSingle(a, b, maxChunk, rough);
  }

  /**
   * tests/unittest_narrowing.c, narrowing_change_is_end: (12, 30, 12, 38)
   * narrows to (30, 30, 30, 38), and with the sides swapped (12, 38, 12, 30)
   * narrows to (30, 38, 30, 30).
   */
  lemma NarrowIsEndVector(maxChunk: nat)
    requires maxChunk >= 18
    ensures var a := Zeros(30);
      var b := Zeros(38);
      && BdiffNarrow(a, b, maxChunk, [Hunk(View(12, 30), View(12, 38))]) == Success([Hunk(View(30, 30), View(30, 38))])
      && BdiffNarrow(b, a, maxChunk, [Hunk(View(12, 38), View(12, 30))]) == Success([Hunk(View(30, 38), View(30, 30))])
  {
    NarrowIsEndOneWay(maxChunk, 30, 38);
    NarrowIsEndOneWay(maxChunk, 38, 30);
  }

  /** Two all-zero sides narrowed from 12: the 18 common samples are shoved off the front. */
  lemma NarrowIsEndOneWay(maxChunk: nat, la: nat, lb: nat)
    requires maxChunk >= 18 && (la, lb) in {(30, 38), (38, 30)}
    ensures BdiffNarrow(Zeros(la), Zeros(lb), maxChunk, [Hunk(View(12, la), View(12, lb))]) == Success([Hunk(View(30, la), View(30, lb))])
  {
    var a, b := Zeros(la), Zeros(lb);
    var rough := Hunk(View(12, la), View(12, lb));
    CommonPrefixUnique(a, b, 12, 12, maxChunk + 1, 18);
    PlaceKnown(a, b, maxChunk, [], rough, 18, 0);
    NarrowSingle(a, b, maxChunk, rough);
  }

  /** A side of n zero samples. */
  function Zeros(n: nat): (s: seq<nat>)
    ensures |s| == n && forall k :: 0 <= k < n ==> s[k] == 0
  {
    seq(n, _ => 0)
  }

  /** Build_narrowable_data(5, {9, 19, 29, 39, 49}, {0, 1, 0, 1, 0}). */
  function Alternating(): (s: seq<nat>)
    ensures |s| == 50
  {
    seq(50, p => if 10 <= p <= 19 || 30 <= p <= 39 then 1 else 0)
  }

  lemma MultihunkFirst(maxChunk: nat)
    requires maxChunk >= 12
    ensures Place(Alternating(), Zeros(50), maxChunk, [], 0, 0, Hunk(View(8, 22), View(8, 22)))
         == Success(NarrowState([Hunk(View(10, 20), View(10, 20))], 0, 0))
  {
    var a, b := Alternating(), Zeros(50);
    CommonPrefixUnique(a, b, 8, 8, maxChunk + 1, 2);
    CommonSuffixUnique(a, b, 22, 22, 12, 2);
    assert TrimEnd(a, b, maxChunk, 10, 22, 10, 22) == Success(2);
    PlaceKnown(a, b, maxChunk, [], Hunk(View(8, 22), View(8, 22)), 2, 2);
  }

  lemma MultihunkSecond(maxChunk: nat, placed: seq<Hunk>)
    requires maxChunk >= 15
    ensures Place(Alternating(), Zeros(50), maxChunk, placed, 0, 0, Hunk(View(26, 45), View(26, 45)))
         == Success(NarrowState(placed + [Hunk(View(30, 40), View(30, 40))], 0, 0))
  {
    var a, b := Alternating(), Zeros(50);
    CommonPrefixUnique(a, b, 26, 26, maxChunk + 1, 4);
    CommonSuffixUnique(a, b, 45, 45, 15, 5);
    assert TrimEnd(a, b, maxChunk, 30, 45, 30, 45) == Success(5);
    PlaceKnown(a, b, maxChunk, placed, Hunk(View(26, 45), View(26, 45)), 4, 5);
  }

  /**
   * tests/unittest_narrowing.c, narrowing_multihunk: (8, 22, 8, 22) and
   * (26, 45, 26, 45) narrow to (10, 20, 10, 20) and (30, 40, 30, 40).
   */
  lemma NarrowMultihunkVector(maxChunk: nat)
    requires maxChunk >= 15
    ensures var rough := [Hunk(View(8, 22), View(8, 22)), Hunk(View(26, 45), View(26, 45))];
      && BdiffNarrow(Alternating(), Zeros(50), maxChunk, rough).Success?
      && BdiffNarrow(Alternating(), Zeros(50), maxChunk, rough).value
         == [Hunk(View(10, 20), View(10, 20)), Hunk(View(30, 40), View(30, 40))]
  {
    var placed := [Hunk(View(10, 20), View(10, 20))];
    MultihunkFirst(maxChunk);
    MultihunkSecond(maxChunk, placed);
    NarrowPair(Alternating(), Zeros(50), maxChunk, Hunk(View(8, 22), View(8, 22)), Hunk(View(26, 45), View(26, 45)), placed);
  }

  /** tests/unittest_narrowing.c, narrowing_long_hunk: (7324, 69237, 7324, 69237) narrows to (15001, 65001, 15001, 65001). */
  lemma NarrowLongVector(maxChunk: nat)
    requires maxChunk >= 7677
    ensures var a := seq(70001, p => if 15001 <= p <= 65000 then 1 else 0);
      var b := Zeros(70001);
      && BdiffNarrow(a, b, maxChunk, [Hunk(View(7324, 69237), View(7324, 69237))]).Success?
      && BdiffNarrow(a, b, maxChunk, [Hunk(View(7324, 69237), View(7324, 69237))]).value
         == [Hunk(View(15001, 65001), View(15001, 65001))]
  {
    var a, b := seq(70001, p => if 15001 <= p <= 65000 then 1 else 0), Zeros(70001);
    var rough := Hunk(View(7324, 69237), View(7324, 69237));
    CommonPrefixUnique(a, b, 7324, 7324, maxChunk + 1, 7677);
    var e := Min3(69237 - 15001, 69237 - 15001, maxChunk);
    CommonSuffixUnique(a, b, 69237, 69237, e, 4236);
    assert TrimEnd(a, b, maxChunk, 15001, 69237, 15001, 69237) == Success(4236);
    PlaceKnown(a, b, maxChunk, [], rough, 7677, 4236);
    NarrowSingle(a, b, maxChunk, rough);
  }
}
