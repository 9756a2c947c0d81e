/**
 * diff.c at the top of the repository: the earliest C draft. A view is a
 * window on a source buffer, chunks carry a hash, and unique_blocks keeps
 * the chunks of one side whose hash the other side lacks, in order.
 */
module DraftDiff {

  /** C `unsigned`: 32 bits. */
  newtype U32 = x: int | 0 <= x < 0x1_0000_0000

  const Modulus: int := 0x1_0000_0000

  /** view: the source is implicit; `data` is the source offset, source + start. */
  datatype DraftView = DraftView(start: U32, end: U32, data: nat, length: U32)

  /** view_new: the length is the unsigned difference, which wraps when end < start. */
  function ViewNew(start: U32, end: U32): (v: DraftView)
    ensures v.start == start && v.end == end && v.data == start as nat
    ensures start <= end ==> v.length as int == end as int - start as int
    ensures start > end ==> v.length as int == end as int - start as int + Modulus
  {
    DraftView(start, end, start as nat, ((end as int - start as int) % Modulus) as U32)
  }

  /** The length always leads from start back to end, modulo 2^32. */
  lemma ViewNewRoundTrip(start: U32, end: U32)
    ensures (ViewNew(start, end).start as int + ViewNew(start, end).length as int) % Modulus == end as int
  {
  }

  /** chunk: a view and its hash, an `unsigned long`. */
  datatype DraftChunk = DraftChunk(v: DraftView, hash: nat)

  /** hash_set: the set of hashes inserted so far. */
  type HashSet = set<nat>

  /** hash_set_new. */
  function HashSetNew(): (s: HashSet)
    ensures forall h :: h !in s
  {
    {}
  }

  /** hash_set_insert: inserting a hash already present changes nothing. */
  function HashSetInsert(s: HashSet, h: nat): (r: HashSet)
    ensures h in r && forall g :: g != h ==> (g in r <==> g in s)
  {
    s + {h}
  }

  /** hash_set_contains. */
  predicate HashSetContains(s: HashSet, h: nat) {
    h in s
  }

  /** The set after inserting the hashes of `cs` one by one into an empty set. */
  function InsertAll(s: HashSet, cs: seq<DraftChunk>): HashSet
    decreases |cs|
  {
    if |cs| == 0 then s else InsertAll(HashSetInsert(s, cs[0].hash), cs[1..])
  }

  /** A hash is contained after the insertions iff it was there before or some chunk carries it. */
  lemma {:induction false} InsertAllContains(s: HashSet, cs: seq<DraftChunk>, h: nat)
    ensures HashSetContains(InsertAll(s, cs), h) <==> h in s || exists k :: 0 <= k < |cs| && cs[k].hash == h
    decreases |cs|
  {
    if |cs| > 0 {
      InsertAllContains(HashSetInsert(s, cs[0].hash), cs[1..], h);
      if exists k :: 0 <= k < |cs[1..]| && cs[1..][k].hash == h {
        var k :| 0 <= k < |cs[1..]| && cs[1..][k].hash == h;
        assert cs[k + 1].hash == h;
      }
      if exists k :: 0 <= k < |cs| && cs[k].hash == h {
        var k :| 0 <= k < |cs| && cs[k].hash == h;
        if k > 0 {
          assert cs[1..][k - 1].hash == h;
        }
      }
    }
  }

  /** The reference filter: the chunks of `ours` whose hash is not in `theirs`, in order. */
  function Unique(ours: seq<DraftChunk>, theirs: HashSet): (r: seq<DraftChunk>)
    ensures |r| <= |ours|
    ensures forall c :: c in r <==> c in ours && c.hash !in theirs
  {
    if |ours| == 0 then []
    else if ours[|ours| - 1].hash in theirs then Unique(ours[..|ours| - 1], theirs)
    else Unique(ours[..|ours| - 1], theirs) + [ours[|ours| - 1]]
  }

  /** `sub` keeps its elements in the order they have in `s`. */
  ghost predicate Subsequence(sub: seq<DraftChunk>, s: seq<DraftChunk>)
    decreases |s|
  {
    if |sub| == 0 then true
    else if |s| == 0 then false
    else if sub[|sub| - 1] == s[|s| - 1] then Subsequence(sub[..|sub| - 1], s[..|s| - 1])
    else Subsequence(sub, s[..|s| - 1])
  }

  /** The filter keeps the order of `ours`. */
  lemma {:induction false} UniqueOrdered(ours: seq<DraftChunk>, theirs: HashSet)
    ensures Subsequence(Unique(ours, theirs), ours)
    decreases |ours|
  {
    if |ours| > 0 {
      var init := ours[..|ours| - 1];
      UniqueOrdered(init, theirs);
      var r := Unique(ours, theirs);
      if ours[|ours| - 1].hash !in theirs {
        assert r[..|r| - 1] == Unique(init, theirs);
      } else if |r| > 0 {
        SubsequenceLast(r, init);
        assert r[|r| - 1] != ours[|ours| - 1];
      }
    }
  }

  /** The last element of a subsequence of `s` is in `s`. */
  lemma {:induction false} SubsequenceLast(sub: seq<DraftChunk>, s: seq<DraftChunk>)
    requires |sub| > 0 && Subsequence(sub, s)
    ensures sub[|sub| - 1] in s
    decreases |s|
  {
    if |s| > 0 && sub[|sub| - 1] != s[|s| - 1] {
      SubsequenceLast(sub, s[..|s| - 1]);
    }
  }

  function Reverse(s: seq<DraftChunk>): (r: seq<DraftChunk>)
    ensures |r| == |s| && forall k :: 0 <= k < |s| ==> r[k] == s[|s| - 1 - k]
  {
    if |s| == 0 then [] else [s[|s| - 1]] + Reverse(s[..|s| - 1])
  }

  /** The first loop of unique_blocks: insert the hashes of `others` one by one. */
  method CollectHashes(others: seq<DraftChunk>) returns (othersHashes: HashSet)
    ensures othersHashes == InsertAll(HashSetNew(), others)
  {
    othersHashes := HashSetNew();
    var k := 0;
    while k < |others|
      invariant k <= |others|
      invariant InsertAll(othersHashes, others[k..]) == InsertAll(HashSetNew(), others)
    {
      assert others[k..][1..] == others[k + 1..];
      othersHashes := HashSetInsert(othersHashes, others[k].hash);
      k := k + 1;
    }
    assert others[k..] == [];
  }

  /**
   * The second loop of unique_blocks: prepend every chunk whose hash is not
   * in the set, then reverse the list.
   */
  method CollectUnique(ours: seq<DraftChunk>, othersHashes: HashSet) returns (r: seq<DraftChunk>)
    ensures r == Unique(ours, othersHashes)
  {
    var unique: seq<DraftChunk> := [];
    var j := 0;
    while j < |ours|
      invariant j <= |ours|
      invariant unique == Reverse(Unique(ours[..j], othersHashes))
    {
      UniqueSnoc(ours, j, othersHashes);
      if !HashSetContains(othersHashes, ours[j].hash) {
        ReverseSnoc(Unique(ours[..j], othersHashes), ours[j]);
        unique := [ours[j]] + unique;
      }
      j := j + 1;
    }
    assert ours[..j] == ours;
    r := Reverse(unique);
    assert r == Unique(ours, othersHashes);
  }

  /** The filter over one more chunk keeps it exactly when its hash is absent. */
  lemma UniqueSnoc(ours: seq<DraftChunk>, j: nat, theirs: HashSet)
    requires j < |ours|
    ensures ours[j].hash in theirs ==> Unique(ours[..j + 1], theirs) == Unique(ours[..j], theirs)
    ensures ours[j].hash !in theirs ==> Unique(ours[..j + 1], theirs) == Unique(ours[..j], theirs) + [ours[j]]
  {
    assert ours[..j + 1][..j] == ours[..j];
  }

  /** Reversing a list with one more element at the end puts it at the front. */
  lemma ReverseSnoc(s: seq<DraftChunk>, x: DraftChunk)
    ensures Reverse(s + [x]) == [x] + Reverse(s)
  {
    assert (s + [x])[..|s|] == s;
  }

  /**
   * unique_blocks as written: the first element of `others` is read before
   * the loop, so it must not be empty; their hashes are collected in a set,
   * our unique chunks are prepended to a list, and the list is reversed.
   */
  method UniqueBlocks(ours: seq<DraftChunk>, others: seq<DraftChunk>) returns (r: seq<DraftChunk>)
    requires |others| > 0
    ensures r == Unique(ours, InsertAll(HashSetNew(), others))
  {
    var someHash := others[0].hash;
    var othersHashes := CollectHashes(others);
    r := CollectUnique(ours, othersHashes);
  }

  /** unique_blocks keeps exactly the chunks whose hash no chunk of `others` has, in order. */
  lemma UniqueBlocksExact(ours: seq<DraftChunk>, others: seq<DraftChunk>)
    ensures Subsequence(Unique(ours, InsertAll(HashSetNew(), others)), ours)
    ensures forall c :: c in Unique(ours, InsertAll(HashSetNew(), others)) <==>
      c in ours && forall k :: 0 <= k < |others| ==> others[k].hash != c.hash
  {
    var theirs := InsertAll(HashSetNew(), others);
    UniqueOrdered(ours, theirs);
    forall c: DraftChunk
      ensures c.hash in theirs <==> exists k :: 0 <= k < |others| && others[k].hash == c.hash
    {
      InsertAllContains(HashSetNew(), others, c.hash);
    }
  }
}
