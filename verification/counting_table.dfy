/**
 * The hash counting table of src/hash_counting_table.c: a multiset of
 * hashes stored as a map from hash to a positive count. A key whose count
 * falls to zero is removed, so "absent" and "count 0" coincide.
 *
 * The hash multiset used by src/diff.c (src/hash_multiset.h) has the same
 * behaviour: insert is `Inc` with its result ignored and pop is `Dec`.
 */
module CountingTable {
  import opened Types

  type Table = map<Hash, nat>

  /** No key is stored with a zero count. */
  ghost predicate Valid(t: Table) {
    forall k :: k in t ==> t[k] > 0
  }

  const Empty: Table := map[]

  /** hash_counting_table_get: the count for `key`, 0 when it is absent. */
  function Get(t: Table, key: Hash): (c: nat)
    ensures key !in t ==> c == 0
    ensures key in t ==> c == t[key]
  {
    if key in t then t[key] else 0
  }

  /**
   * hash_counting_table_inc: raise the count of `key` by one and return the
   * count it had before.
   */
  function Inc(t: Table, key: Hash): (r: (nat, Table))
    ensures r.0 == Get(t, key)
    ensures key !in t ==> r.0 == 0
    ensures Get(r.1, key) == Get(t, key) + 1
    ensures forall k :: k != key ==> Get(r.1, k) == Get(t, k)
    ensures Valid(t) ==> Valid(r.1)
  {
    var count := Get(t, key);
    (count, t[key := count + 1])
  }

  /**
   * hash_counting_table_dec (and hash_multiset_pop): lower the count of
   * `key` by one, removing the key when its count was 1, and return the
   * count it had before. An absent key leaves the table unchanged.
   */
  function Dec(t: Table, key: Hash): (r: (nat, Table))
    ensures r.0 == Get(t, key)
    ensures r.0 == 0 ==> r.1 == t
    ensures r.0 == 1 ==> key !in r.1
    ensures r.0 > 0 ==> Get(r.1, key) == r.0 - 1
    ensures forall k :: k != key ==> Get(r.1, k) == Get(t, k)
    ensures Valid(t) ==> Valid(r.1)
  {
    var count := Get(t, key);
    if count == 1 then
      (count, t - {key})
    else if count > 1 then
      (count, t[key := count - 1])
    else
      (count, t)
  }

  /** Two valid tables with the same counts are the same table. */
  lemma ExtensionalEquality(t: Table, u: Table)
    requires Valid(t) && Valid(u)
    requires forall k :: Get(t, k) == Get(u, k)
    ensures t == u
  {
    forall k | k in t
      ensures k in u && t[k] == u[k]
    {
      assert Get(t, k) == Get(u, k);
    }
    forall k | k in u
      ensures k in t
    {
      assert Get(t, k) == Get(u, k);
    }
  }

  /** Incrementing and then decrementing the same key restores the table. */
  lemma IncThenDec(t: Table, key: Hash)
    requires Valid(t)
    ensures Dec(Inc(t, key).1, key).1 == t
  {
    var u := Dec(Inc(t, key).1, key).1;
    forall k
      ensures Get(u, k) == Get(t, k)
    {
    }
    ExtensionalEquality(u, t);
  }

  /**
   * create_hash_counting_table (src/hunk.c), and the insertion loop of
   * unique_blocks (src/diff.c): increment once per hash, in list order.
   */
  function FromSeq(hs: seq<Hash>): Table
  {
    if |hs| == 0 then Empty else Inc(FromSeq(hs[..|hs| - 1]), hs[|hs| - 1]).1
  }

  /** The table built from a list counts exactly the list's occurrences. */
  lemma {:induction false} FromSeqCounts(hs: seq<Hash>)
    ensures Valid(FromSeq(hs))
    ensures forall k :: Get(FromSeq(hs), k) == multiset(hs)[k]
  {
    if |hs| > 0 {
      var init := hs[..|hs| - 1];
      FromSeqCounts(init);
      assert hs == init + [hs[|hs| - 1]];
    }
  }

  /**
   * Popping the first hash of a list from the table that counts the list
   * leaves the table that counts the rest of it.
   */
  lemma DecFront(t: Table, hs: seq<Hash>)
    requires Valid(t) && |hs| > 0
    requires forall k :: Get(t, k) == multiset(hs)[k]
    ensures Dec(t, hs[0]).0 > 0
    ensures forall k :: Get(Dec(t, hs[0]).1, k) == multiset(hs[1..])[k]
  {
    assert hs == [hs[0]] + hs[1..];
    assert multiset(hs) == multiset{hs[0]} + multiset(hs[1..]);
  }

  /** The fixture of tests/unittest_hash_counting_table.c and tests/unittest_multiset.c. */
  lemma TableTestVectors()
    ensures var t := FromSeq([1, 2, 2]);
      && Inc(t, 3).0 == 0
      && Inc(Inc(t, 3).1, 3).0 == 1
      && Inc(Inc(Inc(t, 3).1, 3).1, 2).0 == 2
    ensures var t := FromSeq([1, 2, 2]);
      var t1 := Dec(t, 99); var t2 := Dec(t1.1, 1); var t3 := Dec(t2.1, 1);
      var t4 := Dec(t3.1, 2); var t5 := Dec(t4.1, 2);
      t1.0 == 0 && t2.0 == 1 && t3.0 == 0 && t4.0 == 2 && t5.0 == 1
  {
    FromSeqCounts([1, 2, 2]);
  }
}
