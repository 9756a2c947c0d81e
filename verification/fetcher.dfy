/**
 * The data_fetcher interface of include/bdiff.h and the fetcher that
 * src/bdiff.c supplies, test_reader: each call copies up to `n_items`
 * items of the source, starting where the previous call stopped, and
 * returns how many it copied. Both chunkers read in a do-while loop that
 * stops when a call returns 0.
 */
module Fetcher {

  /** test_data: the source items and the read position. */
  datatype TestData<T> = TestData(data: seq<T>, pos: nat)

  /** The outcome of one read: how many items, the items, and the advanced source. */
  datatype Read<T> = Read(count: nat, buffer: seq<T>, next: TestData<T>)

  /**
   * test_reader: the stop position is clamped to the data length before
   * the read position is subtracted from it.
   */
  function TestReader<T>(td: TestData<T>, nItems: nat): (r: Read<T>)
    requires td.pos <= |td.data|
    ensures r.count <= nItems && td.pos + r.count <= |td.data|
    ensures r.count == nItems || td.pos + r.count == |td.data|
    ensures r.buffer == td.data[td.pos..td.pos + r.count]
    ensures r.next == TestData(td.data, td.pos + r.count)
  {
    var stop := if td.pos + nItems > |td.data| then |td.data| else td.pos + nItems;
    var count := stop - td.pos;
    Read(count, td.data[td.pos..td.pos + count], TestData(td.data, td.pos + count))
  }

  /**
   * The do-while read loop of both chunkers. With a positive request size
   * it reads the rest of the data, in order, and stops on the first call
   * that returns 0, which happens only once the data is exhausted; with a
   * request size of 0 the first call returns 0 and nothing is read.
   */
  method ReadAll<T>(td0: TestData<T>, nItems: nat) returns (read: seq<T>, td: TestData<T>)
    requires td0.pos <= |td0.data|
    ensures nItems > 0 ==> read == td0.data[td0.pos..] && td.pos == |td0.data|
    ensures nItems == 0 ==> read == [] && td == td0
  {
    td := td0;
    read := [];
    var r := TestReader(td, nItems);
    read, td := read + r.buffer, r.next;
    while r.count > 0
      invariant td.data == td0.data && td0.pos <= td.pos <= |td.data|
      invariant read == td0.data[td0.pos..td.pos]
      invariant r.count == 0 ==> td.pos == |td.data| || nItems == 0
      invariant nItems == 0 ==> td == td0
      decreases |td.data| - td.pos, r.count
    {
      r := TestReader(td, nItems);
      assert td0.data[td0.pos..td.pos] + td.data[td.pos..td.pos + r.count] == td0.data[td0.pos..td.pos + r.count];
      read, td := read + r.buffer, r.next;
    }
    assert td0.data[td0.pos..] == td0.data[td0.pos..|td0.data|];
  }
}
