/**
 * python/util.py: overlay_lists writes `new` over `base` starting at
 * `offset`, clipping whatever falls outside `base`. The Python function
 * mutates `base`; here it returns the overlaid list.
 */
module Overlay {

  /**
   * The loop from index i: positions left of `base` are skipped, and the
   * first position right of it ends the loop.
   */
  function OverlayFrom<T>(base: seq<T>, top: seq<T>, offset: int, i: nat): (r: seq<T>)
    requires i <= |top|
    decreases |top| - i
  {
    if i == |top| then base
    else if 0 <= i + offset < |base| then OverlayFrom(base[i + offset := top[i]], top, offset, i + 1)
    else if i + offset >= |base| then base
    else OverlayFrom(base, top, offset, i + 1)
  }

  /** overlay_lists: the loop runs only when `new` reaches position 0 or beyond. */
  function OverlayLists<T>(base: seq<T>, top: seq<T>, offset: int): (r: seq<T>) {
    if offset + |top| >= 0 then OverlayFrom(base, top, offset, 0) else base
  }

  /** Position p lies under top[i..] when it is overlaid at `offset`. */
  predicate Under(offset: int, i: nat, topLen: nat, p: int) {
    offset + i <= p < offset + topLen
  }

  /**
   * From index i, the loop keeps the length, writes top[t] at t + offset for
   * every t >= i that lands inside, and leaves every other position alone.
   */
  lemma {:induction false} OverlayFromSound<T>(base: seq<T>, top: seq<T>, offset: int, i: nat)
    requires i <= |top|
    ensures |OverlayFrom(base, top, offset, i)| == |base|
    ensures forall t :: i <= t < |top| && 0 <= t + offset < |base| ==> OverlayFrom(base, top, offset, i)[t + offset] == top[t]
    ensures forall p :: 0 <= p < |base| && !Under(offset, i, |top|, p) ==>
      OverlayFrom(base, top, offset, i)[p] == base[p]
    decreases |top| - i
  {
    if i < |top| {
      if 0 <= i + offset < |base| {
        OverlayFromSound(base[i + offset := top[i]], top, offset, i + 1);
      } else if i + offset < 0 {
        OverlayFromSound(base, top, offset, i + 1);
      }
    }
  }

  /**
   * overlay_lists never changes the length of `base`, puts top[t] at
   * t + offset wherever that lies inside `base`, and changes nothing
   * outside [offset, offset + |top|).
   */
  lemma OverlayListsSound<T>(base: seq<T>, top: seq<T>, offset: int)
    ensures |OverlayLists(base, top, offset)| == |base|
    ensures forall t :: 0 <= t < |top| && 0 <= t + offset < |base| ==> OverlayLists(base, top, offset)[t + offset] == top[t]
    ensures forall p :: 0 <= p < |base| && !(offset <= p < offset + |top|) ==> OverlayLists(base, top, offset)[p] == base[p]
  {
    OverlayFromSound(base, top, offset, 0);
  }

  /** The result is determined pointwise: covered positions come from `new`, the rest from `base`. */
  lemma OverlayListsPointwise<T>(base: seq<T>, top: seq<T>, offset: int)
    ensures OverlayLists(base, top, offset) ==
      seq(|base|, p requires 0 <= p < |base| => if offset <= p < offset + |top| then top[p - offset] else base[p])
  {
    OverlayListsSound(base, top, offset);
    var r := OverlayLists(base, top, offset);
    forall p | 0 <= p < |base| && offset <= p < offset + |top|
      ensures r[p] == top[p - offset]
    {
      assert r[(p - offset) + offset] == top[p - offset];
    }
  }

  /** An offset past the end of `base`, or a `new` ending before its start, changes nothing. */
  lemma OverlayNoOp<T>(base: seq<T>, top: seq<T>, offset: int)
    requires offset >= |base| || offset + |top| <= 0
    ensures OverlayLists(base, top, offset) == base
  {
    OverlayListsSound(base, top, offset);
  }

  function Repeat(c: char, n: nat): (r: string)
    ensures |r| == n && forall k :: 0 <= k < n ==> r[k] == c
  {
    seq(n, _ => c)
  }

  /** The expected results of the tests: '+' * i over '---' at offsets 0, 1, 5, -1 and -4. */
  lemma OverlayVectors()
    ensures OverlayLists("---", Repeat('+', 0), 0) == "---"
    ensures OverlayLists("---", Repeat('+', 1), 0) == "+--"
    ensures OverlayLists("---", Repeat('+', 2), 0) == "++-"
    ensures OverlayLists("---", Repeat('+', 3), 0) == "+++"
    ensures OverlayLists("---", Repeat('+', 4), 0) == "+++"
    ensures OverlayLists("---", Repeat('+', 0), 1) == "---"
    ensures OverlayLists("---", Repeat('+', 1), 1) == "-+-"
    ensures OverlayLists("---", Repeat('+', 2), 1) == "-++"
    ensures OverlayLists("---", Repeat('+', 3), 1) == "-++"
    ensures OverlayLists("---", Repeat('+', 4), 1) == "-++"
    ensures forall i :: 0 <= i <= 4 ==> OverlayLists("---", Repeat('+', i), 5) == "---"
    ensures OverlayLists("---", Repeat('+', 0), -1) == "---"
    ensures OverlayLists("---", Repeat('+', 1), -1) == "---"
    ensures OverlayLists("---", Repeat('+', 2), -1) == "+--"
    ensures OverlayLists("---", Repeat('+', 3), -1) == "++-"
    ensures OverlayLists("---", Repeat('+', 4), -1) == "+++"
    ensures forall i :: 0 <= i <= 4 ==> OverlayLists("---", Repeat('+', i), -4) == "---"
  {
    forall i | 0 <= i <= 4
      ensures OverlayLists("---", Repeat('+', i), 5) == "---"
      ensures OverlayLists("---", Repeat('+', i), -4) == "---"
    {
      OverlayNoOp("---", Repeat('+', i), 5);
      OverlayNoOp("---", Repeat('+', i), -4);
    }
    forall i, offset | 0 <= i <= 4 && -1 <= offset <= 1
      ensures OverlayLists("---", Repeat('+', i), offset) ==
        seq(3, p requires 0 <= p < 3 => if offset <= p < offset + i then '+' else '-')
    {
      OverlayListsPointwise("---", Repeat('+', i), offset);
    }
  }
}
