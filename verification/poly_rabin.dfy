/**
 * python/rabin.py: the Python sketch of the rolling hash, with polynomials
 * over GF(2) as tuples of coefficients, highest degree first. `ip` is the
 * irreducible polynomial t^9 + t + 1, the number 515 of src/rabin.c.
 */
module PolyRabin {

  /** A tuple of coefficients, highest degree first. */
  type Poly = seq<int>

  /** ip. */
  const Ip: Poly := [1, 0, 0, 0, 0, 0, 0, 0, 1, 1]

  /** Every coefficient is 0 or 1. */
  predicate Bits(s: Poly) {
    forall k :: 0 <= k < |s| ==> s[k] == 0 || s[k] == 1
  }

  function Max(x: nat, y: nat): nat {
    if x >= y then x else y
  }

  /** `(0,) * (n - len(a)) + a`. */
  function Pad(a: Poly, n: nat): (r: Poly)
    requires |a| <= n
    ensures |r| == n
    ensures forall k :: 0 <= k < n - |a| ==> r[k] == 0
    ensures forall k :: n - |a| <= k < n ==> r[k] == a[k - (n - |a|)]
  {
    seq(n - |a|, _ => 0) + a
  }

  /**
   * sub: left-pad both tuples to the longer length with zeros and add the
   * coefficients modulo 2.
   */
  function Sub(a: Poly, b: Poly): (r: Poly)
    ensures |r| == Max(|a|, |b|)
    ensures Bits(r)
  {
    var ml := Max(|a|, |b|);
    var pa, pb := Pad(a, ml), Pad(b, ml);
    seq(ml, i requires 0 <= i < ml => (pa[i] + pb[i]) % 2)
  }

  /** Aligned at the right, the coefficients of two bit tuples are added without carry. */
  lemma SubXor(a: Poly, b: Poly, k: nat)
    requires Bits(a) && Bits(b) && k < Max(|a|, |b|)
    ensures var ml := Max(|a|, |b|);
      var x := if k >= ml - |a| then a[k - (ml - |a|)] else 0;
      var y := if k >= ml - |b| then b[k - (ml - |b|)] else 0;
      Sub(a, b)[k] == if x == y then 0 else 1
  {
  }

  /** On equal lengths no padding happens. */
  lemma SubAligned(a: Poly, b: Poly, k: nat)
    requires |a| == |b| && k < |a|
    ensures Sub(a, b)[k] == (a[k] + b[k]) % 2
  {
  }

  /** On equal lengths sub works coefficient by coefficient, so it commutes with slicing. */
  lemma SubSlices(a: Poly, b: Poly, i: nat, j: nat)
    requires |a| == |b| && i <= j <= |a|
    ensures Sub(a, b)[i..j] == Sub(a[i..j], b[i..j])
  {
    var whole, part := Sub(a, b), Sub(a[i..j], b[i..j]);
    forall k | 0 <= k < j - i
      ensures whole[i..j][k] == part[k]
    {
      SubAligned(a, b, i + k);
      SubAligned(a[i..j], b[i..j], k);
    }
  }

  /** sub is commutative. */
  lemma SubCommutes(a: Poly, b: Poly)
    ensures Sub(a, b) == Sub(b, a)
  {
  }

  /** A polynomial minus itself is all zeros. */
  lemma SubSelf(a: Poly)
    ensures |Sub(a, a)| == |a| && forall k :: 0 <= k < |a| ==> Sub(a, a)[k] == 0
  {
  }

  /** concat: the tuple with one more coefficient at the low end. */
  function Concat(preExisting: Poly, additional: int): (r: Poly)
    ensures |r| == |preExisting| + 1 && r[..|preExisting|] == preExisting && r[|preExisting|] == additional
  {
    preExisting + [additional]
  }

  /** Python's `s[-n:]` for n > 0: the last n elements, or all of a shorter tuple. */
  function Last(s: Poly, n: nat): (r: Poly)
    requires n > 0
    ensures |r| == if |s| <= n then |s| else n
    ensures forall k :: 0 <= k < |r| ==> r[k] == s[|s| - |r| + k]
  {
    if |s| <= n then s else s[|s| - n..]
  }

  /**
   * f: the assertion demands at most len(ip) coefficients; a full-length
   * tuple with a nonzero leading coefficient is reduced by ip, and the last
   * len(ip) - 1 coefficients are kept.
   */
  function F(poly: Poly): (r: Poly)
    requires |poly| <= |Ip|
    ensures |r| == if |poly| < |Ip| then |poly| else |Ip| - 1
  {
    if |poly| == |Ip| && poly[0] != 0 then Last(Sub(poly, Ip), |Ip| - 1)
    else Last(poly, |Ip| - 1)
  }

  /**
   * f reduces exactly when the tuple is full length with a nonzero leading
   * coefficient; then the leading term cancels and the rest is reduced by
   * the lower terms of ip. Otherwise f only drops a zero leading
   * coefficient, or nothing.
   */
  lemma FReduces(poly: Poly)
    requires |poly| <= |Ip|
    ensures |poly| < |Ip| ==> F(poly) == poly
    ensures |poly| == |Ip| && poly[0] == 0 ==> F(poly) == poly[1..]
    ensures |poly| == |Ip| && poly[0] != 0 ==> F(poly) == Sub(poly[1..], Ip[1..])
  {
    if |poly| == |Ip| && poly[0] != 0 {
      SubSlices(poly, Ip, 1, |Ip|);
      assert poly[1..|Ip|] == poly[1..] && Ip[1..|Ip|] == Ip[1..];
    }
  }

  /**
   * One step of the sketch keeps the hash a tuple of len(ip) - 1 bits:
   * shifting a bit into a 9-bit hash and applying f gives 9 bits again.
   */
  lemma StepKeepsBits(h: Poly, bit: int)
    requires Bits(h) && |h| == |Ip| - 1 && (bit == 0 || bit == 1)
    ensures |F(Concat(h, bit))| == |Ip| - 1 && Bits(F(Concat(h, bit)))
  {
    var c := Concat(h, bit);
    assert Bits(c);
    FReduces(c);
  }

  /** win_size: the window the script rolls over. */
  const WinSize: nat := 12

  /** one_over: f(t^11), the contribution of a bit that has left the window. */
  const OneOver: Poly := [0, 1, 1, 0, 0]

  /**
   * One turn of the script's loop at index idx: when the bit win_size
   * places back is set, its contribution is subtracted; then the new bit is
   * shifted in and reduced.
   */
  function Roll(stream: Poly, idx: nat, h: Poly): (r: Poly)
    requires idx < |stream| && |h| == |Ip| - 1
    ensures |r| == |Ip| - 1
  {
    var h' := if idx >= WinSize && stream[idx - WinSize] != 0 then Sub(h, OneOver) else h;
    F(Concat(h', stream[idx]))
  }

  /** On bits, one turn of the loop gives bits again. */
  lemma RollBits(stream: Poly, idx: nat, h: Poly)
    requires Bits(stream) && Bits(h) && idx < |stream| && |h| == |Ip| - 1
    ensures Bits(Roll(stream, idx, h))
  {
    var h' := if idx >= WinSize && stream[idx - WinSize] != 0 then Sub(h, OneOver) else h;
    StepKeepsBits(h', stream[idx]);
  }

  /** The hash after the script has rolled over stream[..n], starting from all zeros. */
  function RollAll(stream: Poly, n: nat): (r: Poly)
    requires n <= |stream|
    ensures |r| == |Ip| - 1
    decreases n
  {
    if n == 0 then seq(|Ip| - 1, _ => 0) else Roll(stream, n - 1, RollAll(stream, n - 1))
  }

  /** Over a stream of bits the script's hash is always a tuple of len(ip) - 1 bits. */
  lemma {:induction false} RollAllBits(stream: Poly, n: nat)
    requires Bits(stream) && n <= |stream|
    ensures Bits(RollAll(stream, n))
    decreases n
  {
    if n > 0 {
      RollAllBits(stream, n - 1);
      RollAllStep(stream, n);
    }
  }

  /** One more turn of the loop keeps the hash a tuple of bits. */
  lemma RollAllStep(stream: Poly, n: nat)
    requires Bits(stream) && 0 < n <= |stream|
    ensures Bits(RollAll(stream, n - 1)) ==> Bits(RollAll(stream, n))
  {
    var before := RollAll(stream, n - 1);
    if Bits(before) {
      RollBits(stream, n - 1, before);
    }
    assert RollAll(stream, n) == Roll(stream, n - 1, before);
  }
}
