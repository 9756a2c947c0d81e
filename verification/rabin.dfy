/**
 * The 9-bit rolling hash of src/rabin.c: arithmetic on polynomials over
 * GF(2) modulo the irreducible polynomial t^9 + t + 1 (515), with the
 * polynomial held in the low bits of a 32-bit word.
 */
module Rabin {
  import opened Types

  const IrreduciblePolynomial: bv32 := 515

  /** hash_data: the running hash. */
  datatype HashData = HashData(h: bv32)

  /** hash_data_init: a fresh state, the same state hash_data_reset produces. */
  function HashDataInit(): HashData {
    HashData(1)
  }

  /** hash_data_reset: the state before any data has been hashed. */
  function HashDataReset(hd: HashData): (r: HashData)
    ensures r == HashDataInit() && r.h == 1
  {
    HashData(1)
  }

  /**
   * f: reduce a polynomial of degree at most 9 by the irreducible
   * polynomial, so the result fits in 9 bits.
   */
  function F(i: bv32): (r: bv32)
    ensures i < 512 ==> r == i
    ensures i >= 512 ==> r == i ^ IrreduciblePolynomial
    ensures 512 <= i < 1024 ==> r < 512
  {
    if i >= 512 then i ^ IrreduciblePolynomial else i
  }

  /** Multiplication by t modulo the irreducible polynomial. */
  function MulT(x: bv32): bv32 {
    F(x << 1)
  }

  /** t^l modulo the irreducible polynomial, by repeated multiplication. */
  function TPow(l: nat): (r: bv32)
    ensures r < 512
  {
    if l == 0 then 1 else MulT(TPow(l - 1))
  }

  /**
   * One bit of hash_data_update: shift the hash left, bring in the bit,
   * and subtract the polynomial when bit 9 is set.
   */
  function UpdateBit(h: bv32, bit: bool): bv32 {
    var s := (h << 1) | (if bit then 1 else 0);
    if s & 0x200 != 0 then s ^ IrreduciblePolynomial else s
  }

  /** The mask `0x1 << (p - 1)` of hash_data_update, for 1 <= p <= 8. */
  function Mask(p: nat): (m: bv32)
    requires 1 <= p <= 8
  {
    if p == 1 then 0x01 else if p == 2 then 0x02 else if p == 3 then 0x04 else if p == 4 then 0x08
    else if p == 5 then 0x10 else if p == 6 then 0x20 else if p == 7 then 0x40 else 0x80
  }

  lemma MaskIsShift(p: nat)
    requires 1 <= p <= 8
    ensures (1 as bv32) << (p - 1) == Mask(p)
  {
    if p == 1 {} else if p == 2 {} else if p == 3 {} else if p == 4 {}
    else if p == 5 {} else if p == 6 {} else if p == 7 {} else {}
  }

  /** Bit p - 1 of a byte, for 1 <= p <= 8. */
  function BitOf(next: byte, p: nat): bool
    requires 1 <= p <= 8
  {
    (next as bv32) & Mask(p) != 0
  }

  /** hash_data_update's loop from bit p - 1 down to bit 0. */
  function UpdateBits(h: bv32, next: byte, p: nat): bv32
    requires p <= 8
    decreases p
  {
    if p == 0 then h else UpdateBits(UpdateBit(h, BitOf(next, p)), next, p - 1)
  }

  const ByteBits: nat := 8

  /** The hash after feeding one byte, most significant bit first. */
  function UpdateByte(h: bv32, next: byte): bv32 {
    UpdateBits(h, next, ByteBits)
  }

  /** For a 9-bit hash, one step is "multiply by t, add the bit, reduce with f". */
  lemma UpdateBitIsF(h: bv32, bit: bool)
    requires h < 512
    ensures UpdateBit(h, bit) == F((h << 1) | (if bit then 1 else 0))
    ensures UpdateBit(h, bit) < 512
  {
  }

  /**
   * hash_data_update. Feeding a byte into a 9-bit hash keeps it a 9-bit
   * hash.
   */
  method HashDataUpdate(hd: HashData, next: byte) returns (r: HashData, h: bv32)
    ensures h == r.h == UpdateByte(hd.h, next)
    ensures hd.h < 512 ==> h < 512
  {
    h := hd.h;
    var p: nat := 8;
    while p > 0
      invariant p <= 8
      invariant UpdateBits(h, next, p) == UpdateByte(hd.h, next)
      invariant hd.h < 512 ==> h < 512
      decreases p
    {
      if h < 512 {
        UpdateBitIsF(h, BitOf(next, p));
      }
      h := ShiftInBit(h, next, p);
      p := p - 1;
    }
    r := HashData(h);
  }

  /** One round of hash_data_update's loop: bring in bit p - 1 of the byte. */
  method ShiftInBit(h0: bv32, next: byte, p: nat) returns (h: bv32)
    requires 1 <= p <= 8
    ensures h == UpdateBit(h0, BitOf(next, p))
  {
    h := h0 << 1;
    var mask: bv32 := (1 as bv32) << (p - 1);
    MaskIsShift(p);
    if mask & (next as bv32) != 0 {
      h := h | 1;
    }
    if h & 0x200 != 0 {
      h := h ^ IrreduciblePolynomial;
    }
  }

  /** The hash of a whole sequence of bytes, fed into a fresh state. */
  function RabinHash(s: seq<byte>): (r: bv32)
    ensures r < 512
  {
    if |s| == 0 then
      HashDataInit().h
    else
      UpdateByteBounded(RabinHash(s[..|s| - 1]), s[|s| - 1]);
      UpdateByte(RabinHash(s[..|s| - 1]), s[|s| - 1])
  }

  /** Hashing one more byte is one more update. */
  lemma RabinHashSnoc(s: seq<byte>, init: seq<byte>, last: byte)
    requires s == init + [last]
    ensures RabinHash(s) == UpdateByte(RabinHash(init), last)
  {
    assert s[..|s| - 1] == init;
  }

  lemma {:induction false} UpdateBitsBounded(h: bv32, next: byte, p: nat)
    requires h < 512 && p <= 8
    ensures UpdateBits(h, next, p) < 512
    decreases p
  {
    if p > 0 {
      UpdateBitIsF(h, BitOf(next, p));
      UpdateBitsBounded(UpdateBit(h, BitOf(next, p)), next, p - 1);
    }
  }

  lemma UpdateByteBounded(h: bv32, next: byte)
    requires h < 512
    ensures UpdateByte(h, next) < 512
  {
    UpdateBitsBounded(h, next, ByteBits);
  }

  /**
   * f_pow_t_l: t^l modulo the irreducible polynomial. Below degree 9 no
   * reduction is needed; otherwise the loop multiplies t^8 by t, l - 8
   * times, keeping bit 8 of the previous product in `quotient`.
   */
  method FPowTL(l: nat) returns (r: bv32)
    requires l < 0x1_0000_0000
    ensures r == TPow(l)
    ensures r <= 0x1FF
    ensures l < 9 ==> r == (1 as bv32) << l
  {
    if l < 9 {
      PowBelowDegree(l);
      return (1 as bv32) << l;
    }
    var partial: bv32 := 0;
    var quotient: bv32 := 1;
    // The source's do-while runs its body l + 1 - 9 >= 1 times.
    var remaining: nat := l - 8;
    assert TPow(8) == 256 by {
      PowBelowDegree(8);
    }
    while remaining > 0
      invariant remaining <= l - 8
      invariant quotient <= 1 && partial < 512
      invariant TPow(l - remaining) == partial | (quotient << 8)
      invariant remaining < l - 8 ==> quotient == partial >> 8
      invariant remaining == l - 8 ==> partial == 0 && quotient == 1
      decreases remaining
    {
      MulTStep(partial, quotient);
      partial := (partial << 1) & 0x1FF;
      if quotient != 0 {
        partial := partial ^ (IrreduciblePolynomial - 512);
      }
      quotient := partial >> 8;
      remaining := remaining - 1;
    }
    r := partial;
  }

  lemma {:induction false} PowBelowDegree(l: nat)
    requires l < 9
    ensures TPow(l) == (1 as bv32) << l
  {
    if l > 0 {
      PowBelowDegree(l - 1);
    }
  }

  /**
   * One round of f_pow_t_l's loop multiplies the 9-bit polynomial
   * `partial | quotient << 8` by t.
   */
  lemma MulTStep(partial: bv32, quotient: bv32)
    requires quotient <= 1 && partial < 512
    requires quotient == partial >> 8 || (partial == 0 && quotient == 1)
    ensures var next := ((partial << 1) & 0x1FF) ^ (if quotient != 0 then IrreduciblePolynomial - 512 else 0);
      next < 512 && MulT(partial | (quotient << 8)) == next | ((next >> 8) << 8)
  {
  }
}
