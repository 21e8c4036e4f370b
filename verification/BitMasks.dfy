/** The one-byte masks in which spent addresses are recorded, eight addresses to a mask. */
module BitMasks {

  type BitMask = bv8

  function Bit(pos: nat): BitMask
    requires pos < 8
  {
    (1 as bv8) << pos
  }

  function SetBit(mask: BitMask, pos: nat): BitMask
    requires pos < 8
  {
    mask | Bit(pos)
  }

  predicate HasBit(mask: BitMask, pos: nat)
    requires pos < 8
  {
    mask & Bit(pos) != 0
  }

  lemma BitTable()
    ensures Bit(0) == 1 && Bit(1) == 2 && Bit(2) == 4 && Bit(3) == 8
    ensures Bit(4) == 16 && Bit(5) == 32 && Bit(6) == 64 && Bit(7) == 128
  {
  }

  /** Setting a bit sets that bit and no other. */
  lemma SetBitSetsOneBit(mask: BitMask, p: nat, q: nat)
    requires p < 8 && q < 8
    ensures HasBit(SetBit(mask, p), q) <==> p == q || HasBit(mask, q)
  {
    BitTable();
    OrAnd(mask, Bit(p), Bit(q));
    if p != q {
      assert Bit(p) & Bit(q) == 0;
    }
  }

  lemma OrAnd(m: bv8, a: bv8, b: bv8)
    ensures (m | a) & b == (m & b) | (a & b)
  {
  }

  lemma EmptyMask(p: nat)
    requires p < 8
    ensures !HasBit(0, p)
  {
  }
}
