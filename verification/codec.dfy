/** The diff event produced by the scanner, and the 16-bit CIGAR word inside
    it: a 2-bit operation code in bits 14-15 and a 14-bit length in bits 0-13.

    The word is kept as an integer in [0, 0x10000); `BitsAreArithmetic` shows
    that the shift, or and mask of the packing macro compute exactly the
    multiplication, addition, division and remainder used here. */
module EventCodec {
  import opened Common

  /** Largest length the 14-bit field holds. */
  const MaxOpLen: nat := 0x3FFF

  /** Largest read or joint offset the 16-bit fields hold. */
  const MaxOffset: nat := 0xFFFF

  /** `x & 0xFFFF` on a two's-complement integer. */
  function Mask16(x: int): (r: U16)
    ensures 0 <= x <= MaxOffset ==> r == x
  {
    x % 0x1_0000
  }

  /** `CLAMPH(x, 0xFFFF) & 0xFFFF`: the 16-bit offsets stored in an event.
      The offset saturates; it never wraps round to a small value. */
  function Saturate16(x: nat): (r: U16)
    ensures r <= x
    ensures r == x <==> x <= MaxOffset
    ensures r != x ==> r == MaxOffset
  {
    Mask16(Clamp(x, MaxOffset))
  }

  /** Saturation preserves order, which a wrapping mask would not. */
  lemma Saturate16Monotone(x: nat, y: nat)
    requires x <= y
    ensures Saturate16(x) <= Saturate16(y)
  {
  }

  /** `PACK_CIG(op, len)`: the operation code above a 14-bit length clamped
      at 0x3FFF. The scanner only passes codes 0 to 3. */
  function PackCig(op: nat, len: nat): (cig: U16)
    requires op < 4
    ensures CigOp(cig) == op
    ensures CigLen(cig) == Min(len, MaxOpLen)
  {
    op * 0x4000 + Clamp(len, MaxOpLen) % 0x4000
  }

  /** `cig >> 14`: the operation code. */
  function CigOp(cig: U16): (op: nat)
    ensures op < 4
  {
    cig / 0x4000
  }

  /** `cig & 0x3FFF`: the operation length. */
  function CigLen(cig: U16): (len: nat)
    ensures len <= MaxOpLen
  {
    cig % 0x4000
  }

  /** Every 16-bit word is the packing of its own operation and length, so
      with `PackCig`'s contract packing and unpacking are mutually inverse on
      clamped lengths. */
  lemma UnpackRepack(cig: U16)
    ensures PackCig(CigOp(cig), CigLen(cig)) == cig
  {
  }

  /** Two packed words are equal exactly when their codes and clamped lengths
      are, so no information beyond the clamp is lost. */
  lemma PackCigInjective(op1: nat, len1: nat, op2: nat, len2: nat)
    requires op1 < 4 && op2 < 4
    ensures PackCig(op1, len1) == PackCig(op2, len2)
        <==> op1 == op2 && Min(len1, MaxOpLen) == Min(len2, MaxOpLen)
  {
    if PackCig(op1, len1) == PackCig(op2, len2) {
      assert CigOp(PackCig(op1, len1)) == CigOp(PackCig(op2, len2));
      assert CigLen(PackCig(op1, len1)) == CigLen(PackCig(op2, len2));
    }
  }

  /** On a 16-bit word, `(op << 14) | len` for a 2-bit code and 14-bit length
      is `op * 0x4000 + len`, and `>> 14` and `& 0x3FFF` are division and
      remainder by 0x4000. */
  lemma BitsAreArithmetic(op: bv16, len: bv16, w: bv16)
    requires op < 4 && len < 0x4000
    ensures (op << 14) | len == op * 0x4000 + len
    ensures w >> 14 == w / 0x4000
    ensures w & 0x3FFF == w % 0x4000
  {
  }

  /** One reference-disagreement event: the absolute reference position, the
      saturated offset into the read, the saturated offset along the joint
      read/reference alignment, and the packed CIGAR word. */
  datatype Event = Event(refPos: int, readPos: U16, jointPos: U16, cig: U16)
  {
    function Op(): nat { CigOp(cig) }
    function Len(): nat { CigLen(cig) }
  }
}
