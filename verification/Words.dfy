/**
 * 32-bit words of the cipher. A u4byte is kept as its four bytes, the lowest first, which is how the
 * cipher loads, indexes and rotates it; ToBits gives the number itself where the code computes with it.
 */
module Words {
  import opened Gf256

  datatype Word = Word(b0: Byte, b1: Byte, b2: Byte, b3: Byte)

  const WZERO := Word(ZERO, ZERO, ZERO, ZERO)

  function XorW(a: Word, b: Word): Word {
    Word(Xor(a.b0, b.b0), Xor(a.b1, b.b1), Xor(a.b2, b.b2), Xor(a.b3, b.b3))
  }

  /** rotl(x, 8 * k) and rotr(x, 8 * k): the cipher rotates by whole bytes only. */
  function RotL(x: Word, k: nat): Word
    requires k < 4
  {
    match k
    case 0 => x
    case 1 => Word(x.b3, x.b0, x.b1, x.b2)
    case 2 => Word(x.b2, x.b3, x.b0, x.b1)
    case _ => Word(x.b1, x.b2, x.b3, x.b0)
  }

  function RotR(x: Word, k: nat): Word
    requires 0 < k < 4
  {
    RotL(x, 4 - k)
  }

  // ----- The same operations on the 32-bit number -----

  function ToBits(w: Word): bv32 {
    (w.b0.v as bv32) | ((w.b1.v as bv32) << 8) | ((w.b2.v as bv32) << 16) | ((w.b3.v as bv32) << 24)
  }

  function OfBits(x: bv32): Word {
    Word(Byte((x & 0xff) as bv8), Byte(((x >> 8) & 0xff) as bv8),
         Byte(((x >> 16) & 0xff) as bv8), Byte(((x >> 24) & 0xff) as bv8))
  }

  lemma OfToBits(w: Word, x: bv32)
    ensures OfBits(ToBits(w)) == w && ToBits(OfBits(x)) == x
  {}

  lemma XorIsBitwise(a: Word, b: Word)
    ensures ToBits(XorW(a, b)) == ToBits(a) ^ ToBits(b)
  {}

  lemma RotL8IsRotation(x: Word)
    ensures ToBits(RotL(x, 1)) == (ToBits(x) << 8) | (ToBits(x) >> 24)
  {}

  lemma RotL16IsRotation(x: Word)
    ensures ToBits(RotL(x, 2)) == (ToBits(x) << 16) | (ToBits(x) >> 16)
  {}

  lemma RotL24IsRotation(x: Word)
    ensures ToBits(RotL(x, 3)) == (ToBits(x) << 24) | (ToBits(x) >> 8)
  {}

  /** star_x: doubling in GF(2^8) of all four bytes at once. */
  function StarX(x: Word): Word {
    OfBits(((ToBits(x) & 0x7f7f7f7f) << 1) ^ (((ToBits(x) & 0x80808080) >> 7) * 0x1b))
  }

  lemma StarXDoublesEachByte(x: Word)
    ensures StarX(x) == Word(XTime(x.b0), XTime(x.b1), XTime(x.b2), XTime(x.b3))
  {}
}
