/**
 * Arithmetic in the finite field GF(2^8) of FIPS 197, section 4, and the S-box of section 5.1.1.
 *
 * A byte is a bit vector in a one-field datatype, so that the algebraic proofs can treat bytes as
 * plain values: each lemma either looks at the bits or hides them and works by equations.
 */
module Gf256 {

  datatype Byte = Byte(v: bv8)

  const ZERO := Byte(0)
  const ONE := Byte(1)

  /** The table index a byte stands for. */
  function Ix(b: Byte): (n: nat)
    ensures n < 256
  {
    b.v as int
  }

  function OfIx(n: nat): Byte
    requires n < 256
  {
    Byte(n as bv8)
  }

  lemma OfIxIx(b: Byte)
    ensures OfIx(Ix(b)) == b
  {}

  lemma IncBits(b: bv8)
    requires b != 0xff
    ensures (b + 1) as int == b as int + 1
  {}

  lemma BitsOfInt(b: bv8)
    ensures (b as int) as bv8 == b
  {}

  lemma {:induction false} IntRoundTrip(n: nat)
    requires n < 256
    ensures (n as bv8) as int == n
  {
    if n > 0 {
      IntRoundTrip(n - 1);
      IncBits((n - 1) as bv8);
      BitsOfInt(((n - 1) as bv8) + 1);
    }
  }

  lemma IxOfIx(n: nat)
    requires n < 256
    ensures Ix(OfIx(n)) == n
  {
    IntRoundTrip(n);
  }

  lemma IxInjective(a: Byte, b: Byte)
    requires Ix(a) == Ix(b)
    ensures a == b
  {
    hide Ix, OfIx;
    OfIxIx(a);
    OfIxIx(b);
  }

  // ----- Addition and multiplication (FIPS 197, sections 4.1 and 4.2) -----

  function Xor(a: Byte, b: Byte): Byte {
    Byte(a.v ^ b.v)
  }

  /** Multiplication by x, modulo x^8 + x^4 + x^3 + x + 1. */
  function XTime(x: Byte): Byte {
    Byte((x.v << 1) ^ ((x.v >> 7) * 0x1b))
  }

  /** y when the lowest bit of a is set, otherwise 0. */
  function Low(a: Byte, y: Byte): Byte {
    Byte((a.v & 1) * y.v)
  }

  function Half(a: Byte): Byte {
    Byte(a.v >> 1)
  }

  /** The sum of XTime^i(y) over the set bits i < n of a. */
  function Product(n: nat, a: Byte, y: Byte): Byte {
    if n == 0 then ZERO else Xor(Low(a, y), Product(n - 1, Half(a), XTime(y)))
  }

  function Mul(a: Byte, b: Byte): Byte {
    Product(8, a, b)
  }

  // ----- The generator 3 -----

  function Times3(x: Byte): Byte {
    Xor(x, XTime(x))
  }

  function Pow3(n: nat): Byte {
    if n == 0 then ONE else Times3(Pow3(n - 1))
  }

  lemma XorSwap(x: Byte, y: Byte, p: Byte, q: Byte)
    ensures Xor(Xor(x, y), Xor(p, q)) == Xor(Xor(x, p), Xor(y, q))
  {}

  lemma XorZero(x: Byte)
    ensures Xor(x, ZERO) == x && Xor(ZERO, x) == x
  {}

  lemma XTimeXor(x: Byte, y: Byte)
    ensures XTime(Xor(x, y)) == Xor(XTime(x), XTime(y))
  {}

  lemma Times3Xor(x: Byte, y: Byte)
    ensures Times3(Xor(x, y)) == Xor(Times3(x), Times3(y))
  {
    hide XTime, Xor;
    XTimeXor(x, y);
    XorSwap(x, y, XTime(x), XTime(y));
  }

  lemma Times3XTime(x: Byte)
    ensures Times3(XTime(x)) == XTime(Times3(x))
  {
    hide XTime, Xor;
    XTimeXor(x, XTime(x));
  }

  lemma Times3Injective(x: Byte, y: Byte)
    requires Times3(x) == Times3(y)
    ensures x == y
  {}

  lemma Times3Zero(x: Byte)
    ensures Times3(x) == ZERO <==> x == ZERO
  {}

  lemma Times3Low(a: Byte, x: Byte)
    ensures Times3(Low(a, x)) == Low(a, Times3(x))
  {}

  lemma {:induction false} ProductTimes3(n: nat, a: Byte, y: Byte)
    ensures Product(n, a, Times3(y)) == Times3(Product(n, a, y))
  {
    hide XTime, Times3, Low, Half, Xor, ZERO;
    if n == 0 {
      Times3Zero(ZERO);
    } else {
      ProductTimes3(n - 1, Half(a), XTime(y));
      Times3XTime(y);
      Times3Low(a, y);
      Times3Xor(Low(a, y), Product(n - 1, Half(a), XTime(y)));
    }
  }

  lemma MulTimes3(a: Byte, y: Byte)
    ensures Mul(a, Times3(y)) == Times3(Mul(a, y))
  {
    ProductTimes3(8, a, y);
  }

  lemma {:induction false} ProductZero(n: nat, a: Byte)
    ensures Product(n, a, ZERO) == ZERO
  {
    if n > 0 {
      hide Half;
      assert XTime(ZERO) == ZERO && Low(a, ZERO) == ZERO;
      ProductZero(n - 1, Half(a));
      XorZero(ZERO);
    }
  }
  lemma {:induction false} ProductOfZero(n: nat, y: Byte)
    ensures Product(n, ZERO, y) == ZERO
  {
    if n > 0 {
      hide XTime;
      assert Half(ZERO) == ZERO && Low(ZERO, y) == ZERO;
      ProductOfZero(n - 1, XTime(y));
      XorZero(ZERO);
    }
  }

  /** The byte b moved up by k bits, what leaves the byte being dropped; Shl(ONE, k) is bit k. */
  function Shl(b: Byte, k: bv8): Byte
    requires k <= 8
  {
    Byte(b.v << k)
  }

  lemma ShlStep(b: Byte, k: bv8)
    requires k < 8
    ensures Xor(Low(b, Shl(ONE, k)), Shl(Half(b), k + 1)) == Shl(b, k)
  {}

  lemma XTimeShl(k: bv8)
    requires k < 7
    ensures XTime(Shl(ONE, k)) == Shl(ONE, k + 1)
  {}

  lemma ShlEnds(b: Byte)
    ensures Shl(b, 8) == ZERO && Shl(b, 0) == b
  {}

  /** n bits of the second factor are left and k have gone. */
  predicate Split(n: nat, k: bv8) {
    n <= 8 && k == (8 - n) as bv8
  }

  lemma SplitStep(n: nat, k: bv8)
    requires Split(n, k)
    ensures k <= 8 && (k == 8 <==> n == 0) && (k == 7 <==> n == 1)
    ensures n > 0 ==> Split(n - 1, k + 1)
  {
    assert n == 0 || n == 1 || n == 2 || n == 3 || n == 4 || n == 5 || n == 6 || n == 7 || n == 8;
  }

  lemma {:induction false} ProductShl(n: nat, k: bv8, b: Byte)
    requires Split(n, k)
    ensures k <= 8 && Product(n, b, Shl(ONE, k)) == Shl(b, k)
  {
    hide Shl, XTime, Xor, Low, Half, Split;
    SplitStep(n, k);
    if n == 0 {
      ShlEnds(b);
    } else {
      ShlStep(b, k);
      ProductShl(n - 1, k + 1, Half(b));
      if k < 7 { XTimeShl(k); }
    }
  }

  lemma MulOne(a: Byte)
    ensures Mul(a, ONE) == a
  {
    assert Split(8, 0);
    ProductShl(8, 0, a);
    ShlEnds(a);
    ShlEnds(ONE);
  }

  // ----- Multiplication by the constants of MixColumns and its inverse -----

  lemma LowBit(a: Byte, y: Byte)
    ensures Low(a, y) == if a.v & 1 == 1 then y else ZERO
  {}

  lemma OddStep(n: nat, a: bv8, y: Byte)
    requires n > 0 && a & 1 == 1
    ensures Product(n, Byte(a), y) == Xor(y, Product(n - 1, Byte(a >> 1), XTime(y)))
  {
    hide XTime, Low, Xor;
    LowBit(Byte(a), y);
  }

  lemma EvenStep(n: nat, a: bv8, y: Byte)
    requires n > 0 && a & 1 == 0
    ensures Product(n, Byte(a), y) == Product(n - 1, Byte(a >> 1), XTime(y))
  {
    hide XTime, Low, Xor;
    LowBit(Byte(a), y);
    XorZero(Product(n - 1, Byte(a >> 1), XTime(y)));
  }

  lemma LastStep(n: nat, y: Byte)
    requires n > 0
    ensures Product(n, ONE, y) == y
  {
    hide XTime, Xor;
    OddStep(n, 1, y);
    ProductOfZero(n - 1, XTime(y));
    XorZero(y);
  }

  lemma MulBy2And3(x: Byte)
    ensures Mul(Byte(2), x) == XTime(x)
    ensures Mul(Byte(3), x) == Xor(x, XTime(x))
  {
    hide XTime, Product, Xor;
    EvenStep(8, 2, x);
    OddStep(8, 3, x);
    LastStep(7, XTime(x));
  }

  lemma MulBy9And11(x: Byte)
    ensures Mul(Byte(9), x) == Xor(x, XTime(XTime(XTime(x))))
    ensures Mul(Byte(11), x) == Xor(x, Xor(XTime(x), XTime(XTime(XTime(x)))))
  {
    hide XTime, Product, Xor;
    var x1 := XTime(x);
    var x2 := XTime(x1);
    OddStep(8, 9, x); EvenStep(7, 4, x1); EvenStep(6, 2, x2);
    OddStep(8, 11, x); OddStep(7, 5, x1);
    LastStep(5, XTime(x2));
  }

  lemma MulBy13And14(x: Byte)
    ensures Mul(Byte(13), x) == Xor(x, Xor(XTime(XTime(x)), XTime(XTime(XTime(x)))))
    ensures Mul(Byte(14), x) == Xor(XTime(x), Xor(XTime(XTime(x)), XTime(XTime(XTime(x)))))
  {
    hide XTime, Product, Xor;
    var x1 := XTime(x);
    var x2 := XTime(x1);
    OddStep(8, 13, x); EvenStep(7, 6, x1); OddStep(6, 3, x2);
    EvenStep(8, 14, x); OddStep(7, 7, x1);
    LastStep(5, XTime(x2));
  }
}
