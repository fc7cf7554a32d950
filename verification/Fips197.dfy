/**
 * The cipher as FIPS 197 defines it: Cipher (5.1), KeyExpansion (5.2), InvCipher (5.3) and the
 * equivalent inverse cipher (5.3.5), with the proofs that the inverse ciphers undo the cipher.
 */
module Fips197 {
  import opened Gf256
  import opened Generator
  import opened Words

  /** The 4x4 state; column c holds bytes s[0,c] .. s[3,c], the lowest byte of the word first. */
  datatype State = State(c0: Word, c1: Word, c2: Word, c3: Word)

  ghost function SubWord(w: Word): Word {
    Word(SBox(w.b0), SBox(w.b1), SBox(w.b2), SBox(w.b3))
  }

  ghost function InvSubWord(w: Word): Word {
    Word(InvSBox(w.b0), InvSBox(w.b1), InvSBox(w.b2), InvSBox(w.b3))
  }

  ghost function SubBytes(s: State): State {
    State(SubWord(s.c0), SubWord(s.c1), SubWord(s.c2), SubWord(s.c3))
  }

  ghost function InvSubBytes(s: State): State {
    State(InvSubWord(s.c0), InvSubWord(s.c1), InvSubWord(s.c2), InvSubWord(s.c3))
  }

  /** Row r moves r places to the left. */
  function ShiftRows(s: State): State {
    State(Word(s.c0.b0, s.c1.b1, s.c2.b2, s.c3.b3),
          Word(s.c1.b0, s.c2.b1, s.c3.b2, s.c0.b3),
          Word(s.c2.b0, s.c3.b1, s.c0.b2, s.c1.b3),
          Word(s.c3.b0, s.c0.b1, s.c1.b2, s.c2.b3))
  }

  function InvShiftRows(s: State): State {
    State(Word(s.c0.b0, s.c3.b1, s.c2.b2, s.c1.b3),
          Word(s.c1.b0, s.c0.b1, s.c3.b2, s.c2.b3),
          Word(s.c2.b0, s.c1.b1, s.c0.b2, s.c3.b3),
          Word(s.c3.b0, s.c2.b1, s.c1.b2, s.c0.b3))
  }

  function Xor4(a: Byte, b: Byte, c: Byte, d: Byte): Byte {
    Xor(Xor(a, b), Xor(c, d))
  }

  function MixColumn(w: Word): Word {
    Word(Xor4(Mul(Byte(2), w.b0), Mul(Byte(3), w.b1), w.b2, w.b3),
         Xor4(w.b0, Mul(Byte(2), w.b1), Mul(Byte(3), w.b2), w.b3),
         Xor4(w.b0, w.b1, Mul(Byte(2), w.b2), Mul(Byte(3), w.b3)),
         Xor4(Mul(Byte(3), w.b0), w.b1, w.b2, Mul(Byte(2), w.b3)))
  }

  function InvMixColumn(w: Word): Word {
    Word(Xor4(Mul(Byte(14), w.b0), Mul(Byte(11), w.b1), Mul(Byte(13), w.b2), Mul(Byte(9), w.b3)),
         Xor4(Mul(Byte(9), w.b0), Mul(Byte(14), w.b1), Mul(Byte(11), w.b2), Mul(Byte(13), w.b3)),
         Xor4(Mul(Byte(13), w.b0), Mul(Byte(9), w.b1), Mul(Byte(14), w.b2), Mul(Byte(11), w.b3)),
         Xor4(Mul(Byte(11), w.b0), Mul(Byte(13), w.b1), Mul(Byte(9), w.b2), Mul(Byte(14), w.b3)))
  }

  function MixColumns(s: State): State {
    State(MixColumn(s.c0), MixColumn(s.c1), MixColumn(s.c2), MixColumn(s.c3))
  }

  function InvMixColumns(s: State): State {
    State(InvMixColumn(s.c0), InvMixColumn(s.c1), InvMixColumn(s.c2), InvMixColumn(s.c3))
  }

  function AddRoundKey(s: State, k: State): State {
    State(XorW(s.c0, k.c0), XorW(s.c1, k.c1), XorW(s.c2, k.c2), XorW(s.c3, k.c3))
  }

  /** The r-th round key of a schedule. */
  function RoundKey(w: seq<Word>, r: nat): State
    requires 4 * r + 4 <= |w|
  {
    State(w[4 * r], w[4 * r + 1], w[4 * r + 2], w[4 * r + 3])
  }

  // ----- Cipher and InvCipher -----

  ghost function Round(s: State, k: State): State {
    AddRoundKey(MixColumns(ShiftRows(SubBytes(s))), k)
  }

  /** The state after r full rounds. */
  ghost function Rounds(w: seq<Word>, s: State, r: nat): State
    requires 4 * r + 4 <= |w|
  {
    if r == 0 then AddRoundKey(s, RoundKey(w, 0))
    else Round(Rounds(w, s, r - 1), RoundKey(w, r))
  }

  ghost function Cipher(w: seq<Word>, nr: nat, s: State): State
    requires 0 < nr && 4 * nr + 4 <= |w|
  {
    AddRoundKey(ShiftRows(SubBytes(Rounds(w, s, nr - 1))), RoundKey(w, nr))
  }

  /** The state of the inverse cipher just before it undoes the row shift of round r. */
  ghost function InvRounds(w: seq<Word>, nr: nat, t: State, r: nat): State
    requires r <= nr && 4 * nr + 4 <= |w|
    decreases nr - r
  {
    if r == nr then AddRoundKey(t, RoundKey(w, nr))
    else InvMixColumns(AddRoundKey(InvSubBytes(InvShiftRows(InvRounds(w, nr, t, r + 1))), RoundKey(w, r)))
  }

  ghost function InvCipher(w: seq<Word>, nr: nat, t: State): State
    requires 0 < nr && 4 * nr + 4 <= |w|
  {
    AddRoundKey(InvSubBytes(InvShiftRows(InvRounds(w, nr, t, 1))), RoundKey(w, 0))
  }

  // ----- Equivalent inverse cipher -----

  ghost function InvRound(s: State, k: State): State {
    AddRoundKey(InvMixColumns(InvShiftRows(InvSubBytes(s))), k)
  }

  ghost function EqRounds(w: seq<Word>, dw: seq<Word>, nr: nat, t: State, r: nat): State
    requires r <= nr && 4 * nr + 4 <= |w| && 4 * nr <= |dw|
    decreases nr - r
  {
    if r == nr then AddRoundKey(t, RoundKey(w, nr))
    else InvRound(EqRounds(w, dw, nr, t, r + 1), RoundKey(dw, r))
  }

  ghost function EqInvCipher(w: seq<Word>, dw: seq<Word>, nr: nat, t: State): State
    requires 0 < nr && 4 * nr + 4 <= |w| && 4 * nr <= |dw|
  {
    AddRoundKey(InvShiftRows(InvSubBytes(EqRounds(w, dw, nr, t, 1))), RoundKey(dw, 0))
  }

  /** dw is the decryption schedule of w: the middle round keys through InvMixColumns. */
  ghost predicate IsDecryptionSchedule(w: seq<Word>, dw: seq<Word>, nr: nat) {
    && 0 < nr && 4 * nr + 4 <= |w| && 4 * nr <= |dw|
    && RoundKey(dw, 0) == RoundKey(w, 0)
    && forall r :: 0 < r < nr ==> RoundKey(dw, r) == InvMixColumns(RoundKey(w, r))
  }

  // ----- Column algebra -----

  /** What one byte of a column adds to its mixed column, before the byte's place rotates it. */
  function MixOne(a: Byte): Word {
    Word(Mul(Byte(2), a), a, a, Mul(Byte(3), a))
  }

  function InvMixOne(a: Byte): Word {
    Word(Mul(Byte(14), a), Mul(Byte(9), a), Mul(Byte(13), a), Mul(Byte(11), a))
  }

  function XorW4(a: Word, b: Word, c: Word, d: Word): Word {
    XorW(XorW(a, b), XorW(c, d))
  }

  lemma MixColumnByBytes(w: Word)
    ensures MixColumn(w)
         == XorW4(MixOne(w.b0), RotL(MixOne(w.b1), 1), RotL(MixOne(w.b2), 2), RotL(MixOne(w.b3), 3))
  {
    hide Mul, Xor;
  }

  lemma InvMixColumnByBytes(w: Word)
    ensures InvMixColumn(w)
         == XorW4(InvMixOne(w.b0), RotL(InvMixOne(w.b1), 1), RotL(InvMixOne(w.b2), 2), RotL(InvMixOne(w.b3), 3))
  {
    hide Mul, Xor;
  }

  lemma {:induction false} ProductXor(n: nat, a: Byte, x: Byte, y: Byte)
    ensures Product(n, a, Xor(x, y)) == Xor(Product(n, a, x), Product(n, a, y))
  {
    if n == 0 {
      XorZero(ZERO);
    } else {
      LowXor(a, x, y);
      hide Xor, XTime, Low, Half, ZERO;
      XTimeXor(x, y);
      ProductXor(n - 1, Half(a), XTime(x), XTime(y));
      XorSwap(Low(a, x), Low(a, y), Product(n - 1, Half(a), XTime(x)), Product(n - 1, Half(a), XTime(y)));
    }
  }

  lemma LowXor(a: Byte, x: Byte, y: Byte)
    ensures Low(a, Xor(x, y)) == Xor(Low(a, x), Low(a, y))
  {
    hide Low, Xor;
    LowBit(a, x);
    LowBit(a, y);
    LowBit(a, Xor(x, y));
    XorZero(ZERO);
  }

  lemma MulXor(a: Byte, x: Byte, y: Byte)
    ensures Mul(a, Xor(x, y)) == Xor(Mul(a, x), Mul(a, y))
  {
    ProductXor(8, a, x, y);
  }

  lemma Xor4Xor(a: Byte, b: Byte, c: Byte, d: Byte, p: Byte, q: Byte, r: Byte, s: Byte)
    ensures Xor4(Xor(a, p), Xor(b, q), Xor(c, r), Xor(d, s)) == Xor(Xor4(a, b, c, d), Xor4(p, q, r, s))
  {
    hide Xor;
    XorSwap(a, p, b, q);
    XorSwap(c, r, d, s);
    XorSwap(Xor(a, b), Xor(p, q), Xor(c, d), Xor(r, s));
  }

  lemma WordMulXor(c: Byte, a: Word, b: Word)
    ensures Mul(c, Xor(a.b0, b.b0)) == Xor(Mul(c, a.b0), Mul(c, b.b0))
    ensures Mul(c, Xor(a.b1, b.b1)) == Xor(Mul(c, a.b1), Mul(c, b.b1))
    ensures Mul(c, Xor(a.b2, b.b2)) == Xor(Mul(c, a.b2), Mul(c, b.b2))
    ensures Mul(c, Xor(a.b3, b.b3)) == Xor(Mul(c, a.b3), Mul(c, b.b3))
  {
    hide Mul, Xor;
    MulXor(c, a.b0, b.b0);
    MulXor(c, a.b1, b.b1);
    MulXor(c, a.b2, b.b2);
    MulXor(c, a.b3, b.b3);
  }

  /** InvMixColumns is linear, the fact behind the equivalent inverse cipher. */
  lemma InvMixColumnXor(a: Word, b: Word)
    ensures InvMixColumn(XorW(a, b)) == XorW(InvMixColumn(a), InvMixColumn(b))
  {
    hide Mul, Xor, Xor4;
    WordMulXor(Byte(14), a, b);
    WordMulXor(Byte(11), a, b);
    WordMulXor(Byte(13), a, b);
    WordMulXor(Byte(9), a, b);
    Xor4Xor(Mul(Byte(14), a.b0), Mul(Byte(11), a.b1), Mul(Byte(13), a.b2), Mul(Byte(9), a.b3),
            Mul(Byte(14), b.b0), Mul(Byte(11), b.b1), Mul(Byte(13), b.b2), Mul(Byte(9), b.b3));
    Xor4Xor(Mul(Byte(9), a.b0), Mul(Byte(14), a.b1), Mul(Byte(11), a.b2), Mul(Byte(13), a.b3),
            Mul(Byte(9), b.b0), Mul(Byte(14), b.b1), Mul(Byte(11), b.b2), Mul(Byte(13), b.b3));
    Xor4Xor(Mul(Byte(13), a.b0), Mul(Byte(9), a.b1), Mul(Byte(14), a.b2), Mul(Byte(11), a.b3),
            Mul(Byte(13), b.b0), Mul(Byte(9), b.b1), Mul(Byte(14), b.b2), Mul(Byte(11), b.b3));
    Xor4Xor(Mul(Byte(11), a.b0), Mul(Byte(13), a.b1), Mul(Byte(9), a.b2), Mul(Byte(14), a.b3),
            Mul(Byte(11), b.b0), Mul(Byte(13), b.b1), Mul(Byte(9), b.b2), Mul(Byte(14), b.b3));
  }

  lemma Xor4Turn(a: Byte, b: Byte, c: Byte, d: Byte)
    ensures Xor4(d, a, b, c) == Xor4(a, b, c, d)
  {}

  lemma InvMixColumnRotL1(w: Word)
    ensures InvMixColumn(RotL(w, 1)) == RotL(InvMixColumn(w), 1)
  {
    hide Mul, Xor4;
    Xor4Turn(Mul(Byte(11), w.b0), Mul(Byte(13), w.b1), Mul(Byte(9), w.b2), Mul(Byte(14), w.b3));
    Xor4Turn(Mul(Byte(14), w.b0), Mul(Byte(11), w.b1), Mul(Byte(13), w.b2), Mul(Byte(9), w.b3));
    Xor4Turn(Mul(Byte(9), w.b0), Mul(Byte(14), w.b1), Mul(Byte(11), w.b2), Mul(Byte(13), w.b3));
    Xor4Turn(Mul(Byte(13), w.b0), Mul(Byte(9), w.b1), Mul(Byte(14), w.b2), Mul(Byte(11), w.b3));
  }

  lemma InvMixColumnRotL(w: Word, k: nat)
    requires k < 4
    ensures InvMixColumn(RotL(w, k)) == RotL(InvMixColumn(w), k)
    decreases k
  {
    if k == 0 {
      RotL0(w);
      RotL0(InvMixColumn(w));
    } else {
      RotLStep(w, k);
      RotLStep(InvMixColumn(w), k);
      hide InvMixColumn, RotL;
      InvMixColumnRotL(w, k - 1);
      InvMixColumnRotL1(RotL(w, k - 1));
    }
  }

  lemma RotL0(w: Word)
    ensures RotL(w, 0) == w
  {}

  lemma RotLStep(w: Word, k: nat)
    requires 0 < k < 4
    ensures RotL(w, k) == RotL(RotL(w, k - 1), 1)
  {}

  // The two column matrices multiply to the identity: one byte at a time, in doublings of that byte.

  lemma Xor2Bits(p: Byte, q: Byte)
    ensures Xor(p, q).v == p.v ^ q.v
  {}

  lemma Xor3Bits(p: Byte, q: Byte, r: Byte)
    ensures Xor(p, Xor(q, r)).v == p.v ^ (q.v ^ r.v)
  {}

  lemma Xor4Bits(p: Byte, q: Byte, r: Byte, s: Byte)
    ensures Xor4(p, q, r, s).v == (p.v ^ q.v) ^ (r.v ^ s.v)
  {}

  lemma Xor6Bits(p: Byte, q: Byte, r: Byte, s: Byte, t: Byte, u: Byte)
    ensures Xor(Xor(p, q), Xor(Xor(r, s), Xor(t, u))).v == (p.v ^ q.v) ^ ((r.v ^ s.v) ^ (t.v ^ u.v))
  {}

  /** Doubling 3x three times. */
  lemma DoublingsOf3x(x: Byte, x1: Byte, x2: Byte, x3: Byte, x4: Byte)
    requires x1 == XTime(x) && x2 == XTime(x1) && x3 == XTime(x2) && x4 == XTime(x3)
    ensures XTime(Xor(x, x1)) == Xor(x1, x2) && XTime(Xor(x1, x2)) == Xor(x2, x3)
    ensures XTime(Xor(x2, x3)) == Xor(x3, x4)
  {
    hide XTime, Xor;
    XTimeXor(x, x1);
    XTimeXor(x1, x2);
    XTimeXor(x2, x3);
  }

  lemma Xor22Bits(p: Byte, q: Byte, r: Byte, s: Byte)
    ensures Xor(Xor(p, q), Xor(r, s)).v == (p.v ^ q.v) ^ (r.v ^ s.v)
  {}

  lemma Row0Bits(x: bv8, x1: bv8, x2: bv8, x3: bv8, x4: bv8, p: bv8, q: bv8, r: bv8, s: bv8, t: bv8)
    requires p == x2 ^ (x3 ^ x4) && q == x ^ (x1 ^ x3)
    requires r == x ^ (x2 ^ x3) && s == (x ^ x1) ^ (x3 ^ x4)
    requires t == (p ^ q) ^ (r ^ s)
    ensures t == x
  {}

  lemma Row0Sum(x: Byte, x1: Byte, x2: Byte, x3: Byte, x4: Byte)
    ensures Xor4(Xor(x2, Xor(x3, x4)), Xor(x, Xor(x1, x3)),
                 Xor(x, Xor(x2, x3)), Xor(Xor(x, x1), Xor(x3, x4))).v == x.v
  {
    hide *;
    var p, q := Xor(x2, Xor(x3, x4)), Xor(x, Xor(x1, x3));
    var r, s := Xor(x, Xor(x2, x3)), Xor(Xor(x, x1), Xor(x3, x4));
    Xor3Bits(x2, x3, x4); Xor3Bits(x, x1, x3);
    Xor3Bits(x, x2, x3); Xor22Bits(x, x1, x3, x4);
    Xor4Bits(p, q, r, s);
    Row0Bits(x.v, x1.v, x2.v, x3.v, x4.v, p.v, q.v, r.v, s.v, Xor4(p, q, r, s).v);
  }

  lemma Row0(x: Byte)
    ensures Xor4(Mul(Byte(14), Mul(Byte(2), x)), Mul(Byte(11), x), Mul(Byte(13), x), Mul(Byte(9), Mul(Byte(3), x))) == x
  {
    hide Mul, XTime, Xor, Xor4;
    var x1 := XTime(x);
    var x2 := XTime(x1);
    var x3 := XTime(x2);
    var x4 := XTime(x3);
    DoublingsOf3x(x, x1, x2, x3, x4);
    MulBy2And3(x);
    MulBy13And14(x);
    MulBy13And14(x1);
    MulBy9And11(Xor(x, x1));
    MulBy9And11(x);
    Row0Sum(x, x1, x2, x3, x4);
  }

  lemma Row1Bits(x: bv8, x1: bv8, x2: bv8, x3: bv8, x4: bv8, p: bv8, q: bv8, r: bv8, s: bv8, t: bv8)
    requires p == x1 ^ x4 && q == x1 ^ (x2 ^ x3)
    requires r == x ^ (x1 ^ x3) && s == (x ^ x1) ^ ((x2 ^ x3) ^ (x3 ^ x4))
    requires t == (p ^ q) ^ (r ^ s)
    ensures t == 0
  {}

  lemma Row1Sum(x: Byte, x1: Byte, x2: Byte, x3: Byte, x4: Byte)
    ensures Xor4(Xor(x1, x4), Xor(x1, Xor(x2, x3)),
                 Xor(x, Xor(x1, x3)), Xor(Xor(x, x1), Xor(Xor(x2, x3), Xor(x3, x4)))).v == 0
  {
    hide *;
    var p, q := Xor(x1, x4), Xor(x1, Xor(x2, x3));
    var r, s := Xor(x, Xor(x1, x3)), Xor(Xor(x, x1), Xor(Xor(x2, x3), Xor(x3, x4)));
    Xor2Bits(x1, x4); Xor3Bits(x1, x2, x3);
    Xor3Bits(x, x1, x3); Xor6Bits(x, x1, x2, x3, x3, x4);
    Xor4Bits(p, q, r, s);
    Row1Bits(x.v, x1.v, x2.v, x3.v, x4.v, p.v, q.v, r.v, s.v, Xor4(p, q, r, s).v);
  }

  lemma Row1(x: Byte)
    ensures Xor4(Mul(Byte(9), Mul(Byte(2), x)), Mul(Byte(14), x), Mul(Byte(11), x), Mul(Byte(13), Mul(Byte(3), x)))
      == ZERO
  {
    hide Mul, XTime, Xor, Xor4;
    var x1 := XTime(x);
    var x2 := XTime(x1);
    var x3 := XTime(x2);
    var x4 := XTime(x3);
    DoublingsOf3x(x, x1, x2, x3, x4);
    MulBy2And3(x);
    MulBy13And14(Xor(x, x1));
    MulBy13And14(x);
    MulBy9And11(x);
    MulBy9And11(x1);
    Row1Sum(x, x1, x2, x3, x4);
  }

  lemma Row2Bits(x: bv8, x1: bv8, x2: bv8, x3: bv8, x4: bv8, p: bv8, q: bv8, r: bv8, s: bv8, t: bv8)
    requires p == x1 ^ (x3 ^ x4) && q == x ^ x3
    requires r == x1 ^ (x2 ^ x3) && s == (x ^ x1) ^ ((x1 ^ x2) ^ (x3 ^ x4))
    requires t == (p ^ q) ^ (r ^ s)
    ensures t == 0
  {}

  lemma Row2Sum(x: Byte, x1: Byte, x2: Byte, x3: Byte, x4: Byte)
    ensures Xor4(Xor(x1, Xor(x3, x4)), Xor(x, x3),
                 Xor(x1, Xor(x2, x3)), Xor(Xor(x, x1), Xor(Xor(x1, x2), Xor(x3, x4)))).v == 0
  {
    hide *;
    var p, q := Xor(x1, Xor(x3, x4)), Xor(x, x3);
    var r, s := Xor(x1, Xor(x2, x3)), Xor(Xor(x, x1), Xor(Xor(x1, x2), Xor(x3, x4)));
    Xor3Bits(x1, x3, x4); Xor2Bits(x, x3);
    Xor3Bits(x1, x2, x3); Xor6Bits(x, x1, x1, x2, x3, x4);
    Xor4Bits(p, q, r, s);
    Row2Bits(x.v, x1.v, x2.v, x3.v, x4.v, p.v, q.v, r.v, s.v, Xor4(p, q, r, s).v);
  }

  lemma Row2(x: Byte)
    ensures Xor4(Mul(Byte(13), Mul(Byte(2), x)), Mul(Byte(9), x), Mul(Byte(14), x), Mul(Byte(11), Mul(Byte(3), x)))
      == ZERO
  {
    hide Mul, XTime, Xor, Xor4;
    var x1 := XTime(x);
    var x2 := XTime(x1);
    var x3 := XTime(x2);
    var x4 := XTime(x3);
    DoublingsOf3x(x, x1, x2, x3, x4);
    MulBy2And3(x);
    MulBy13And14(x);
    MulBy13And14(x1);
    MulBy9And11(Xor(x, x1));
    MulBy9And11(x);
    Row2Sum(x, x1, x2, x3, x4);
  }

  lemma Row3Bits(x: bv8, x1: bv8, x2: bv8, x3: bv8, x4: bv8, p: bv8, q: bv8, r: bv8, s: bv8, t: bv8)
    requires p == x1 ^ (x2 ^ x4) && q == x ^ (x2 ^ x3)
    requires r == x ^ x3 && s == (x1 ^ x2) ^ ((x2 ^ x3) ^ (x3 ^ x4))
    requires t == (p ^ q) ^ (r ^ s)
    ensures t == 0
  {}

  lemma Row3Sum(x: Byte, x1: Byte, x2: Byte, x3: Byte, x4: Byte)
    ensures Xor4(Xor(x1, Xor(x2, x4)), Xor(x, Xor(x2, x3)),
                 Xor(x, x3), Xor(Xor(x1, x2), Xor(Xor(x2, x3), Xor(x3, x4)))).v == 0
  {
    hide *;
    var p, q := Xor(x1, Xor(x2, x4)), Xor(x, Xor(x2, x3));
    var r, s := Xor(x, x3), Xor(Xor(x1, x2), Xor(Xor(x2, x3), Xor(x3, x4)));
    Xor3Bits(x1, x2, x4); Xor3Bits(x, x2, x3);
    Xor2Bits(x, x3); Xor6Bits(x1, x2, x2, x3, x3, x4);
    Xor4Bits(p, q, r, s);
    Row3Bits(x.v, x1.v, x2.v, x3.v, x4.v, p.v, q.v, r.v, s.v, Xor4(p, q, r, s).v);
  }

  lemma Row3(x: Byte)
    ensures Xor4(Mul(Byte(11), Mul(Byte(2), x)), Mul(Byte(13), x), Mul(Byte(9), x), Mul(Byte(14), Mul(Byte(3), x)))
      == ZERO
  {
    hide Mul, XTime, Xor, Xor4;
    var x1 := XTime(x);
    var x2 := XTime(x1);
    var x3 := XTime(x2);
    var x4 := XTime(x3);
    DoublingsOf3x(x, x1, x2, x3, x4);
    MulBy2And3(x);
    MulBy13And14(Xor(x, x1));
    MulBy13And14(x);
    MulBy9And11(x);
    MulBy9And11(x1);
    Row3Sum(x, x1, x2, x3, x4);
  }

  lemma InvMixOfMixOne(x: Byte)
    ensures InvMixColumn(MixOne(x)) == Word(x, ZERO, ZERO, ZERO)
  {
    hide Mul, Xor4;
    Row0(x);
    Row1(x);
    Row2(x);
    Row3(x);
  }

  lemma InvMixColumnOfMixColumn(w: Word)
    ensures InvMixColumn(MixColumn(w)) == w
  {
    MixColumnByBytes(w);
    var m0, m1, m2, m3 := MixOne(w.b0), MixOne(w.b1), MixOne(w.b2), MixOne(w.b3);
    InvMixOfMixOne(w.b0);
    InvMixOfMixOne(w.b1);
    InvMixOfMixOne(w.b2);
    InvMixOfMixOne(w.b3);
    hide InvMixColumn, MixColumn, MixOne, Xor, ZERO;
    InvMixColumnXor(XorW(m0, RotL(m1, 1)), XorW(RotL(m2, 2), RotL(m3, 3)));
    InvMixColumnXor(m0, RotL(m1, 1));
    InvMixColumnXor(RotL(m2, 2), RotL(m3, 3));
    InvMixColumnRotL(m1, 1);
    InvMixColumnRotL(m2, 2);
    InvMixColumnRotL(m3, 3);
    XorZero(ZERO);
    XorZero(w.b0);
    XorZero(w.b1);
    XorZero(w.b2);
    XorZero(w.b3);
  }

  // ----- The inverse ciphers undo the cipher -----

  lemma SubWordInverse(w: Word)
    ensures InvSubWord(SubWord(w)) == w
  {
    hide SBox, InvSBox;
    SBoxInverse(w.b0);
    SBoxInverse(w.b1);
    SBoxInverse(w.b2);
    SBoxInverse(w.b3);
  }

  lemma SubBytesInverse(s: State)
    ensures InvSubBytes(SubBytes(s)) == s
  {
    hide SubWord, InvSubWord;
    SubWordInverse(s.c0);
    SubWordInverse(s.c1);
    SubWordInverse(s.c2);
    SubWordInverse(s.c3);
  }

  lemma MixColumnsInverse(s: State)
    ensures InvMixColumns(MixColumns(s)) == s
  {
    hide MixColumn, InvMixColumn;
    InvMixColumnOfMixColumn(s.c0);
    InvMixColumnOfMixColumn(s.c1);
    InvMixColumnOfMixColumn(s.c2);
    InvMixColumnOfMixColumn(s.c3);
  }

  lemma XorWTwice(a: Word, k: Word)
    ensures XorW(XorW(a, k), k) == a
  {
    hide Xor;
    XorTwice(a.b0, k.b0);
    XorTwice(a.b1, k.b1);
    XorTwice(a.b2, k.b2);
    XorTwice(a.b3, k.b3);
  }

  lemma XorTwice(a: Byte, k: Byte)
    ensures Xor(Xor(a, k), k) == a
  {}

  lemma AddRoundKeyTwice(s: State, k: State)
    ensures AddRoundKey(AddRoundKey(s, k), k) == s
  {
    hide XorW;
    XorWTwice(s.c0, k.c0);
    XorWTwice(s.c1, k.c1);
    XorWTwice(s.c2, k.c2);
    XorWTwice(s.c3, k.c3);
  }

  lemma ShiftRowsInverse(s: State)
    ensures InvShiftRows(ShiftRows(s)) == s
  {}

  lemma {:induction false} InvRoundsOfCipher(w: seq<Word>, nr: nat, s: State, r: nat)
    requires 0 < r <= nr && 4 * nr + 4 <= |w|
    ensures InvRounds(w, nr, Cipher(w, nr, s), r) == ShiftRows(SubBytes(Rounds(w, s, r - 1)))
    decreases nr - r
  {
    hide AddRoundKey, ShiftRows, InvShiftRows, SubBytes, InvSubBytes, MixColumns, InvMixColumns, RoundKey;
    if r == nr {
      AddRoundKeyTwice(ShiftRows(SubBytes(Rounds(w, s, nr - 1))), RoundKey(w, nr));
    } else {
      InvRoundsOfCipher(w, nr, s, r + 1);
      var before := Rounds(w, s, r - 1);
      ShiftRowsInverse(SubBytes(Rounds(w, s, r)));
      SubBytesInverse(Rounds(w, s, r));
      AddRoundKeyTwice(MixColumns(ShiftRows(SubBytes(before))), RoundKey(w, r));
      MixColumnsInverse(ShiftRows(SubBytes(before)));
    }
  }

  /** InvCipher undoes Cipher, for any schedule and number of rounds. */
  lemma InvCipherOfCipher(w: seq<Word>, nr: nat, s: State)
    requires 0 < nr && 4 * nr + 4 <= |w|
    ensures InvCipher(w, nr, Cipher(w, nr, s)) == s
  {
    hide AddRoundKey, ShiftRows, InvShiftRows, SubBytes, InvSubBytes, RoundKey, Cipher, InvRounds;
    InvRoundsOfCipher(w, nr, s, 1);
    ShiftRowsInverse(SubBytes(Rounds(w, s, 0)));
    SubBytesInverse(Rounds(w, s, 0));
    AddRoundKeyTwice(s, RoundKey(w, 0));
  }

  lemma ShiftSubCommute(s: State)
    ensures InvSubBytes(InvShiftRows(s)) == InvShiftRows(InvSubBytes(s))
  {
    hide InvSBox;
  }

  lemma InvMixColumnsAdd(s: State, k: State)
    ensures InvMixColumns(AddRoundKey(s, k)) == AddRoundKey(InvMixColumns(s), InvMixColumns(k))
  {
    hide InvMixColumn, XorW;
    InvMixColumnXor(s.c0, k.c0);
    InvMixColumnXor(s.c1, k.c1);
    InvMixColumnXor(s.c2, k.c2);
    InvMixColumnXor(s.c3, k.c3);
  }

  lemma {:induction false} EqRoundsAgree(w: seq<Word>, dw: seq<Word>, nr: nat, t: State, r: nat)
    requires IsDecryptionSchedule(w, dw, nr) && 0 < r <= nr
    ensures EqRounds(w, dw, nr, t, r) == InvRounds(w, nr, t, r)
    decreases nr - r
  {
    hide AddRoundKey, InvShiftRows, InvSubBytes, InvMixColumns, RoundKey;
    if r < nr {
      EqRoundsAgree(w, dw, nr, t, r + 1);
      var x := InvRounds(w, nr, t, r + 1);
      ShiftSubCommute(x);
      InvMixColumnsAdd(InvShiftRows(InvSubBytes(x)), RoundKey(w, r));
    }
  }

  /** The equivalent inverse cipher computes the inverse cipher. */
  lemma EqInvCipherAgrees(w: seq<Word>, dw: seq<Word>, nr: nat, t: State)
    requires IsDecryptionSchedule(w, dw, nr)
    ensures EqInvCipher(w, dw, nr, t) == InvCipher(w, nr, t)
  {
    hide AddRoundKey, InvShiftRows, InvSubBytes, RoundKey, EqRounds, InvRounds;
    EqRoundsAgree(w, dw, nr, t, 1);
    ShiftSubCommute(InvRounds(w, nr, t, 1));
  }

  // ----- Key expansion (section 5.2) -----

  /** x^(i-1) in the lowest byte. */
  function Rcon(i: nat): Word
    requires i > 0
  {
    Word(RconByte(i - 1), ZERO, ZERO, ZERO)
  }

  function RconByte(i: nat): Byte {
    if i == 0 then ONE else XTime(RconByte(i - 1))
  }

  /** [a0, a1, a2, a3] becomes [a1, a2, a3, a0]. */
  function RotWord(w: Word): Word {
    Word(w.b1, w.b2, w.b3, w.b0)
  }

  /** Word i of the schedule for a key of nk words. */
  ghost function KeyWord(key: seq<Word>, i: nat): Word
    requires |key| > 0
  {
    var nk := |key|;
    if i < nk then key[i]
    else if i % nk == 0 then
      XorW(KeyWord(key, i - nk), XorW(SubWord(RotWord(KeyWord(key, i - 1))), Rcon(i / nk)))
    else if nk > 6 && i % nk == 4 then XorW(KeyWord(key, i - nk), SubWord(KeyWord(key, i - 1)))
    else XorW(KeyWord(key, i - nk), KeyWord(key, i - 1))
  }
}
