/**
 * The cipher on numbers: products, S-box, rounds and key expansion of FIPS 197 as operations on bit vectors, and the
 * whole S-box of its figure 7. Words are written as the standard prints them, the byte of the lowest address first.
 */
module AesOnBits {
  import opened Gf256
  import opened Generator
  import opened Words
  import opened Fips197

  // ----- Products and the S-box, on bits -----

  function Twice(x: bv8): bv8 {
    (x << 1) ^ ((x >> 7) * 0x1b)
  }

  function Pick(a: bv8, y: bv8): bv8 {
    (a & 1) * y
  }

  /** Mul, with its eight steps written out. */
  function ProductBits(a: bv8, y: bv8): bv8 {
    Steps4(a, y, Steps4(a >> 4, Twice4(y), 0))
  }

  function Twice4(y: bv8): bv8 {
    Twice(Twice(Twice(Twice(y))))
  }

  /** Four steps, and what the others add. */
  function Steps4(a: bv8, y: bv8, more: bv8): bv8 {
    Add(Pick(a, y), Add(Pick(a >> 1, Twice(y)), Add(Pick(a >> 2, Twice(Twice(y))),
      Add(Pick(a >> 3, Twice(Twice(Twice(y)))), more))))
  }

  function Add(x: bv8, y: bv8): bv8 {
    x ^ y
  }

  lemma Shifts(a: bv8)
    ensures (a >> 1) >> 1 == a >> 2 && (a >> 2) >> 1 == a >> 3 && (a >> 3) >> 1 == a >> 4
  {}

  lemma OneStep(n: nat, a: bv8, y: bv8)
    requires n > 0
    ensures Product(n, Byte(a), Byte(y)).v == Add(Pick(a, y), Product(n - 1, Byte(a >> 1), Byte(Twice(y))).v)
  {
    LowOnBits(a, y);
    XTimeOnBits(y);
    hide XTime, Twice, Pick, Low, Product;
    ProductUnfolds(n, Byte(a), Byte(y));
  }

  lemma LowOnBits(a: bv8, y: bv8)
    ensures Low(Byte(a), Byte(y)).v == Pick(a, y)
  {}

  lemma XTimeOnBits(y: bv8)
    ensures XTime(Byte(y)) == Byte(Twice(y))
  {}

  lemma ProductUnfolds(n: nat, a: Byte, y: Byte)
    requires n > 0
    ensures Product(n, a, y) == Xor(Low(a, y), Product(n - 1, Half(a), XTime(y)))
  {
    hide XTime, Low, Half, Xor;
  }

  lemma FourSteps(n: nat, a: bv8, y: bv8)
    requires n >= 4
    ensures Product(n, Byte(a), Byte(y)).v == Steps4(a, y, Product(n - 4, Byte(a >> 4), Byte(Twice4(y))).v)
  {
    hide Product, Pick, Twice, Add;
    Shifts(a);
    OneStep(n, a, y);
    OneStep(n - 1, a >> 1, Twice(y));
    OneStep(n - 2, a >> 2, Twice(Twice(y)));
    OneStep(n - 3, a >> 3, Twice(Twice(Twice(y))));
  }

  lemma MulOnBits(a: bv8, y: bv8)
    ensures Mul(Byte(a), Byte(y)) == Byte(ProductBits(a, y))
  {
    NoSteps((a >> 4) >> 4, Twice4(Twice4(y)));
    hide Product, Steps4, Twice4;
    FourSteps(8, a, y);
    FourSteps(4, a >> 4, Twice4(y));
  }

  lemma NoSteps(a: bv8, y: bv8)
    ensures Product(0, Byte(a), Byte(y)).v == 0
  {}

  function InvAffineBits(y: bv8): bv8 {
    ((y << 1) | (y >> 7)) ^ ((y << 3) | (y >> 5)) ^ ((y << 6) | (y >> 2)) ^ 0x05
  }

  /** x and the number that the affine map takes to y are inverse to each other. */
  predicate Inverses(x: bv8, y: bv8) {
    if x == 0 then InvAffineBits(y) == 0 else ProductBits(x, InvAffineBits(y)) == 1
  }

  ghost function S(x: bv8): bv8 {
    SBox(Byte(x)).v
  }

  lemma SBoxFromInverse(x: bv8, y: bv8)
    requires Inverses(x, y)
    ensures S(x) == y
  {
    hide ProductBits, Mul, Affine, Inverse;
    AffineRedone(Byte(y));
    if x != 0 {
      MulOnBits(x, InvAffineBits(y));
      InverseCorrect(Byte(x), Byte(InvAffineBits(y)));
    } else {
      InverseInvolution(ZERO);
    }
  }

  // ----- Figure 7 -----

  /** The c-th of the sixteen bytes in a row. */
  function Column(row: bv128, c: bv8): bv8
    requires c < 16
  {
    ((row >> (8 * (15 - c))) & 0xff) as bv8
  }

  /** The S-box takes x, x + 1, ..., x + 15 to the bytes of this row. */
  ghost predicate Row(x: bv8, row: bv128) {
    forall c: bv8 :: c < 16 ==> S(x | c) == Column(row, c)
  }

  ghost predicate Inverted(x: bv8, row: bv128) {
    forall c: bv8 :: c < 16 ==> Inverses(x | c, Column(row, c))
  }

  lemma RowOfInverses(x: bv8, row: bv128)
    requires Inverted(x, row)
    ensures Row(x, row)
  {
    hide Inverses, S, Column;
    forall c: bv8 | c < 16 ensures S(x | c) == Column(row, c) {
      SBoxFromInverse(x | c, Column(row, c));
    }
  }

  lemma Rows0to3()
    ensures Row(0x00, 0x637c777bf26b6fc53001672bfed7ab76) && Row(0x10, 0xca82c97dfa5947f0add4a2af9ca472c0)
    ensures Row(0x20, 0xb7fd9326363ff7cc34a5e5f171d83115) && Row(0x30, 0x04c723c31896059a071280e2eb27b275)
  {
    hide Row;
    RowOfInverses(0x00, 0x637c777bf26b6fc53001672bfed7ab76);
    RowOfInverses(0x10, 0xca82c97dfa5947f0add4a2af9ca472c0);
    RowOfInverses(0x20, 0xb7fd9326363ff7cc34a5e5f171d83115);
    RowOfInverses(0x30, 0x04c723c31896059a071280e2eb27b275);
  }

  lemma Rows4to7()
    ensures Row(0x40, 0x09832c1a1b6e5aa0523bd6b329e32f84) && Row(0x50, 0x53d100ed20fcb15b6acbbe394a4c58cf)
    ensures Row(0x60, 0xd0efaafb434d338545f9027f503c9fa8) && Row(0x70, 0x51a3408f929d38f5bcb6da2110fff3d2)
  {
    hide Row;
    RowOfInverses(0x40, 0x09832c1a1b6e5aa0523bd6b329e32f84);
    RowOfInverses(0x50, 0x53d100ed20fcb15b6acbbe394a4c58cf);
    RowOfInverses(0x60, 0xd0efaafb434d338545f9027f503c9fa8);
    RowOfInverses(0x70, 0x51a3408f929d38f5bcb6da2110fff3d2);
  }

  lemma Rows8toB()
    ensures Row(0x80, 0xcd0c13ec5f974417c4a77e3d645d1973) && Row(0x90, 0x60814fdc222a908846eeb814de5e0bdb)
    ensures Row(0xa0, 0xe0323a0a4906245cc2d3ac629195e479) && Row(0xb0, 0xe7c8376d8dd54ea96c56f4ea657aae08)
  {
    hide Row;
    RowOfInverses(0x80, 0xcd0c13ec5f974417c4a77e3d645d1973);
    RowOfInverses(0x90, 0x60814fdc222a908846eeb814de5e0bdb);
    RowOfInverses(0xa0, 0xe0323a0a4906245cc2d3ac629195e479);
    RowOfInverses(0xb0, 0xe7c8376d8dd54ea96c56f4ea657aae08);
  }

  lemma RowsCtoF()
    ensures Row(0xc0, 0xba78252e1ca6b4c6e8dd741f4bbd8b8a) && Row(0xd0, 0x703eb5664803f60e613557b986c11d9e)
    ensures Row(0xe0, 0xe1f8981169d98e949b1e87e9ce5528df) && Row(0xf0, 0x8ca1890dbfe6426841992d0fb054bb16)
  {
    hide Row;
    RowOfInverses(0xc0, 0xba78252e1ca6b4c6e8dd741f4bbd8b8a);
    RowOfInverses(0xd0, 0x703eb5664803f60e613557b986c11d9e);
    RowOfInverses(0xe0, 0xe1f8981169d98e949b1e87e9ce5528df);
    RowOfInverses(0xf0, 0x8ca1890dbfe6426841992d0fb054bb16);
  }

  /** The whole S-box. */
  lemma Figure7()
    ensures Row(0x00, 0x637c777bf26b6fc53001672bfed7ab76) && Row(0x10, 0xca82c97dfa5947f0add4a2af9ca472c0)
    ensures Row(0x20, 0xb7fd9326363ff7cc34a5e5f171d83115) && Row(0x30, 0x04c723c31896059a071280e2eb27b275)
    ensures Row(0x40, 0x09832c1a1b6e5aa0523bd6b329e32f84) && Row(0x50, 0x53d100ed20fcb15b6acbbe394a4c58cf)
    ensures Row(0x60, 0xd0efaafb434d338545f9027f503c9fa8) && Row(0x70, 0x51a3408f929d38f5bcb6da2110fff3d2)
    ensures Row(0x80, 0xcd0c13ec5f974417c4a77e3d645d1973) && Row(0x90, 0x60814fdc222a908846eeb814de5e0bdb)
    ensures Row(0xa0, 0xe0323a0a4906245cc2d3ac629195e479) && Row(0xb0, 0xe7c8376d8dd54ea96c56f4ea657aae08)
    ensures Row(0xc0, 0xba78252e1ca6b4c6e8dd741f4bbd8b8a) && Row(0xd0, 0x703eb5664803f60e613557b986c11d9e)
    ensures Row(0xe0, 0xe1f8981169d98e949b1e87e9ce5528df) && Row(0xf0, 0x8ca1890dbfe6426841992d0fb054bb16)
  {
    hide Row;
    Rows0to3();
    Rows4to7();
    Rows8toB();
    RowsCtoF();
  }

  // ----- Words as they are printed -----

  function B0(x: bv32): bv8 {
    ((x >> 24) & 0xff) as bv8
  }

  function B1(x: bv32): bv8 {
    ((x >> 16) & 0xff) as bv8
  }

  function B2(x: bv32): bv8 {
    ((x >> 8) & 0xff) as bv8
  }

  function B3(x: bv32): bv8 {
    (x & 0xff) as bv8
  }

  function Hex(x: bv32): Word {
    Word(Byte(B0(x)), Byte(B1(x)), Byte(B2(x)), Byte(B3(x)))
  }

  function Join(b0: bv8, b1: bv8, b2: bv8, b3: bv8): bv32 {
    ((b0 as bv32) << 24) | ((b1 as bv32) << 16) | ((b2 as bv32) << 8) | (b3 as bv32)
  }

  lemma HexJoin(b0: bv8, b1: bv8, b2: bv8, b3: bv8)
    ensures Hex(Join(b0, b1, b2, b3)) == Word(Byte(b0), Byte(b1), Byte(b2), Byte(b3))
  {}

  ghost function SubBits(x: bv32): bv32 {
    Join(S(B0(x)), S(B1(x)), S(B2(x)), S(B3(x)))
  }

  lemma SubWordOnBits(x: bv32)
    ensures SubWord(Hex(x)) == Hex(SubBits(x))
  {
    hide SBox, Join;
    HexJoin(S(B0(x)), S(B1(x)), S(B2(x)), S(B3(x)));
  }

  lemma JoinBytes(y: bv32)
    ensures Join(B0(y), B1(y), B2(y), B3(y)) == y
  {}

  /** y is what SubBits makes of x: checked byte by byte through inverses. */
  lemma Box(x: bv32, y: bv32)
    requires Inverses(B0(x), B0(y)) && Inverses(B1(x), B1(y)) && Inverses(B2(x), B2(y)) && Inverses(B3(x), B3(y))
    ensures SubBits(x) == y
  {
    hide Inverses, S, Join, B0, B1, B2, B3;
    SBoxFromInverse(B0(x), B0(y));
    SBoxFromInverse(B1(x), B1(y));
    SBoxFromInverse(B2(x), B2(y));
    SBoxFromInverse(B3(x), B3(y));
    JoinBytes(y);
  }

  function Plus(x: bv32, y: bv32): bv32 {
    x ^ y
  }

  lemma XorB0(x: bv32, y: bv32)
    ensures B0(Plus(x, y)) == B0(x) ^ B0(y)
  {}

  lemma XorB1(x: bv32, y: bv32)
    ensures B1(Plus(x, y)) == B1(x) ^ B1(y)
  {}

  lemma XorB2(x: bv32, y: bv32)
    ensures B2(Plus(x, y)) == B2(x) ^ B2(y)
  {}

  lemma XorB3(x: bv32, y: bv32)
    ensures B3(Plus(x, y)) == B3(x) ^ B3(y)
  {}

  lemma XorOnBits(x: bv32, y: bv32)
    ensures XorW(Hex(x), Hex(y)) == Hex(Plus(x, y))
  {
    XorB0(x, y);
    XorB1(x, y);
    XorB2(x, y);
    XorB3(x, y);
    hide B0, B1, B2, B3, Plus;
  }

  /** RotWord is the rotation of the printed word by 8 to the left. */
  lemma RotWordOnBits(x: bv32)
    ensures RotWord(Hex(x)) == Hex(Turned(x))
  {}

  function Turned(x: bv32): bv32 {
    (x << 8) | (x >> 24)
  }

  /** In the program's words, with the lowest byte first, it is one to the right. */
  lemma RotWordIsRotation(w: Word)
    ensures ToBits(RotWord(w)) == (ToBits(w) >> 8) | (ToBits(w) << 24)
  {}

  function Mix1(p: bv8, q: bv8, r: bv8, s: bv8): bv8 {
    Twice(p) ^ Twice(q) ^ q ^ r ^ s
  }

  function MixBits(x: bv32): bv32 {
    var p, q, r, s := B0(x), B1(x), B2(x), B3(x);
    Join(Mix1(p, q, r, s), Mix1(q, r, s, p), Mix1(r, s, p, q), Mix1(s, p, q, r))
  }

  lemma Mix1Is(p: Byte, q: Byte, r: Byte, s: Byte)
    ensures Xor4(Mul(Byte(2), p), Mul(Byte(3), q), r, s) == Byte(Mix1(p.v, q.v, r.v, s.v))
    ensures Xor4(s, Mul(Byte(2), p), Mul(Byte(3), q), r) == Byte(Mix1(p.v, q.v, r.v, s.v))
    ensures Xor4(r, s, Mul(Byte(2), p), Mul(Byte(3), q)) == Byte(Mix1(p.v, q.v, r.v, s.v))
    ensures Xor4(Mul(Byte(3), q), r, s, Mul(Byte(2), p)) == Byte(Mix1(p.v, q.v, r.v, s.v))
  {
    hide Mul, Xor, Xor4, XTime, Twice;
    var p2, q2 := XTime(p), XTime(q);
    XTimeOnBits(p.v);
    XTimeOnBits(q.v);
    MulBy2And3(p);
    MulBy2And3(q);
    Xor2Bits(q, q2);
    var q3 := Xor(q, q2);
    Xor4Bits(p2, q3, r, s);
    Xor4Bits(s, p2, q3, r);
    Xor4Bits(r, s, p2, q3);
    Xor4Bits(q3, r, s, p2);
    MixSums(p2.v, q2.v, q.v, r.v, s.v);
  }

  lemma MixSums(p2: bv8, q2: bv8, q: bv8, r: bv8, s: bv8)
    ensures (p2 ^ (q2 ^ q)) ^ (r ^ s) == p2 ^ q2 ^ q ^ r ^ s
    ensures (s ^ p2) ^ ((q2 ^ q) ^ r) == p2 ^ q2 ^ q ^ r ^ s
    ensures (r ^ s) ^ (p2 ^ (q2 ^ q)) == p2 ^ q2 ^ q ^ r ^ s
    ensures ((q2 ^ q) ^ r) ^ (s ^ p2) == p2 ^ q2 ^ q ^ r ^ s
  {}

  lemma MixColumnOnBits(x: bv32)
    ensures MixColumn(Hex(x)) == Hex(MixBits(x))
  {
    hide Mul, Xor4, Mix1, Join;
    var w := Hex(x);
    Mix1Is(w.b0, w.b1, w.b2, w.b3);
    Mix1Is(w.b1, w.b2, w.b3, w.b0);
    Mix1Is(w.b2, w.b3, w.b0, w.b1);
    Mix1Is(w.b3, w.b0, w.b1, w.b2);
    var p, q, r, s := w.b0.v, w.b1.v, w.b2.v, w.b3.v;
    HexJoin(Mix1(p, q, r, s), Mix1(q, r, s, p), Mix1(r, s, p, q), Mix1(s, p, q, r));
  }

  // ----- A round -----

  /** A state or a round key, as printed. */
  datatype Block = Block(w0: bv32, w1: bv32, w2: bv32, w3: bv32)

  function Of(b: Block): State {
    State(Hex(b.w0), Hex(b.w1), Hex(b.w2), Hex(b.w3))
  }

  /** A column of the state after ShiftRows: a byte of each of four columns. */
  function Slant(p: bv32, q: bv32, r: bv32, s: bv32): bv32 {
    (p & 0xff000000) | (q & 0x00ff0000) | (r & 0x0000ff00) | (s & 0x000000ff)
  }

  lemma SlantIs(p: bv32, q: bv32, r: bv32, s: bv32)
    ensures Hex(Slant(p, q, r, s)) == Word(Hex(p).b0, Hex(q).b1, Hex(r).b2, Hex(s).b3)
  {}

  ghost function SubShift(b: Block): Block {
    var p, q, r, s := SubBits(b.w0), SubBits(b.w1), SubBits(b.w2), SubBits(b.w3);
    Block(Slant(p, q, r, s), Slant(q, r, s, p), Slant(r, s, p, q), Slant(s, p, q, r))
  }

  function Mixed(b: Block): Block {
    Block(MixBits(b.w0), MixBits(b.w1), MixBits(b.w2), MixBits(b.w3))
  }

  function Added(b: Block, k: Block): Block {
    Block(Plus(b.w0, k.w0), Plus(b.w1, k.w1), Plus(b.w2, k.w2), Plus(b.w3, k.w3))
  }

  lemma SubShiftOnBits(b: Block)
    ensures ShiftRows(SubBytes(Of(b))) == Of(SubShift(b))
  {
    hide SubWord, SubBits, Hex, Slant;
    SubWordOnBits(b.w0);
    SubWordOnBits(b.w1);
    SubWordOnBits(b.w2);
    SubWordOnBits(b.w3);
    var p, q, r, s := SubBits(b.w0), SubBits(b.w1), SubBits(b.w2), SubBits(b.w3);
    SlantIs(p, q, r, s);
    SlantIs(q, r, s, p);
    SlantIs(r, s, p, q);
    SlantIs(s, p, q, r);
  }

  lemma AddedOnBits(b: Block, k: Block)
    ensures AddRoundKey(Of(b), Of(k)) == Of(Added(b, k))
  {
    hide XorW, Hex, Plus;
    XorOnBits(b.w0, k.w0);
    XorOnBits(b.w1, k.w1);
    XorOnBits(b.w2, k.w2);
    XorOnBits(b.w3, k.w3);
  }

  lemma RoundOnBits(b: Block, k: Block)
    ensures Round(Of(b), Of(k)) == Of(Added(Mixed(SubShift(b)), k))
  {
    hide ShiftRows, SubBytes, SubShift, MixColumn, MixBits, AddRoundKey, Added, Hex;
    SubShiftOnBits(b);
    var m := SubShift(b);
    MixColumnOnBits(m.w0);
    MixColumnOnBits(m.w1);
    MixColumnOnBits(m.w2);
    MixColumnOnBits(m.w3);
    AddedOnBits(Mixed(m), k);
  }

  // ----- Key expansion -----

  function RconBits(i: nat): bv32
    requires i > 0
  {
    (RconByte(i - 1).v as bv32) << 24
  }

  lemma RconOnBits(i: nat)
    requires i > 0
    ensures Rcon(i) == Hex(RconBits(i))
  {
    hide RconByte;
    HexJoin(RconByte(i - 1).v, 0, 0, 0);
  }

  /** What is added to the word nk places before. */
  ghost function Temp(nk: nat, i: nat, prev: bv32): bv32
    requires nk > 0 && i >= nk
  {
    if i % nk == 0 then Plus(SubBits(Turned(prev)), RconBits(i / nk))
    else if nk > 6 && i % nk == 4 then SubBits(prev)
    else prev
  }

  lemma NextWord(key: seq<Word>, i: nat, back: bv32, prev: bv32)
    requires 0 < |key| <= i && KeyWord(key, i - |key|) == Hex(back) && KeyWord(key, i - 1) == Hex(prev)
    ensures KeyWord(key, i) == Hex(Plus(back, Temp(|key|, i, prev)))
  {
    hide SubWord, SubBits, RotWord, Hex, XorW, Rcon, RconBits, Plus, Turned;
    var turned := Turned(prev);
    RotWordOnBits(prev);
    SubWordOnBits(turned);
    SubWordOnBits(prev);
    if i % |key| == 0 {
      RconOnBits(i / |key|);
      XorOnBits(SubBits(turned), RconBits(i / |key|));
    }
    XorOnBits(back, Temp(|key|, i, prev));
  }

  lemma Rcons()
    ensures RconBits(1) == 0x01000000 && RconBits(2) == 0x02000000 && RconBits(3) == 0x04000000
    ensures RconBits(4) == 0x08000000 && RconBits(5) == 0x10000000 && RconBits(6) == 0x20000000
    ensures RconBits(7) == 0x40000000
  {}

  lemma KeyFirst(key: seq<Word>, i: nat, x: bv32)
    requires i < |key| && key[i] == Hex(x)
    ensures KeyWord(key, i) == Hex(x)
  {}
}
