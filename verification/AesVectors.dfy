/**
 * The cipher against the numbers printed in FIPS 197: expanded words of the keys in appendices A.1, A.2 and A.3, and
 * the whole example of appendix C.3, a block under a key of 256 bits.
 */
module AesVectors {
  import opened Gf256
  import opened Words
  import opened Fips197
  import opened Cryptor
  import opened AesOnBits

  // ----- Appendices A.1, A.2 and A.3: the first words of expanded keys -----

  function KeyA1(): (key: seq<Word>)
    ensures |key| == 4
  {
    [Hex(0x2b7e1516), Hex(0x28aed2a6), Hex(0xabf71588), Hex(0x09cf4f3c)]
  }

  lemma SumsA1()
    ensures Plus(0x2b7e1516, Temp(4, 4, 0x09cf4f3c)) == 0xa0fafe17
    ensures Plus(0x28aed2a6, Temp(4, 5, 0xa0fafe17)) == 0x88542cb1
    ensures Plus(0xabf71588, Temp(4, 6, 0x88542cb1)) == 0x23a33939
    ensures Plus(0x09cf4f3c, Temp(4, 7, 0x23a33939)) == 0x2a6c7605
  {
    Rcons();
    hide RconBits, SubBits;
    Box(0xcf4f3c09, 0x8a84eb01);
  }

  lemma FirstA1()
    ensures KeyWord(KeyA1(), 4) == Hex(0xa0fafe17) && KeyWord(KeyA1(), 5) == Hex(0x88542cb1)
    ensures KeyWord(KeyA1(), 6) == Hex(0x23a33939) && KeyWord(KeyA1(), 7) == Hex(0x2a6c7605)
  {
    SumsA1();
    hide Hex, Plus, Temp, KeyWord;
    KeyFirst(KeyA1(), 0, 0x2b7e1516);
    KeyFirst(KeyA1(), 1, 0x28aed2a6);
    KeyFirst(KeyA1(), 2, 0xabf71588);
    KeyFirst(KeyA1(), 3, 0x09cf4f3c);
    NextWord(KeyA1(), 4, 0x2b7e1516, 0x09cf4f3c);
    NextWord(KeyA1(), 5, 0x28aed2a6, 0xa0fafe17);
    NextWord(KeyA1(), 6, 0xabf71588, 0x88542cb1);
    NextWord(KeyA1(), 7, 0x09cf4f3c, 0x23a33939);
  }

  function KeyA2(): (key: seq<Word>)
    ensures |key| == 6
  {
    [Hex(0x8e73b0f7), Hex(0xda0e6452), Hex(0xc810f32b), Hex(0x809079e5),
     Hex(0x62f8ead2), Hex(0x522c6b7b)]
  }

  lemma SumsA2()
    ensures Plus(0x8e73b0f7, Temp(6, 6, 0x522c6b7b)) == 0xfe0c91f7
    ensures Plus(0xda0e6452, Temp(6, 7, 0xfe0c91f7)) == 0x2402f5a5
    ensures Plus(0xc810f32b, Temp(6, 8, 0x2402f5a5)) == 0xec12068e
    ensures Plus(0x809079e5, Temp(6, 9, 0xec12068e)) == 0x6c827f6b
    ensures Plus(0x62f8ead2, Temp(6, 10, 0x6c827f6b)) == 0x0e7a95b9
    ensures Plus(0x522c6b7b, Temp(6, 11, 0x0e7a95b9)) == 0x5c56fec2
  {
    Rcons();
    hide RconBits, SubBits;
    Box(0x2c6b7b52, 0x717f2100);
  }

  lemma FirstA2()
    ensures KeyWord(KeyA2(), 6) == Hex(0xfe0c91f7) && KeyWord(KeyA2(), 7) == Hex(0x2402f5a5)
    ensures KeyWord(KeyA2(), 8) == Hex(0xec12068e) && KeyWord(KeyA2(), 9) == Hex(0x6c827f6b)
    ensures KeyWord(KeyA2(), 10) == Hex(0x0e7a95b9) && KeyWord(KeyA2(), 11) == Hex(0x5c56fec2)
  {
    SumsA2();
    hide Hex, Plus, Temp, KeyWord;
    KeyFirst(KeyA2(), 0, 0x8e73b0f7);
    KeyFirst(KeyA2(), 1, 0xda0e6452);
    KeyFirst(KeyA2(), 2, 0xc810f32b);
    KeyFirst(KeyA2(), 3, 0x809079e5);
    KeyFirst(KeyA2(), 4, 0x62f8ead2);
    KeyFirst(KeyA2(), 5, 0x522c6b7b);
    NextWord(KeyA2(), 6, 0x8e73b0f7, 0x522c6b7b);
    NextWord(KeyA2(), 7, 0xda0e6452, 0xfe0c91f7);
    NextWord(KeyA2(), 8, 0xc810f32b, 0x2402f5a5);
    NextWord(KeyA2(), 9, 0x809079e5, 0xec12068e);
    NextWord(KeyA2(), 10, 0x62f8ead2, 0x6c827f6b);
    NextWord(KeyA2(), 11, 0x522c6b7b, 0x0e7a95b9);
  }

  function KeyA3(): (key: seq<Word>)
    ensures |key| == 8
  {
    [Hex(0x603deb10), Hex(0x15ca71be), Hex(0x2b73aef0), Hex(0x857d7781),
     Hex(0x1f352c07), Hex(0x3b6108d7), Hex(0x2d9810a3), Hex(0x0914dff4)]
  }

  lemma SumsA3()
    ensures Plus(0x603deb10, Temp(8, 8, 0x0914dff4)) == 0x9ba35411
    ensures Plus(0x15ca71be, Temp(8, 9, 0x9ba35411)) == 0x8e6925af
    ensures Plus(0x2b73aef0, Temp(8, 10, 0x8e6925af)) == 0xa51a8b5f
    ensures Plus(0x857d7781, Temp(8, 11, 0xa51a8b5f)) == 0x2067fcde
    ensures Plus(0x1f352c07, Temp(8, 12, 0x2067fcde)) == 0xa8b09c1a
    ensures Plus(0x3b6108d7, Temp(8, 13, 0xa8b09c1a)) == 0x93d194cd
    ensures Plus(0x2d9810a3, Temp(8, 14, 0x93d194cd)) == 0xbe49846e
    ensures Plus(0x0914dff4, Temp(8, 15, 0xbe49846e)) == 0xb75d5b9a
  {
    Rcons();
    hide RconBits, SubBits;
    Box(0x14dff409, 0xfa9ebf01);
    Box(0x2067fcde, 0xb785b01d);
  }

  lemma FirstA3()
    ensures KeyWord(KeyA3(), 8) == Hex(0x9ba35411) && KeyWord(KeyA3(), 9) == Hex(0x8e6925af)
    ensures KeyWord(KeyA3(), 10) == Hex(0xa51a8b5f) && KeyWord(KeyA3(), 11) == Hex(0x2067fcde)
    ensures KeyWord(KeyA3(), 12) == Hex(0xa8b09c1a) && KeyWord(KeyA3(), 13) == Hex(0x93d194cd)
    ensures KeyWord(KeyA3(), 14) == Hex(0xbe49846e) && KeyWord(KeyA3(), 15) == Hex(0xb75d5b9a)
  {
    SumsA3();
    hide Hex, Plus, Temp, KeyWord;
    KeyFirst(KeyA3(), 0, 0x603deb10);
    KeyFirst(KeyA3(), 1, 0x15ca71be);
    KeyFirst(KeyA3(), 2, 0x2b73aef0);
    KeyFirst(KeyA3(), 3, 0x857d7781);
    KeyFirst(KeyA3(), 4, 0x1f352c07);
    KeyFirst(KeyA3(), 5, 0x3b6108d7);
    KeyFirst(KeyA3(), 6, 0x2d9810a3);
    KeyFirst(KeyA3(), 7, 0x0914dff4);
    NextWord(KeyA3(), 8, 0x603deb10, 0x0914dff4);
    NextWord(KeyA3(), 9, 0x15ca71be, 0x9ba35411);
    NextWord(KeyA3(), 10, 0x2b73aef0, 0x8e6925af);
    NextWord(KeyA3(), 11, 0x857d7781, 0xa51a8b5f);
    NextWord(KeyA3(), 12, 0x1f352c07, 0x2067fcde);
    NextWord(KeyA3(), 13, 0x3b6108d7, 0xa8b09c1a);
    NextWord(KeyA3(), 14, 0x2d9810a3, 0x93d194cd);
    NextWord(KeyA3(), 15, 0x0914dff4, 0xbe49846e);
  }

  // ----- Appendix C.3: a key of 256 bits, and a block -----

  /** Round key r of the schedule. */
  ghost predicate IsRoundKey(key: seq<Word>, r: nat, b: Block)
    requires key != []
  {
    && KeyWord(key, 4 * r) == Hex(b.w0) && KeyWord(key, 4 * r + 1) == Hex(b.w1)
    && KeyWord(key, 4 * r + 2) == Hex(b.w2) && KeyWord(key, 4 * r + 3) == Hex(b.w3)
  }

  /** Round key r from the two before it, with t added to its first word. */
  predicate Follow(b: Block, t: bv32, n: Block) {
    n.w0 == Plus(b.w0, t) && n.w1 == Plus(b.w1, n.w0) && n.w2 == Plus(b.w2, n.w1) && n.w3 == Plus(b.w3, n.w2)
  }

  lemma NextRoundKey(key: seq<Word>, r: nat, b: Block, c: Block, n: Block)
    requires |key| == 8 && r >= 2 && IsRoundKey(key, r - 2, b) && IsRoundKey(key, r - 1, c)
    requires Follow(b, Temp(8, 4 * r, c.w3), n)
    ensures IsRoundKey(key, r, n)
  {
    hide KeyWord, Hex, Plus, SubBits, RconBits;
    NextWord(key, 4 * r, b.w0, c.w3);
    NextWord(key, 4 * r + 1, b.w1, n.w0);
    NextWord(key, 4 * r + 2, b.w2, n.w1);
    NextWord(key, 4 * r + 3, b.w3, n.w2);
  }

  /** k_sch: the round keys, as printed. */
  function KSch(r: nat): Block {
    match r
    case 0 => Block(0x00010203, 0x04050607, 0x08090a0b, 0x0c0d0e0f)
    case 1 => Block(0x10111213, 0x14151617, 0x18191a1b, 0x1c1d1e1f)
    case 2 => Block(0xa573c29f, 0xa176c498, 0xa97fce93, 0xa572c09c)
    case 3 => Block(0x1651a8cd, 0x0244beda, 0x1a5da4c1, 0x0640bade)
    case 4 => Block(0xae87dff0, 0x0ff11b68, 0xa68ed5fb, 0x03fc1567)
    case 5 => Block(0x6de1f148, 0x6fa54f92, 0x75f8eb53, 0x73b8518d)
    case 6 => Block(0xc656827f, 0xc9a79917, 0x6f294cec, 0x6cd5598b)
    case 7 => Block(0x3de23a75, 0x524775e7, 0x27bf9eb4, 0x5407cf39)
    case 8 => Block(0x0bdc905f, 0xc27b0948, 0xad5245a4, 0xc1871c2f)
    case 9 => Block(0x45f5a660, 0x17b2d387, 0x300d4d33, 0x640a820a)
    case 10 => Block(0x7ccff71c, 0xbeb4fe54, 0x13e6bbf0, 0xd261a7df)
    case 11 => Block(0xf01afafe, 0xe7a82979, 0xd7a5644a, 0xb3afe640)
    case 12 => Block(0x2541fe71, 0x9bf50025, 0x8813bbd5, 0x5a721c0a)
    case 13 => Block(0x4e5a6699, 0xa9f24fe0, 0x7e572baa, 0xcdf8cdea)
    case _ => Block(0x24fc79cc, 0xbf0979e9, 0x371ac23c, 0x6d68de36)
  }

  /** start: the state before round r. */
  function Start(r: nat): Block {
    match r
    case 0 => Block(0x00112233, 0x44556677, 0x8899aabb, 0xccddeeff)
    case 1 => Block(0x00102030, 0x40506070, 0x8090a0b0, 0xc0d0e0f0)
    case 2 => Block(0x4f637606, 0x43e0aa85, 0xefa72132, 0x01a4e705)
    case 3 => Block(0x1859fbc2, 0x8a1c00a0, 0x78ed8aad, 0xc42f6109)
    case 4 => Block(0x975c66c1, 0xcb9f3fa8, 0xa93a28df, 0x8ee10f63)
    case 5 => Block(0x1c05f271, 0xa417e04f, 0xf921c5c1, 0x04701554)
    case 6 => Block(0xc357aae1, 0x1b45b7b0, 0xa2c7bd28, 0xa8dc99fa)
    case 7 => Block(0x7f074143, 0xcb4e243e, 0xc10c815d, 0x8375d54c)
    case 8 => Block(0xd653a469, 0x6ca0bc0f, 0x5acaab5d, 0xb96c5e7d)
    case 9 => Block(0x5aa85839, 0x5fd28d7d, 0x05e1a388, 0x68f3b9c5)
    case 10 => Block(0x4a824851, 0xc57e7e47, 0x643de50c, 0x2af3e8c9)
    case 11 => Block(0xc14907f6, 0xca3b3aa0, 0x70e9aa31, 0x3b52b5ec)
    case 12 => Block(0x5f9c6abf, 0xbac634aa, 0x50409fa7, 0x66677653)
    case 13 => Block(0x51660495, 0x43539503, 0x14fb86e4, 0x01922521)
    case 14 => Block(0x627bceb9, 0x999d5aaa, 0xc945ecf4, 0x23f56da5)
    case _ => Block(0x8ea2b7ca, 0x516745bf, 0xeafc4990, 0x4b496089)
  }

  /** A column after the round: s_box, k_sch and start of the next. */
  predicate Ends(b0: bv32, b1: bv32, b2: bv32, b3: bv32, k: bv32, n: bv32) {
    n == Plus(MixBits(Slant(b0, b1, b2, b3)), k)
  }

  /** The same in the last round. */
  predicate EndsLast(b0: bv32, b1: bv32, b2: bv32, b3: bv32, k: bv32, n: bv32) {
    n == Plus(Slant(b0, b1, b2, b3), k)
  }

  ghost predicate Rounded(r: nat) {
    Start(r + 1) == Added(Mixed(SubShift(Start(r))), KSch(r))
  }

  ghost predicate KeyRow(r: nat)
    requires r >= 2
  {
    Follow(KSch(r - 2), Temp(8, 4 * r, KSch(r - 1).w3), KSch(r))
  }

  lemma KeyRows2(r: nat)
    requires 2 <= r < 6
    ensures KeyRow(r)
  {
    Rcons();
    hide RconBits, SubBits;
    Box(0x1d1e1f1c, 0xa472c09c);
    Box(0xa572c09c, 0x0640bade);
    Box(0x40bade06, 0x09f41d6f);
    Box(0x03fc1567, 0x7bb05985);
    assert Plus(0x00010203, 0xa572c09c) == 0xa573c29f && Plus(0x04050607, 0xa573c29f) == 0xa176c498;
    assert Plus(0x08090a0b, 0xa176c498) == 0xa97fce93 && Plus(0x0c0d0e0f, 0xa97fce93) == 0xa572c09c;
    assert Plus(0x10111213, 0x0640bade) == 0x1651a8cd && Plus(0x14151617, 0x1651a8cd) == 0x0244beda;
    assert Plus(0x18191a1b, 0x0244beda) == 0x1a5da4c1 && Plus(0x1c1d1e1f, 0x1a5da4c1) == 0x0640bade;
    assert Plus(0xa573c29f, 0x0bf41d6f) == 0xae87dff0 && Plus(0xa176c498, 0xae87dff0) == 0x0ff11b68;
    assert Plus(0xa97fce93, 0x0ff11b68) == 0xa68ed5fb && Plus(0xa572c09c, 0xa68ed5fb) == 0x03fc1567;
    assert Plus(0x1651a8cd, 0x7bb05985) == 0x6de1f148 && Plus(0x0244beda, 0x6de1f148) == 0x6fa54f92;
    assert Plus(0x1a5da4c1, 0x6fa54f92) == 0x75f8eb53 && Plus(0x0640bade, 0x75f8eb53) == 0x73b8518d;
    hide Inverses;
  }

  lemma KeyRows6(r: nat)
    requires 6 <= r < 10
    ensures KeyRow(r)
  {
    Rcons();
    hide RconBits, SubBits;
    Box(0xb8518d73, 0x6cd15d8f);
    Box(0x6cd5598b, 0x5003cb3d);
    Box(0x07cf3954, 0xc58a1220);
    Box(0xc1871c2f, 0x78179c15);
    assert Plus(0xae87dff0, 0x68d15d8f) == 0xc656827f && Plus(0x0ff11b68, 0xc656827f) == 0xc9a79917;
    assert Plus(0xa68ed5fb, 0xc9a79917) == 0x6f294cec && Plus(0x03fc1567, 0x6f294cec) == 0x6cd5598b;
    assert Plus(0x6de1f148, 0x5003cb3d) == 0x3de23a75 && Plus(0x6fa54f92, 0x3de23a75) == 0x524775e7;
    assert Plus(0x75f8eb53, 0x524775e7) == 0x27bf9eb4 && Plus(0x73b8518d, 0x27bf9eb4) == 0x5407cf39;
    assert Plus(0xc656827f, 0xcd8a1220) == 0x0bdc905f && Plus(0xc9a79917, 0x0bdc905f) == 0xc27b0948;
    assert Plus(0x6f294cec, 0xc27b0948) == 0xad5245a4 && Plus(0x6cd5598b, 0xad5245a4) == 0xc1871c2f;
    assert Plus(0x3de23a75, 0x78179c15) == 0x45f5a660 && Plus(0x524775e7, 0x45f5a660) == 0x17b2d387;
    assert Plus(0x27bf9eb4, 0x17b2d387) == 0x300d4d33 && Plus(0x5407cf39, 0x300d4d33) == 0x640a820a;
    hide Inverses;
  }

  lemma KeyRows10(r: nat)
    requires 10 <= r < 15
    ensures KeyRow(r)
  {
    Rcons();
    hide RconBits, SubBits;
    Box(0x0a820a64, 0x67136743);
    Box(0xd261a7df, 0xb5ef5c9e);
    Box(0xafe640b3, 0x798e096d);
    Box(0x5a721c0a, 0xbe409c67);
    Box(0xf8cdeacd, 0x41bd87bd);
    assert Plus(0x0bdc905f, 0x77136743) == 0x7ccff71c && Plus(0xc27b0948, 0x7ccff71c) == 0xbeb4fe54;
    assert Plus(0xad5245a4, 0xbeb4fe54) == 0x13e6bbf0 && Plus(0xc1871c2f, 0x13e6bbf0) == 0xd261a7df;
    assert Plus(0x45f5a660, 0xb5ef5c9e) == 0xf01afafe && Plus(0x17b2d387, 0xf01afafe) == 0xe7a82979;
    assert Plus(0x300d4d33, 0xe7a82979) == 0xd7a5644a && Plus(0x640a820a, 0xd7a5644a) == 0xb3afe640;
    assert Plus(0x7ccff71c, 0x598e096d) == 0x2541fe71 && Plus(0xbeb4fe54, 0x2541fe71) == 0x9bf50025;
    assert Plus(0x13e6bbf0, 0x9bf50025) == 0x8813bbd5 && Plus(0xd261a7df, 0x8813bbd5) == 0x5a721c0a;
    assert Plus(0xf01afafe, 0xbe409c67) == 0x4e5a6699 && Plus(0xe7a82979, 0x4e5a6699) == 0xa9f24fe0;
    assert Plus(0xd7a5644a, 0xa9f24fe0) == 0x7e572baa && Plus(0xb3afe640, 0x7e572baa) == 0xcdf8cdea;
    assert Plus(0x2541fe71, 0x01bd87bd) == 0x24fc79cc && Plus(0x9bf50025, 0x24fc79cc) == 0xbf0979e9;
    assert Plus(0x8813bbd5, 0xbf0979e9) == 0x371ac23c && Plus(0x5a721c0a, 0x371ac23c) == 0x6d68de36;
    hide Inverses;
  }

  ghost predicate RoundedLast() {
    Start(15) == Added(SubShift(Start(14)), KSch(14))
  }

  /** s_box: the words of the state after SubBytes in round r. */
  ghost predicate Boxed(r: nat, b0: bv32, b1: bv32, b2: bv32, b3: bv32) {
    && SubBits(Start(r).w0) == b0 && SubBits(Start(r).w1) == b1
    && SubBits(Start(r).w2) == b2 && SubBits(Start(r).w3) == b3
  }

  lemma RoundEnds(r: nat, b0: bv32, b1: bv32, b2: bv32, b3: bv32)
    requires Boxed(r, b0, b1, b2, b3)
    requires Ends(b0, b1, b2, b3, KSch(r).w0, Start(r + 1).w0) && Ends(b1, b2, b3, b0, KSch(r).w1, Start(r + 1).w1)
    requires Ends(b2, b3, b0, b1, KSch(r).w2, Start(r + 1).w2) && Ends(b3, b0, b1, b2, KSch(r).w3, Start(r + 1).w3)
    ensures Rounded(r)
  {
    hide SubBits, MixBits, Plus, Slant, KSch, Start;
  }

  lemma LastEnds(b0: bv32, b1: bv32, b2: bv32, b3: bv32)
    requires Boxed(14, b0, b1, b2, b3)
    requires EndsLast(b0, b1, b2, b3, KSch(14).w0, Start(15).w0) && EndsLast(b1, b2, b3, b0, KSch(14).w1, Start(15).w1)
    requires EndsLast(b2, b3, b0, b1, KSch(14).w2, Start(15).w2) && EndsLast(b3, b0, b1, b2, KSch(14).w3, Start(15).w3)
    ensures RoundedLast()
  {
    hide SubBits, Plus, Slant, KSch, Start;
  }

  lemma Boxes1()
    ensures Boxed(1, 0x63cab704, 0x0953d051, 0xcd60e0e7, 0xba70e18c)
  {
    hide SubBits;
    Box(0x00102030, 0x63cab704);
    Box(0x40506070, 0x0953d051);
    Box(0x8090a0b0, 0xcd60e0e7);
    Box(0xc0d0e0f0, 0xba70e18c);
  }

  lemma Round1()
    ensures Rounded(1)
  {
    Boxes1();
    hide SubBits, Boxed;
    assert Ends(0x63cab704, 0x0953d051, 0xcd60e0e7, 0xba70e18c, 0x10111213, 0x4f637606);
    assert Ends(0x0953d051, 0xcd60e0e7, 0xba70e18c, 0x63cab704, 0x14151617, 0x43e0aa85);
    assert Ends(0xcd60e0e7, 0xba70e18c, 0x63cab704, 0x0953d051, 0x18191a1b, 0xefa72132);
    assert Ends(0xba70e18c, 0x63cab704, 0x0953d051, 0xcd60e0e7, 0x1c1d1e1f, 0x01a4e705);
    RoundEnds(1, 0x63cab704, 0x0953d051, 0xcd60e0e7, 0xba70e18c);
  }

  lemma Boxes2()
    ensures Boxed(2, 0x84fb386f, 0x1ae1ac97, 0xdf5cfd23, 0x7c49946b)
  {
    hide SubBits;
    Box(0x4f637606, 0x84fb386f);
    Box(0x43e0aa85, 0x1ae1ac97);
    Box(0xefa72132, 0xdf5cfd23);
    Box(0x01a4e705, 0x7c49946b);
  }

  lemma Round2()
    ensures Rounded(2)
  {
    Boxes2();
    hide SubBits, Boxed;
    assert Ends(0x84fb386f, 0x1ae1ac97, 0xdf5cfd23, 0x7c49946b, 0xa573c29f, 0x1859fbc2);
    assert Ends(0x1ae1ac97, 0xdf5cfd23, 0x7c49946b, 0x84fb386f, 0xa176c498, 0x8a1c00a0);
    assert Ends(0xdf5cfd23, 0x7c49946b, 0x84fb386f, 0x1ae1ac97, 0xa97fce93, 0x78ed8aad);
    assert Ends(0x7c49946b, 0x84fb386f, 0x1ae1ac97, 0xdf5cfd23, 0xa572c09c, 0xc42f6109);
    RoundEnds(2, 0x84fb386f, 0x1ae1ac97, 0xdf5cfd23, 0x7c49946b);
  }

  lemma Boxes3()
    ensures Boxed(3, 0xadcb0f25, 0x7e9c63e0, 0xbc557e95, 0x1c15ef01)
  {
    hide SubBits;
    Box(0x1859fbc2, 0xadcb0f25);
    Box(0x8a1c00a0, 0x7e9c63e0);
    Box(0x78ed8aad, 0xbc557e95);
    Box(0xc42f6109, 0x1c15ef01);
  }

  lemma Round3()
    ensures Rounded(3)
  {
    Boxes3();
    hide SubBits, Boxed;
    assert Ends(0xadcb0f25, 0x7e9c63e0, 0xbc557e95, 0x1c15ef01, 0x1651a8cd, 0x975c66c1);
    assert Ends(0x7e9c63e0, 0xbc557e95, 0x1c15ef01, 0xadcb0f25, 0x0244beda, 0xcb9f3fa8);
    assert Ends(0xbc557e95, 0x1c15ef01, 0xadcb0f25, 0x7e9c63e0, 0x1a5da4c1, 0xa93a28df);
    assert Ends(0x1c15ef01, 0xadcb0f25, 0x7e9c63e0, 0xbc557e95, 0x0640bade, 0x8ee10f63);
    RoundEnds(3, 0xadcb0f25, 0x7e9c63e0, 0xbc557e95, 0x1c15ef01);
  }

  lemma Boxes4()
    ensures Boxed(4, 0x884a3378, 0x1fdb75c2, 0xd380349e, 0x19f876fb)
  {
    hide SubBits;
    Box(0x975c66c1, 0x884a3378);
    Box(0xcb9f3fa8, 0x1fdb75c2);
    Box(0xa93a28df, 0xd380349e);
    Box(0x8ee10f63, 0x19f876fb);
  }

  lemma Round4()
    ensures Rounded(4)
  {
    Boxes4();
    hide SubBits, Boxed;
    assert Ends(0x884a3378, 0x1fdb75c2, 0xd380349e, 0x19f876fb, 0xae87dff0, 0x1c05f271);
    assert Ends(0x1fdb75c2, 0xd380349e, 0x19f876fb, 0x884a3378, 0x0ff11b68, 0xa417e04f);
    assert Ends(0xd380349e, 0x19f876fb, 0x884a3378, 0x1fdb75c2, 0xa68ed5fb, 0xf921c5c1);
    assert Ends(0x19f876fb, 0x884a3378, 0x1fdb75c2, 0xd380349e, 0x03fc1567, 0x04701554);
    RoundEnds(4, 0x884a3378, 0x1fdb75c2, 0xd380349e, 0x19f876fb);
  }

  lemma Boxes5()
    ensures Boxed(5, 0x9c6b89a3, 0x49f0e184, 0x99fda678, 0xf2515920)
  {
    hide SubBits;
    Box(0x1c05f271, 0x9c6b89a3);
    Box(0xa417e04f, 0x49f0e184);
    Box(0xf921c5c1, 0x99fda678);
    Box(0x04701554, 0xf2515920);
  }

  lemma Round5()
    ensures Rounded(5)
  {
    Boxes5();
    hide SubBits, Boxed;
    assert Ends(0x9c6b89a3, 0x49f0e184, 0x99fda678, 0xf2515920, 0x6de1f148, 0xc357aae1);
    assert Ends(0x49f0e184, 0x99fda678, 0xf2515920, 0x9c6b89a3, 0x6fa54f92, 0x1b45b7b0);
    assert Ends(0x99fda678, 0xf2515920, 0x9c6b89a3, 0x49f0e184, 0x75f8eb53, 0xa2c7bd28);
    assert Ends(0xf2515920, 0x9c6b89a3, 0x49f0e184, 0x99fda678, 0x73b8518d, 0xa8dc99fa);
    RoundEnds(5, 0x9c6b89a3, 0x49f0e184, 0x99fda678, 0xf2515920);
  }

  lemma Boxes6()
    ensures Boxed(6, 0x2e5bacf8, 0xaf6ea9e7, 0x3ac67a34, 0xc286ee2d)
  {
    hide SubBits;
    Box(0xc357aae1, 0x2e5bacf8);
    Box(0x1b45b7b0, 0xaf6ea9e7);
    Box(0xa2c7bd28, 0x3ac67a34);
    Box(0xa8dc99fa, 0xc286ee2d);
  }

  lemma Round6()
    ensures Rounded(6)
  {
    Boxes6();
    hide SubBits, Boxed;
    assert Ends(0x2e5bacf8, 0xaf6ea9e7, 0x3ac67a34, 0xc286ee2d, 0xc656827f, 0x7f074143);
    assert Ends(0xaf6ea9e7, 0x3ac67a34, 0xc286ee2d, 0x2e5bacf8, 0xc9a79917, 0xcb4e243e);
    assert Ends(0x3ac67a34, 0xc286ee2d, 0x2e5bacf8, 0xaf6ea9e7, 0x6f294cec, 0xc10c815d);
    assert Ends(0xc286ee2d, 0x2e5bacf8, 0xaf6ea9e7, 0x3ac67a34, 0x6cd5598b, 0x8375d54c);
    RoundEnds(6, 0x2e5bacf8, 0xaf6ea9e7, 0x3ac67a34, 0xc286ee2d);
  }

  lemma Boxes7()
    ensures Boxed(7, 0xd2c5831a, 0x1f2f36b2, 0x78fe0c4c, 0xec9d0329)
  {
    hide SubBits;
    Box(0x7f074143, 0xd2c5831a);
    Box(0xcb4e243e, 0x1f2f36b2);
    Box(0xc10c815d, 0x78fe0c4c);
    Box(0x8375d54c, 0xec9d0329);
  }

  lemma Round7()
    ensures Rounded(7)
  {
    Boxes7();
    hide SubBits, Boxed;
    assert Ends(0xd2c5831a, 0x1f2f36b2, 0x78fe0c4c, 0xec9d0329, 0x3de23a75, 0xd653a469);
    assert Ends(0x1f2f36b2, 0x78fe0c4c, 0xec9d0329, 0xd2c5831a, 0x524775e7, 0x6ca0bc0f);
    assert Ends(0x78fe0c4c, 0xec9d0329, 0xd2c5831a, 0x1f2f36b2, 0x27bf9eb4, 0x5acaab5d);
    assert Ends(0xec9d0329, 0xd2c5831a, 0x1f2f36b2, 0x78fe0c4c, 0x5407cf39, 0xb96c5e7d);
    RoundEnds(7, 0xd2c5831a, 0x1f2f36b2, 0x78fe0c4c, 0xec9d0329);
  }

  lemma Boxes8()
    ensures Boxed(8, 0xf6ed49f9, 0x50e06576, 0xbe74624c, 0x565058ff)
  {
    hide SubBits;
    Box(0xd653a469, 0xf6ed49f9);
    Box(0x6ca0bc0f, 0x50e06576);
    Box(0x5acaab5d, 0xbe74624c);
    Box(0xb96c5e7d, 0x565058ff);
  }

  lemma Round8()
    ensures Rounded(8)
  {
    Boxes8();
    hide SubBits, Boxed;
    assert Ends(0xf6ed49f9, 0x50e06576, 0xbe74624c, 0x565058ff, 0x0bdc905f, 0x5aa85839);
    assert Ends(0x50e06576, 0xbe74624c, 0x565058ff, 0xf6ed49f9, 0xc27b0948, 0x5fd28d7d);
    assert Ends(0xbe74624c, 0x565058ff, 0xf6ed49f9, 0x50e06576, 0xad5245a4, 0x05e1a388);
    assert Ends(0x565058ff, 0xf6ed49f9, 0x50e06576, 0xbe74624c, 0xc1871c2f, 0x68f3b9c5);
    RoundEnds(8, 0xf6ed49f9, 0x50e06576, 0xbe74624c, 0x565058ff);
  }

  lemma Boxes9()
    ensures Boxed(9, 0xbec26a12, 0xcfb55dff, 0x6bf80ac4, 0x450d56a6)
  {
    hide SubBits;
    Box(0x5aa85839, 0xbec26a12);
    Box(0x5fd28d7d, 0xcfb55dff);
    Box(0x05e1a388, 0x6bf80ac4);
    Box(0x68f3b9c5, 0x450d56a6);
  }

  lemma Round9()
    ensures Rounded(9)
  {
    Boxes9();
    hide SubBits, Boxed;
    assert Ends(0xbec26a12, 0xcfb55dff, 0x6bf80ac4, 0x450d56a6, 0x45f5a660, 0x4a824851);
    assert Ends(0xcfb55dff, 0x6bf80ac4, 0x450d56a6, 0xbec26a12, 0x17b2d387, 0xc57e7e47);
    assert Ends(0x6bf80ac4, 0x450d56a6, 0xbec26a12, 0xcfb55dff, 0x300d4d33, 0x643de50c);
    assert Ends(0x450d56a6, 0xbec26a12, 0xcfb55dff, 0x6bf80ac4, 0x640a820a, 0x2af3e8c9);
    RoundEnds(9, 0xbec26a12, 0xcfb55dff, 0x6bf80ac4, 0x450d56a6);
  }

  lemma Boxes10()
    ensures Boxed(10, 0xd61352d1, 0xa6f3f3a0, 0x4327d9fe, 0xe50d9bdd)
  {
    hide SubBits;
    Box(0x4a824851, 0xd61352d1);
    Box(0xc57e7e47, 0xa6f3f3a0);
    Box(0x643de50c, 0x4327d9fe);
    Box(0x2af3e8c9, 0xe50d9bdd);
  }

  lemma Round10()
    ensures Rounded(10)
  {
    Boxes10();
    hide SubBits, Boxed;
    assert Ends(0xd61352d1, 0xa6f3f3a0, 0x4327d9fe, 0xe50d9bdd, 0x7ccff71c, 0xc14907f6);
    assert Ends(0xa6f3f3a0, 0x4327d9fe, 0xe50d9bdd, 0xd61352d1, 0xbeb4fe54, 0xca3b3aa0);
    assert Ends(0x4327d9fe, 0xe50d9bdd, 0xd61352d1, 0xa6f3f3a0, 0x13e6bbf0, 0x70e9aa31);
    assert Ends(0xe50d9bdd, 0xd61352d1, 0xa6f3f3a0, 0x4327d9fe, 0xd261a7df, 0x3b52b5ec);
    RoundEnds(10, 0xd61352d1, 0xa6f3f3a0, 0x4327d9fe, 0xe50d9bdd);
  }

  lemma Boxes11()
    ensures Boxed(11, 0x783bc542, 0x74e280e0, 0x511eacc7, 0xe200d5ce)
  {
    hide SubBits;
    Box(0xc14907f6, 0x783bc542);
    Box(0xca3b3aa0, 0x74e280e0);
    Box(0x70e9aa31, 0x511eacc7);
    Box(0x3b52b5ec, 0xe200d5ce);
  }

  lemma Round11()
    ensures Rounded(11)
  {
    Boxes11();
    hide SubBits, Boxed;
    assert Ends(0x783bc542, 0x74e280e0, 0x511eacc7, 0xe200d5ce, 0xf01afafe, 0x5f9c6abf);
    assert Ends(0x74e280e0, 0x511eacc7, 0xe200d5ce, 0x783bc542, 0xe7a82979, 0xbac634aa);
    assert Ends(0x511eacc7, 0xe200d5ce, 0x783bc542, 0x74e280e0, 0xd7a5644a, 0x50409fa7);
    assert Ends(0xe200d5ce, 0x783bc542, 0x74e280e0, 0x511eacc7, 0xb3afe640, 0x66677653);
    RoundEnds(11, 0x783bc542, 0x74e280e0, 0x511eacc7, 0xe200d5ce);
  }

  lemma Boxes12()
    ensures Boxed(12, 0xcfde0208, 0xf4b418ac, 0x5309db5c, 0x338538ed)
  {
    hide SubBits;
    Box(0x5f9c6abf, 0xcfde0208);
    Box(0xbac634aa, 0xf4b418ac);
    Box(0x50409fa7, 0x5309db5c);
    Box(0x66677653, 0x338538ed);
  }

  lemma Round12()
    ensures Rounded(12)
  {
    Boxes12();
    hide SubBits, Boxed;
    assert Ends(0xcfde0208, 0xf4b418ac, 0x5309db5c, 0x338538ed, 0x2541fe71, 0x51660495);
    assert Ends(0xf4b418ac, 0x5309db5c, 0x338538ed, 0xcfde0208, 0x9bf50025, 0x43539503);
    assert Ends(0x5309db5c, 0x338538ed, 0xcfde0208, 0xf4b418ac, 0x8813bbd5, 0x14fb86e4);
    assert Ends(0x338538ed, 0xcfde0208, 0xf4b418ac, 0x5309db5c, 0x5a721c0a, 0x01922521);
    RoundEnds(12, 0xcfde0208, 0xf4b418ac, 0x5309db5c, 0x338538ed);
  }

  lemma Boxes13()
    ensures Boxed(13, 0xd133f22a, 0x1aed2a7b, 0xfa0f4469, 0x7c4f3ffd)
  {
    hide SubBits;
    Box(0x51660495, 0xd133f22a);
    Box(0x43539503, 0x1aed2a7b);
    Box(0x14fb86e4, 0xfa0f4469);
    Box(0x01922521, 0x7c4f3ffd);
  }

  lemma Round13()
    ensures Rounded(13)
  {
    Boxes13();
    hide SubBits, Boxed;
    assert Ends(0xd133f22a, 0x1aed2a7b, 0xfa0f4469, 0x7c4f3ffd, 0x4e5a6699, 0x627bceb9);
    assert Ends(0x1aed2a7b, 0xfa0f4469, 0x7c4f3ffd, 0xd133f22a, 0xa9f24fe0, 0x999d5aaa);
    assert Ends(0xfa0f4469, 0x7c4f3ffd, 0xd133f22a, 0x1aed2a7b, 0x7e572baa, 0xc945ecf4);
    assert Ends(0x7c4f3ffd, 0xd133f22a, 0x1aed2a7b, 0xfa0f4469, 0xcdf8cdea, 0x23f56da5);
    RoundEnds(13, 0xd133f22a, 0x1aed2a7b, 0xfa0f4469, 0x7c4f3ffd);
  }

  lemma Boxes14()
    ensures Boxed(14, 0xaa218b56, 0xee5ebeac, 0xdd6ecebf, 0x26e63c06)
  {
    hide SubBits;
    Box(0x627bceb9, 0xaa218b56);
    Box(0x999d5aaa, 0xee5ebeac);
    Box(0xc945ecf4, 0xdd6ecebf);
    Box(0x23f56da5, 0x26e63c06);
  }

  lemma Round14()
    ensures RoundedLast()
  {
    Boxes14();
    hide SubBits, Boxed;
    assert EndsLast(0xaa218b56, 0xee5ebeac, 0xdd6ecebf, 0x26e63c06, 0x24fc79cc, 0x8ea2b7ca);
    assert EndsLast(0xee5ebeac, 0xdd6ecebf, 0x26e63c06, 0xaa218b56, 0xbf0979e9, 0x516745bf);
    assert EndsLast(0xdd6ecebf, 0x26e63c06, 0xaa218b56, 0xee5ebeac, 0x371ac23c, 0xeafc4990);
    assert EndsLast(0x26e63c06, 0xaa218b56, 0xee5ebeac, 0xdd6ecebf, 0x6d68de36, 0x4b496089);
    LastEnds(0xaa218b56, 0xee5ebeac, 0xdd6ecebf, 0x26e63c06);
  }

  function KeyC3(): (key: Cryptor.Key)
    ensures |key| == 32
  {
    [Byte(0x00), Byte(0x01), Byte(0x02), Byte(0x03), Byte(0x04), Byte(0x05), Byte(0x06), Byte(0x07),
     Byte(0x08), Byte(0x09), Byte(0x0a), Byte(0x0b), Byte(0x0c), Byte(0x0d), Byte(0x0e), Byte(0x0f)]
    + [Byte(0x10), Byte(0x11), Byte(0x12), Byte(0x13), Byte(0x14), Byte(0x15), Byte(0x16), Byte(0x17),
     Byte(0x18), Byte(0x19), Byte(0x1a), Byte(0x1b), Byte(0x1c), Byte(0x1d), Byte(0x1e), Byte(0x1f)]
  }

  function PlaintextC3(): (block: seq<Byte>)
    ensures |block| == 16
  {
    [Byte(0x00), Byte(0x11), Byte(0x22), Byte(0x33), Byte(0x44), Byte(0x55), Byte(0x66), Byte(0x77),
     Byte(0x88), Byte(0x99), Byte(0xaa), Byte(0xbb), Byte(0xcc), Byte(0xdd), Byte(0xee), Byte(0xff)]
  }

  function CiphertextC3(): (block: seq<Byte>)
    ensures |block| == 16
  {
    [Byte(0x8e), Byte(0xa2), Byte(0xb7), Byte(0xca), Byte(0x51), Byte(0x67), Byte(0x45), Byte(0xbf),
     Byte(0xea), Byte(0xfc), Byte(0x49), Byte(0x90), Byte(0x4b), Byte(0x49), Byte(0x60), Byte(0x89)]
  }

  lemma FromBytes(s: seq<Byte>, i: nat, b0: bv8, b1: bv8, b2: bv8, b3: bv8, x: bv32)
    requires i + 4 <= |s| && x == Join(b0, b1, b2, b3)
    requires s[i] == Byte(b0) && s[i + 1] == Byte(b1) && s[i + 2] == Byte(b2) && s[i + 3] == Byte(b3)
    ensures U4ByteIn(s, i) == Hex(x)
  {
    HexJoin(b0, b1, b2, b3);
  }

  lemma FirstKeyBytes()
    ensures U4ByteIn(KeyC3(), 0) == Hex(0x00010203) && U4ByteIn(KeyC3(), 4) == Hex(0x04050607)
    ensures U4ByteIn(KeyC3(), 8) == Hex(0x08090a0b) && U4ByteIn(KeyC3(), 12) == Hex(0x0c0d0e0f)
  {
    hide Hex, U4ByteIn;
    FromBytes(KeyC3(), 0, 0x00, 0x01, 0x02, 0x03, 0x00010203);
    FromBytes(KeyC3(), 4, 0x04, 0x05, 0x06, 0x07, 0x04050607);
    FromBytes(KeyC3(), 8, 0x08, 0x09, 0x0a, 0x0b, 0x08090a0b);
    FromBytes(KeyC3(), 12, 0x0c, 0x0d, 0x0e, 0x0f, 0x0c0d0e0f);
  }

  lemma LastKeyBytes()
    ensures U4ByteIn(KeyC3(), 16) == Hex(0x10111213) && U4ByteIn(KeyC3(), 20) == Hex(0x14151617)
    ensures U4ByteIn(KeyC3(), 24) == Hex(0x18191a1b) && U4ByteIn(KeyC3(), 28) == Hex(0x1c1d1e1f)
  {
    hide Hex, U4ByteIn;
    FromBytes(KeyC3(), 16, 0x10, 0x11, 0x12, 0x13, 0x10111213);
    FromBytes(KeyC3(), 20, 0x14, 0x15, 0x16, 0x17, 0x14151617);
    FromBytes(KeyC3(), 24, 0x18, 0x19, 0x1a, 0x1b, 0x18191a1b);
    FromBytes(KeyC3(), 28, 0x1c, 0x1d, 0x1e, 0x1f, 0x1c1d1e1f);
  }

  lemma FirstRoundKeys()
    ensures |KeyWords(KeyC3())| == 8
    ensures IsRoundKey(KeyWords(KeyC3()), 0, KSch(0)) && IsRoundKey(KeyWords(KeyC3()), 1, KSch(1))
  {
    hide Hex, KeyWord, KeyWords;
    var key, words := KeyC3(), KeyWords(KeyC3());
    KeyWordsAre(key);
    FirstKeyBytes();
    LastKeyBytes();
    hide KeyC3;
    KeyFirst(words, 0, 0x00010203);
    KeyFirst(words, 1, 0x04050607);
    KeyFirst(words, 2, 0x08090a0b);
    KeyFirst(words, 3, 0x0c0d0e0f);
    KeyFirst(words, 4, 0x10111213);
    KeyFirst(words, 5, 0x14151617);
    KeyFirst(words, 6, 0x18191a1b);
    KeyFirst(words, 7, 0x1c1d1e1f);
  }

  lemma KeyWordsAre(key: seq<Byte>)
    ensures |KeyWords(key)| == |key| / 4
    ensures forall i :: 0 <= i < |key| / 4 ==> KeyWords(key)[i] == U4ByteIn(key, 4 * i)
  {}

  /** The schedule of the key. */
  lemma {:induction false} RoundKeysC3(r: nat)
    requires r <= 14
    ensures IsRoundKey(KeyWords(KeyC3()), r, KSch(r))
  {
    hide IsRoundKey, Temp, KSch, KeyC3, KeyWords, Follow;
    FirstRoundKeys();
    if r >= 2 {
      RoundKeysC3(r - 2);
      RoundKeysC3(r - 1);
      if r < 6 {
        KeyRows2(r);
      } else if r < 10 {
        KeyRows6(r);
      } else {
        KeyRows10(r);
      }
      NextRoundKey(KeyWords(KeyC3()), r, KSch(r - 2), KSch(r - 1), KSch(r));
    }
  }

  lemma ScheduleC3(r: nat)
    requires r <= 14
    ensures RoundKey(Schedule(KeyC3()), r) == Of(KSch(r))
  {
    hide KSch, KeyC3, KeyWords, KeyWord, Hex;
    RoundKeysC3(r);
  }

  lemma FirstSum()
    ensures Added(Start(0), KSch(0)) == Start(1)
  {}

  /** All rounds but the last. */
  lemma {:induction false} RoundsC3(r: nat)
    requires r <= 13
    ensures Rounds(Schedule(KeyC3()), Of(Start(0)), r) == Of(Start(r + 1))
  {
    hide KSch, KeyC3, Schedule, RoundKey, Round, AddRoundKey, Start, Of, Added, Mixed, SubShift;
    ScheduleC3(r);
    if r == 0 {
      FirstSum();
      AddedOnBits(Start(0), KSch(0));
    } else {
      RoundsC3(r - 1);
      RoundOnBits(Start(r), KSch(r));
      AllRounds(r);
    }
  }

  lemma AllRounds(r: nat)
    requires 1 <= r <= 13
    ensures Rounded(r)
  {
    hide Rounded;
    match r
    case 1 => Round1();
    case 2 => Round2();
    case 3 => Round3();
    case 4 => Round4();
    case 5 => Round5();
    case 6 => Round6();
    case 7 => Round7();
    case 8 => Round8();
    case 9 => Round9();
    case 10 => Round10();
    case 11 => Round11();
    case 12 => Round12();
    case _ => Round13();
  }

  lemma Loaded()
    ensures Load(PlaintextC3()) == Of(Start(0))
  {
    hide Hex, U4ByteIn;
    FromBytes(PlaintextC3(), 0, 0x00, 0x11, 0x22, 0x33, 0x00112233);
    FromBytes(PlaintextC3(), 4, 0x44, 0x55, 0x66, 0x77, 0x44556677);
    FromBytes(PlaintextC3(), 8, 0x88, 0x99, 0xaa, 0xbb, 0x8899aabb);
    FromBytes(PlaintextC3(), 12, 0xcc, 0xdd, 0xee, 0xff, 0xccddeeff);
  }

  lemma Stored()
    ensures Store(Of(Start(15))) == CiphertextC3()
  {
    hide Hex, U4ByteIn;
    FromBytes(CiphertextC3(), 0, 0x8e, 0xa2, 0xb7, 0xca, 0x8ea2b7ca);
    FromBytes(CiphertextC3(), 4, 0x51, 0x67, 0x45, 0xbf, 0x516745bf);
    FromBytes(CiphertextC3(), 8, 0xea, 0xfc, 0x49, 0x90, 0xeafc4990);
    FromBytes(CiphertextC3(), 12, 0x4b, 0x49, 0x60, 0x89, 0x4b496089);
    hide CiphertextC3;
    StoreLoad(CiphertextC3());
  }

  /** Encrypting the block of appendix C.3 with its key of 256 bits gives the printed result. */
  lemma EncryptedC3()
    ensures Encrypted(KeyC3(), PlaintextC3()) == CiphertextC3()
  {
    hide KSch, Schedule, RoundKey, AddRoundKey, Start, Of, Added, SubShift, Rounds, ShiftRows, SubBytes,
      KeyC3, PlaintextC3, CiphertextC3, Load, Store;
    Loaded();
    Stored();
    RoundsC3(13);
    ScheduleC3(14);
    SubShiftOnBits(Start(14));
    AddedOnBits(SubShift(Start(14)), KSch(14));
    Round14();
  }
}
