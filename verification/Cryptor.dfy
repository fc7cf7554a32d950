/**
 * AESCryptor: key set-up, encryption and decryption of one block with the lookup tables.
 */
module Cryptor {
  import opened Gf256
  import opened Generator
  import opened Words
  import opened Fips197
  import opened Rijndael

  type Key = k: seq<Byte> | |k| == 16 || |k| == 24 || |k| == 32 witness seq(16, _ => ZERO)

  // ----- Blocks of bytes -----

  /** u4byte_in: four bytes of s from position i. */
  function U4ByteIn(s: seq<Byte>, i: nat): Word
    requires i + 4 <= |s|
  {
    Word(s[i], s[i + 1], s[i + 2], s[i + 3])
  }

  function Load(s: seq<Byte>): State
    requires |s| == 16
  {
    State(U4ByteIn(s, 0), U4ByteIn(s, 4), U4ByteIn(s, 8), U4ByteIn(s, 12))
  }

  function Store(s: State): (b: seq<Byte>)
    ensures |b| == 16
  {
    [s.c0.b0, s.c0.b1, s.c0.b2, s.c0.b3, s.c1.b0, s.c1.b1, s.c1.b2, s.c1.b3,
     s.c2.b0, s.c2.b1, s.c2.b2, s.c2.b3, s.c3.b0, s.c3.b1, s.c3.b2, s.c3.b3]
  }

  function WordBytes(w: Word): (b: seq<Byte>)
    ensures |b| == 4
  {
    [w.b0, w.b1, w.b2, w.b3]
  }

  /** a with the bytes from o on overwritten by x. */
  function Splice(a: seq<Byte>, o: nat, x: seq<Byte>): (b: seq<Byte>)
    requires o + |x| <= |a|
    ensures |b| == |a|
  {
    a[..o] + x + a[o + |x|..]
  }

  lemma SpliceSplice(a: seq<Byte>, o: nat, x: seq<Byte>, y: seq<Byte>)
    requires o + |x| + |y| <= |a|
    ensures Splice(Splice(a, o, x), o + |x|, y) == Splice(a, o, x + y)
  {}

  lemma StoreLoad(s: seq<Byte>)
    requires |s| == 16
    ensures Store(Load(s)) == s
  {}

  lemma LoadStore(s: State)
    ensures Load(Store(s)) == s
  {}

  function KeyWords(key: seq<Byte>): (w: seq<Word>)
    ensures |w| == |key| / 4
  {
    seq(|key| / 4, i requires 0 <= i < |key| / 4 => U4ByteIn(key, 4 * i))
  }

  // ----- The block cipher as a function of key and block -----

  ghost function Schedule(key: seq<Byte>): (w: seq<Word>)
    requires |key| >= 4
    ensures |w| == |key| + 28
  {
    seq(|key| + 28, i requires 0 <= i < |key| + 28 => KeyWord(KeyWords(key), i))
  }

  /** AES of one block: 10, 12 or 14 rounds. */
  ghost function Encrypted(key: Key, block: seq<Byte>): (r: seq<Byte>)
    requires |block| == 16
    ensures |r| == 16
  {
    Store(Cipher(Schedule(key), |key| / 4 + 6, Load(block)))
  }

  ghost function Decrypted(key: Key, block: seq<Byte>): (r: seq<Byte>)
    requires |block| == 16
    ensures |r| == 16
  {
    Store(InvCipher(Schedule(key), |key| / 4 + 6, Load(block)))
  }

  /** Decryption undoes encryption, for every key of the three sizes and every block. */
  lemma DecryptedEncrypted(key: Key, block: seq<Byte>)
    requires |block| == 16
    ensures Decrypted(key, Encrypted(key, block)) == block
  {
    hide Cipher, InvCipher, Schedule, Load, Store;
    var w, nr := Schedule(key), |key| / 4 + 6;
    LoadStore(Cipher(w, nr, Load(block)));
    InvCipherOfCipher(w, nr, Load(block));
    StoreLoad(block);
  }

  // ----- What the table look-ups compute -----

  lemma XorAssoc(a: Byte, b: Byte, c: Byte)
    ensures Xor(Xor(a, b), c) == Xor(a, Xor(b, c))
  {}

  lemma XorWAssoc(a: Word, b: Word, c: Word)
    ensures XorW(XorW(a, b), c) == XorW(a, XorW(b, c))
  {
    hide Xor;
    XorAssoc(a.b0, b.b0, c.b0);
    XorAssoc(a.b1, b.b1, c.b1);
    XorAssoc(a.b2, b.b2, c.b2);
    XorAssoc(a.b3, b.b3, c.b3);
  }

  lemma XorComm(a: Byte, b: Byte)
    ensures Xor(a, b) == Xor(b, a)
  {}

  lemma XorWComm(a: Word, b: Word)
    ensures XorW(a, b) == XorW(b, a)
  {
    hide Xor;
    XorComm(a.b0, b.b0);
    XorComm(a.b1, b.b1);
    XorComm(a.b2, b.b2);
    XorComm(a.b3, b.b3);
  }

  lemma SumOfLowOnes(a: Byte, b: Byte, c: Byte, d: Byte)
    ensures XorW(XorW(XorW(LowOne(a), RotL(LowOne(b), 1)), RotL(LowOne(c), 2)), RotL(LowOne(d), 3)) == Word(a, b, c, d)
  {
    hide Xor, ZERO;
    XorZero(ZERO);
    XorZero(a);
    XorZero(b);
    XorZero(c);
    XorZero(d);
  }

  lemma SumOfMixOnes(a: Byte, b: Byte, c: Byte, d: Byte)
    ensures XorW(XorW(XorW(MixOne(a), RotL(MixOne(b), 1)), RotL(MixOne(c), 2)), RotL(MixOne(d), 3))
         == MixColumn(Word(a, b, c, d))
  {
    hide MixOne, MixColumn, XorW, RotL;
    MixColumnByBytes(Word(a, b, c, d));
    XorWAssoc(XorW(MixOne(a), RotL(MixOne(b), 1)), RotL(MixOne(c), 2), RotL(MixOne(d), 3));
  }

  lemma SumOfInvMixOnes(a: Byte, b: Byte, c: Byte, d: Byte)
    ensures XorW(XorW(XorW(InvMixOne(a), RotL(InvMixOne(b), 1)), RotL(InvMixOne(c), 2)), RotL(InvMixOne(d), 3))
         == InvMixColumn(Word(a, b, c, d))
  {
    hide InvMixOne, InvMixColumn, XorW, RotL;
    InvMixColumnByBytes(Word(a, b, c, d));
    XorWAssoc(XorW(InvMixOne(a), RotL(InvMixOne(b), 1)), RotL(InvMixOne(c), 2), RotL(InvMixOne(d), 3));
  }

  /** imix_col on words: u, v, w are two, four and eight times x. */
  function ImixCol(x: Word): Word {
    var u := StarX(x);
    var v := StarX(u);
    var w := StarX(v);
    var t := XorW(w, x);
    XorW(XorW(XorW(u, v), w), XorW(XorW(RotR(XorW(u, t), 1), RotR(XorW(v, t), 2)), RotR(t, 3)))
  }

  lemma ImixColIsInvMixColumn(x: Word)
    ensures ImixCol(x) == InvMixColumn(x)
  {
    hide Xor, XTime, Mul, StarX, Xor4;
    StarXDoublesEachByte(x);
    StarXDoublesEachByte(StarX(x));
    StarXDoublesEachByte(StarX(StarX(x)));
    ImixRow(x.b0, x.b1, x.b2, x.b3);
    ImixRow(x.b1, x.b2, x.b3, x.b0);
    ImixRow(x.b2, x.b3, x.b0, x.b1);
    ImixRow(x.b3, x.b0, x.b1, x.b2);
    Xor4Turn(Mul(Byte(14), x.b1), Mul(Byte(11), x.b2), Mul(Byte(13), x.b3), Mul(Byte(9), x.b0));
    Xor4Turn(Mul(Byte(14), x.b2), Mul(Byte(11), x.b3), Mul(Byte(13), x.b0), Mul(Byte(9), x.b1));
    Xor4Turn(Mul(Byte(9), x.b1), Mul(Byte(14), x.b2), Mul(Byte(11), x.b3), Mul(Byte(13), x.b0));
    Xor4Turn(Mul(Byte(11), x.b0), Mul(Byte(13), x.b1), Mul(Byte(9), x.b2), Mul(Byte(14), x.b3));
  }

  /** One byte of imix_col. */
  lemma ImixRow(a: Byte, b: Byte, c: Byte, d: Byte)
    ensures var a1, b1, c1, d1 := XTime(a), XTime(b), XTime(c), XTime(d);
            var a2, b2, c2, d2 := XTime(a1), XTime(b1), XTime(c1), XTime(d1);
            var a3, b3, c3, d3 := XTime(a2), XTime(b2), XTime(c2), XTime(d2);
            Xor(Xor(Xor(a1, a2), a3), Xor(Xor(Xor(b1, Xor(b3, b)), Xor(c2, Xor(c3, c))), Xor(d3, d)))
              == Xor4(Mul(Byte(14), a), Mul(Byte(11), b), Mul(Byte(13), c), Mul(Byte(9), d))
  {
    hide Xor, XTime, Mul;
    MulBy13And14(a);
    MulBy9And11(b);
    MulBy13And14(c);
    MulBy9And11(d);
    XorAssoc(XTime(a), XTime(XTime(a)), XTime(XTime(XTime(a))));
    MoveLast(XTime(b), XTime(XTime(XTime(b))), b);
    MoveLast(XTime(XTime(c)), XTime(XTime(XTime(c))), c);
    XorComm(XTime(XTime(XTime(d))), d);
    Regroup(Mul(Byte(14), a), Mul(Byte(11), b), Mul(Byte(13), c), Mul(Byte(9), d));
  }

  lemma MoveLast(p: Byte, q: Byte, x: Byte)
    ensures Xor(p, Xor(q, x)) == Xor(x, Xor(p, q))
  {
    hide Xor;
    XorAssoc(p, q, x);
    XorComm(Xor(p, q), x);
  }

  lemma Regroup(a: Byte, b: Byte, c: Byte, d: Byte)
    ensures Xor(a, Xor(Xor(b, c), d)) == Xor4(a, b, c, d)
  {
    hide Xor;
    XorAssoc(b, c, d);
    XorAssoc(a, b, Xor(c, d));
  }

  // ----- The class -----

  class AESCryptor {
    const tabs: Tables
    const e_key: array<Word>
    const d_key: array<Word>
    var k_len: nat

    constructor (tabs: Tables)
      requires tabs.Allocated()
      ensures this.tabs == tabs && Allocated()
      ensures fresh(e_key) && fresh(d_key)
    {
      this.tabs := tabs;
      e_key := new Word[64](_ => WZERO);
      d_key := new Word[64](_ => WZERO);
      k_len := 0;
    }

    ghost predicate Allocated() {
      tabs.Allocated() && e_key.Length == d_key.Length == 64 && e_key != d_key
      && e_key !in tabs.Repr() && d_key !in tabs.Repr()
    }

    /** The tables are built and both schedules belong to the key. */
    ghost predicate Keyed(key: Key)
      reads this, tabs.Repr(), e_key, d_key
      ensures Keyed(key) ==> tabs.Ready()
    {
      && Allocated() && tabs.Ready()
      && 4 * k_len == |key|
      && e_key[..4 * k_len + 28] == Schedule(key)
      && IsDecryptionSchedule(e_key[..], d_key[..], k_len + 6)
    }

    /** Words 0 to n - 1 of the schedule are in place. */
    ghost predicate Expanded(kw: seq<Word>, n: nat)
      requires |kw| > 0
      reads e_key
    {
      e_key.Length == 64 && n <= 64 && forall j :: 0 <= j < n ==> e_key[j] == KeyWord(kw, j)
    }

    /** t ^= e_key[j - nk]; e_key[j] = t; */
    method PutNext(j: nat, nk: nat, t: Word, ghost kw: seq<Word>) returns (t': Word)
      requires nk == |kw| > 0 && nk <= j < 64 && Expanded(kw, j)
      requires XorW(t, KeyWord(kw, j - nk)) == KeyWord(kw, j)
      modifies e_key
      ensures Expanded(kw, j + 1) && t' == KeyWord(kw, j)
    {
      hide KeyWord, XorW;
      t' := XorW(t, e_key[j - nk]);
      e_key[j] := t';
    }

    /** The step of a word whose index is no multiple of nk. */
    method PutPlain(j: nat, nk: nat, t: Word, ghost kw: seq<Word>) returns (t': Word)
      requires nk == |kw| > 0 && nk <= j < 64 && Expanded(kw, j)
      requires j % nk != 0 && (nk > 6 ==> j % nk != 4) && t == KeyWord(kw, j - 1)
      modifies e_key
      ensures Expanded(kw, j + 1) && t' == KeyWord(kw, j)
    {
      hide KeyWord, XorW;
      PlainKeyWord(kw, j);
      t' := PutNext(j, nk, t, kw);
    }

    /** The step that starts each group of nk words: t = ls_box(rotr(t, 8)) ^ rco_tab[i]. */
    method PutFirst(i: nat, j: nat, nk: nat, t: Word, ghost kw: seq<Word>) returns (t': Word)
      requires Allocated() && tabs.Ready()
      requires nk == |kw| > 0 && i < 10 && nk <= j < 64 && j % nk == 0 && j / nk == i + 1
      requires Expanded(kw, j) && t == KeyWord(kw, j - 1)
      modifies e_key
      ensures tabs.Ready() && Expanded(kw, j + 1) && t' == KeyWord(kw, j)
    {
      hide KeyWord, XorW, SubWord;
      FirstKeyWord(kw, j);
      t' := XorW(LsBox(RotR(t, 1)), tabs.rco_tab[i]);
      t' := PutNext(j, nk, t', kw);
    }

    /** The middle step of a 256-bit key: t = e_key[8 * i + 4] ^ ls_box(t). */
    method PutFourth(j: nat, t: Word, ghost kw: seq<Word>) returns (t': Word)
      requires Allocated() && tabs.Ready()
      requires |kw| == 8 <= j < 64 && j % 8 == 4
      requires Expanded(kw, j) && t == KeyWord(kw, j - 1)
      modifies e_key
      ensures tabs.Ready() && Expanded(kw, j + 1) && t' == KeyWord(kw, j)
    {
      hide KeyWord, XorW, SubWord, Tables.Ready;
      FourthKeyWord(kw, j);
      t' := XorW(e_key[j - 8], LsBox(t));
      e_key[j] := t';
    }

    method Loop4(i: nat, t: Word, ghost kw: seq<Word>) returns (t': Word)
      requires Allocated() && tabs.Ready() && |kw| == 4 && i < 10
      requires Expanded(kw, 4 * i + 4) && t == KeyWord(kw, 4 * i + 3)
      modifies e_key
      ensures tabs.Ready() && Expanded(kw, 4 * i + 8) && t' == KeyWord(kw, 4 * i + 7)
    {
      hide KeyWord, Tables.Ready, Expanded;
      t' := PutFirst(i, 4 * i + 4, 4, t, kw);
      t' := PutPlain(4 * i + 5, 4, t', kw);
      t' := PutPlain(4 * i + 6, 4, t', kw);
      t' := PutPlain(4 * i + 7, 4, t', kw);
    }

    method Loop6(i: nat, t: Word, ghost kw: seq<Word>) returns (t': Word)
      requires Allocated() && tabs.Ready() && |kw| == 6 && i < 8
      requires Expanded(kw, 6 * i + 6) && t == KeyWord(kw, 6 * i + 5)
      modifies e_key
      ensures tabs.Ready() && Expanded(kw, 6 * i + 12) && t' == KeyWord(kw, 6 * i + 11)
    {
      hide KeyWord, Tables.Ready, Expanded;
      t' := PutFirst(i, 6 * i + 6, 6, t, kw);
      t' := PutPlain(6 * i + 7, 6, t', kw);
      t' := PutPlain(6 * i + 8, 6, t', kw);
      t' := PutPlain(6 * i + 9, 6, t', kw);
      t' := PutPlain(6 * i + 10, 6, t', kw);
      t' := PutPlain(6 * i + 11, 6, t', kw);
    }

    method Half8(i: nat, t: Word, ghost kw: seq<Word>) returns (t': Word)
      requires Allocated() && tabs.Ready() && |kw| == 8 && i < 7
      requires Expanded(kw, 8 * i + 8) && t == KeyWord(kw, 8 * i + 7)
      modifies e_key
      ensures tabs.Ready() && Expanded(kw, 8 * i + 12) && t' == KeyWord(kw, 8 * i + 11)
    {
      hide KeyWord, Tables.Ready, Expanded;
      t' := PutFirst(i, 8 * i + 8, 8, t, kw);
      t' := PutPlain(8 * i + 9, 8, t', kw);
      t' := PutPlain(8 * i + 10, 8, t', kw);
      t' := PutPlain(8 * i + 11, 8, t', kw);
    }

    method Loop8(i: nat, t: Word, ghost kw: seq<Word>) returns (t': Word)
      requires Allocated() && tabs.Ready() && |kw| == 8 && i < 7
      requires Expanded(kw, 8 * i + 8) && t == KeyWord(kw, 8 * i + 7)
      modifies e_key
      ensures tabs.Ready() && Expanded(kw, 8 * i + 16) && t' == KeyWord(kw, 8 * i + 15)
    {
      hide KeyWord, Tables.Ready, Expanded;
      t' := Half8(i, t, kw);
      t' := PutFourth(8 * i + 12, t', kw);
      t' := PutPlain(8 * i + 13, 8, t', kw);
      t' := PutPlain(8 * i + 14, 8, t', kw);
      t' := PutPlain(8 * i + 15, 8, t', kw);
    }

    /** set_key, for the key sizes the cipher is defined for. */
    method SetKey(in_key: array<Byte>, key_len: nat)
      requires Allocated() && (tabs.tab_gen ==> tabs.Ready())
      requires key_len in {128, 192, 256} && key_len / 8 <= in_key.Length
      requires in_key !in tabs.Repr()
      modifies this`k_len, e_key, d_key, tabs.Repr()
      ensures Keyed(in_key[..key_len / 8]) && tabs.tab_gen
    {
      hide Schedule, Tables.Ready, IsDecryptionSchedule;
      if !tabs.tab_gen {
        tabs.GenTabs();
      }
      k_len := (key_len + 31) / 32;
      ExpandKey(in_key);
      SetDecryptionKey();
    }

    method ExpandKey(in_key: array<Byte>)
      requires Allocated() && tabs.Ready()
      requires k_len in {4, 6, 8} && 4 * k_len <= in_key.Length
      modifies e_key
      ensures tabs.Ready() && e_key[..4 * k_len + 28] == Schedule(in_key[..4 * k_len])
    {
      hide KeyWord, KeyWords, Tables.Ready;
      ghost var kw := KeyWords(in_key[..4 * k_len]);
      LoadKey(in_key);
      KeyWordsOf(kw);
      match k_len {
        case 4 => Fill4(kw);
        case 6 => Fill6(kw);
        case _ => Fill8(kw);
      }
    }

    method LoadKey(in_key: array<Byte>)
      requires Allocated() && k_len in {4, 6, 8} && 4 * k_len <= in_key.Length
      modifies e_key
      ensures forall j :: 0 <= j < k_len ==> e_key[j] == KeyWords(in_key[..4 * k_len])[j]
    {
      hide KeyWords, U4ByteAt;
      KeyWordsAt(in_key, k_len);
      e_key[0] := U4ByteAt(in_key, 0);
      e_key[1] := U4ByteAt(in_key, 4);
      e_key[2] := U4ByteAt(in_key, 8);
      e_key[3] := U4ByteAt(in_key, 12);
      if k_len > 4 {
        e_key[4] := U4ByteAt(in_key, 16);
        e_key[5] := U4ByteAt(in_key, 20);
      }
      if k_len > 6 {
        e_key[6] := U4ByteAt(in_key, 24);
        e_key[7] := U4ByteAt(in_key, 28);
      }
    }

    method Fill4(ghost kw: seq<Word>)
      requires Allocated() && tabs.Ready() && |kw| == 4 && Expanded(kw, 4)
      modifies e_key
      ensures tabs.Ready() && Expanded(kw, 44)
    {
      hide KeyWord, Tables.Ready;
      var t := e_key[3];
      for i := 0 to 10
        invariant tabs.Ready() && Expanded(kw, 4 * i + 4) && t == KeyWord(kw, 4 * i + 3)
      {
        t := Loop4(i, t, kw);
      }
    }

    method Fill6(ghost kw: seq<Word>)
      requires Allocated() && tabs.Ready() && |kw| == 6 && Expanded(kw, 6)
      modifies e_key
      ensures tabs.Ready() && Expanded(kw, 54)
    {
      hide KeyWord, Tables.Ready;
      var t := e_key[5];
      for i := 0 to 8
        invariant tabs.Ready() && Expanded(kw, 6 * i + 6) && t == KeyWord(kw, 6 * i + 5)
      {
        t := Loop6(i, t, kw);
      }
    }

    method Fill8(ghost kw: seq<Word>)
      requires Allocated() && tabs.Ready() && |kw| == 8 && Expanded(kw, 8)
      modifies e_key
      ensures tabs.Ready() && Expanded(kw, 64)
    {
      hide KeyWord, Tables.Ready;
      var t := e_key[7];
      for i := 0 to 7
        invariant tabs.Ready() && Expanded(kw, 8 * i + 8) && t == KeyWord(kw, 8 * i + 7)
      {
        t := Loop8(i, t, kw);
      }
    }

    method SetDecryptionKey()
      requires Allocated() && k_len in {4, 6, 8}
      modifies d_key
      ensures IsDecryptionSchedule(e_key[..], d_key[..], k_len + 6)
    {
      hide ImixCol, InvMixColumn;
      d_key[0] := e_key[0];
      d_key[1] := e_key[1];
      d_key[2] := e_key[2];
      d_key[3] := e_key[3];
      for i := 4 to 4 * k_len + 24
        invariant d_key[0] == e_key[0] && d_key[1] == e_key[1] && d_key[2] == e_key[2] && d_key[3] == e_key[3]
        invariant forall j :: 4 <= j < i ==> d_key[j] == InvMixColumn(e_key[j])
      {
        ImixColIsInvMixColumn(e_key[i]);
        d_key[i] := ImixCol(e_key[i]);
      }
    }

    /** ls_box: the S-box on each byte of a word. */
    function LsBox(x: Word): (r: Word)
      requires tabs.Ready()
      reads tabs.Repr()
      ensures r == SubWord(x)
    {
      hide Ix, OfIx, SBox, XorW, LowOne;
      OfIxIx(x.b0);
      OfIxIx(x.b1);
      OfIxIx(x.b2);
      OfIxIx(x.b3);
      SumOfLowOnes(SBox(x.b0), SBox(x.b1), SBox(x.b2), SBox(x.b3));
      RotL0(LowOne(SBox(x.b0)));
      XorW(XorW(XorW(tabs.fl_tab[0, Ix(x.b0)], tabs.fl_tab[1, Ix(x.b1)]), tabs.fl_tab[2, Ix(x.b2)]),
        tabs.fl_tab[3, Ix(x.b3)])
    }

    /** f_rn: one word of an inner encryption round. */
    function FRn(w0: Word, w1: Word, w2: Word, w3: Word, k: Word): (r: Word)
      requires tabs.Ready()
      reads tabs.Repr()
      ensures r == XorW(MixColumn(Word(SBox(w0.b0), SBox(w1.b1), SBox(w2.b2), SBox(w3.b3))), k)
    {
      hide Ix, OfIx, SBox, XorW, MixOne, MixColumn;
      OfIxIx(w0.b0);
      OfIxIx(w1.b1);
      OfIxIx(w2.b2);
      OfIxIx(w3.b3);
      SumOfMixOnes(SBox(w0.b0), SBox(w1.b1), SBox(w2.b2), SBox(w3.b3));
      RotL0(MixOne(SBox(w0.b0)));
      XorW(XorW(XorW(XorW(tabs.ft_tab[0, Ix(w0.b0)], tabs.ft_tab[1, Ix(w1.b1)]), tabs.ft_tab[2, Ix(w2.b2)]),
        tabs.ft_tab[3, Ix(w3.b3)]), k)
    }

    /** f_rl: one word of the last encryption round. */
    function FRl(w0: Word, w1: Word, w2: Word, w3: Word, k: Word): (r: Word)
      requires tabs.Ready()
      reads tabs.Repr()
      ensures r == XorW(Word(SBox(w0.b0), SBox(w1.b1), SBox(w2.b2), SBox(w3.b3)), k)
    {
      hide Ix, OfIx, SBox, XorW, LowOne;
      OfIxIx(w0.b0);
      OfIxIx(w1.b1);
      OfIxIx(w2.b2);
      OfIxIx(w3.b3);
      SumOfLowOnes(SBox(w0.b0), SBox(w1.b1), SBox(w2.b2), SBox(w3.b3));
      RotL0(LowOne(SBox(w0.b0)));
      XorW(XorW(XorW(XorW(tabs.fl_tab[0, Ix(w0.b0)], tabs.fl_tab[1, Ix(w1.b1)]), tabs.fl_tab[2, Ix(w2.b2)]),
        tabs.fl_tab[3, Ix(w3.b3)]), k)
    }

    /** i_rn: one word of an inner decryption round. */
    function IRn(w0: Word, w1: Word, w2: Word, w3: Word, k: Word): (r: Word)
      requires tabs.Ready()
      reads tabs.Repr()
      ensures r == XorW(InvMixColumn(Word(InvSBox(w0.b0), InvSBox(w1.b1), InvSBox(w2.b2), InvSBox(w3.b3))), k)
    {
      hide Ix, OfIx, InvSBox, XorW, InvMixOne, InvMixColumn;
      OfIxIx(w0.b0);
      OfIxIx(w1.b1);
      OfIxIx(w2.b2);
      OfIxIx(w3.b3);
      SumOfInvMixOnes(InvSBox(w0.b0), InvSBox(w1.b1), InvSBox(w2.b2), InvSBox(w3.b3));
      RotL0(InvMixOne(InvSBox(w0.b0)));
      XorW(XorW(XorW(XorW(tabs.it_tab[0, Ix(w0.b0)], tabs.it_tab[1, Ix(w1.b1)]), tabs.it_tab[2, Ix(w2.b2)]),
        tabs.it_tab[3, Ix(w3.b3)]), k)
    }

    /** i_rl: one word of the last decryption round. */
    function IRl(w0: Word, w1: Word, w2: Word, w3: Word, k: Word): (r: Word)
      requires tabs.Ready()
      reads tabs.Repr()
      ensures r == XorW(Word(InvSBox(w0.b0), InvSBox(w1.b1), InvSBox(w2.b2), InvSBox(w3.b3)), k)
    {
      hide Ix, OfIx, InvSBox, XorW, LowOne;
      OfIxIx(w0.b0);
      OfIxIx(w1.b1);
      OfIxIx(w2.b2);
      OfIxIx(w3.b3);
      SumOfLowOnes(InvSBox(w0.b0), InvSBox(w1.b1), InvSBox(w2.b2), InvSBox(w3.b3));
      RotL0(LowOne(InvSBox(w0.b0)));
      XorW(XorW(XorW(XorW(tabs.il_tab[0, Ix(w0.b0)], tabs.il_tab[1, Ix(w1.b1)]), tabs.il_tab[2, Ix(w2.b2)]),
        tabs.il_tab[3, Ix(w3.b3)]), k)
    }

    // The rounds read the words of bi and overwrite bo; k is where the moving pointer kp stands.

    ghost predicate Scratch(b: array<Word>) {
      b.Length == 4 && b !in tabs.Repr() && b != e_key && b != d_key
    }

    method FNround(bo: array<Word>, bi: array<Word>, k: nat)
      requires Allocated() && tabs.Ready() && Scratch(bo) && Scratch(bi) && bo != bi && k + 4 <= 64
      modifies bo
      ensures StateOf(bo) == Round(old(StateOf(bi)), KeyAt(e_key, k))
    {
      hide SBox, MixColumn, XorW, Tables.Ready;
      bo[0] := FRn(bi[0], bi[1], bi[2], bi[3], e_key[k]);
      bo[1] := FRn(bi[1], bi[2], bi[3], bi[0], e_key[k + 1]);
      bo[2] := FRn(bi[2], bi[3], bi[0], bi[1], e_key[k + 2]);
      bo[3] := FRn(bi[3], bi[0], bi[1], bi[2], e_key[k + 3]);
    }

    method FLround(bo: array<Word>, bi: array<Word>, k: nat)
      requires Allocated() && tabs.Ready() && Scratch(bo) && Scratch(bi) && bo != bi && k + 4 <= 64
      modifies bo
      ensures StateOf(bo) == AddRoundKey(ShiftRows(SubBytes(old(StateOf(bi)))), KeyAt(e_key, k))
    {
      hide SBox, XorW, Tables.Ready;
      bo[0] := FRl(bi[0], bi[1], bi[2], bi[3], e_key[k]);
      bo[1] := FRl(bi[1], bi[2], bi[3], bi[0], e_key[k + 1]);
      bo[2] := FRl(bi[2], bi[3], bi[0], bi[1], e_key[k + 2]);
      bo[3] := FRl(bi[3], bi[0], bi[1], bi[2], e_key[k + 3]);
    }

    method INround(bo: array<Word>, bi: array<Word>, k: nat)
      requires Allocated() && tabs.Ready() && Scratch(bo) && Scratch(bi) && bo != bi && k + 4 <= 64
      modifies bo
      ensures StateOf(bo) == InvRound(old(StateOf(bi)), KeyAt(d_key, k))
    {
      hide InvSBox, InvMixColumn, XorW, Tables.Ready;
      bo[0] := IRn(bi[0], bi[3], bi[2], bi[1], d_key[k]);
      bo[1] := IRn(bi[1], bi[0], bi[3], bi[2], d_key[k + 1]);
      bo[2] := IRn(bi[2], bi[1], bi[0], bi[3], d_key[k + 2]);
      bo[3] := IRn(bi[3], bi[2], bi[1], bi[0], d_key[k + 3]);
    }

    method ILround(bo: array<Word>, bi: array<Word>, k: nat)
      requires Allocated() && tabs.Ready() && Scratch(bo) && Scratch(bi) && bo != bi && k + 4 <= 64
      modifies bo
      ensures StateOf(bo) == AddRoundKey(InvShiftRows(InvSubBytes(old(StateOf(bi)))), KeyAt(d_key, k))
    {
      hide InvSBox, XorW, Tables.Ready;
      bo[0] := IRl(bi[0], bi[3], bi[2], bi[1], d_key[k]);
      bo[1] := IRl(bi[1], bi[0], bi[3], bi[2], d_key[k + 1]);
      bo[2] := IRl(bi[2], bi[1], bi[0], bi[3], d_key[k + 2]);
      bo[3] := IRl(bi[3], bi[2], bi[1], bi[0], d_key[k + 3]);
    }

    ghost predicate Working(w: seq<Word>, dw: seq<Word>, b0: array<Word>, b1: array<Word>)
      reads this, tabs.Repr(), e_key, d_key
    {
      && Allocated() && tabs.Ready() && Scratch(b0) && Scratch(b1) && b0 != b1
      && w == e_key[..] && dw == d_key[..]
    }

    /** Two inner encryption rounds, b0 to b1 and back; r rounds are already done. */
    method FPair(b0: array<Word>, b1: array<Word>, kp: nat, ghost w: seq<Word>, ghost dw: seq<Word>, ghost s: State,
                 ghost r: nat)
      returns (kp': nat)
      requires Working(w, dw, b0, b1)
      requires kp == 4 * r + 4 && kp + 8 <= 64
      requires StateOf(b0) == Rounds(w, s, r)
      modifies b0, b1
      ensures Working(w, dw, b0, b1)
      ensures kp' == kp + 8 && StateOf(b0) == Rounds(w, s, r + 2)
    {
      hide Round, Tables.Ready;
      FNround(b1, b0, kp);
      assert StateOf(b1) == Rounds(w, s, r + 1);
      FNround(b0, b1, kp + 4);
      kp' := kp + 8;
    }

    /** Two inner decryption rounds; the rounds above r are already undone. */
    method IPair(b0: array<Word>, b1: array<Word>, kp: nat, ghost w: seq<Word>, ghost dw: seq<Word>, ghost t: State,
                 ghost nr: nat, ghost r: nat)
      returns (kp': nat)
      requires Working(w, dw, b0, b1)
      requires 2 < r <= nr && kp == 4 * r - 4 && 4 * nr + 4 <= 64
      requires StateOf(b0) == EqRounds(w, dw, nr, t, r)
      modifies b0, b1
      ensures Working(w, dw, b0, b1)
      ensures kp' == kp - 8 && StateOf(b0) == EqRounds(w, dw, nr, t, r - 2)
    {
      hide InvRound, Tables.Ready;
      INround(b1, b0, kp);
      assert StateOf(b1) == EqRounds(w, dw, nr, t, r - 1);
      INround(b0, b1, kp - 4);
      kp' := kp - 8;
    }

    /** The rounds every key size has: nine, and the last one. */
    method FinalTen(b0: array<Word>, b1: array<Word>, kp0: nat, ghost w: seq<Word>, ghost dw: seq<Word>, ghost s: State,
                    ghost r: nat)
      requires Working(w, dw, b0, b1)
      requires kp0 == 4 * r + 4 && kp0 + 40 <= 64
      requires StateOf(b0) == Rounds(w, s, r)
      modifies b0, b1
      ensures StateOf(b0) == Cipher(w, r + 10, s)
    {
      hide Round, Rounds, AddRoundKey, Working;
      var kp := FPair(b0, b1, kp0, w, dw, s, r);
      kp := FPair(b0, b1, kp, w, dw, s, r + 2);
      kp := FPair(b0, b1, kp, w, dw, s, r + 4);
      kp := FPair(b0, b1, kp, w, dw, s, r + 6);
      LastTwo(b0, b1, kp, w, dw, s, r + 8);
    }

    method LastTwo(b0: array<Word>, b1: array<Word>, kp: nat, ghost w: seq<Word>, ghost dw: seq<Word>, ghost s: State,
                   ghost r: nat)
      requires Working(w, dw, b0, b1)
      requires kp == 4 * r + 4 && kp + 8 <= 64
      requires StateOf(b0) == Rounds(w, s, r)
      modifies b0, b1
      ensures StateOf(b0) == Cipher(w, r + 2, s)
    {
      hide Round, Tables.Ready;
      FNround(b1, b0, kp);
      assert StateOf(b1) == Rounds(w, s, r + 1);
      FLround(b0, b1, kp + 4);
    }

    method FirstTen(b0: array<Word>, b1: array<Word>, kp0: nat, ghost w: seq<Word>, ghost dw: seq<Word>, ghost t: State,
                    ghost nr: nat)
      requires Working(w, dw, b0, b1)
      requires kp0 == 36 && 10 <= nr && 4 * nr + 4 <= 64
      requires StateOf(b0) == EqRounds(w, dw, nr, t, 10)
      modifies b0, b1
      ensures StateOf(b0) == EqInvCipher(w, dw, nr, t)
    {
      hide InvRound, EqRounds, AddRoundKey, Working;
      var kp := IPair(b0, b1, kp0, w, dw, t, nr, 10);
      kp := IPair(b0, b1, kp, w, dw, t, nr, 8);
      kp := IPair(b0, b1, kp, w, dw, t, nr, 6);
      kp := IPair(b0, b1, kp, w, dw, t, nr, 4);
      FirstTwo(b0, b1, kp, w, dw, t, nr);
    }

    method FirstTwo(b0: array<Word>, b1: array<Word>, kp: nat, ghost w: seq<Word>, ghost dw: seq<Word>, ghost t: State,
                    ghost nr: nat)
      requires Working(w, dw, b0, b1)
      requires kp == 4 && 2 <= nr && 4 * nr + 4 <= 64
      requires StateOf(b0) == EqRounds(w, dw, nr, t, 2)
      modifies b0, b1
      ensures StateOf(b0) == EqInvCipher(w, dw, nr, t)
    {
      hide InvRound, Tables.Ready;
      INround(b1, b0, kp);
      assert StateOf(b1) == EqRounds(w, dw, nr, t, 1);
      ILround(b0, b1, kp - 4);
    }

    method EncryptRounds(b0: array<Word>, b1: array<Word>, ghost w: seq<Word>, ghost dw: seq<Word>, ghost s: State)
      requires Working(w, dw, b0, b1) && k_len in {4, 6, 8}
      requires StateOf(b0) == Rounds(w, s, 0)
      modifies b0, b1
      ensures StateOf(b0) == Cipher(w, k_len + 6, s)
    {
      hide Round, Rounds, Cipher, Working;
      var kp := 4;
      if k_len > 6 {
        kp := FPair(b0, b1, kp, w, dw, s, 0);
      }
      if k_len > 4 {
        kp := FPair(b0, b1, kp, w, dw, s, kp / 4 - 1);
      }
      FinalTen(b0, b1, kp, w, dw, s, k_len - 4);
    }

    method DecryptRounds(b0: array<Word>, b1: array<Word>, ghost w: seq<Word>, ghost dw: seq<Word>, ghost t: State)
      requires Working(w, dw, b0, b1) && k_len in {4, 6, 8}
      requires StateOf(b0) == EqRounds(w, dw, k_len + 6, t, k_len + 6)
      modifies b0, b1
      ensures StateOf(b0) == EqInvCipher(w, dw, k_len + 6, t)
    {
      hide InvRound, EqRounds, EqInvCipher, Working;
      var kp := 4 * (k_len + 5);
      if k_len > 6 {
        kp := IPair(b0, b1, kp, w, dw, t, k_len + 6, k_len + 6);
      }
      if k_len > 4 {
        kp := IPair(b0, b1, kp, w, dw, t, k_len + 6, kp / 4 + 1);
      }
      FirstTen(b0, b1, kp, w, dw, t, k_len + 6);
    }

    /** encrypt: the block at in_blk[i..i + 16] goes to out_blk[o..o + 16]; the two may be the same memory. */
    method Encrypt(in_blk: array<Byte>, i: nat, out_blk: array<Byte>, o: nat, ghost key: Key)
      requires Keyed(key)
      requires i + 16 <= in_blk.Length && o + 16 <= out_blk.Length
      requires out_blk !in tabs.Repr()
      modifies out_blk
      ensures out_blk[..] == Splice(old(out_blk[..]), o, Encrypted(key, old(in_blk[i..i + 16])))
    {
      hide Keyed, Tables.Ready, Encrypted, Store, Splice;
      var b0 := EncryptBlock(in_blk, i, key);
      StoreAt(b0, out_blk, o);
    }

    method EncryptBlock(in_blk: array<Byte>, i: nat, ghost key: Key) returns (b0: array<Word>)
      requires Keyed(key) && i + 16 <= in_blk.Length
      ensures b0.Length == 4 && fresh(b0) && Store(StateOf(b0)) == Encrypted(key, in_blk[i..i + 16])
    {
      hide Tables.Ready, Rounds, Cipher, XorW, IsDecryptionSchedule, Load, Store, AddRoundKey;
      ghost var s := Load(in_blk[i..i + 16]);
      b0 := new Word[4];
      var b1 := new Word[4];
      AddFirstKey(in_blk, i, b0, 0);
      FirstRound(e_key[..], s, StateOf(b0));
      EncryptRounds(b0, b1, e_key[..], d_key[..], s);
      CipherPrefix(e_key[..], Schedule(key), k_len + 6, s);
    }

    /** decrypt, with the same freedom to work in place. */
    method Decrypt(in_blk: array<Byte>, i: nat, out_blk: array<Byte>, o: nat, ghost key: Key)
      requires Keyed(key)
      requires i + 16 <= in_blk.Length && o + 16 <= out_blk.Length
      requires out_blk !in tabs.Repr()
      modifies out_blk
      ensures out_blk[..] == Splice(old(out_blk[..]), o, Decrypted(key, old(in_blk[i..i + 16])))
    {
      hide Keyed, Tables.Ready, Decrypted, Store, Splice;
      var b0 := DecryptBlock(in_blk, i, key);
      StoreAt(b0, out_blk, o);
    }

    method DecryptBlock(in_blk: array<Byte>, i: nat, ghost key: Key) returns (b0: array<Word>)
      requires Keyed(key) && i + 16 <= in_blk.Length
      ensures b0.Length == 4 && fresh(b0) && Store(StateOf(b0)) == Decrypted(key, in_blk[i..i + 16])
    {
      hide Tables.Ready, EqRounds, InvCipher, EqInvCipher, XorW, Load, Store, AddRoundKey, Decrypted, Schedule;
      ghost var t := Load(in_blk[i..i + 16]);
      b0 := new Word[4];
      var b1 := new Word[4];
      AddFirstKey(in_blk, i, b0, 4 * k_len + 24);
      LastKeyFirst(e_key[..], d_key[..], k_len + 6, t, StateOf(b0));
      DecryptRounds(b0, b1, e_key[..], d_key[..], t);
      BlockDecrypted(e_key[..], d_key[..], key, in_blk[i..i + 16]);
    }

    /** The whitening both directions start with. */
    method AddFirstKey(in_blk: array<Byte>, i: nat, b: array<Word>, k: nat)
      requires i + 16 <= in_blk.Length && b.Length == 4 && k + 4 <= e_key.Length && b != e_key
      modifies b
      ensures StateOf(b) == AddRoundKey(Load(in_blk[i..i + 16]), KeyAt(e_key, k))
    {
      b[0] := XorW(U4ByteAt(in_blk, i), e_key[k]);
      b[1] := XorW(U4ByteAt(in_blk, i + 4), e_key[k + 1]);
      b[2] := XorW(U4ByteAt(in_blk, i + 8), e_key[k + 2]);
      b[3] := XorW(U4ByteAt(in_blk, i + 12), e_key[k + 3]);
    }
  }

  method StoreAt(b: array<Word>, out_blk: array<Byte>, o: nat)
    requires b.Length == 4 && o + 16 <= out_blk.Length
    modifies out_blk
    ensures out_blk[..] == Splice(old(out_blk[..]), o, Store(StateOf(b)))
  {
    hide Splice;
    ghost var a := out_blk[..];
    U4ByteOut(out_blk, o, b[0]);
    U4ByteOut(out_blk, o + 4, b[1]);
    SpliceSplice(a, o, WordBytes(b[0]), WordBytes(b[1]));
    U4ByteOut(out_blk, o + 8, b[2]);
    SpliceSplice(a, o, WordBytes(b[0]) + WordBytes(b[1]), WordBytes(b[2]));
    U4ByteOut(out_blk, o + 12, b[3]);
    SpliceSplice(a, o, WordBytes(b[0]) + WordBytes(b[1]) + WordBytes(b[2]), WordBytes(b[3]));
    assert Store(StateOf(b)) == WordBytes(b[0]) + WordBytes(b[1]) + WordBytes(b[2]) + WordBytes(b[3]);
  }

  /** u4byte_out */
  method U4ByteOut(out_blk: array<Byte>, o: nat, w: Word)
    requires o + 4 <= out_blk.Length
    modifies out_blk
    ensures out_blk[..] == Splice(old(out_blk[..]), o, WordBytes(w))
  {
    out_blk[o] := w.b0;
    out_blk[o + 1] := w.b1;
    out_blk[o + 2] := w.b2;
    out_blk[o + 3] := w.b3;
  }

  function StateOf(b: array<Word>): State
    requires b.Length == 4
    reads b
  {
    State(b[0], b[1], b[2], b[3])
  }

  function KeyAt(key: array<Word>, k: nat): State
    requires k + 4 <= key.Length
    reads key
  {
    State(key[k], key[k + 1], key[k + 2], key[k + 3])
  }

  function U4ByteAt(b: array<Byte>, i: nat): Word
    requires i + 4 <= b.Length
    reads b
  {
    Word(b[i], b[i + 1], b[i + 2], b[i + 3])
  }

  lemma BlockDecrypted(e: seq<Word>, d: seq<Word>, key: Key, block: seq<Byte>)
    requires |block| == 16 && |key| + 28 <= |e| && e[..|key| + 28] == Schedule(key)
    requires IsDecryptionSchedule(e, d, |key| / 4 + 6)
    ensures Store(EqInvCipher(e, d, |key| / 4 + 6, Load(block))) == Decrypted(key, block)
  {
    hide InvCipher, EqInvCipher, Load, Store, Schedule;
    EqInvCipherAgrees(e, d, |key| / 4 + 6, Load(block));
    InvCipherPrefix(e, Schedule(key), |key| / 4 + 6, Load(block));
  }

  lemma KeyWordsAt(in_key: array<Byte>, n: nat)
    requires 4 * n <= in_key.Length
    ensures forall j :: 0 <= j < n ==> KeyWords(in_key[..4 * n])[j] == U4ByteAt(in_key, 4 * j)
  {}

  lemma FirstRound(w: seq<Word>, s: State, t: State)
    requires 4 <= |w| && t == AddRoundKey(s, State(w[0], w[1], w[2], w[3]))
    ensures t == Rounds(w, s, 0)
  {}

  lemma LastKeyFirst(w: seq<Word>, dw: seq<Word>, nr: nat, t: State, s: State)
    requires 4 * nr + 4 <= |w| && 4 * nr <= |dw| && s == AddRoundKey(t, RoundKey(w, nr))
    ensures s == EqRounds(w, dw, nr, t, nr)
  {}

  // Only the first 4 nr + 4 words of a schedule matter.

  lemma {:induction false} RoundsPrefix(w: seq<Word>, v: seq<Word>, s: State, r: nat)
    requires 4 * r + 4 <= |v| <= |w| && v == w[..|v|]
    ensures Rounds(w, s, r) == Rounds(v, s, r)
  {
    hide Round, AddRoundKey;
    assert RoundKey(w, r) == RoundKey(v, r);
    if r > 0 {
      RoundsPrefix(w, v, s, r - 1);
    }
  }

  lemma CipherPrefix(w: seq<Word>, v: seq<Word>, nr: nat, s: State)
    requires 0 < nr && 4 * nr + 4 <= |v| <= |w| && v == w[..|v|]
    ensures Cipher(w, nr, s) == Cipher(v, nr, s)
  {
    hide AddRoundKey, Rounds;
    assert RoundKey(w, nr) == RoundKey(v, nr);
    RoundsPrefix(w, v, s, nr - 1);
  }

  lemma {:induction false} InvRoundsPrefix(w: seq<Word>, v: seq<Word>, nr: nat, t: State, r: nat)
    requires r <= nr && 4 * nr + 4 <= |v| <= |w| && v == w[..|v|]
    ensures InvRounds(w, nr, t, r) == InvRounds(v, nr, t, r)
    decreases nr - r
  {
    hide AddRoundKey, InvMixColumns;
    assert RoundKey(w, r) == RoundKey(v, r);
    if r < nr {
      InvRoundsPrefix(w, v, nr, t, r + 1);
    }
  }

  lemma InvCipherPrefix(w: seq<Word>, v: seq<Word>, nr: nat, t: State)
    requires 0 < nr && 4 * nr + 4 <= |v| <= |w| && v == w[..|v|]
    ensures InvCipher(w, nr, t) == InvCipher(v, nr, t)
  {
    hide AddRoundKey, InvRounds;
    assert RoundKey(w, 0) == RoundKey(v, 0);
    InvRoundsPrefix(w, v, nr, t, 1);
  }

  // One step of the key expansion, in the order of operands the code has.

  lemma PlainKeyWord(kw: seq<Word>, j: nat)
    requires 0 < |kw| <= j && j % |kw| != 0 && (|kw| > 6 ==> j % |kw| != 4)
    ensures XorW(KeyWord(kw, j - 1), KeyWord(kw, j - |kw|)) == KeyWord(kw, j)
  {
    hide XorW, SubWord;
    XorWComm(KeyWord(kw, j - 1), KeyWord(kw, j - |kw|));
  }

  lemma FirstKeyWord(kw: seq<Word>, j: nat)
    requires 0 < |kw| <= j && j % |kw| == 0 && j / |kw| > 0
    ensures XorW(XorW(SubWord(RotWord(KeyWord(kw, j - 1))), Rcon(j / |kw|)), KeyWord(kw, j - |kw|)) == KeyWord(kw, j)
  {
    hide XorW, SubWord, Rcon;
    XorWComm(XorW(SubWord(RotWord(KeyWord(kw, j - 1))), Rcon(j / |kw|)), KeyWord(kw, j - |kw|));
  }

  lemma FourthKeyWord(kw: seq<Word>, j: nat)
    requires |kw| == 8 <= j && j % 8 == 4
    ensures XorW(KeyWord(kw, j - 8), SubWord(KeyWord(kw, j - 1))) == KeyWord(kw, j)
  {
    hide XorW, SubWord;
  }

  lemma KeyWordsOf(kw: seq<Word>)
    requires |kw| > 0
    ensures forall j :: 0 <= j < |kw| ==> KeyWord(kw, j) == kw[j]
  {}
}
