/**
 * The table-driven AES of the E3D container: table generation, key set-up, encryption and
 * decryption of one block, each proved against FIPS 197.
 */
module Rijndael {
  import opened Gf256
  import opened Generator
  import opened Words
  import opened Fips197

  /** The file-level lookup tables. */
  class Tables {
    const pow_tab: array<Byte>
    const log_tab: array<Byte>
    const sbx_tab: array<Byte>
    const isb_tab: array<Byte>
    const rco_tab: array<Word>
    const ft_tab: array2<Word>
    const it_tab: array2<Word>
    const fl_tab: array2<Word>
    const il_tab: array2<Word>
    var tab_gen: bool

    constructor ()
      ensures Allocated() && !tab_gen
      ensures fresh(Repr())
    {
      pow_tab := new Byte[256](_ => ZERO);
      log_tab := new Byte[256](_ => ZERO);
      sbx_tab := new Byte[256](_ => ZERO);
      isb_tab := new Byte[256](_ => ZERO);
      rco_tab := new Word[10](_ => WZERO);
      ft_tab := new Word[4, 256]((_, _) => WZERO);
      it_tab := new Word[4, 256]((_, _) => WZERO);
      fl_tab := new Word[4, 256]((_, _) => WZERO);
      il_tab := new Word[4, 256]((_, _) => WZERO);
      tab_gen := false;
    }

    ghost function Repr(): set<object> {
      {this, pow_tab, log_tab, sbx_tab, isb_tab, rco_tab, ft_tab, it_tab, fl_tab, il_tab}
    }

    ghost predicate Allocated() {
      && pow_tab.Length == log_tab.Length == sbx_tab.Length == isb_tab.Length == 256
      && rco_tab.Length == 10
      && ft_tab.Length0 == it_tab.Length0 == fl_tab.Length0 == il_tab.Length0 == 4
      && ft_tab.Length1 == it_tab.Length1 == fl_tab.Length1 == il_tab.Length1 == 256
      && pow_tab != log_tab && pow_tab != sbx_tab && pow_tab != isb_tab
      && log_tab != sbx_tab && log_tab != isb_tab && sbx_tab != isb_tab
      && ft_tab != it_tab && ft_tab != fl_tab && ft_tab != il_tab
      && it_tab != fl_tab && it_tab != il_tab && fl_tab != il_tab
    }

    ghost predicate PowersReady()
      reads pow_tab, log_tab
    {
      && Allocated()
      && (forall k: nat :: k < 256 ==> pow_tab[k] == Pow3(k))
      && (forall n: nat :: 0 < n < 256 ==> OfIx(n) != ZERO && log_tab[n] == OfIx(Log(OfIx(n))))
    }

    ghost predicate RconReady()
      reads rco_tab
    {
      Allocated() && forall i: nat :: i < 10 ==> rco_tab[i] == Rcon(i + 1)
    }

    ghost predicate SBoxReady()
      reads sbx_tab, isb_tab
    {
      && Allocated()
      && (forall n: nat :: n < 256 ==> sbx_tab[n] == SBox(OfIx(n)))
      && (forall n: nat :: n < 256 ==> isb_tab[n] == InvSBox(OfIx(n)))
    }

    /** Row r of each round table holds the column contribution of a byte in row r of the state. */
    ghost predicate RoundsReady(n: nat)
      reads ft_tab, it_tab, fl_tab, il_tab
    {
      && Allocated() && n <= 256
      && (forall r: nat, k: nat :: r < 4 && k < n ==> ft_tab[r, k] == RotL(MixOne(SBox(OfIx(k))), r))
      && (forall r: nat, k: nat :: r < 4 && k < n ==> it_tab[r, k] == RotL(InvMixOne(InvSBox(OfIx(k))), r))
      && (forall r: nat, k: nat :: r < 4 && k < n ==> fl_tab[r, k] == RotL(LowOne(SBox(OfIx(k))), r))
      && (forall r: nat, k: nat :: r < 4 && k < n ==> il_tab[r, k] == RotL(LowOne(InvSBox(OfIx(k))), r))
    }

    ghost predicate Ready()
      reads Repr()
    {
      PowersReady() && RconReady() && SBoxReady() && RoundsReady(256)
    }

    method GenPowers()
      requires Allocated()
      modifies pow_tab, log_tab
      ensures PowersReady()
    {
      hide Pow3, Times3, Ix, OfIx, ZERO, ONE;
      Pow3Is1();
      var p := ONE;
      var i := 0;
      while i < 256
        invariant i <= 256 && p == Pow3(i)
        invariant forall k: nat :: k < i ==> pow_tab[k] == Pow3(k)
        invariant forall k: nat :: k < i && k < 255 && (k > 0 || i < 256) ==> log_tab[Ix(Pow3(k))] == OfIx(k)
      {
        pow_tab[i] := p;
        log_tab[Ix(p)] := OfIx(i);
        PowerIndices(i);
        Pow3Next(i);
        p := NextPower(p);
        i := i + 1;
      }
      IxOne();
      log_tab[1] := OfIx(0);
      PowerIndices(0);
      forall n: nat | 0 < n < 256 ensures OfIx(n) != ZERO && log_tab[n] == OfIx(Log(OfIx(n))) {
        IxOfIx(n);
        IxZero(OfIx(n));
        var k := Log(OfIx(n));
        assert Ix(Pow3(k)) == n;
        if k > 0 {
          PowerIndices(k);
          assert log_tab[Ix(Pow3(k))] == OfIx(k);
        }
      }
    }

    method GenRcon()
      requires Allocated()
      modifies rco_tab
      ensures RconReady()
    {
      hide XTime, RconByte;
      RconByteNext(0);
      var p := ONE;
      var i := 0;
      while i < 10
        invariant i <= 10 && p == RconByte(i)
        invariant forall k: nat :: k < i ==> rco_tab[k] == Rcon(k + 1)
      {
        rco_tab[i] := LowOne(p);
        RconByteNext(i);
        p := NextDouble(p);
        i := i + 1;
      }
    }

    method GenSBox()
      requires PowersReady()
      modifies sbx_tab, isb_tab
      ensures SBoxReady()
    {
      hide Ix, OfIx, Affine, Inverse, InvSBox, ZERO, Pow3, Log;
      var i := 0;
      while i < 256
        invariant i <= 256
        invariant forall k: nat :: k < i ==> sbx_tab[k] == SBox(OfIx(k))
        invariant forall k: nat :: k < i ==> isb_tab[Ix(SBox(OfIx(k)))] == OfIx(k)
      {
        var p := ZERO;
        IxOfIx(i);
        IxZero(OfIx(i));
        if i != 0 {
          IxOfLog(OfIx(i));
          p := pow_tab[255 - Ix(log_tab[i])];
        }
        InverseFromTables(OfIx(i), p);
        p := AffineByRotations(p);
        SBoxIndices(i);
        sbx_tab[i] := p;
        isb_tab[Ix(p)] := OfIx(i);
        i := i + 1;
      }
      forall n: nat | n < 256 ensures isb_tab[n] == InvSBox(OfIx(n)) {
        var k := Ix(InvSBox(OfIx(n)));
        OfIxIx(InvSBox(OfIx(n)));
        SBoxInverse(OfIx(n));
        IxOfIx(n);
        assert isb_tab[Ix(SBox(OfIx(k)))] == OfIx(k);
      }
    }

    /** ff_mult: multiplication through the logarithm tables. */
    function FfMult(a: Byte, b: Byte): (r: Byte)
      requires PowersReady()
      reads pow_tab, log_tab
      ensures r == Mul(a, b)
    {
      hide Mul, Pow3, Ix, OfIx, ZERO, Log;
      if a != ZERO && b != ZERO then
        LogEntry(a);
        LogEntry(b);
        MulByLogs(a, b);
        pow_tab[(Ix(log_tab[Ix(a)]) + Ix(log_tab[Ix(b)])) % 255]
      else
        MulZero(a);
        MulZero(b);
        ZERO
    }

    lemma LogEntry(x: Byte)
      requires PowersReady() && x != ZERO
      ensures Ix(log_tab[Ix(x)]) == Log(x)
    {
      hide Ix, OfIx, ZERO;
      IxZero(x);
      OfIxIx(x);
      IxOfIx(Log(x));
    }

    method GenRounds()
      requires PowersReady() && SBoxReady()
      modifies ft_tab, it_tab, fl_tab, il_tab
      ensures RoundsReady(256)
    {
      hide Mul, Pow3, Ix, OfIx, ZERO, Log, SBox, InvSBox;
      var i := 0;
      while i < 256
        invariant i <= 256 && RoundsReady(i)
      {
        var p := sbx_tab[i];
        SetRotations(fl_tab, i, LowOne(p));
        SetRotations(ft_tab, i, Word(FfMult(Byte(2), p), p, p, FfMult(Byte(3), p)));
        p := isb_tab[i];
        SetRotations(il_tab, i, LowOne(p));
        SetRotations(it_tab, i,
          Word(FfMult(Byte(14), p), FfMult(Byte(9), p), FfMult(Byte(13), p), FfMult(Byte(11), p)));
        i := i + 1;
      }
    }

    /** gen_tabs */
    method GenTabs()
      requires Allocated()
      modifies Repr()
      ensures Ready() && tab_gen
    {
      GenPowers();
      GenRcon();
      GenSBox();
      GenRounds();
      tab_gen := true;
    }
  }

  /** tab[0][i] = t; tab[1][i] = rotl(t, 8); tab[2][i] = rotl(t, 16); tab[3][i] = rotl(t, 24) */
  method SetRotations(tab: array2<Word>, i: nat, t: Word)
    requires tab.Length0 == 4 && i < tab.Length1
    modifies tab
    ensures forall r: nat, k: nat :: r < 4 && k < tab.Length1 ==>
      tab[r, k] == if k == i then RotL(t, r) else old(tab[r, k])
  {
    tab[0, i] := t;
    tab[1, i] := RotL(t, 1);
    tab[2, i] := RotL(t, 2);
    tab[3, i] := RotL(t, 3);
  }

  /** (p << 1) ^ (p & 0x80 ? 0x1b : 0). */
  function NextDouble(p: Byte): (q: Byte)
    ensures q == XTime(p)
  {
    Byte((p.v << 1) ^ (if p.v & 0x80 != 0 then 0x1b else 0))
  }

  lemma RconByteNext(i: nat)
    ensures RconByte(0) == ONE && RconByte(i + 1) == XTime(RconByte(i))
  {}

  lemma IxOfLog(x: Byte)
    requires x != ZERO
    ensures Ix(OfIx(Log(x))) == Log(x)
  {
    IxOfIx(Log(x));
  }

  /** The value the S-box loop looks up is the multiplicative inverse. */
  lemma InverseFromTables(x: Byte, p: Byte)
    requires p == if x == ZERO then ZERO else Pow3(255 - Log(x))
    ensures p == Inverse(x)
  {}

  /** Four times: q = (q >> 7) | (q << 1); p ^= q; and 0x63 with the last. */
  function AffineByRotations(p: Byte): (r: Byte)
    ensures r == Affine(p)
  {
    var q1 := (p.v >> 7) | (p.v << 1);
    var p1 := p.v ^ q1;
    var q2 := (q1 >> 7) | (q1 << 1);
    var p2 := p1 ^ q2;
    var q3 := (q2 >> 7) | (q2 << 1);
    var p3 := p2 ^ q3;
    var q4 := (q3 >> 7) | (q3 << 1);
    Byte(p3 ^ q4 ^ 0x63)
  }

  lemma SBoxIndices(i: nat)
    requires i < 256
    ensures forall k: nat :: k < 256 && k != i ==> Ix(SBox(OfIx(k))) != Ix(SBox(OfIx(i)))
  {
    hide Ix, OfIx, SBox, InvSBox;
    forall k: nat | k < 256 && k != i ensures Ix(SBox(OfIx(k))) != Ix(SBox(OfIx(i))) {
      IxOfIx(k);
      IxOfIx(i);
      SBoxInverse(OfIx(k));
      SBoxInverse(OfIx(i));
      if Ix(SBox(OfIx(k))) == Ix(SBox(OfIx(i))) {
        IxInjective(SBox(OfIx(k)), SBox(OfIx(i)));
      }
    }
  }

  /** p ^ (p << 1) ^ (p & 0x80 ? 0x1b : 0), on bytes. */
  function NextPower(p: Byte): (q: Byte)
    ensures q == Times3(p)
  {
    Byte(p.v ^ (p.v << 1) ^ (if p.v & 0x80 != 0 then 0x1b else 0))
  }

  lemma IxOne()
    ensures Ix(ONE) == 1 && Pow3(0) == ONE
  {}

  /** Distinct powers have distinct indices; only power 255 repeats an earlier one, power 0. */
  lemma PowerIndices(i: nat)
    requires i < 256
    ensures forall k: nat :: k < 255 && k != i && !(i == 255 && k == 0) ==> Ix(Pow3(k)) != Ix(Pow3(i))
  {
    hide Pow3, Ix;
    forall k: nat | k < 255 && k != i && !(i == 255 && k == 0) ensures Ix(Pow3(k)) != Ix(Pow3(i)) {
      PowersDiffer(k, i);
      if Ix(Pow3(k)) == Ix(Pow3(i)) {
        IxInjective(Pow3(k), Pow3(i));
      }
    }
  }

  lemma PowersDiffer(k: nat, i: nat)
    requires i < 256 && k < 255 && k != i && !(i == 255 && k == 0)
    ensures Pow3(k) != Pow3(i)
  {
    hide Pow3;
    if i == 255 {
      Pow3At255();
      Pow3Is1();
      Pow3Distinct(0, k);
    } else if k < i {
      Pow3Distinct(k, i);
    } else {
      Pow3Distinct(i, k);
    }
  }

  lemma Pow3Next(i: nat)
    ensures Pow3(i + 1) == Times3(Pow3(i))
  {}

  /** A byte alone in row 0 of a column. */
  function LowOne(b: Byte): Word {
    Word(b, ZERO, ZERO, ZERO)
  }
}
