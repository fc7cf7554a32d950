/**
 * The powers of 3 run through all 255 nonzero bytes, which is what makes the log and power tables
 * work; multiplicative inverses and the S-box of FIPS 197, section 5.1.1, follow.
 */
module Generator {
  import opened Common
  import opened Gf256

  // ----- 3 has order 255 -----

  lemma {:induction false} Pow3Nonzero(n: nat)
    ensures Pow3(n) != ZERO
  {
    if n > 0 {
      hide Times3, ZERO;
      Pow3Nonzero(n - 1);
      Times3Zero(Pow3(n - 1));
    }
  }

  lemma {:induction false} Pow3Cancel(i: nat, d: nat)
    ensures Pow3(i + d) == Pow3(i) <==> Pow3(d) == ONE
  {
    if i > 0 {
      hide Times3;
      Pow3Cancel(i - 1, d);
      if Pow3(i + d) == Pow3(i) {
        Times3Injective(Pow3(i - 1 + d), Pow3(i - 1));
      }
    }
  }

  lemma {:induction false} MulPow3(i: nat, j: nat)
    ensures Pow3(i + j) == Mul(Pow3(i), Pow3(j))
  {
    hide Mul, Times3;
    if j == 0 {
      MulOne(Pow3(i));
    } else {
      MulPow3(i, j - 1);
      MulTimes3(Pow3(i), Pow3(j - 1));
    }
  }

  lemma Pow3At15()
    ensures Pow3(15) == Byte(0x35)
  {}

  lemma Pow3At51()
    ensures Pow3(51) == Byte(0x0c)
  {
    assert Pow3(3) == Byte(0x0f);
    MulPow3(3, 3);
    MulPow3(6, 6);
    MulPow3(12, 12);
    MulPow3(24, 24);
    MulPow3(48, 3);
  }

  lemma Pow3At85()
    ensures Pow3(85) == Byte(0xbd)
  {
    assert Pow3(5) == Byte(0x33);
    MulPow3(5, 5);
    MulPow3(10, 10);
    MulPow3(20, 20);
    MulPow3(40, 40);
    MulPow3(80, 5);
  }

  lemma Pow3At60()
    ensures Pow3(60) == Byte(0xd3)
  {
    Pow3At15();
    hide Pow3;
    MulPow3(15, 15);
    MulPow3(30, 30);
  }

  lemma Pow3At255()
    ensures Pow3(255) == ONE
  {
    Pow3At60();
    Pow3At15();
    hide Pow3;
    MulPow3(60, 60);
    MulPow3(120, 120);
    MulPow3(240, 15);
  }

  /** Euclid: two exponents that give 1 are multiples of a third one. */
  lemma {:induction false} CommonPeriod(a: nat, b: nat) returns (g: nat, m: nat, n: nat)
    requires 0 < a && 0 < b && Pow3(a) == ONE && Pow3(b) == ONE
    ensures a == g * m && b == g * n && Pow3(g) == ONE
    decreases a + b
  {
    hide Pow3;
    if a == b {
      g, m, n := a, 1, 1;
    } else if a > b {
      Pow3Cancel(b, a - b);
      g, m, n := CommonPeriod(a - b, b);
      m := m + n;
    } else {
      Pow3Cancel(a, b - a);
      g, m, n := CommonPeriod(a, b - a);
      n := m + n;
    }
  }

  lemma {:induction false} Multiples(g: nat, k: nat)
    requires Pow3(g) == ONE
    ensures Pow3(g * k) == ONE
  {
    if k > 0 {
      hide Pow3;
      Multiples(g, k - 1);
      Pow3Cancel(g * (k - 1), g);
      assert g * (k - 1) + g == g * k;
    } else {
      assert g * 0 == 0;
    }
  }

  lemma SmallFactor(k: nat, x: nat)
    requires k <= 16 && k * x == 255
    ensures k == 1 || k == 3 || k == 5 || k == 15
  {
    assert k == 0 || k == 1 || k == 2 || k == 3 || k == 4 || k == 5 || k == 6 || k == 7 || k == 8
        || k == 9 || k == 10 || k == 11 || k == 12 || k == 13 || k == 14 || k == 15 || k == 16;
  }

  /** A proper divisor of 255 divides 85, 51 or 15. */
  lemma ProperDivisor(g: nat, m: nat) returns (k: nat)
    requires g * m == 255 && m > 1
    ensures g * k == 85 || g * k == 51 || g * k == 15
  {
    if m <= 16 {
      SmallFactor(m, g);
      k := m / if m % 3 == 0 then 3 else 5;
      assert m == 3 || m == 5 || m == 15;
    } else {
      if g > 16 {
        Mono(17, g, m);
      }
      SmallFactor(g, m);
      k := if g == 1 then 85 else if g == 3 then 5 else if g == 5 then 17 else 1;
    }
  }

  lemma OrderOf3(d: nat)
    requires 0 < d < 255
    ensures Pow3(d) != ONE
  {
    if Pow3(d) == ONE {
      hide Pow3;
      Pow3At255();
      var g, m, n := CommonPeriod(255, d);
      assert m > 1 by {
        assert n >= 1;
        assert g * n >= g;
        assert m == 0 || m == 1 || m > 1;
      }
      var k := ProperDivisor(g, m);
      Multiples(g, k);
      Pow3At15();
      Pow3At51();
      Pow3At85();
    }
  }

  lemma Pow3Distinct(i: nat, j: nat)
    requires i < j < 255
    ensures Pow3(i) != Pow3(j)
  {
    hide Pow3;
    Pow3Cancel(i, j - i);
    OrderOf3(j - i);
  }

  lemma {:induction false} Pow3Mod(n: nat)
    ensures Pow3(n) == Pow3(n % 255)
  {
    if n >= 255 {
      hide Pow3;
      Pow3At255();
      Pow3Cancel(n - 255, 255);
      Pow3Mod(n - 255);
    }
  }

  // ----- Every nonzero byte is a power of 3 -----

  /** The indices of the first n powers. */
  ghost function Powers(n: nat): set<nat> {
    set k: nat | k < n :: Ix(Pow3(k))
  }

  lemma {:induction false} PowersCount(n: nat)
    requires n <= 255
    ensures |Powers(n)| == n
  {
    if n > 0 {
      hide Pow3, Ix;
      PowersCount(n - 1);
      assert Powers(n) == Powers(n - 1) + {Ix(Pow3(n - 1))};
      if Ix(Pow3(n - 1)) in Powers(n - 1) {
        var k: nat :| k < n - 1 && Ix(Pow3(k)) == Ix(Pow3(n - 1));
        IxInjective(Pow3(k), Pow3(n - 1));
        Pow3Distinct(k, n - 1);
      }
    } else {
      assert Powers(0) == {};
    }
  }

  ghost function Below(n: nat): set<nat> {
    if n == 0 then {} else Below(n - 1) + {n}
  }

  lemma {:induction false} BelowCount(n: nat)
    ensures |Below(n)| == n && forall k: nat :: k in Below(n) <==> 0 < k <= n
  {
    if n > 0 {
      BelowCount(n - 1);
    }
  }

  lemma SubsetOfSameSize<T>(a: set<T>, b: set<T>)
    requires a <= b && |a| == |b|
    ensures a == b
  {
    assert b == a + (b - a);
  }

  lemma IxZero(b: Byte)
    ensures Ix(b) == 0 <==> b == ZERO
  {}

  lemma LogExists(x: Byte)
    requires x != ZERO
    ensures exists k: nat :: k < 255 && Pow3(k) == x
  {
    hide Pow3, Ix, ZERO;
    PowersCount(255);
    BelowCount(255);
    forall n | n in Powers(255) ensures n in Below(255) {
      var k: nat :| k < 255 && Ix(Pow3(k)) == n;
      Pow3Nonzero(k);
      IxZero(Pow3(k));
    }
    SubsetOfSameSize(Powers(255), Below(255));
    IxZero(x);
    assert Ix(x) in Below(255);
    var k: nat :| k < 255 && Ix(Pow3(k)) == Ix(x);
    IxInjective(Pow3(k), x);
  }

  /** The discrete logarithm to base 3. */
  ghost function Log(x: Byte): (k: nat)
    requires x != ZERO
    ensures k < 255 && Pow3(k) == x
  {
    LogExists(x);
    var k: nat :| k < 255 && Pow3(k) == x;
    k
  }

  lemma LogPow3(k: nat)
    requires k < 255
    ensures Pow3(k) != ZERO && Log(Pow3(k)) == k
  {
    hide Pow3, ZERO;
    Pow3Nonzero(k);
    var l := Log(Pow3(k));
    if l < k { Pow3Distinct(l, k); }
    if k < l { Pow3Distinct(k, l); }
  }

  /** Multiplication of nonzero bytes adds logarithms. */
  lemma MulByLogs(a: Byte, b: Byte)
    requires a != ZERO && b != ZERO
    ensures Mul(a, b) == Pow3((Log(a) + Log(b)) % 255) && Mul(a, b) != ZERO
  {
    hide Pow3, Mul, ZERO;
    MulPow3(Log(a), Log(b));
    Pow3Mod(Log(a) + Log(b));
    Pow3Nonzero(Log(a) + Log(b));
  }

  lemma MulZero(a: Byte)
    ensures Mul(a, ZERO) == ZERO && Mul(ZERO, a) == ZERO
  {
    ProductZero(8, a);
    ProductOfZero(8, a);
  }

  // ----- Multiplicative inverse -----

  /** The inverse in GF(2^8), 0 for 0. */
  ghost function Inverse(x: Byte): Byte {
    if x == ZERO then ZERO else Pow3(255 - Log(x))
  }

  /** What makes it the inverse: it is the one byte whose product with x is 1. */
  lemma InverseCorrect(x: Byte, y: Byte)
    requires x != ZERO
    ensures Mul(x, y) == ONE <==> y == Inverse(x)
  {
    hide Pow3, Mul, ZERO;
    MulPow3(Log(x), 255 - Log(x));
    Pow3At255();
    if Mul(x, y) == ONE {
      MulZero(x);
      assert y != ZERO by { OneNotZero(); }
      MulByLogs(x, y);
      var s := (Log(x) + Log(y)) % 255;
      Pow3Is1();
      if s != 0 { Pow3Distinct(0, s); }
      assert Log(x) + Log(y) == 0 || Log(x) + Log(y) == 255;
      if Log(x) == 0 { Pow3Mod(255); }
    }
  }

  lemma OneNotZero()
    ensures ONE != ZERO
  {}

  lemma Pow3Is1()
    ensures Pow3(0) == ONE
  {}

  lemma InverseOfPower(k: nat)
    requires k < 255
    ensures Inverse(Pow3(k)) == Pow3(255 - k)
  {
    hide Pow3, ZERO;
    LogPow3(k);
  }

  lemma InverseInvolution(x: Byte)
    ensures Inverse(Inverse(x)) == x && (Inverse(x) == ZERO <==> x == ZERO)
  {
    if x != ZERO {
      var k := Log(x);
      hide Pow3, ZERO, Inverse;
      InverseOfPower(k);
      Pow3Nonzero(255 - k);
      if k == 0 {
        Pow3At255();
        Pow3Is1();
      } else {
        InverseOfPower(255 - k);
      }
    }
  }

  // ----- The S-box -----

  /** Bit i of the result is b_i + b_(i+4) + b_(i+5) + b_(i+6) + b_(i+7) + c_i, indices mod 8. */
  function Affine(b: Byte): Byte {
    Byte(b.v ^ ((b.v << 1) | (b.v >> 7)) ^ ((b.v << 2) | (b.v >> 6)) ^ ((b.v << 3) | (b.v >> 5))
      ^ ((b.v << 4) | (b.v >> 4)) ^ 0x63)
  }

  function InvAffine(b: Byte): Byte {
    Byte(((b.v << 1) | (b.v >> 7)) ^ ((b.v << 3) | (b.v >> 5)) ^ ((b.v << 6) | (b.v >> 2)) ^ 0x05)
  }

  lemma AffineUndone(b: Byte)
    ensures InvAffine(Affine(b)) == b
  {}

  lemma AffineRedone(b: Byte)
    ensures Affine(InvAffine(b)) == b
  {
    AffineBits(b.v, InvAffine(b).v);
  }

  lemma AffineBits(b: bv8, c: bv8)
    requires c == ((b << 1) | (b >> 7)) ^ ((b << 3) | (b >> 5)) ^ ((b << 6) | (b >> 2)) ^ 0x05
    ensures c ^ ((c << 1) | (c >> 7)) ^ ((c << 2) | (c >> 6)) ^ ((c << 3) | (c >> 5)) ^ ((c << 4) | (c >> 4)) ^ 0x63
      == b
  {}

  ghost function SBox(x: Byte): Byte {
    Affine(Inverse(x))
  }

  ghost function InvSBox(y: Byte): Byte {
    Inverse(InvAffine(y))
  }

  lemma SBoxInverse(x: Byte)
    ensures InvSBox(SBox(x)) == x && SBox(InvSBox(x)) == x
  {
    hide Affine, InvAffine, Inverse;
    AffineUndone(Inverse(x));
    AffineRedone(x);
    InverseInvolution(x);
    InverseInvolution(InvAffine(x));
  }
}
