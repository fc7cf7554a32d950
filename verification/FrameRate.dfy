/**
 * Frame rates as reduced fractions: SetFPS and the range-protected MulDivFPS.
 */
module FrameRate {
  import opened Common

  type uint32 = n: int | 0 <= n < TWO32

  // ----- Greatest common divisors -----

  function Gcd(x: nat, y: nat): (g: nat)
    ensures x + y > 0 ==> g > 0
    decreases y
  {
    if y == 0 then x else Gcd(y, x % y)
  }

  lemma GcdStep(x: nat, y: nat)
    requires y > 0
    ensures x % y >= 0 && Gcd(x, y) == Gcd(y, x % y)
  {}

  lemma Assoc(a: int, b: int, c: int)
    ensures (a * b) * c == a * (b * c) == b * (a * c)
  {}

  lemma Distrib(a: int, b: int, c: int)
    ensures a * (b + c) == a * b + a * c
  {}

  lemma ModScaled(g: nat, x: nat, y: nat)
    requires g > 0 && y > 0
    ensures g * y > 0 && (g * x) % (g * y) == g * (x % y)
  {
    var q, r := x / y, x % y;
    DivMod(x, y);
    Distrib(g, q * y, r);
    Assoc(q, g, y);
    Mono(r + 1, y, g);
    Mono(1, y, g);
    Mono(0, r, g);
    DivUnique(g * x, g * y, q, g * r);
  }

  lemma {:induction false} GcdScaled(g: nat, x: nat, y: nat)
    requires g > 0
    ensures g * x >= 0 && g * y >= 0 && Gcd(g * x, g * y) == g * Gcd(x, y)
    decreases y
  {
    Mono(0, x, g);
    Mono(0, y, g);
    if y > 0 {
      ModScaled(g, x, y);
      GcdScaled(g, y, x % y);
    }
  }

  /** The greatest common divisor is a divisor of both. */
  lemma {:induction false} GcdDivides(x: nat, y: nat) returns (a: nat, b: nat)
    ensures x == Gcd(x, y) * a && y == Gcd(x, y) * b
    decreases y
  {
    if y == 0 {
      a, b := 1, 0;
    } else {
      var c;
      b, c := GcdDivides(y, x % y);
      hide Gcd;
      GcdStep(x, y);
      DivMod(x, y);
      var g, q := Gcd(x, y), x / y;
      Mono(0, b, q);
      a := q * b + c;
      Assoc(g, q, b);
      Distrib(g, q * b, c);
    }
  }

  lemma CancelLeft(g: nat, x: nat, y: nat)
    requires g > 0 && g * x == g * y
    ensures x == y
  {
    if x < y {
      Mono(x + 1, y, g);
    } else if y < x {
      Mono(y + 1, x, g);
    }
  }

  /** a / b is n / d in lowest terms. */
  ghost predicate Reduced(n: nat, d: nat, a: nat, b: nat) {
    a * d == b * n && Gcd(a, b) == 1
  }

  // Products are passed by name, which keeps these steps linear.

  lemma QuotientIs(n: nat, g: nat, a: nat)
    requires g > 0 && n == g * a
    ensures n / g == a
  {
    DivUnique(n, g, a, 0);
  }

  lemma CrossProducts(g: nat, a: nat, b: nat, n: nat, d: nat)
    requires n == g * a && d == g * b
    ensures a * d == b * n
  {
    Assoc(g, a, b);
  }

  lemma CofactorsCoprime(n: nat, d: nat, a: nat, b: nat)
    requires n + d > 0 && n == Gcd(n, d) * a && d == Gcd(n, d) * b
    ensures Gcd(a, b) == 1
  {
    var g := Gcd(n, d);
    GcdScaled(g, a, b);
    hide Gcd;
    CancelLeft(g, Gcd(a, b), 1);
  }

  lemma DivideByGcd(n: nat, d: nat)
    requires n + d > 0
    ensures Gcd(n, d) > 0
    ensures n / Gcd(n, d) >= 0 && d / Gcd(n, d) >= 0 && Reduced(n, d, n / Gcd(n, d), d / Gcd(n, d))
    ensures n == Gcd(n, d) * (n / Gcd(n, d)) && d == Gcd(n, d) * (d / Gcd(n, d))
  {
    hide Gcd;
    var a, b := GcdDivides(n, d);
    var g := Gcd(n, d);
    QuotientIs(n, g, a);
    QuotientIs(d, g, b);
    CofactorsCoprime(n, d, a, b);
    CrossProducts(g, a, b, n, d);
  }

  lemma ScaledGcd(g: nat, x: nat, y: nat, gx: nat, gy: nat)
    requires gx == g * x && gy == g * y && Gcd(x, y) == 1
    ensures Gcd(gx, gy) == g
  {
    if g > 0 {
      GcdScaled(g, x, y);
      hide Gcd;
    }
  }

  /** A pair in lowest terms is the only such pair with its value. */
  lemma LowestTermsUnique(n: nat, d: nat, a: nat, b: nat)
    requires d > 0 && Gcd(n, d) == 1 && Reduced(n, d, a, b)
    ensures a == n && b == d
  {
    hide Gcd;
    ScaledGcd(d, a, b, b * n, b * d);
    ScaledGcd(b, n, d, b * n, b * d);
    CancelLeft(d, a, n);
  }

  /** while (y) { t = x % y; x = y; y = t; } */
  method FindGcd(n: nat, d: nat) returns (x: nat)
    ensures x == Gcd(n, d)
  {
    x := n;
    var y: nat := d;
    while y != 0
      invariant Gcd(x, y) == Gcd(n, d)
      decreases y
    {
      hide Gcd;
      GcdStep(x, y);
      var t: nat := x % y;
      x := y;
      y := t;
    }
  }

  function Quotient(x: nat, y: nat): nat
    requires y > 0
  {
    x / y
  }

  /** UInt32x32To64 */
  function Product(x: uint32, y: uint32): nat {
    Mono(0, x, y);
    x * y
  }

  /** In lowest terms, both are below 2^62: the shift count stays below 32. */
  predicate Fits62(n: nat, d: nat)
    requires n + d > 0
  {
    Quotient(n, Gcd(n, d)) < TWO62 && Quotient(d, Gcd(n, d)) < TWO62
  }

  // ----- Bits -----

  function Pow2(k: nat): (p: nat)
    ensures p > 0
  {
    if k == 0 then 1 else 2 * Pow2(k - 1)
  }

  /** Bitwise or. */
  function Or(a: nat, b: nat): nat {
    if a == 0 && b == 0 then 0 else 2 * Or(a / 2, b / 2) + if a % 2 == 1 || b % 2 == 1 then 1 else 0
  }

  /** The top bit of a | b is that of the larger. */
  lemma {:induction false} OrBelow(a: nat, b: nat, k: nat)
    ensures Or(a, b) < Pow2(k) <==> a < Pow2(k) && b < Pow2(k)
    decreases a + b
  {
    if a > 0 || b > 0 {
      OrBelow(a / 2, b / 2, if k == 0 then 0 else k - 1);
    }
  }

  lemma {:induction false} PowAdd(a: nat, b: nat)
    ensures Pow2(a + b) == Pow2(a) * Pow2(b)
  {
    if a > 0 {
      PowAdd(a - 1, b);
      Assoc(2, Pow2(a - 1), Pow2(b));
    }
  }

  lemma Pow31()
    ensures Pow2(31) == TWO31 && Pow2(62) == TWO62
  {
    assert Pow2(8) == 256;
    assert Pow2(16) == 65536;
    assert Pow2(24) == 0x100_0000;
    PowAdd(31, 31);
  }

  /** How far a pair has to be shifted right for both to fit in 31 bits. */
  function ShiftOf(a: nat, b: nat): (u: nat)
    ensures a < Pow2(31 + u) && b < Pow2(31 + u)
    ensures u > 0 ==> a >= Pow2(30 + u) || b >= Pow2(30 + u)
    decreases a + b
  {
    Pow31();
    if a < TWO31 && b < TWO31 then 0 else 1 + ShiftOf(a / 2, b / 2)
  }

  /** x shifted right by u, rounded: Int64ShrlMod32(x + (1 << (u - 1)), u). */
  function Rounded(x: nat, u: nat): nat
    requires u > 0
  {
    Quotient(x + Pow2(u - 1), Pow2(u))
  }

  /** Scaled back, a rounded term is within half a unit of the last place, and it fits in 32 bits. */
  lemma RoundingError(x: nat, u: nat)
    requires u > 0 && x < Pow2(31 + u)
    ensures x - Pow2(u - 1) < Rounded(x, u) * Pow2(u) <= x + Pow2(u - 1)
    ensures Rounded(x, u) <= TWO31
  {
    var p, r := Pow2(u), Rounded(x, u);
    DivMod(x + Pow2(u - 1), p);
    Pow31();
    PowAdd(31, u);
    if r > TWO31 {
      Mono(TWO31 + 1, r, p);
    }
  }

  lemma OrHalves(a: nat, b: nat)
    ensures Or(a, b) / 2 == Or(a / 2, b / 2)
  {
    if a == 0 && b == 0 {
    } else {
      assert Or(a, b) == 2 * Or(a / 2, b / 2) + if a % 2 == 1 || b % 2 == 1 then 1 else 0;
    }
  }

  /** Shifts count modulo 32. */
  function Int64ShrlMod32(x: nat, u: nat): nat {
    Quotient(x, Pow2(u % 32))
  }

  /** A term as it goes to SetFPS: 1 << (u - 1) added, shifted, and cut to 32 bits. */
  function Shifted(x: nat, u: nat): uint32
    requires u > 0
  {
    Int64ShrlMod32(x + Pow2((u - 1) % 32), u) % TWO32
  }

  lemma RoundedFits(x: nat, u: nat)
    requires u > 0 && x < Pow2(31 + u)
    ensures Rounded(x, u) <= TWO31
  {
    hide Rounded, Pow2;
    RoundingError(x, u);
  }

  lemma ModSmall(x: nat)
    requires x < TWO32
    ensures x % TWO32 == x
  {}

  /** Below 32 the shift rounds. */
  lemma ShiftedIsRounded(x: nat, u: nat)
    requires 0 < u < 32 && x < Pow2(31 + u)
    ensures Shifted(x, u) == Rounded(x, u)
  {
    hide Pow2, Quotient;
    RoundedFits(x, u);
    ModSmall(Rounded(x, u));
  }

  class VideoInfo {
    var fps_numerator: uint32
    var fps_denominator: uint32

    constructor (n: uint32, d: uint32)
      ensures fps_numerator == n && fps_denominator == d
    {
      fps_numerator, fps_denominator := n, d;
    }

    method SetFPS(numerator: uint32, denominator: uint32)
      modifies this
      ensures SetTo(numerator, denominator, fps_numerator, fps_denominator)
    {
      if numerator == 0 || denominator == 0 {
        fps_numerator := 0;
        fps_denominator := 1;
      } else {
        var x := FindGcd(numerator, denominator);
        DivideByGcd(numerator, denominator);
        QuotientSmaller(numerator, x);
        QuotientSmaller(denominator, x);
        fps_numerator := numerator / x;
        fps_denominator := denominator / x;
      }
    }

    /** The shift count: one for each halving until the pair fits in 31 bits. */
    method CountShift(numerator: nat, denominator: nat) returns (u: nat)
      ensures u == ShiftOf(numerator, denominator)
    {
      var temp := Or(numerator, denominator);
      u := 0;
      ghost var a, b := numerator, denominator;
      Pow31();
      while temp >= TWO31
        invariant temp == Or(a, b)
        invariant ShiftOf(numerator, denominator) == u + ShiftOf(a, b)
        decreases temp
      {
        OrBelow(a, b, 31);
        OrHalves(a, b);
        a, b := a / 2, b / 2;
        temp := temp / 2;
        u := u + 1;
      }
      OrBelow(a, b, 31);
    }

    /**
     * MulDivFPS: exact when the reduced product fits in 31 bits, and otherwise both terms shifted by the
     * same count before they are reduced again. Both products zero would divide by zero.
     */
    method MulDivFPS(multiplier: uint32, divisor: uint32)
      requires Product(fps_numerator, multiplier) + Product(fps_denominator, divisor) > 0
      modifies this
      ensures MulDivTo(Product(old(fps_numerator), multiplier), Product(old(fps_denominator), divisor),
                       fps_numerator, fps_denominator)
    {
      hide Product;
      var numerator := Product(fps_numerator, multiplier);
      var denominator := Product(fps_denominator, divisor);
      var x := FindGcd(numerator, denominator);
      numerator := Quotient(numerator, x);
      denominator := Quotient(denominator, x);
      ScaleTo(numerator, denominator);
    }

    method ScaleTo(numerator: nat, denominator: nat)
      modifies this
      ensures Scaled(numerator, denominator, fps_numerator, fps_denominator)
    {
      hide Int64ShrlMod32, SetTo;
      var u := CountShift(numerator, denominator);
      if u > 0 {
        var round := Pow2((u - 1) % 32);
        SetFPS(Int64ShrlMod32(numerator + round, u) % TWO32, Int64ShrlMod32(denominator + round, u) % TWO32);
      } else {
        Pow31();
        fps_numerator := numerator;
        fps_denominator := denominator;
      }
    }
  }

  /** What SetFPS(n, d) leaves: the value in lowest terms, or 0/1 when either is zero. */
  ghost predicate SetTo(n: nat, d: nat, a: nat, b: nat) {
    if n == 0 || d == 0 then a == 0 && b == 1 else Reduced(n, d, a, b)
  }

  /** What is left of a pair in lowest terms. */
  ghost predicate Scaled(n: nat, d: nat, a: nat, b: nat) {
    var u := ShiftOf(n, d);
    if u == 0 then a == n && b == d else SetTo(Shifted(n, u), Shifted(d, u), a, b)
  }

  ghost predicate MulDivTo(n: nat, d: nat, a: nat, b: nat) {
    n + d > 0 && Scaled(Quotient(n, Gcd(n, d)), Quotient(d, Gcd(n, d)), a, b)
  }

  /** The product is exact, in lowest terms, whenever these fit in 31 bits. */
  lemma ExactWhenItFits(n: nat, d: nat, a: nat, b: nat)
    requires MulDivTo(n, d, a, b)
    requires Quotient(n, Gcd(n, d)) < TWO31 && Quotient(d, Gcd(n, d)) < TWO31
    ensures Reduced(n, d, a, b)
  {
    DivideByGcd(n, d);
  }

  /**
   * Otherwise, up to 62 bits, the pair a / b comes from the exact one by rounding both terms at bit u: each
   * is off by at most half a unit of that bit, and the larger of them has at least 31 bits left.
   */
  lemma RoundedOtherwise(n: nat, d: nat, a: nat, b: nat) returns (u: nat, p: nat, q: nat)
    requires MulDivTo(n, d, a, b)
    requires Fits62(n, d) && !(Quotient(n, Gcd(n, d)) < TWO31 && Quotient(d, Gcd(n, d)) < TWO31)
    ensures u > 0 && SetTo(p, q, a, b) && p <= TWO31 && q <= TWO31
    ensures var x, y, half := Quotient(n, Gcd(n, d)), Quotient(d, Gcd(n, d)), Pow2(u - 1);
      && x - half < p * Pow2(u) <= x + half
      && y - half < q * Pow2(u) <= y + half
      && (x >= TWO31 * half || y >= TWO31 * half)
  {
    var x, y := Quotient(n, Gcd(n, d)), Quotient(d, Gcd(n, d));
    u := ShiftOf(x, y);
    p, q := Rounded(x, u), Rounded(y, u);
    ShiftBelow32(x, y);
    Pow31();
    hide Gcd, ShiftOf, Rounded, Shifted, Pow2, Quotient;
    RoundingError(x, u);
    RoundingError(y, u);
    ShiftedIsRounded(x, u);
    ShiftedIsRounded(y, u);
    PowAdd(31, u - 1);
  }

  lemma ShiftOf62Bits()
    ensures ShiftOf(TWO62, 1) == 32
  {
    Pow31();
    assert Pow2(63) == 2 * Pow2(62);
    hide Pow2;
    var u := ShiftOf(TWO62, 1);
    if u < 32 {
      PowMono(31 + u, 62);
    } else if u > 32 {
      PowMono(63, 30 + u);
    }
  }

  lemma ShiftedBy32()
    ensures Shifted(TWO62, 32) == TWO31 && Shifted(1, 32) == TWO31 + 1
  {
    Pow31();
    assert Pow2(0) == 1;
    hide Pow2;
  }

  lemma CoprimePairs()
    ensures Gcd(TWO62, 1) == 1 && Gcd(TWO31, TWO31 + 1) == 1
  {
    assert Gcd(1, 0) == 1;
    GcdStep(TWO31, 1);
    GcdStep(TWO31 + 1, TWO31);
    GcdStep(TWO31, TWO31 + 1);
    GcdStep(TWO62, 1);
  }

  /** Past 62 bits the shift count wraps around: 2^31/1 times 2^31/1 leaves a rate just below one. */
  lemma WrapsPast62Bits(a: nat, b: nat)
    requires MulDivTo(Product(TWO31, TWO31), Product(1, 1), a, b)
    ensures ShiftOf(TWO62, 1) == 32 && a == TWO31 && b == TWO31 + 1
  {
    CoprimePairs();
    ShiftOf62Bits();
    ShiftedBy32();
    hide ShiftOf, Gcd, Shifted;
    assert SetTo(TWO31, TWO31 + 1, a, b);
    LowestTermsUnique(TWO31, TWO31 + 1, a, b);
  }

  lemma {:induction false} PowMono(a: nat, b: nat)
    requires a <= b
    ensures Pow2(a) <= Pow2(b)
  {
    if a < b {
      PowMono(a, b - 1);
    }
  }

  lemma QuotientSmaller(n: nat, x: nat)
    requires x > 0
    ensures 0 <= n / x <= n
  {
    DivMod(n, x);
    Mono(1, x, n / x);
  }

  /** The shift is at most 31, so that shifting modulo 32 is shifting, exactly for pairs below 2^62. */
  lemma ShiftBelow32(a: nat, b: nat)
    ensures ShiftOf(a, b) <= 31 <==> a < TWO62 && b < TWO62
  {
    Pow31();
    var u := ShiftOf(a, b);
    if u > 31 {
      PowMono(62, 30 + u);
    } else {
      PowMono(31 + u, 62);
    }
  }
}
