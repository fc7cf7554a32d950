/**
 * What several parts share: machine ranges, optional values and facts about division.
 */
module Common {
  const TWO31 := 0x8000_0000
  const TWO32 := 0x1_0000_0000
  const TWO62 := 0x4000_0000_0000_0000
  const TWO63 := 0x8000_0000_0000_0000
  const TWO64 := 0x1_0000_0000_0000_0000

  type byte = n: int | 0 <= n < 256

  datatype Option<T> = None | Some(value: T)

  lemma Mono(a: int, b: int, c: nat)
    requires a <= b
    ensures a * c <= b * c
  {}

  lemma DivMod(x: nat, d: nat)
    requires d > 0
    ensures x == (x / d) * d + x % d && x / d >= 0 && 0 <= x % d < d
  {}

  /** Quotient and remainder are the only pair that fits. */
  lemma DivUnique(x: nat, d: nat, q: nat, r: nat)
    requires d > 0 && x == q * d + r && r < d
    ensures x / d == q && x % d == r
  {
    var q', r' := x / d, x % d;
    assert x == q' * d + r';
    if q' > q {
      Mono(q + 1, q', d);
    } else if q' < q {
      Mono(q' + 1, q, d);
    }
  }
}
