/**
 * Block arithmetic of the reader: which block a position is in, and that whole blocks fit.
 */
module Blocks {
  import opened Common

  /** pos / bs * bs, the start of the block that holds pos. */
  function BlockStart(pos: nat, bs: nat): nat
    requires bs > 0
  {
    pos / bs * bs
  }

  lemma MultipleMod(q: int, bs: nat)
    requires bs > 0
    ensures (q * bs) % bs == 0
  {
    var r := (q * bs) % bs;
    var d := (q * bs) / bs;
    assert q * bs == bs * d + r;
    assert bs * (q - d) == r;
    if q - d >= 1 {
      Mono(1, q - d, bs);
    } else if q - d <= -1 {
      Mono(q - d, -1, bs);
    }
  }

  lemma Divides(x: int, bs: nat) returns (q: int)
    requires bs > 0 && x % bs == 0
    ensures x == q * bs
  {
    q := x / bs;
    assert x == bs * (x / bs) + x % bs;
  }

  lemma BlockStartBounds(pos: nat, bs: nat)
    requires bs > 0
    ensures BlockStart(pos, bs) <= pos < BlockStart(pos, bs) + bs
    ensures BlockStart(pos, bs) % bs == 0
    ensures pos % bs != 0 ==> BlockStart(pos, bs) < pos
    ensures pos % bs == pos - BlockStart(pos, bs)
  {
    assert pos == bs * (pos / bs) + pos % bs;
    MultipleMod(pos / bs, bs);
  }

  /** A block that starts inside a whole number of blocks ends inside it. */
  lemma BlockFits(start: nat, bs: nat, n: nat)
    requires bs > 0 && start % bs == 0 && n % bs == 0 && start < n
    ensures start + bs <= n
  {
    var a := Divides(start, bs);
    var b := Divides(n, bs);
    if b <= a {
      Mono(b, a, bs);
    } else {
      Mono(a + 1, b, bs);
      assert (a + 1) * bs == a * bs + bs;
    }
  }

  lemma SumOfMultiples(a: nat, b: nat, bs: nat)
    requires bs > 0 && a % bs == 0 && b % bs == 0
    ensures (a + b) % bs == 0
    ensures b <= a ==> (a - b) % bs == 0
  {
    var p := Divides(a, bs);
    var q := Divides(b, bs);
    MultipleMod(p + q, bs);
    MultipleMod(p - q, bs);
    assert (p + q) * bs == a + b;
    assert (p - q) * bs == a - b;
  }

  /** Multiples of a block size that is itself a multiple of 16 are multiples of 16. */
  lemma MultipleOf16(x: nat, bs: nat)
    requires bs > 0 && bs % 16 == 0 && x % bs == 0
    ensures x % 16 == 0
  {
    var q := Divides(x, bs);
    var k := bs / 16;
    assert bs == 16 * k;
    assert x == 16 * (q * k) by {
      assert q * bs == q * (16 * k);
      assert q * (16 * k) == 16 * (q * k);
    }
  }
}
