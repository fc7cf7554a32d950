/**
 * What the container code asks of the operating system and of the number formats: a file is a byte
 * sequence with a position, and integers are stored little-endian.
 */
module Files {
  import opened Common
  import opened Gf256
  import opened Cryptor

  datatype Move = SeekSet | SeekCur | SeekEnd

  /** Where SetFilePointerEx of the OS moves to. */
  function SeekTarget(distance: int, move: Move, pos: int, size: int): int {
    match move
    case SeekSet => distance
    case SeekCur => pos + distance
    case SeekEnd => size + distance
  }

  class OsFile {
    var data: seq<Byte>
    var pos: nat

    constructor (data: seq<Byte>)
      ensures this.data == data && pos == 0
    {
      this.data := data;
      pos := 0;
    }

    /** What a read of n bytes at the current position would return. */
    ghost function Ahead(n: nat): (r: seq<Byte>)
      reads this
      ensures |r| <= n
      ensures pos + n <= |data| ==> r == data[pos..pos + n]
    {
      if pos >= |data| then [] else if n <= |data| - pos then data[pos..pos + n] else data[pos..]
    }

    /** ReadFile into memory at offset o of buf; a read at the end returns nothing and is no error. */
    method Read(buf: array<Byte>, o: nat, n: nat) returns (got: nat)
      requires o + n <= buf.Length
      modifies this`pos, buf
      ensures got == |old(Ahead(n))| <= n && pos == old(pos) + got
      ensures buf[..] == Splice(old(buf[..]), o, old(Ahead(n)))
    {
      ghost var was := buf[..];
      ghost var ahead := Ahead(n);
      got := if pos >= |data| then 0 else if n <= |data| - pos then n else |data| - pos;
      var i := 0;
      while i < got
        invariant 0 <= i <= got && pos == old(pos) && ahead == Ahead(n)
        invariant forall k :: 0 <= k < buf.Length ==> buf[k] == if o <= k < o + i then ahead[k - o] else was[k]
      {
        buf[o + i] := data[pos + i];
        i := i + 1;
      }
      pos := pos + got;
    }

    /** ReadFile of a few bytes into a field. */
    method Take(n: nat) returns (s: seq<Byte>)
      modifies this`pos
      ensures s == old(Ahead(n)) && pos == old(pos) + |s|
    {
      s := if pos >= |data| then [] else if n <= |data| - pos then data[pos..pos + n] else data[pos..];
      pos := pos + |s|;
    }

    /** WriteFile to a file that is only ever appended to. */
    method Append(s: seq<Byte>)
      modifies this`data
      ensures data == old(data) + s
    {
      data := data + s;
    }

    method AppendArray(a: array<Byte>)
      modifies this`data
      ensures data == old(data) + a[..]
    {
      data := data + a[..];
    }

    /** SetFilePointerEx with SEEK_SET. */
    method SeekTo(p: nat)
      modifies this`pos
      ensures pos == p
    {
      pos := p;
    }

    /** SetFilePointerEx; a negative position is refused, one past the end is not. */
    method Seek(distance: int, move: Move) returns (ok: bool)
      modifies this`pos
      ensures ok == (SeekTarget(distance, move, old(pos), |data|) >= 0)
      ensures pos == if ok then SeekTarget(distance, move, old(pos), |data|) else old(pos)
    {
      var target := match move
        case SeekSet => distance
        case SeekCur => pos + distance
        case SeekEnd => |data| + distance;
      ok := target >= 0;
      if ok {
        pos := target;
      }
    }

    /** SetFilePointer with SEEK_CUR; a negative result is refused. */
    method SeekBy(d: int)
      modifies this`pos
      ensures pos == if old(pos) + d >= 0 then old(pos) + d else old(pos)
    {
      if pos + d >= 0 {
        pos := pos + d;
      }
    }
  }

  // ----- Little-endian integers -----

  function Pow256(k: nat): nat {
    if k == 0 then 1 else 256 * Pow256(k - 1)
  }

  /** n in k bytes; higher digits are dropped. */
  function Le(n: nat, k: nat): (s: seq<Byte>)
    ensures |s| == k
  {
    if k == 0 then [] else [OfIx(n % 256)] + Le(n / 256, k - 1)
  }

  function OfLe(s: seq<Byte>): nat {
    if s == [] then 0 else Ix(s[0]) + 256 * OfLe(s[1..])
  }

  lemma {:induction false} LeRoundTrip(n: nat, k: nat)
    requires n < Pow256(k)
    ensures OfLe(Le(n, k)) == n
  {
    if k > 0 {
      hide Ix, OfIx;
      LeRoundTrip(n / 256, k - 1);
      IxOfIx(n % 256);
      assert Le(n, k)[1..] == Le(n / 256, k - 1);
    }
  }

  /** The i-th byte is the i-th digit to the base 256, from the lowest. */
  lemma {:induction false} LeDigit(n: nat, k: nat, i: nat)
    requires i < k
    ensures Pow256(i) > 0 && Ix(Le(n, k)[i]) == (n / Pow256(i)) % 256
  {
    hide Ix, OfIx;
    Pow256Positive(i);
    if i == 0 {
      IxOfIx(n % 256);
    } else {
      LeDigit(n / 256, k - 1, i - 1);
      Pow256Positive(i - 1);
      DivDiv(n, 256, Pow256(i - 1), Pow256(i));
    }
  }

  lemma DivDiv(n: nat, a: nat, b: nat, ab: nat)
    requires a > 0 && b > 0 && ab == a * b
    ensures ab > 0 && (n / a) / b == n / ab
  {
    var q, r := n / a, n % a;
    var q', r' := q / b, q % b;
    DivMod(n, a);
    DivMod(q, b);
    Regroup(n, a, b, ab, q, r, q', r');
    RestBelow(a, b, ab, r, r');
    DivUnique(n, ab, q', r' * a + r);
  }

  lemma RestBelow(a: nat, b: nat, ab: nat, r: nat, r': nat)
    requires ab == a * b && r < a && r' < b
    ensures 0 <= r' * a + r < ab
  {
    Mono(r' + 1, b, a);
  }

  lemma Regroup(n: nat, a: nat, b: nat, ab: nat, q: nat, r: nat, q': nat, r': nat)
    requires ab == a * b && n == q * a + r && q == q' * b + r'
    ensures n == q' * ab + (r' * a + r)
  {
    assert (q' * b + r') * a == q' * b * a + r' * a;
    assert q' * b * a == q' * (a * b);
  }

  lemma {:induction false} Pow256Positive(k: nat)
    ensures Pow256(k) > 0
  {
    if k > 0 {
      Pow256Positive(k - 1);
    }
  }

  /** The __int64 stored in eight bytes. */
  function Int64Of(s: seq<Byte>): int
    requires |s| == 8
  {
    var u := OfLe(s);
    if u < TWO63 then u else u - TWO64
  }

  /** The 32-bit int stored in the first four bytes. */
  function Int32Of(s: seq<Byte>): int
    requires |s| >= 4
  {
    var u := OfLe(s[..4]);
    if u < TWO31 then u else u - TWO32
  }

  /** They are the numbers with these low digits that fit, with a sign. */
  lemma IntsAre(s: seq<Byte>)
    requires |s| == 8
    ensures -0x8000_0000_0000_0000 <= Int64Of(s) < 0x8000_0000_0000_0000
    ensures (OfLe(s) - Int64Of(s)) % 0x1_0000_0000_0000_0000 == 0
    ensures -0x8000_0000 <= Int32Of(s) < 0x8000_0000 && (OfLe(s[..4]) - Int32Of(s)) % 0x1_0000_0000 == 0
  {
    Pow256At8();
    OfLeBelow(s);
    OfLeBelow(s[..4]);
  }

  lemma {:induction false} OfLeBelow(s: seq<Byte>)
    ensures OfLe(s) < Pow256(|s|)
  {
    if s != [] {
      OfLeBelow(s[1..]);
    }
  }

  lemma Int64RoundTrip(n: nat)
    requires n < TWO63
    ensures Int64Of(Le(n, 8)) == n
  {
    Pow256At8();
    LeRoundTrip(n, 8);
  }

  lemma Pow256At8()
    ensures Pow256(8) == TWO64 && Pow256(4) == TWO32
  {
    assert Pow256(4) == TWO32;
  }

  lemma {:induction false} LePrefix(n: nat, k: nat, j: nat)
    requires j <= k
    ensures Le(n, k)[..j] == Le(n, j)
  {
    if j > 0 {
      LePrefix(n / 256, k - 1, j - 1);
      assert Le(n, k)[..j] == [OfIx(n % 256)] + Le(n / 256, k - 1)[..j - 1];
    }
  }

  lemma Int32RoundTrip(n: nat)
    requires n < TWO31
    ensures Int32Of(Le(n, 8)) == n
  {
    Pow256At8();
    LePrefix(n, 8, 4);
    LeRoundTrip(n, 4);
  }

  // ----- Tags -----

  /** A character as a byte. */
  function CharByte(c: char): Byte {
    OfIx(c as int % 256)
  }

  /** str2int64: the first eight characters of a name, zero-filled, as eight bytes. */
  function Tag(name: string): (t: seq<Byte>)
    ensures |t| == 8
  {
    seq(8, i requires 0 <= i < 8 => if i < |name| then CharByte(name[i]) else ZERO)
  }

  function Text(s: string): (t: seq<Byte>)
    ensures |t| == |s|
  {
    seq(|s|, i requires 0 <= i < |s| => CharByte(s[i]))
  }

  /** Eight bytes, given as numbers. */
  function Bytes8(a: bv8, b: bv8, c: bv8, d: bv8, e: bv8, f: bv8, g: bv8, h: bv8): (s: seq<Byte>)
    ensures |s| == 8
  {
    [Byte(a), Byte(b), Byte(c), Byte(d), Byte(e), Byte(f), Byte(g), Byte(h)]
  }

  lemma Letter(c: char, b: bv8)
    requires c as int == Ix(Byte(b))
    ensures CharByte(c) == Byte(b)
  {
    hide Ix, OfIx;
    OfIxIx(Byte(b));
  }

  lemma Letters()
    ensures CharByte(' ') == Byte(0x20) && CharByte('1') == Byte(0x31) && CharByte('2') == Byte(0x32)
    ensures CharByte('a') == Byte(0x61) && CharByte('b') == Byte(0x62) && CharByte('c') == Byte(0x63)
    ensures CharByte('d') == Byte(0x64) && CharByte('e') == Byte(0x65) && CharByte('f') == Byte(0x66)
    ensures CharByte('h') == Byte(0x68) && CharByte('i') == Byte(0x69) && CharByte('k') == Byte(0x6b)
    ensures CharByte('l') == Byte(0x6c) && CharByte('m') == Byte(0x6d) && CharByte('n') == Byte(0x6e)
    ensures CharByte('o') == Byte(0x6f) && CharByte('r') == Byte(0x72) && CharByte('s') == Byte(0x73)
    ensures CharByte('t') == Byte(0x74) && CharByte('u') == Byte(0x75) && CharByte('x') == Byte(0x78)
    ensures CharByte('y') == Byte(0x79) && CharByte('z') == Byte(0x7a)
  {
    hide CharByte;
    Letter(' ', 0x20);
    Letter('1', 0x31);
    Letter('2', 0x32);
    Letter('a', 0x61);
    Letter('b', 0x62);
    Letter('c', 0x63);
    Letter('d', 0x64);
    Letter('e', 0x65);
    Letter('f', 0x66);
    Letter('h', 0x68);
    Letter('i', 0x69);
    Letter('k', 0x6b);
    Letter('l', 0x6c);
    Letter('m', 0x6d);
    Letter('n', 0x6e);
    Letter('o', 0x6f);
    Letter('r', 0x72);
    Letter('s', 0x73);
    Letter('t', 0x74);
    Letter('u', 0x75);
    Letter('x', 0x78);
    Letter('y', 0x79);
    Letter('z', 0x7a);
  }

  /** The tags of the container, byte by byte. */
  lemma Tags()
    ensures Tag("my12doom") == Bytes8(0x6d, 0x79, 0x31, 0x32, 0x64, 0x6f, 0x6f, 0x6d)
    ensures Tag("filesize") == Bytes8(0x66, 0x69, 0x6c, 0x65, 0x73, 0x69, 0x7a, 0x65)
    ensures Tag("blocksize") == Bytes8(0x62, 0x6c, 0x6f, 0x63, 0x6b, 0x73, 0x69, 0x7a)
    ensures Tag("layout") == Bytes8(0x6c, 0x61, 0x79, 0x6f, 0x75, 0x74, 0x00, 0x00)
    ensures Tag("srchash") == Bytes8(0x73, 0x72, 0x63, 0x68, 0x61, 0x73, 0x68, 0x00)
    ensures Tag("keyhint") == Bytes8(0x6b, 0x65, 0x79, 0x68, 0x69, 0x6e, 0x74, 0x00)
    ensures Tag("remux") == Bytes8(0x72, 0x65, 0x6d, 0x75, 0x78, 0x00, 0x00, 0x00)
  {
    Letters();
    hide CharByte;
  }

  /** A name whose characters are single bytes and not NUL. */
  predicate Plain(name: string) {
    forall i :: 0 <= i < |name| ==> 0 < name[i] as int < 256
  }

  function FirstEight(name: string): string {
    if |name| <= 8 then name else name[..8]
  }

  lemma CharByteIs(c: char)
    requires c as int < 256
    ensures Ix(CharByte(c)) == c as int
  {
    IxOfIx(c as int);
  }

  /** Names have the same tag exactly if their first eight characters agree. */
  lemma TagsAgree(a: string, b: string)
    requires Plain(a) && Plain(b)
    ensures Tag(a) == Tag(b) <==> FirstEight(a) == FirstEight(b)
  {
    hide Ix, CharByte;
    if Tag(a) == Tag(b) {
      forall i | 0 <= i < 8 ensures i < |a| <==> i < |b|
        ensures i < |a| && i < |b| ==> a[i] == b[i]
      {
        TagAt(a, i);
        TagAt(b, i);
      }
      if |a| < 8 {
        TagAt(a, |a|);
        TagAt(b, |a|);
      }
      if |b| < 8 {
        TagAt(a, |b|);
        TagAt(b, |b|);
      }
      assert |FirstEight(a)| == |FirstEight(b)|;
    }
    if FirstEight(a) == FirstEight(b) {
      TagOfFirst(a);
      TagOfFirst(b);
    }
  }

  lemma TagOfFirst(name: string)
    ensures Tag(name) == Tag(FirstEight(name))
  {}

  /** The i-th byte of a tag is the i-th character, and 0 behind the name. */
  lemma TagAt(name: string, i: nat)
    requires Plain(name) && i < 8
    ensures Ix(Tag(name)[i]) == if i < |name| then name[i] as int else 0
  {
    hide Ix, CharByte;
    if i < |name| {
      CharByteIs(name[i]);
    } else {
      ZeroIs();
    }
  }

  lemma ZeroIs()
    ensures Ix(ZERO) == 0
  {}

  /** A text is its characters, one byte each. */
  lemma TextAt(s: string, i: nat)
    requires i < |s| && s[i] as int < 256
    ensures Ix(Text(s)[i]) == s[i] as int
  {
    hide Ix, CharByte;
    CharByteIs(s[i]);
  }

  /** Names that start differently have different tags. */
  lemma TagsDiffer(a: string, b: string)
    requires a != [] && b != [] && a[0] != b[0] && a[0] as int < 256 && b[0] as int < 256
    ensures Tag(a) != Tag(b)
  {
    hide Ix, OfIx;
    IxOfIx(a[0] as int);
    IxOfIx(b[0] as int);
    assert Tag(a)[0] == OfIx(a[0] as int) && Tag(b)[0] == OfIx(b[0] as int);
  }

  function Zeros(n: nat): (z: seq<Byte>)
    ensures |z| == n
  {
    seq(n, _ => ZERO)
  }
}
