/**
 * Whole buffers through the block cipher: the writer encrypts and the reader decrypts every 16-byte
 * block of a buffer by itself, in place.
 */
module Ecb {
  import opened Gf256
  import opened Cryptor

  ghost function Encode(key: Key, s: seq<Byte>): (r: seq<Byte>)
    requires |s| % 16 == 0
    ensures |r| == |s|
  {
    if s == [] then [] else Encrypted(key, s[..16]) + Encode(key, s[16..])
  }

  ghost function Decode(key: Key, s: seq<Byte>): (r: seq<Byte>)
    requires |s| % 16 == 0
    ensures |r| == |s|
  {
    if s == [] then [] else Decrypted(key, s[..16]) + Decode(key, s[16..])
  }

  lemma {:induction false} EncodeConcat(key: Key, a: seq<Byte>, b: seq<Byte>)
    requires |a| % 16 == 0 && |b| % 16 == 0
    ensures Encode(key, a + b) == Encode(key, a) + Encode(key, b)
  {
    hide Encrypted;
    if a == [] {
      assert a + b == b;
    } else {
      EncodeConcat(key, a[16..], b);
      assert (a + b)[..16] == a[..16] && (a + b)[16..] == a[16..] + b;
    }
  }

  /** Block by block: the i-th block of the result is the i-th block encrypted. */
  lemma {:induction false} EncodeBlock(key: Key, s: seq<Byte>, i: nat)
    requires |s| % 16 == 0 && 16 * i + 16 <= |s|
    ensures Encode(key, s)[16 * i..16 * i + 16] == Encrypted(key, s[16 * i..16 * i + 16])
  {
    hide Encrypted;
    if i == 0 {
      assert Encode(key, s) == Encrypted(key, s[..16]) + Encode(key, s[16..]);
    } else {
      EncodeBlock(key, s[16..], i - 1);
      assert Encode(key, s) == Encrypted(key, s[..16]) + Encode(key, s[16..]);
      assert s[16..][16 * (i - 1)..16 * i] == s[16 * i..16 * i + 16];
    }
  }

  lemma {:induction false} DecodeConcat(key: Key, a: seq<Byte>, b: seq<Byte>)
    requires |a| % 16 == 0 && |b| % 16 == 0
    ensures Decode(key, a + b) == Decode(key, a) + Decode(key, b)
  {
    hide Decrypted;
    if a == [] {
      assert a + b == b;
    } else {
      DecodeConcat(key, a[16..], b);
      assert (a + b)[..16] == a[..16] && (a + b)[16..] == a[16..] + b;
    }
  }

  lemma {:induction false} DecodeEncode(key: Key, s: seq<Byte>)
    requires |s| % 16 == 0
    ensures Decode(key, Encode(key, s)) == s
  {
    hide Encrypted, Decrypted;
    if s != [] {
      DecryptedEncrypted(key, s[..16]);
      DecodeEncode(key, s[16..]);
      var e := Encode(key, s);
      assert e[..16] == Encrypted(key, s[..16]) && e[16..] == Encode(key, s[16..]);
    }
  }

  /** Random access: a run of whole blocks can be decrypted without the rest. */
  lemma EncodeSlice(key: Key, s: seq<Byte>, x: seq<Byte>, a: nat, n: nat)
    requires |s| % 16 == 0 && a % 16 == 0 && n % 16 == 0 && a + n <= |s| && x == s[a..a + n]
    ensures Encode(key, s)[a..a + n] == Encode(key, x)
  {
    hide Encode;
    var front, back := s[..a], s[a + n..];
    assert s == front + (x + back);
    Whole16(|s|, a, n);
    EncodeConcat(key, front, x + back);
    EncodeConcat(key, x, back);
    var p, q, r := Encode(key, front), Encode(key, x), Encode(key, back);
    MiddlePart(p, q, r);
  }

  lemma Whole16(total: nat, a: nat, n: nat)
    requires total % 16 == 0 && a % 16 == 0 && n % 16 == 0 && a + n <= total
    ensures (total - (a + n)) % 16 == 0 && (n + (total - (a + n))) % 16 == 0
  {}

  lemma MiddlePart(p: seq<Byte>, q: seq<Byte>, r: seq<Byte>)
    ensures (p + (q + r))[|p|..|p| + |q|] == q
  {}

  /** for (i = 0; i < n; i += 16) codec.encrypt(p + i, p + i); with p at offset o of buf. */
  method EncryptInPlace(codec: AESCryptor, buf: array<Byte>, o: nat, n: nat, ghost key: Key)
    requires codec.Keyed(key) && buf !in codec.tabs.Repr()
    requires n % 16 == 0 && o + n <= buf.Length
    modifies buf
    ensures buf[..] == Splice(old(buf[..]), o, Encode(key, old(buf[o..o + n])))
  {
    hide Splice, AESCryptor.Keyed, Encode;
    ghost var was := buf[..];
    var i := 0;
    EncodeNone(key, was, o);
    while i < n
      invariant 0 <= i <= n && i % 16 == 0
      invariant codec.Keyed(key)
      invariant buf[..] == Splice(was, o, Encode(key, was[o..o + i]))
    {
      EncryptNext(codec, buf, o, i, key, was, was[o..o + i], was[o + i..o + i + 16]);
      assert was[o..o + i] + was[o + i..o + i + 16] == was[o..o + i + 16];
      i := i + 16;
    }
  }

  method EncryptNext(codec: AESCryptor, buf: array<Byte>, o: nat, i: nat, ghost key: Key,
                     ghost was: seq<Byte>, ghost done: seq<Byte>, ghost next: seq<Byte>)
    requires codec.Keyed(key) && buf !in codec.tabs.Repr()
    requires |was| == buf.Length && |done| == i && i % 16 == 0 && |next| == 16
    requires o + i + 16 <= buf.Length && next == was[o + i..o + i + 16]
    requires buf[..] == Splice(was, o, Encode(key, done))
    modifies buf
    ensures codec.Keyed(key)
    ensures |done + next| % 16 == 0 && buf[..] == Splice(was, o, Encode(key, done + next))
  {
    hide Splice, AESCryptor.Keyed, Encode, Encrypted;
    ghost var before := buf[..];
    EncodePending(key, was, before, o, done, next);
    codec.Encrypt(buf, o + i, buf, o + i, key);
    EncodeStep(key, was, before, buf[..], o, done, next);
  }

  method DecryptInPlace(codec: AESCryptor, buf: array<Byte>, o: nat, n: nat, ghost key: Key)
    requires codec.Keyed(key) && buf !in codec.tabs.Repr()
    requires n % 16 == 0 && o + n <= buf.Length
    modifies buf
    ensures buf[..] == Splice(old(buf[..]), o, Decode(key, old(buf[o..o + n])))
  {
    hide Splice, AESCryptor.Keyed, Decode;
    ghost var was := buf[..];
    var i := 0;
    DecodeNone(key, was, o);
    while i < n
      invariant 0 <= i <= n && i % 16 == 0
      invariant codec.Keyed(key)
      invariant buf[..] == Splice(was, o, Decode(key, was[o..o + i]))
    {
      DecryptNext(codec, buf, o, i, key, was, was[o..o + i], was[o + i..o + i + 16]);
      assert was[o..o + i] + was[o + i..o + i + 16] == was[o..o + i + 16];
      i := i + 16;
    }
  }

  method DecryptNext(codec: AESCryptor, buf: array<Byte>, o: nat, i: nat, ghost key: Key,
                     ghost was: seq<Byte>, ghost done: seq<Byte>, ghost next: seq<Byte>)
    requires codec.Keyed(key) && buf !in codec.tabs.Repr()
    requires |was| == buf.Length && |done| == i && i % 16 == 0 && |next| == 16
    requires o + i + 16 <= buf.Length && next == was[o + i..o + i + 16]
    requires buf[..] == Splice(was, o, Decode(key, done))
    modifies buf
    ensures codec.Keyed(key)
    ensures |done + next| % 16 == 0 && buf[..] == Splice(was, o, Decode(key, done + next))
  {
    hide Splice, AESCryptor.Keyed, Decode, Decrypted;
    ghost var before := buf[..];
    DecodePending(key, was, before, o, done, next);
    codec.Decrypt(buf, o + i, buf, o + i, key);
    DecodeStep(key, was, before, buf[..], o, done, next);
  }

  lemma EncodePending(key: Key, was: seq<Byte>, before: seq<Byte>, o: nat, done: seq<Byte>, next: seq<Byte>)
    requires |done| % 16 == 0 && |next| == 16 && o + |done| + 16 <= |was|
    requires before == Splice(was, o, Encode(key, done))
    requires next == was[o + |done|..o + |done| + 16]
    ensures before[o + |done|..o + |done| + 16] == next
  {
    hide Splice, Encode;
    SpliceAfter(was, o, Encode(key, done), 16);
  }

  lemma EncodeStep(key: Key, was: seq<Byte>, before: seq<Byte>, after: seq<Byte>, o: nat, done: seq<Byte>,
                   next: seq<Byte>)
    requires |done| % 16 == 0 && |next| == 16 && o + |done| + 16 <= |was|
    requires before == Splice(was, o, Encode(key, done))
    requires after == Splice(before, o + |done|, Encrypted(key, next))
    ensures |done + next| % 16 == 0 && after == Splice(was, o, Encode(key, done + next))
  {
    hide Splice, Encode, Encrypted;
    SpliceSplice(was, o, Encode(key, done), Encrypted(key, next));
    EncodeConcat(key, done, next);
    EncodeOne(key, next);
  }

  lemma DecodePending(key: Key, was: seq<Byte>, before: seq<Byte>, o: nat, done: seq<Byte>, next: seq<Byte>)
    requires |done| % 16 == 0 && |next| == 16 && o + |done| + 16 <= |was|
    requires before == Splice(was, o, Decode(key, done))
    requires next == was[o + |done|..o + |done| + 16]
    ensures before[o + |done|..o + |done| + 16] == next
  {
    hide Splice, Decode;
    SpliceAfter(was, o, Decode(key, done), 16);
  }

  lemma DecodeStep(key: Key, was: seq<Byte>, before: seq<Byte>, after: seq<Byte>, o: nat, done: seq<Byte>,
                   next: seq<Byte>)
    requires |done| % 16 == 0 && |next| == 16 && o + |done| + 16 <= |was|
    requires before == Splice(was, o, Decode(key, done))
    requires after == Splice(before, o + |done|, Decrypted(key, next))
    ensures |done + next| % 16 == 0 && after == Splice(was, o, Decode(key, done + next))
  {
    hide Splice, Decode, Decrypted;
    SpliceSplice(was, o, Decode(key, done), Decrypted(key, next));
    DecodeConcat(key, done, next);
    DecodeOne(key, next);
  }

  lemma EncodeOne(key: Key, block: seq<Byte>)
    requires |block| == 16
    ensures Encode(key, block) == Encrypted(key, block)
  {
    hide Encrypted;
    assert block[..16] == block && block[16..] == [];
  }

  lemma DecodeOne(key: Key, block: seq<Byte>)
    requires |block| == 16
    ensures Decode(key, block) == Decrypted(key, block)
  {
    hide Decrypted;
    assert block[..16] == block && block[16..] == [];
  }

  lemma EncodeNone(key: Key, s: seq<Byte>, o: nat)
    requires o <= |s|
    ensures Splice(s, o, Encode(key, s[o..o])) == s
  {}

  lemma DecodeNone(key: Key, s: seq<Byte>, o: nat)
    requires o <= |s|
    ensures Splice(s, o, Decode(key, s[o..o])) == s
  {}

  /** Overwriting leaves what follows alone. */
  lemma SpliceAfter(a: seq<Byte>, o: nat, x: seq<Byte>, n: nat)
    requires o + |x| + n <= |a|
    ensures Splice(a, o, x)[o + |x|..o + |x| + n] == a[o + |x|..o + |x| + n]
  {}
}
