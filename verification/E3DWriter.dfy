/**
 * The tagged-leaf header and the chunked encrypting writer of the E3D container.
 */
module E3DWriter {
  import opened Common
  import opened Gf256
  import opened Rijndael
  import opened Cryptor
  import opened Ecb
  import opened Files

  datatype LeafType = NotSet | Memory | Childs

  /** my12doom_leaf: an eight-byte tag, the size of what follows, then data or child leaves. */
  class Leaf {
    var m_leaf8cc: seq<Byte>
    var m_child_size: nat
    var m_leaf_type: LeafType
    var m_memory_data: seq<Byte>
    var m_leaves: seq<Leaf>

    ghost var Parts: seq<seq<Byte>>  // what each child writes
    ghost var Repr: set<Leaf>

    /** What the leaf writes after its own tag and size. */
    ghost function Payload(): seq<Byte>
      reads this
    {
      match m_leaf_type
      case NotSet => []
      case Memory => m_memory_data
      case Childs => Join(Parts)
    }

    /** Everything WriteTo writes. */
    ghost function Bytes(): seq<Byte>
      reads this
    {
      m_leaf8cc + Le(m_child_size, 8) + Payload()
    }

    /** A finished tree: the size kept in each node is the size of what it writes after its header. */
    ghost predicate Valid()
      reads this, Repr
      decreases Repr
      ensures Valid() ==> this in Repr
    {
      && this in Repr && |m_leaf8cc| == 8
      && m_child_size == |Payload()|
      && |Parts| == |m_leaves|
      && (forall i :: 0 <= i < |m_leaves| ==>
            && m_leaves[i] in Repr && m_leaves[i].Repr <= Repr && this !in m_leaves[i].Repr
            && m_leaves[i].Valid() && m_leaves[i].Bytes() == Parts[i])
      && (m_leaf_type == NotSet ==> m_leaves == [])
    }

    /** The size field counts exactly what follows the 16 bytes of tag and size. */
    lemma ChildSizeIsPayload()
      requires Valid()
      ensures |Bytes()| == 16 + m_child_size
    {
      hide Le;
    }

    constructor (m_leaf8cc: seq<Byte>)
      requires |m_leaf8cc| == 8
      ensures Valid() && fresh(Repr) && Repr == {this}
      ensures m_leaf_type == NotSet && this.m_leaf8cc == m_leaf8cc && Payload() == []
    {
      this.m_leaf8cc := m_leaf8cc;
      m_child_size := 0;
      m_leaf_type := NotSet;
      m_memory_data := [];
      m_leaves := [];
      Parts := [];
      Repr := {this};
    }

    method AddLeaf(leaf: Leaf)
      requires Valid() && leaf.Valid() && this !in leaf.Repr
      modifies this
      ensures Valid() && m_leaf8cc == old(m_leaf8cc)
      ensures if old(m_leaf_type) == Memory
        then Repr == old(Repr) && m_leaf_type == Memory && Payload() == old(Payload())
        else Repr == old(Repr) + leaf.Repr && m_leaf_type == Childs && Payload() == old(Payload()) + leaf.Bytes()
    {
      hide Bytes, Join;
      if m_leaf_type != NotSet && m_leaf_type != Childs {
        return;
      }
      leaf.ChildSizeIsPayload();
      JoinNil();
      ghost var parts, bytes := if m_leaf_type == NotSet then [] else Parts, leaf.Bytes();
      m_leaf_type := Childs;
      m_child_size := m_child_size + 16 + leaf.m_child_size;
      m_leaves := m_leaves + [leaf];
      Parts := Parts + [bytes];
      Repr := Repr + leaf.Repr;
      JoinSnoc(parts, bytes);
    }

    method SetData(data: seq<Byte>)
      requires Valid()
      modifies this
      ensures Valid() && Repr == old(Repr) && m_leaf8cc == old(m_leaf8cc)
      ensures m_leaf_type == Memory && Payload() == data
    {
      m_leaf_type := Memory;
      m_child_size := |data|;
      m_memory_data := data;
    }

    method WriteTo(file: OsFile)
      requires Valid()
      modifies file`data
      ensures file.data == old(file.data) + Bytes()
      decreases Repr, 1
    {
      hide Le, Join;
      file.Append(m_leaf8cc);
      file.Append(Le(m_child_size, 8));
      if m_leaf_type == Childs {
        WriteChildren(file);
      } else if m_leaf_type == Memory {
        file.Append(m_memory_data);
      }
    }

    method WriteChildren(file: OsFile)
      requires Valid()
      modifies file`data
      ensures file.data == old(file.data) + Join(Parts)
      decreases Repr, 0
    {
      hide Join, Bytes;
      JoinNil();
      for i := 0 to |m_leaves|
        invariant file.data == old(file.data) + Join(Parts[..i])
      {
        m_leaves[i].WriteTo(file);
        JoinSnoc(Parts[..i], Parts[i]);
        assert Parts[..i + 1] == Parts[..i] + [Parts[i]];
      }
      assert Parts[..|m_leaves|] == Parts;
    }
  }

  lemma JoinNil()
    ensures Join([]) == []
  {}

  ghost function Join(parts: seq<seq<Byte>>): seq<Byte> {
    if parts == [] then [] else parts[0] + Join(parts[1..])
  }

  lemma {:induction false} JoinSnoc(parts: seq<seq<Byte>>, p: seq<Byte>)
    ensures Join(parts + [p]) == Join(parts) + p
  {
    if parts == [] {
      assert parts + [p] == [p] && [p][1..] == [];
    } else {
      JoinSnoc(parts[1..], p);
      assert (parts + [p])[1..] == parts[1..] + [p];
    }
  }

  // ----- encode_file -----

  const E3D_BLOCK_SIZE := 16
  const E3D_ENCODING_BLOCK_SIZE := 655360

  /** One leaf of data as it stands in the header. */
  function LeafBytes(name: string, data: seq<Byte>): (b: seq<Byte>)
    ensures |b| == 16 + |data|
  {
    Tag(name) + Le(|data|, 8) + data
  }

  /** "test data", zero-filled to 16 bytes. */
  function HintText(): (t: seq<Byte>)
    ensures |t| == 16
  {
    Text("test data") + Zeros(7)
  }

  function RemuxSignature(): (t: seq<Byte>)
    ensures |t| == 192
  {
    Text("my12doom's mvc interlacer") + Zeros(167)
  }

  ghost function KeyHint(key: Key): (h: seq<Byte>)
    ensures |h| == 32
  {
    HintText() + Encrypted(key, HintText())
  }

  /** The leaves of the header, in file order. */
  function HeaderLeaves(size: nat, hint: seq<Byte>, hash: seq<Byte>): seq<Byte> {
    LeafBytes("filesize", Le(size, 8)) + LeafBytes("blocksize", Le(E3D_BLOCK_SIZE, 8)) + LeafBytes("layout", Le(0, 8))
    + LeafBytes("srchash", hash) + LeafBytes("keyhint", hint) + LeafBytes("remux", RemuxSignature())
  }

  function Header(size: nat, hint: seq<Byte>, hash: seq<Byte>): seq<Byte> {
    LeafBytes("my12doom", HeaderLeaves(size, hint, hash))
  }

  lemma WholeBlocks(d: nat)
    requires d % E3D_ENCODING_BLOCK_SIZE == 0
    ensures d % 16 == 0 && (d + E3D_ENCODING_BLOCK_SIZE) % E3D_ENCODING_BLOCK_SIZE == 0
  {
    assert d == 16 * (40960 * (d / E3D_ENCODING_BLOCK_SIZE));
  }

  /** The plaintext zero-filled to a whole number of encoding blocks. */
  function Padded(plain: seq<Byte>): (p: seq<Byte>)
    ensures |p| % E3D_ENCODING_BLOCK_SIZE == 0 && |p| >= |plain| && p[..|plain|] == plain
    ensures |p| % 16 == 0
  {
    var over := |plain| % E3D_ENCODING_BLOCK_SIZE;
    var p := if over == 0 then plain else plain + Zeros(E3D_ENCODING_BLOCK_SIZE - over);
    WholeBlocks(|p|);
    p
  }

  /** It has as many chunks of 655360 bytes as it takes, and behind the plaintext only zeros. */
  lemma PaddedIs(plain: seq<Byte>)
    ensures |Padded(plain)| == (|plain| + 655359) / 655360 * 655360
    ensures forall i :: |plain| <= i < |Padded(plain)| ==> Padded(plain)[i] == ZERO
  {}

  /** The whole container. */
  ghost function Container(plain: seq<Byte>, key: Key, hash: seq<Byte>): seq<Byte> {
    Header(|plain|, KeyHint(key), hash) + Encode(key, Padded(plain))
  }

  method AddMemoryLeaf(root: Leaf, name: string, data: seq<Byte>)
    requires root.Valid() && root.m_leaf_type != Memory
    modifies root
    ensures root.Valid() && root.m_leaf_type == Childs && root.m_leaf8cc == old(root.m_leaf8cc)
    ensures root.Payload() == old(root.Payload()) + LeafBytes(name, data)
    ensures fresh(root.Repr - old(root.Repr))
  {
    hide Le, Tag, Join;
    var leaf := new Leaf(Tag(name));
    leaf.SetData(data);
    root.AddLeaf(leaf);
  }

  method WriteHeader(hout: OsFile, file_size: nat, hint: seq<Byte>, source_hash: seq<Byte>)
    modifies hout`data
    ensures hout.data == old(hout.data) + Header(file_size, hint, source_hash)
  {
    hide Le, Tag, Join, LeafBytes, RemuxSignature, Leaf.Payload;
    var root := new Leaf(Tag("my12doom"));
    AddMemoryLeaf(root, "filesize", Le(file_size, 8));
    AddMemoryLeaf(root, "blocksize", Le(E3D_BLOCK_SIZE, 8));
    AddMemoryLeaf(root, "layout", Le(0, 8));
    AddMemoryLeaf(root, "srchash", source_hash);
    AddMemoryLeaf(root, "keyhint", hint);
    AddMemoryLeaf(root, "remux", RemuxSignature());
    assert root.Payload() == HeaderLeaves(file_size, hint, source_hash);
    RootBytes(root);
    root.WriteTo(hout);
  }

  lemma RootBytes(root: Leaf)
    requires root.Valid() && root.m_leaf8cc == Tag("my12doom")
    ensures root.Bytes() == LeafBytes("my12doom", root.Payload())
  {
    hide Le, Tag, Join;
  }

  lemma PaddedLast(plain: seq<Byte>, d: nat, rest: seq<Byte>)
    requires d % E3D_ENCODING_BLOCK_SIZE == 0 && d < |plain| && rest == plain[d..] && |rest| < E3D_ENCODING_BLOCK_SIZE
    ensures plain[..d] + (rest + Zeros(E3D_ENCODING_BLOCK_SIZE - |rest|)) == Padded(plain)
  {
    assert |plain| % E3D_ENCODING_BLOCK_SIZE == |rest|;
    assert plain == plain[..d] + rest;
  }

  method ClearBuffer(tmp: array<Byte>)
    modifies tmp
    ensures tmp[..] == Zeros(tmp.Length)
  {
    forall i | 0 <= i < tmp.Length {
      tmp[i] := ZERO;
    }
  }

  /** s_key_hint: the text, and the text encrypted. */
  method MakeHint(codec: AESCryptor, ghost key: Key) returns (hint: seq<Byte>)
    requires codec.Keyed(key)
    ensures hint == KeyHint(key)
  {
    hide AESCryptor.Keyed, Encrypted;
    var text := HintText();
    ghost var repr := codec.tabs.Repr();
    var s_key_hint := new Byte[32](i requires 0 <= i < 32 => if i < 16 then text[i] else ZERO);
    assert s_key_hint !in repr;
    assert s_key_hint[0..16] == text;
    codec.Encrypt(s_key_hint, 0, s_key_hint, 16, key);
    hint := s_key_hint[..];
  }

  /** A full chunk goes out as it is. */
  lemma FullChunk(key: Key, plain: seq<Byte>, d: nat, tmp: seq<Byte>)
    requires d % E3D_ENCODING_BLOCK_SIZE == 0 && d + E3D_ENCODING_BLOCK_SIZE <= |plain|
      && tmp == plain[d..d + E3D_ENCODING_BLOCK_SIZE]
    ensures d % 16 == 0 && (d + E3D_ENCODING_BLOCK_SIZE) % 16 == 0
    ensures Encode(key, plain[..d]) + Encode(key, tmp) == Encode(key, plain[..d + E3D_ENCODING_BLOCK_SIZE])
  {
    hide Encode;
    WholeBlocks(d);
    WholeBlocks(d + E3D_ENCODING_BLOCK_SIZE);
    EncodeConcat(key, plain[..d], tmp);
    assert plain[..d] + tmp == plain[..d + E3D_ENCODING_BLOCK_SIZE];
  }

  /** The last chunk goes out zero-filled. */
  lemma LastChunk(key: Key, plain: seq<Byte>, d: nat, tmp: seq<Byte>)
    requires d % E3D_ENCODING_BLOCK_SIZE == 0 && d < |plain| < d + E3D_ENCODING_BLOCK_SIZE
    requires tmp == plain[d..] + Zeros(E3D_ENCODING_BLOCK_SIZE - |plain[d..]|)
    ensures d % 16 == 0
    ensures Encode(key, plain[..d]) + Encode(key, tmp) == Encode(key, Padded(plain))
  {
    hide Encode;
    WholeBlocks(d);
    EncodeConcat(key, plain[..d], tmp);
    PaddedLast(plain, d, plain[d..]);
  }

  lemma OverZeros(clear: seq<Byte>, chunk: seq<Byte>)
    requires clear == Zeros(|clear|) && |chunk| <= |clear|
    ensures Splice(clear, 0, chunk) == chunk + Zeros(|clear| - |chunk|)
  {}

  method EncodeBody(hin: OsFile, hout: OsFile, codec: AESCryptor, ghost key: Key)
    requires hin != hout && hin.pos == 0 && codec.Keyed(key)
    modifies hin`pos, hout`data
    ensures hout.data == old(hout.data) + Encode(key, Padded(hin.data))
  {
    hide AESCryptor.Keyed, Encode, Padded, Zeros;
    ghost var plain, header, repr := hin.data, hout.data, codec.tabs.Repr();
    var tmp := new Byte[E3D_ENCODING_BLOCK_SIZE](_ => ZERO);
    assert tmp !in repr;
    var byte_left := |hin.data|;
    EncodeEmpty(key, plain);
    while byte_left > 0
      invariant 0 <= byte_left <= |plain| && hin.pos == |plain| - byte_left && hin.pos % E3D_ENCODING_BLOCK_SIZE == 0
        && hin.pos % 16 == 0
      invariant codec.Keyed(key)
      invariant hout.data == header + Encode(key, plain[..hin.pos])
    {
      ghost var d, chunk := hin.pos, hin.Ahead(E3D_ENCODING_BLOCK_SIZE);
      WholeBlocks(d);
      var byte_read := EncodeChunk(hin, hout, codec, tmp, key);
      if byte_read < E3D_ENCODING_BLOCK_SIZE {
        LastChunk(key, plain, d, chunk + Zeros(E3D_ENCODING_BLOCK_SIZE - |chunk|));
        return;
      }
      NoZeros(chunk);
      FullChunk(key, plain, d, chunk);
      byte_left := byte_left - E3D_ENCODING_BLOCK_SIZE;
    }
    PaddedWhole(plain);
    assert plain[..|plain|] == plain;
  }

  lemma NoZeros(chunk: seq<Byte>)
    ensures chunk + Zeros(0) == chunk
  {}

  /** One pass of the loop: a chunk is read over zeros, encrypted and written whole. */
  method EncodeChunk(hin: OsFile, hout: OsFile, codec: AESCryptor, tmp: array<Byte>, ghost key: Key)
    returns (byte_read: nat)
    requires hin != hout && codec.Keyed(key) && tmp.Length == E3D_ENCODING_BLOCK_SIZE && tmp !in codec.tabs.Repr()
    modifies hin`pos, hout`data, tmp
    ensures codec.Keyed(key) && byte_read == |old(hin.Ahead(E3D_ENCODING_BLOCK_SIZE))|
      && hin.pos == old(hin.pos) + byte_read
    ensures hout.data
      == old(hout.data)
        + Encode(key, old(hin.Ahead(E3D_ENCODING_BLOCK_SIZE))
          + Zeros(E3D_ENCODING_BLOCK_SIZE - |old(hin.Ahead(E3D_ENCODING_BLOCK_SIZE))|))
  {
    hide AESCryptor.Keyed, Encode, Zeros, Splice;
    ClearBuffer(tmp);
    OverZeros(tmp[..], hin.Ahead(E3D_ENCODING_BLOCK_SIZE));
    byte_read := hin.Read(tmp, 0, E3D_ENCODING_BLOCK_SIZE);
    EncryptChunk(codec, tmp, key);
    hout.AppendArray(tmp);
  }

  /** for (i = 0; i < E3D_ENCODING_BLOCK_SIZE / 16; i++) codec.encrypt(tmp + i * 16, tmp + i * 16); */
  method EncryptChunk(codec: AESCryptor, tmp: array<Byte>, ghost key: Key)
    requires tmp.Length == E3D_ENCODING_BLOCK_SIZE && codec.Keyed(key) && tmp !in codec.tabs.Repr()
    modifies tmp
    ensures codec.Keyed(key) && tmp[..] == Encode(key, old(tmp[..]))
  {
    hide AESCryptor.Keyed, Encode;
    ghost var was := tmp[..];
    assert was[0..0 + E3D_ENCODING_BLOCK_SIZE] == was;
    EncryptInPlace(codec, tmp, 0, E3D_ENCODING_BLOCK_SIZE, key);
  }

  lemma PaddedWhole(plain: seq<Byte>)
    requires |plain| % E3D_ENCODING_BLOCK_SIZE == 0
    ensures Padded(plain) == plain
  {}

  lemma EncodeEmpty(key: Key, plain: seq<Byte>)
    ensures Encode(key, plain[..0]) == []
  {}

  /** encode_file, with a progress callback that never cancels. The tables are the cipher's globals. */
  method EncodeFile(hin: OsFile, hout: OsFile, key: array<Byte>, source_hash: seq<Byte>, tabs: Tables)
    requires hin != hout && hin.pos == 0 && hout.data == []
    requires key.Length == 32 && |source_hash| == 20
    requires tabs.Allocated() && (tabs.tab_gen ==> tabs.Ready()) && key !in tabs.Repr()
    modifies hin`pos, hout`data, tabs.Repr()
    ensures hin.data == old(hin.data) && key[..] == old(key[..]) && tabs.tab_gen && tabs.Ready()
    ensures hout.data == Container(hin.data, key[..], source_hash)
  {
    hide AESCryptor.Keyed, Tables.Ready, LeafBytes, Encrypted, Encode, RemuxSignature, HintText, Header;
    var file_size := |hin.data|;
    var codec := new AESCryptor(tabs);
    codec.SetKey(key, 256);
    assert key[..32] == key[..];
    var hint := MakeHint(codec, key[..]);
    WriteHeader(hout, file_size, hint, source_hash);
    EncodeBody(hin, hout, codec, key[..]);
  }
}
