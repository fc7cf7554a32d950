/**
 * The container as a whole: what encode_file writes, file_reader opens, and a session of seeks and reads on
 * it is answered as by the plaintext file, for exactly those sessions in which a reader agrees with a file.
 */
module E3DContainer {
  import opened Common
  import opened Gf256
  import opened Rijndael
  import opened Cryptor
  import opened Ecb
  import opened Files
  import opened E3DWriter
  import opened LeafWalk
  import opened E3DReader

  // ----- Header round trip -----

  ghost predicate At(data: seq<Byte>, p: nat, bytes: seq<Byte>) {
    p + |bytes| <= |data| && data[p..p + |bytes|] == bytes
  }

  ghost predicate ParseGives(data: seq<Byte>, p: nat, left: int, f: Fields, turns: nat, r: Parsed) {
    EndsWithin(data, p, left, turns) && Parse(data, p, left, f, turns) == r
  }

  /** One leaf as AddLeaf and WriteTo leave it, read by one turn of the parser's loop. */
  lemma ParseLeaf(data: seq<Byte>, p: nat, left: int, f: Fields, name: string, payload: seq<Byte>, n: nat, f': Fields,
                  turns: nat, r: Parsed)
    requires At(data, p, LeafBytes(name, payload)) && n <= |payload| < TWO31
    requires n == FieldLength(Tag(name)) && f' == SetField(f, Tag(name), payload[..n])
    requires if left - 16 - |payload| > 0
             then turns > 0 && ParseGives(data, p + 16 + |payload|, left - 16 - |payload|, f', turns - 1, r)
             else r == Done(f', p + 16 + |payload|)
    ensures ParseGives(data, p, left, f, turns, r)
  {
    FieldLengthSmall(Tag(name));
    hide Tag, Le, SetField, FieldLength, Int64Of;
    var leaf := LeafBytes(name, payload);
    SliceOfSlice(data, p, |leaf|, 0, 8);
    SliceOfSlice(data, p, |leaf|, 8, 8);
    SliceOfSlice(data, p, |leaf|, 16, n);
    assert leaf[0..8] == Tag(name) && leaf[8..16] == Le(|payload|, 8);
    assert leaf[16..16 + n] == payload[..n];
    Int64RoundTrip(|payload|);
    assert NextLeaf(p, |payload|, n) == p + 16 + |payload|;
  }

  /** The fields of the container's header. */
  ghost function HeaderFields(size: nat, hint: seq<Byte>, hash: seq<Byte>): Fields {
    Fields(size, E3D_BLOCK_SIZE, hint, 0, hash, RemuxSignature()[..128])
  }

  const HEADER_SIZE := 380

  /** Six leaves: five more turns after the first. */
  const HEADER_TURNS := 5

  lemma HeaderLayout(data: seq<Byte>, size: nat, hint: seq<Byte>, hash: seq<Byte>, body: seq<Byte>)
    requires |hint| == 32 && |hash| == 20 && data == Header(size, hint, hash) + body
    ensures |Header(size, hint, hash)| == HEADER_SIZE
    ensures At(data, 0, Tag("my12doom") + Le(364, 8))
    ensures At(data, 16, LeafBytes("filesize", Le(size, 8)))
    ensures At(data, 40, LeafBytes("blocksize", Le(E3D_BLOCK_SIZE, 8)))
    ensures At(data, 64, LeafBytes("layout", Le(0, 8)))
    ensures At(data, 88, LeafBytes("srchash", hash))
    ensures At(data, 124, LeafBytes("keyhint", hint))
    ensures At(data, 172, LeafBytes("remux", RemuxSignature()))
    ensures At(data, HEADER_SIZE, body)
  {
    hide At, Tag, Le, LeafBytes, RemuxSignature, Header;
    var l0 := Tag("my12doom") + Le(364, 8);
    var l1, l2, l3 := LeafBytes("filesize", Le(size, 8)), LeafBytes("blocksize", Le(E3D_BLOCK_SIZE, 8)),
      LeafBytes("layout", Le(0, 8));
    var l4, l5, l6 := LeafBytes("srchash", hash), LeafBytes("keyhint", hint), LeafBytes("remux", RemuxSignature());
    HeaderParts(size, hint, hash);
    var s1 := l0 + l1;
    var s2 := s1 + l2;
    var s3 := s2 + l3;
    var s4 := s3 + l4;
    var s5 := s4 + l5;
    var r6 := l6 + body;
    var r5 := l5 + r6;
    var r4 := l4 + r5;
    var r3 := l3 + r4;
    var r2 := l2 + r3;
    var r1 := l1 + r2;
    SeqAssoc(s5, l6, body);
    SeqAssoc(s4, l5, r6);
    SeqAssoc(s3, l4, r5);
    SeqAssoc(s2, l3, r4);
    SeqAssoc(s1, l2, r3);
    SeqAssoc(l0, l1, r2);
    assert data[0..] == l0 + r1;
    Chop(data, 0, l0, r1);
    Chop(data, 16, l1, r2);
    Chop(data, 40, l2, r3);
    Chop(data, 64, l3, r4);
    Chop(data, 88, l4, r5);
    Chop(data, 124, l5, r6);
    Chop(data, 172, l6, body);
    assert body == body + [];
    Chop(data, HEADER_SIZE, body, []);
  }

  lemma SeqAssoc(a: seq<Byte>, b: seq<Byte>, c: seq<Byte>)
    ensures (a + b) + c == a + (b + c)
  {}

  lemma Chop(data: seq<Byte>, p: nat, first: seq<Byte>, rest: seq<Byte>)
    requires p <= |data| && data[p..] == first + rest
    ensures At(data, p, first) && p + |first| <= |data| && data[p + |first|..] == rest
  {
    assert data == data[..p] + first + rest;
  }

  lemma HeaderParts(size: nat, hint: seq<Byte>, hash: seq<Byte>)
    requires |hint| == 32 && |hash| == 20
    ensures Header(size, hint, hash) == Tag("my12doom") + Le(364, 8) + LeafBytes("filesize", Le(size, 8))
      + LeafBytes("blocksize", Le(E3D_BLOCK_SIZE, 8)) + LeafBytes("layout", Le(0, 8))
      + LeafBytes("srchash", hash) + LeafBytes("keyhint", hint) + LeafBytes("remux", RemuxSignature())
    ensures |Header(size, hint, hash)| == HEADER_SIZE
  {
    hide Tag, Le, RemuxSignature;
    var leaves := HeaderLeaves(size, hint, hash);
    HeaderSize(size, hint, hash);
    assert Header(size, hint, hash) == Tag("my12doom") + Le(364, 8) + leaves;
    hide LeafBytes;
  }

  lemma HeaderSize(size: nat, hint: seq<Byte>, hash: seq<Byte>)
    requires |hint| == 32 && |hash| == 20
    ensures |HeaderLeaves(size, hint, hash)| == 364
  {
    hide LeafBytes;
  }

  /** The header byte by byte, around its sizes, the hash and the hint. */
  lemma HeaderBytes(size: nat, hint: seq<Byte>, hash: seq<Byte>)
    requires |hint| == 32 && |hash| == 20
    ensures Header(size, hint, hash) == Bytes8(0x6d, 0x79, 0x31, 0x32, 0x64, 0x6f, 0x6f, 0x6d) + Le(364, 8)
      + (Bytes8(0x66, 0x69, 0x6c, 0x65, 0x73, 0x69, 0x7a, 0x65) + Le(8, 8) + Le(size, 8))
      + (Bytes8(0x62, 0x6c, 0x6f, 0x63, 0x6b, 0x73, 0x69, 0x7a) + Le(8, 8) + Le(16, 8))
      + (Bytes8(0x6c, 0x61, 0x79, 0x6f, 0x75, 0x74, 0x00, 0x00) + Le(8, 8) + Le(0, 8))
      + (Bytes8(0x73, 0x72, 0x63, 0x68, 0x61, 0x73, 0x68, 0x00) + Le(20, 8) + hash)
      + (Bytes8(0x6b, 0x65, 0x79, 0x68, 0x69, 0x6e, 0x74, 0x00) + Le(32, 8) + hint)
      + (Bytes8(0x72, 0x65, 0x6d, 0x75, 0x78, 0x00, 0x00, 0x00) + Le(192, 8) + RemuxSignature())
  {
    HeaderParts(size, hint, hash);
    Tags();
    hide Tag, Le, RemuxSignature, Bytes8, Header;
    LeafBytesAre("filesize", Le(size, 8));
    LeafBytesAre("blocksize", Le(16, 8));
    LeafBytesAre("layout", Le(0, 8));
    LeafBytesAre("srchash", hash);
    LeafBytesAre("keyhint", hint);
    LeafBytesAre("remux", RemuxSignature());
    hide LeafBytes;
  }

  lemma LeafBytesAre(name: string, data: seq<Byte>)
    ensures LeafBytes(name, data) == Tag(name) + Le(|data|, 8) + data
  {}

  /** The hint text, byte by byte. */
  lemma HintBytes()
    ensures HintText() == Bytes8(0x74, 0x65, 0x73, 0x74, 0x20, 0x64, 0x61, 0x74)
                        + Bytes8(0x61, 0x00, 0x00, 0x00, 0x00, 0x00, 0x00, 0x00)
  {
    Letters();
    hide CharByte;
    var t := "test data";
    assert Text(t) == seq(9, i requires 0 <= i < 9 => CharByte(t[i]));
  }

  /** SetFile on encode_file's output finds every field as written and stops at the body. */
  lemma ParseContainer(plain: seq<Byte>, key: Key, hash: seq<Byte>, f: Fields)
    requires |hash| == 20 && |plain| < TWO63
    ensures var data := Container(plain, key, hash);
      && HasRoot(data, 0) && RootSize(data, 0) == 364
      && ParseGives(data, 16, 364, f, HEADER_TURNS, Done(HeaderFields(|plain|, KeyHint(key), hash), HEADER_SIZE))
      && BodyAt(key, Padded(plain), data, HEADER_SIZE)
  {
    var data := Container(plain, key, hash);
    HeaderLayout(data, |plain|, KeyHint(key), hash, Encode(key, Padded(plain)));
    hide Encode, KeyHint, Padded, LeafBytes, Container;
    RootAt(data);
    ParseLeaves(data, |plain|, KeyHint(key), hash, f);
  }

  lemma RootAt(data: seq<Byte>)
    requires At(data, 0, Tag("my12doom") + Le(364, 8))
    ensures HasRoot(data, 0) && RootSize(data, 0) == 364
  {
    hide Tag, Le, Int64Of;
    var root := Tag("my12doom") + Le(364, 8);
    assert data[0..16] == root;
    SliceOfSlice(data, 0, 16, 0, 8);
    SliceOfSlice(data, 0, 16, 8, 8);
    assert root[0..8] == Tag("my12doom") && root[8..16] == Le(364, 8);
    Int64RoundTrip(364);
  }

  lemma ParseLeaves(data: seq<Byte>, size: nat, hint: seq<Byte>, hash: seq<Byte>, f: Fields)
    requires |hash| == 20 && |hint| == 32 && size < TWO63
    requires At(data, 16, LeafBytes("filesize", Le(size, 8)))
    requires At(data, 40, LeafBytes("blocksize", Le(E3D_BLOCK_SIZE, 8)))
    requires At(data, 64, LeafBytes("layout", Le(0, 8)))
    requires At(data, 88, LeafBytes("srchash", hash))
    requires At(data, 124, LeafBytes("keyhint", hint))
    requires At(data, 172, LeafBytes("remux", RemuxSignature()))
    ensures ParseGives(data, 16, 364, f, HEADER_TURNS, Done(HeaderFields(size, hint, hash), HEADER_SIZE))
  {
    hide At, Tag, Le, LeafBytes, RemuxSignature, SetField, FieldLength, Int64Of, Int32Of, ParseGives;
    var f1 := f.(file_size := size);
    var f2 := f1.(block_size := E3D_BLOCK_SIZE);
    var f3 := f2.(layout := 0);
    var f4 := f3.(hash := hash);
    var f5 := f4.(keyhint := hint);
    FieldsSet(f, f1, f2, f3, f4, f5, size, hash, hint);
    var r := Done(f5.(remux := RemuxSignature()[..128]), HEADER_SIZE);
    LastLeaves(data, hash, hint, f3, f4, f5, r);
    FirstLeaves(data, size, f, f1, f2, f3, r);
  }

  lemma FirstLeaves(data: seq<Byte>, size: nat, f: Fields, f1: Fields, f2: Fields, f3: Fields, r: Parsed)
    requires At(data, 16, LeafBytes("filesize", Le(size, 8)))
    requires At(data, 40, LeafBytes("blocksize", Le(E3D_BLOCK_SIZE, 8)))
    requires At(data, 64, LeafBytes("layout", Le(0, 8)))
    requires FieldLength(Tag("filesize")) == FieldLength(Tag("blocksize")) == FieldLength(Tag("layout")) == 8
    requires SetField(f, Tag("filesize"), Le(size, 8)[..8]) == f1
    requires SetField(f1, Tag("blocksize"), Le(E3D_BLOCK_SIZE, 8)[..8]) == f2
    requires SetField(f2, Tag("layout"), Le(0, 8)[..8]) == f3
    requires ParseGives(data, 88, 292, f3, 2, r)
    ensures ParseGives(data, 16, 364, f, HEADER_TURNS, r)
  {
    hide At, Tag, Le, LeafBytes, RemuxSignature, SetField, FieldLength, ParseGives;
    ParseLeaf(data, 64, 316, f2, "layout", Le(0, 8), 8, f3, 3, r);
    ParseLeaf(data, 40, 340, f1, "blocksize", Le(E3D_BLOCK_SIZE, 8), 8, f2, 4, r);
    ParseLeaf(data, 16, 364, f, "filesize", Le(size, 8), 8, f1, 5, r);
  }

  lemma LastLeaves(data: seq<Byte>, hash: seq<Byte>, hint: seq<Byte>, f3: Fields, f4: Fields, f5: Fields, r: Parsed)
    requires |hash| == 20 && |hint| == 32
    requires At(data, 88, LeafBytes("srchash", hash))
    requires At(data, 124, LeafBytes("keyhint", hint))
    requires At(data, 172, LeafBytes("remux", RemuxSignature()))
    requires FieldLength(Tag("srchash")) == 20 && FieldLength(Tag("keyhint")) == 32 && FieldLength(Tag("remux")) == 128
    requires SetField(f3, Tag("srchash"), hash[..20]) == f4
    requires SetField(f4, Tag("keyhint"), hint[..32]) == f5
    requires SetField(f5, Tag("remux"), RemuxSignature()[..128]) == f5.(remux := RemuxSignature()[..128])
    requires r == Done(f5.(remux := RemuxSignature()[..128]), HEADER_SIZE)
    ensures ParseGives(data, 88, 292, f3, 2, r)
  {
    hide At, Tag, Le, LeafBytes, RemuxSignature, SetField, FieldLength, ParseGives;
    ParseLeaf(data, 172, 208, f5, "remux", RemuxSignature(), 128, f5.(remux := RemuxSignature()[..128]), 0, r);
    ParseLeaf(data, 124, 256, f4, "keyhint", hint, 32, f5, 1, r);
    ParseLeaf(data, 88, 292, f3, "srchash", hash, 20, f4, 2, r);
  }

  lemma FieldsSet(f: Fields, f1: Fields, f2: Fields, f3: Fields, f4: Fields, f5: Fields, size: nat, hash: seq<Byte>,
                  hint: seq<Byte>)
    requires |hash| == 20 && |hint| == 32 && size < TWO63
    requires f1 == f.(file_size := size) && f2 == f1.(block_size := E3D_BLOCK_SIZE) && f3 == f2.(layout := 0)
    requires f4 == f3.(hash := hash) && f5 == f4.(keyhint := hint)
    ensures FieldLength(Tag("filesize")) == FieldLength(Tag("blocksize")) == FieldLength(Tag("layout")) == 8
    ensures FieldLength(Tag("srchash")) == 20 && FieldLength(Tag("keyhint")) == 32 && FieldLength(Tag("remux")) == 128
    ensures SetField(f, Tag("filesize"), Le(size, 8)[..8]) == f1
    ensures SetField(f1, Tag("blocksize"), Le(E3D_BLOCK_SIZE, 8)[..8]) == f2
    ensures SetField(f2, Tag("layout"), Le(0, 8)[..8]) == f3
    ensures SetField(f3, Tag("srchash"), hash[..20]) == f4
    ensures SetField(f4, Tag("keyhint"), hint[..32]) == f5
    ensures SetField(f5, Tag("remux"), RemuxSignature()[..128]) == f5.(remux := RemuxSignature()[..128])
  {
    KnownTags();
    hide Tag, Le, RemuxSignature, Int64Of, Int32Of;
    Int64RoundTrip(size);
    Int64RoundTrip(0);
    Int32RoundTrip(E3D_BLOCK_SIZE);
    assert Le(size, 8)[..8] == Le(size, 8);
    assert Le(E3D_BLOCK_SIZE, 8)[..8] == Le(E3D_BLOCK_SIZE, 8);
    assert Le(0, 8)[..8] == Le(0, 8);
    assert hash[..20] == hash && hint[..32] == hint;
  }

  // ----- Sessions -----

  datatype Op = Read(n: nat) | Seek(distance: int, move: Move)

  datatype Reply = Got(bytes: seq<Byte>) | Failed | MovedTo(position: nat)

  /** What one call does on an ordinary file with this content, at position pos: the reply and the next position. */
  function Step(data: seq<Byte>, pos: nat, op: Op): (r: (Reply, nat)) {
    match op
    case Read(n) =>
      var m := Available(n, pos, |data|);
      (Got(if m == 0 then [] else data[pos..pos + m]), pos + m)
    case Seek(distance, move) =>
      var target := SeekTarget(distance, move, pos, |data|);
      if target < 0 then (Failed, pos) else (MovedTo(target), target)
  }

  function Replies(data: seq<Byte>, pos: nat, ops: seq<Op>): seq<Reply>
    decreases |ops|
  {
    if ops == [] then [] else
    var (reply, next) := Step(data, pos, ops[0]);
    [reply] + Replies(data, next, ops[1..])
  }

  lemma AheadAvailable(file: OsFile, n: nat)
    ensures Step(file.data, file.pos, Read(n)) == (Got(file.Ahead(n)), file.pos + |file.Ahead(n)|)
  {
    if file.pos < |file.data| {
      assert file.data[file.pos..|file.data|] == file.data[file.pos..];
    }
  }

  /** An OS file keeps to this. */
  method FileCall(file: OsFile, op: Op) returns (reply: Reply)
    modifies file`pos
    ensures (reply, file.pos) == Step(file.data, old(file.pos), op)
  {
    match op {
      case Read(n) =>
        var buf := new Byte[n](_ => ZERO);
        AheadAvailable(file, n);
        ghost var ahead := file.Ahead(n);
        var nRead := file.Read(buf, 0, n);
        assert buf[..nRead] == ahead;
        reply := Got(buf[..nRead]);
      case Seek(distance, move) =>
        var ok := file.Seek(distance, move);
        reply := if ok then MovedTo(file.pos) else Failed;
    }
  }

  /** What the reader does instead: a read that has nothing to return fails, and a distance from the end is ignored. */
  function ReaderStep(plain: seq<Byte>, pos: nat, op: Op): (r: (Reply, nat)) {
    match op
    case Read(n) =>
      var m := Available(n, pos, |plain|);
      if m == 0 then (Failed, pos) else (Got(plain[pos..pos + m]), pos + m)
    case Seek(distance, move) =>
      var target := ReaderTarget(distance, move, pos, |plain|);
      if target < 0 then (Failed, pos) else (MovedTo(target), target)
  }

  function ReaderReplies(plain: seq<Byte>, pos: nat, ops: seq<Op>): seq<Reply>
    decreases |ops|
  {
    if ops == [] then [] else
    var (reply, next) := ReaderStep(plain, pos, ops[0]);
    [reply] + ReaderReplies(plain, next, ops[1..])
  }

  /** The read has something to return, the seek from the end has no distance. */
  predicate Alike(pos: nat, size: nat, op: Op) {
    match op
    case Read(n) => n > 0 && pos < size
    case Seek(distance, move) => move != SeekEnd || distance == 0
  }

  predicate AllAlike(data: seq<Byte>, pos: nat, ops: seq<Op>)
    decreases |ops|
  {
    ops != [] ==> Alike(pos, |data|, ops[0]) && AllAlike(data, Step(data, pos, ops[0]).1, ops[1..])
  }

  /** These are exactly the calls in which reader and file agree; in all others their replies differ. */
  lemma StepAlike(data: seq<Byte>, pos: nat, op: Op)
    ensures ReaderStep(data, pos, op) == Step(data, pos, op) <==> Alike(pos, |data|, op)
    ensures ReaderStep(data, pos, op).0 == Step(data, pos, op).0 <==> Alike(pos, |data|, op)
  {}

  /** The reader answers a whole session as the file would exactly when every call in it is one of these. */
  lemma {:induction false} RepliesAlike(data: seq<Byte>, pos: nat, ops: seq<Op>)
    ensures ReaderReplies(data, pos, ops) == Replies(data, pos, ops) <==> AllAlike(data, pos, ops)
    decreases |ops|
  {
    if ops != [] {
      StepAlike(data, pos, ops[0]);
      RepliesAlike(data, Step(data, pos, ops[0]).1, ops[1..]);
      var here, there := ReaderReplies(data, pos, ops), Replies(data, pos, ops);
      assert here[0] == ReaderStep(data, pos, ops[0]).0 && there[0] == Step(data, pos, ops[0]).0;
      assert here[1..] == ReaderReplies(data, ReaderStep(data, pos, ops[0]).1, ops[1..]);
      assert there[1..] == Replies(data, Step(data, pos, ops[0]).1, ops[1..]);
    }
  }

  /** Five bytes before the end: the reader goes to the end. */
  lemma SeekFromTheEndDiffers(data: seq<Byte>)
    requires |data| >= 5
    ensures Step(data, 0, Seek(-5, SeekEnd)) == (MovedTo(|data| - 5), |data| - 5)
    ensures ReaderStep(data, 0, Seek(-5, SeekEnd)) == (MovedTo(|data|), |data|)
  {}

  /** At the end a file returns nothing; the reader fails. */
  lemma ReadAtTheEndDiffers(data: seq<Byte>, n: nat)
    ensures Step(data, |data|, Read(n)) == (Got([]), |data|)
    ensures ReaderStep(data, |data|, Read(n)) == (Failed, |data|)
  {}

  /**
   * Requests are DWORDs, what a read returns is below 2^31 bytes, and no read starts where the clamp goes
   * wrong.
   */
  predicate Served(plain: seq<Byte>, pos: nat, ops: seq<Op>)
    decreases |ops|
  {
    ops != [] ==>
      && (ops[0].Read? ==>
            ops[0].n < TWO32 && ClampFits(pos, |plain|) && Available(ops[0].n, pos, |plain|) < TWO31)
      && Served(plain, ReaderStep(plain, pos, ops[0]).1, ops[1..])
  }

  predicate Dwords(ops: seq<Op>) {
    forall i :: 0 <= i < |ops| && ops[i].Read? ==> ops[i].n < TWO32
  }

  /** One call on the reader, into a buffer of its own. */
  method Call(reader: FileReader, op: Op, ghost key: Key, ghost plain: seq<Byte>, ghost padded: seq<Byte>)
    returns (reply: Reply)
    requires reader.Open(key, padded) && reader.m_file_size == |plain| <= |padded| && padded[..|plain|] == plain
    requires op.Read? ==>
      op.n < TWO32 && reader.PositionFits() && Available(op.n, reader.m_pos, reader.m_file_size) < TWO31
    modifies reader`m_cache_pos, reader`m_file_pos_cache, reader`m_pos, reader.m_file`pos, reader.m_block_cache
    ensures reader.Open(key, padded)
    ensures old(reader.m_pos) >= 0 && (reply, reader.m_pos) == ReaderStep(plain, old(reader.m_pos), op)
  {
    hide FileReader.Attached, FileReader.CacheOk;
    match op {
      case Read(n) =>
        reply := CallRead(reader, n, key, plain, padded);
      case Seek(distance, move) =>
        var ok, position := reader.SetFilePointer(distance, move);
        reply := if ok then MovedTo(position) else Failed;
    }
  }

  method CallRead(reader: FileReader, n: nat, ghost key: Key, ghost plain: seq<Byte>, ghost padded: seq<Byte>)
    returns (reply: Reply)
    requires reader.Open(key, padded) && reader.m_file_size == |plain| <= |padded| && padded[..|plain|] == plain
    requires n < TWO32 && reader.PositionFits() && Available(n, reader.m_pos, reader.m_file_size) < TWO31
    modifies reader`m_cache_pos, reader`m_file_pos_cache, reader`m_pos, reader.m_file`pos, reader.m_block_cache
    ensures reader.Open(key, padded)
    ensures old(reader.m_pos) >= 0 && (reply, reader.m_pos) == ReaderStep(plain, old(reader.m_pos), Read(n))
  {
    hide FileReader.Attached, FileReader.CacheOk, FileReader.Positions, ReadsPlain;
    ghost var repr, pos := reader.m_codec.tabs.Repr(), reader.m_pos;
    var buf := new Byte[n](_ => ZERO);
    assert buf !in repr;
    ghost var was := buf[..];
    var ok, nRead := reader.ReadFile(buf, n, key, padded);
    PlainRead(was, buf[..], plain, padded, pos, n, nRead, ok);
    reply := if ok then Got(buf[..nRead]) else Failed;
  }

  lemma PlainRead(was: seq<Byte>, buf: seq<Byte>, plain: seq<Byte>, padded: seq<Byte>, pos: nat, n: nat, nRead: nat,
                  ok: bool)
    requires |plain| <= |padded| && padded[..|plain|] == plain && |was| == |buf| == n
    requires ReadsPlain(was, buf, padded, pos, |plain|, n, nRead, ok)
    ensures nRead == Available(n, pos, |plain|) && ok == (nRead > 0)
    ensures ok ==> nRead <= n && pos + nRead <= |plain| && buf[..nRead] == plain[pos..pos + nRead]
  {
    if ok {
      SliceOfSlice(padded, 0, |plain|, pos, nRead);
      assert padded[0..0 + |plain|] == plain;
    }
  }

  /**
   * Any sequence of seeks and reads on an open container answers as the plaintext file would, exactly when
   * no read in it starts at the end or asks for nothing, and no seek has a distance from the end.
   */
  method Session(reader: FileReader, ops: seq<Op>, ghost key: Key, ghost plain: seq<Byte>, ghost padded: seq<Byte>)
    returns (replies: seq<Reply>)
    requires reader.Open(key, padded) && reader.m_file_size == |plain| <= |padded| && padded[..|plain|] == plain
    requires reader.m_pos >= 0 && Served(plain, reader.m_pos, ops)
    modifies reader`m_cache_pos, reader`m_file_pos_cache, reader`m_pos, reader.m_file`pos, reader.m_block_cache
    ensures reader.Open(key, padded) && old(reader.m_pos) >= 0
    ensures replies == ReaderReplies(plain, old(reader.m_pos), ops)
    ensures replies == Replies(plain, old(reader.m_pos), ops) <==> AllAlike(plain, old(reader.m_pos), ops)
  {
    hide FileReader.Open, Step, ReaderStep, Alike;
    RepliesAlike(plain, reader.m_pos, ops);
    replies := [];
    var i := 0;
    while i < |ops|
      invariant 0 <= i <= |ops|
      invariant reader.Open(key, padded) && reader.m_pos >= 0
      invariant Served(plain, reader.m_pos, ops[i..])
      invariant ReaderReplies(plain, old(reader.m_pos), ops) == replies + ReaderReplies(plain, reader.m_pos, ops[i..])
    {
      ghost var rest := ops[i..];
      var reply := Call(reader, ops[i], key, plain, padded);
      assert rest[0] == ops[i] && rest[1..] == ops[i + 1..];
      replies := replies + [reply];
      i := i + 1;
    }
  }

  // ----- A reader that is not open -----

  /** Without a container, or without its key, every call goes through to the file. */
  method CallThrough(reader: FileReader, op: Op) returns (reply: Reply)
    requires !(reader.m_is_encrypted && reader.m_key_ok) && (op.Read? ==> op.n < TWO32)
    modifies reader`m_cache_pos, reader`m_file_pos_cache, reader`m_pos, reader.m_file`pos, reader.m_block_cache
    ensures (reply, reader.m_file.pos) == Step(reader.m_file.data, old(reader.m_file.pos), op)
  {
    match op {
      case Read(n) =>
        reply := ReadThrough(reader, n);
      case Seek(distance, move) =>
        var ok, position := reader.SetFilePointer(distance, move);
        reply := if ok then MovedTo(position) else Failed;
    }
  }

  method ReadThrough(reader: FileReader, n: nat) returns (reply: Reply)
    requires !(reader.m_is_encrypted && reader.m_key_ok) && n < TWO32
    modifies reader`m_cache_pos, reader`m_file_pos_cache, reader`m_pos, reader.m_file`pos, reader.m_block_cache
    ensures (reply, reader.m_file.pos) == Step(reader.m_file.data, old(reader.m_file.pos), Read(n))
  {
    ghost var repr := reader.m_codec.tabs.Repr();
    var buf := new Byte[n](_ => ZERO);
    assert buf !in repr;
    AheadAvailable(reader.m_file, n);
    ghost var ahead := reader.m_file.Ahead(n);
    hide Step;
    var ok, nRead := reader.ReadFile(buf, n, seq(32, _ => ZERO), []);
    assert buf[..nRead] == ahead;
    reply := Got(buf[..nRead]);
  }

  lemma RepliesFrom(data: seq<Byte>, pos: nat, ops: seq<Op>, i: nat)
    requires i < |ops|
    ensures var (reply, next) := Step(data, pos, ops[i]);
      Replies(data, pos, ops[i..]) == [reply] + Replies(data, next, ops[i + 1..])
  {
    hide Step;
    assert ops[i..][1..] == ops[i + 1..];
  }

  lemma OneMore(all: seq<Reply>, replies: seq<Reply>, reply: Reply, rest: seq<Reply>)
    requires all == replies + ([reply] + rest)
    ensures all == (replies + [reply]) + rest
  {}

  method SessionThrough(reader: FileReader, ops: seq<Op>) returns (replies: seq<Reply>)
    requires !(reader.m_is_encrypted && reader.m_key_ok) && Dwords(ops)
    modifies reader`m_cache_pos, reader`m_file_pos_cache, reader`m_pos, reader.m_file`pos, reader.m_block_cache
    ensures replies == Replies(reader.m_file.data, old(reader.m_file.pos), ops)
  {
    hide Step, Replies;
    ghost var data, all := reader.m_file.data, Replies(reader.m_file.data, reader.m_file.pos, ops);
    assert ops[0..] == ops;
    replies := [];
    var i := 0;
    while i < |ops|
      invariant 0 <= i <= |ops|
      invariant all == replies + Replies(data, reader.m_file.pos, ops[i..])
    {
      RepliesFrom(data, reader.m_file.pos, ops, i);
      var reply := CallThrough(reader, ops[i]);
      OneMore(all, replies, reply, Replies(data, reader.m_file.pos, ops[i + 1..]));
      replies := replies + [reply];
      i := i + 1;
    }
    assert ops[i..] == [];
    NoReplies(data, reader.m_file.pos);
  }

  lemma NoReplies(data: seq<Byte>, pos: nat)
    ensures Replies(data, pos, []) == []
  {}

  ghost predicate Opens(data: seq<Byte>, f: Fields, r: Parsed) {
    && HasRoot(data, 0) && RootSize(data, 0) == 364 && EndsWithin(data, 16, 364, HEADER_TURNS)
    && ParseFile(data, 0, f, HEADER_TURNS) == r
  }

  /** SetFile on a container: an empty plaintext is not recognised, any other is found as it was written. */
  lemma ContainerOpens(plain: seq<Byte>, key: Key, hash: seq<Byte>, f: Fields)
    requires |hash| == 20 && |plain| < TWO63
    ensures BodyAt(key, Padded(plain), Container(plain, key, hash), HEADER_SIZE)
    ensures Opens(Container(plain, key, hash), f,
              if |plain| == 0 then Stopped else Done(HeaderFields(|plain|, KeyHint(key), hash), HEADER_SIZE))
  {
    hide Container, KeyHint, Padded, HasRoot, RootSize, BodyAt, Parse, EndsWithin;
    ParseContainer(plain, key, hash, f);
  }

  /** The reader has found the fields encode_file wrote and stands at the first byte of the body. */
  ghost predicate Recovered(reader: FileReader, plain: seq<Byte>, key: Key, hash: seq<Byte>)
    reads reader, reader.m_keyhint, reader.m_file
  {
    && reader.m_keyhint.Length == 32
    && reader.m_is_encrypted
    && reader.Header() == HeaderFields(|plain|, KeyHint(key), hash)
    && reader.m_start_in_file == reader.m_file_pos_cache == reader.m_file.pos == HEADER_SIZE
    && reader.m_cache_pos == -1 && reader.m_pos == 0
    && reader.m_block_cache != null && reader.m_block_cache.Length == E3D_BLOCK_SIZE
    && BodyAt(key, Padded(plain), reader.m_file.data, HEADER_SIZE)
  }

  /** Opening a fresh reader on what encode_file wrote. */
  method OpenContainer(file: OsFile, tabs: Tables, ghost plain: seq<Byte>, ghost key: Key, ghost hash: seq<Byte>)
    returns (reader: FileReader)
    requires tabs.Allocated() && |hash| == 20 && |plain| < TWO63
    requires file.data == Container(plain, key, hash) && file.pos == 0
    modifies file`pos
    ensures fresh(reader) && fresh(reader.m_keyhint) && reader.m_codec.tabs == tabs && reader.m_codec.Allocated()
    ensures fresh(reader.m_codec) && fresh(reader.m_codec.e_key) && fresh(reader.m_codec.d_key)
    ensures reader.m_file == file && !reader.m_key_ok
    ensures reader.m_is_encrypted == (|plain| > 0)
    ensures |plain| > 0 ==>
      && Recovered(reader, plain, key, hash)
      && reader.m_block_cache != null && fresh(reader.m_block_cache) && reader.m_block_cache != reader.m_keyhint
    ensures |plain| == 0 ==> file.pos == 0 && reader.m_block_cache == null
  {
    hide Container, KeyHint, Padded, HasRoot, RootSize, BodyAt, ParseFile, Parse, EndsWithin;
    reader := new FileReader(tabs);
    ContainerOpens(plain, key, hash, reader.Header().(remux := Zeros(128), hash := Zeros(20)));
    var over := reader.SetFile(file, HEADER_TURNS);
  }

  /** Two keys fit the same container when they encrypt the hint text alike. */
  lemma HintFits(key: Key, other: Key)
    ensures KeyHint(key)[..16] == HintText() && KeyHint(key)[16..] == Encrypted(key, HintText())
    ensures |KeyHint(key)[..16]| == 16
  {
    hide Encrypted, HintText;
  }

  /** set_key on an opened container: the key that wrote it fits, and the reader is ready to read. */
  method Unlock(reader: FileReader, key: array<Byte>, ghost plain: seq<Byte>, ghost writer: Key, ghost hash: seq<Byte>)
    requires Recovered(reader, plain, writer, hash) && reader.m_codec.Allocated()
    requires reader.m_codec.tabs.tab_gen ==> reader.m_codec.tabs.Ready()
    requires key.Length == 32 && key != reader.m_keyhint && key != reader.m_block_cache
    requires {key, reader.m_keyhint, reader.m_block_cache} !! reader.m_codec.tabs.Repr()
    requires reader.m_block_cache != reader.m_keyhint
    modifies reader`m_key_ok, reader.m_keyhint, reader.m_codec`k_len, reader.m_codec.e_key, reader.m_codec.d_key,
             reader.m_codec.tabs.Repr()
    ensures Recovered(reader, plain, writer, hash) && key[..] == old(key[..])
    ensures reader.m_key_ok == (Encrypted(key[..], HintText()) == Encrypted(writer, HintText()))
    ensures key[..] == writer ==> reader.Open(writer, Padded(plain))
  {
    hide AESCryptor.Keyed, Encrypted, Tables.Ready, Padded, BodyAt, HintText;
    HintFits(writer, key[..]);
    reader.SetKey(key);
    PaddedBlocks(plain);
  }

  lemma PaddedBlocks(plain: seq<Byte>)
    ensures |Padded(plain)| % E3D_BLOCK_SIZE == 0 && |plain| <= |Padded(plain)| && Padded(plain)[..|plain|] == plain
  {}

  lemma EmptyContainer(key: Key, hash: seq<Byte>)
    requires |hash| == 20
    ensures |Container([], key, hash)| == HEADER_SIZE
  {
    hide KeyHint, Header, Zeros;
    HeaderParts(0, KeyHint(key), hash);
    assert Padded([]) == [] && Encode(key, []) == [];
  }

  /**
   * Encode a file, open the result with the same key, and use it: the reader reports the size of the
   * plaintext and answers every session of seeks and reads as the plaintext file would, exactly when all its
   * calls are of the kind in which a reader agrees with a file. An empty file is the exception: its container
   * is not recognised, and the reader is the container file itself.
   */
  method EncodeAndUse(hin: OsFile, hout: OsFile, key: array<Byte>, source_hash: seq<Byte>, tabs: Tables, ops: seq<Op>)
    returns (size: int, replies: seq<Reply>)
    requires hin != hout && hin.pos == 0 && hout.data == [] && |hin.data| < TWO63
    requires key.Length == 32 && |source_hash| == 20
    requires tabs.Allocated() && (tabs.tab_gen ==> tabs.Ready()) && key !in tabs.Repr()
    requires Dwords(ops) && (|hin.data| > 0 ==> Served(hin.data, 0, ops))
    modifies hin`pos, hout, tabs.Repr()
    ensures hin.data == old(hin.data) && hout.data == Container(hin.data, old(key[..]), source_hash)
    ensures size == if |hin.data| > 0 then |hin.data| else HEADER_SIZE
    ensures |hin.data| > 0 ==> (replies == Replies(hin.data, 0, ops) <==> AllAlike(hin.data, 0, ops))
    ensures |hin.data| == 0 ==> replies == Replies(hout.data, 0, ops)
  {
    hide Container, Replies, Served, AllAlike, Tables.Ready, Dwords;
    ghost var plain, writer := hin.data, key[..];
    EncodeFile(hin, hout, key, source_hash, tabs);
    hout.SeekTo(0);
    size, replies := Use(hout, key, tabs, plain, writer, source_hash, ops);
  }

  /** Open a container, with the key it was written with, and use it. */
  method Use(file: OsFile, key: array<Byte>, tabs: Tables, ghost plain: seq<Byte>, ghost writer: Key,
             ghost hash: seq<Byte>,
             ops: seq<Op>)
    returns (size: int, replies: seq<Reply>)
    requires file.pos == 0 && |plain| < TWO63 && |hash| == 20 && file.data == Container(plain, writer, hash)
    requires key.Length == 32 && key[..] == writer
    requires tabs.Allocated() && (tabs.tab_gen ==> tabs.Ready()) && key !in tabs.Repr()
    requires Dwords(ops) && (|plain| > 0 ==> Served(plain, 0, ops))
    modifies file`pos, tabs.Repr()
    ensures size == if |plain| > 0 then |plain| else HEADER_SIZE
    ensures |plain| > 0 ==> (replies == Replies(plain, 0, ops) <==> AllAlike(plain, 0, ops))
    ensures |plain| == 0 ==> replies == Replies(file.data, 0, ops)
  {
    hide Container, FileReader.Open, Replies, Served, AllAlike, Tables.Ready, Recovered, Encrypted, Padded, Dwords;
    ghost var repr := tabs.Repr();
    var reader := OpenContainer(file, tabs, plain, writer, hash);
    if reader.m_is_encrypted {
      assert reader.m_keyhint !in repr && reader.m_block_cache !in repr;
      size, replies := UnlockAndUse(reader, key, plain, writer, hash, ops);
    } else {
      EmptyContainer(writer, hash);
      size := reader.GetFileSize();
      replies := SessionThrough(reader, ops);
    }
  }

  method UnlockAndUse(reader: FileReader, key: array<Byte>, ghost plain: seq<Byte>, ghost writer: Key,
                      ghost hash: seq<Byte>,
                      ops: seq<Op>)
    returns (size: int, replies: seq<Reply>)
    requires Recovered(reader, plain, writer, hash) && reader.m_codec.Allocated()
    requires reader.m_codec.tabs.tab_gen ==> reader.m_codec.tabs.Ready()
    requires key.Length == 32 && key != reader.m_keyhint && key != reader.m_block_cache
    requires {key, reader.m_keyhint, reader.m_block_cache} !! reader.m_codec.tabs.Repr()
    requires reader.m_block_cache != reader.m_keyhint
    requires key[..] == writer && Served(plain, 0, ops)
    modifies reader, reader.m_keyhint, reader.m_block_cache, reader.m_file`pos, reader.m_codec`k_len,
             reader.m_codec.e_key, reader.m_codec.d_key, reader.m_codec.tabs.Repr()
    ensures size == |plain| && (replies == Replies(plain, 0, ops) <==> AllAlike(plain, 0, ops))
  {
    hide FileReader.Attached, FileReader.CacheOk, Replies, Served, AllAlike, Tables.Ready, Encrypted, Padded, KeyHint,
      BodyAt;
    Unlock(reader, key, plain, writer, hash);
    size := reader.GetFileSize();
    PaddedBlocks(plain);
    replies := Session(reader, ops, writer, plain, Padded(plain));
  }
}
