/**
 * demux_riff: the recursive box parser of the 3dv demuxer, and what it makes of a well-formed box file.
 */
module Demuxer {
  import opened Common

  /** One handle_data call: the box type, and the payload's place and size. */
  datatype Call = Call(fourcc: seq<byte>, index: nat, size: nat)

  function ReverseByteOrder(b: seq<byte>): (r: nat)
    requires |b| == 4
    ensures r < TWO32
  {
    (b[0] as int * 0x100_0000) + (b[1] as int * 0x1_0000) + (b[2] as int * 0x100) + b[3] as int
  }

  /** The size field at i, less the eight bytes of the header; it wraps around below eight. */
  function DataSize(data: seq<byte>, i: nat): (n: nat)
    requires i + 8 <= |data|
    ensures n < TWO32
  {
    (ReverseByteOrder(data[i..i + 4]) - 8) % TWO32
  }

  function FourCC(data: seq<byte>, i: nat): (c: seq<byte>)
    requires i + 8 <= |data|
    ensures |c| == 4
  {
    data[i + 4..i + 8]
  }

  /** Four bytes from '1' to 'z'. */
  predicate IsValidFourCC(c: seq<byte>)
    requires |c| == 4
  {
    forall i :: 0 <= i < 4 ==> 0x31 <= c[i] <= 0x7A
  }

  /** The payload looks as if it began with a box. The test is against what is left of the parent, not of the box. */
  predicate LooksLikeBox(data: seq<byte>, index: nat, size: int)
    requires index + 16 <= |data|
  {
    IsValidFourCC(FourCC(data, index + 8)) && DataSize(data, index + 8) <= size - 16
  }

  /** Is there a box at index that fits in what is left? */
  predicate BoxAt(data: seq<byte>, index: nat, size: int)
    requires size >= 8 && index + size <= |data|
  {
    DataSize(data, index) <= size - 8 && IsValidFourCC(FourCC(data, index))
  }

  /** The handle_data calls for a range, in order. */
  function Calls(data: seq<byte>, index: nat, size: int): seq<Call>
    requires size >= 8 ==> index + size <= |data|
    decreases if size < 0 then 0 else size
  {
    if size < 8 || !BoxAt(data, index, size) then [] else
    var n := DataSize(data, index);
    [Call(FourCC(data, index), index + 8, n)] + Inside(data, index, size) + Calls(data, index + 8 + n, size - 8 - n)
  }

  /** The calls for the inside of the box at index. */
  function Inside(data: seq<byte>, index: nat, size: int): seq<Call>
    requires size >= 8 && index + size <= |data| && BoxAt(data, index, size)
    decreases size, 0
  {
    if size >= 16 && LooksLikeBox(data, index, size) then Calls(data, index + 8, DataSize(data, index)) else []
  }

  /** Does the walk over a range end at its end, or at something that is no box? */
  predicate EndsWell(data: seq<byte>, index: nat, size: int)
    requires size >= 8 ==> index + size <= |data|
    decreases if size < 0 then 0 else size
  {
    size >= 8 ==>
      && BoxAt(data, index, size)
      && EndsWell(data, index + 8 + DataSize(data, index), size - 8 - DataSize(data, index))
  }

  class C3dvDemuxer {
    const m_file: seq<byte>
    ghost var handled: seq<Call>

    constructor (file: seq<byte>)
      ensures m_file == file && handled == []
    {
      m_file := file;
      handled := [];
    }

    method HandleData(fourcc: seq<byte>, index: nat, size: nat)
      requires index + size <= |m_file|
      modifies this
      ensures handled == old(handled) + [Call(fourcc, index, size)]
    {
      handled := handled + [Call(fourcc, index, size)];
    }

    /** demux_riff */
    method DemuxRiff(index0: nat, size0: int) returns (r: int)
      requires size0 >= 8 ==> index0 + size0 <= |m_file|
      modifies this
      ensures handled == old(handled) + Calls(m_file, index0, size0)
      ensures r == if EndsWell(m_file, index0, size0) then 0 else -1
      decreases if size0 < 0 then 0 else size0
    {
      hide DataSize, FourCC, IsValidFourCC;
      if size0 < 8 {
        return 0;
      }
      var index, size := index0, size0;
      while size >= 8
        invariant 0 <= size <= size0 && index + size == index0 + size0
        invariant handled + Calls(m_file, index, size) == old(handled) + Calls(m_file, index0, size0)
        invariant EndsWell(m_file, index, size) == EndsWell(m_file, index0, size0)
        decreases size
      {
        var fourcc, data_size := FourCC(m_file, index), DataSize(m_file, index);
        if data_size > size - 8 || !IsValidFourCC(fourcc) {
          return -1;
        }
        ghost var was, inside := handled, Inside(m_file, index, size);
        Regroup(was, [Call(fourcc, index + 8, data_size)], inside,
          Calls(m_file, index + 8 + data_size, size - 8 - data_size));
        HandleData(fourcc, index + 8, data_size);
        if size >= 16 {
          if LooksLikeBox(m_file, index, size) {
            var r' := DemuxRiff(index + 8, data_size);
          }
        }
        NoMore(was + [Call(fourcc, index + 8, data_size)]);
        assert handled == was + [Call(fourcc, index + 8, data_size)] + inside;
        index := index + 8 + data_size;
        size := size - 8 - data_size;
      }
      return 0;
    }
  }

  lemma Regroup(a: seq<Call>, b: seq<Call>, c: seq<Call>, d: seq<Call>)
    ensures a + (b + c + d) == a + b + c + d
  {}

  lemma NoMore(a: seq<Call>)
    ensures a + [] == a
  {}

  // ----- Where the payloads lie -----

  /** Every payload lies in the range, behind a header of eight bytes. */
  ghost predicate Within(calls: seq<Call>, lo: int, hi: int) {
    forall i :: 0 <= i < |calls| ==> lo + 8 <= calls[i].index && calls[i].index + calls[i].size <= hi
  }

  ghost predicate Apart(c: Call, d: Call) {
    c.index + c.size <= d.index
  }

  ghost predicate Inner(c: Call, d: Call) {
    c.index + 8 <= d.index && d.index + d.size <= c.index + c.size
  }

  /** Of two payloads the later one lies inside the earlier or behind it. */
  ghost predicate Nested(calls: seq<Call>) {
    forall i, j :: 0 <= i < j < |calls| ==> Inner(calls[i], calls[j]) || Apart(calls[i], calls[j])
  }

  lemma NestedConcat(a: seq<Call>, b: seq<Call>, lo: int, mid: int, hi: int)
    requires Nested(a) && Nested(b) && Within(a, lo, mid) && Within(b, mid, hi) && lo <= mid <= hi
    ensures Nested(a + b) && Within(a + b, lo, hi)
  {
    forall i, j | 0 <= i < j < |a + b| ensures Inner((a + b)[i], (a + b)[j]) || Apart((a + b)[i], (a + b)[j]) {
      if j < |a| {
        assert (a + b)[i] == a[i] && (a + b)[j] == a[j];
      } else if i >= |a| {
        assert (a + b)[i] == b[i - |a|] && (a + b)[j] == b[j - |a|];
      } else {
        assert (a + b)[i] == a[i] && (a + b)[j] == b[j - |a|];
      }
    }
  }

  lemma NestedInside(c: Call, inside: seq<Call>)
    requires Nested(inside) && Within(inside, c.index, c.index + c.size)
    ensures Nested([c] + inside) && Within([c] + inside, c.index - 8, c.index + c.size)
  {
    forall i, j | 0 <= i < j < |inside| + 1
      ensures Inner(([c] + inside)[i], ([c] + inside)[j]) || Apart(([c] + inside)[i], ([c] + inside)[j])
    {
      assert ([c] + inside)[j] == inside[j - 1];
      assert i > 0 ==> ([c] + inside)[i] == inside[i - 1];
    }
  }

  /**
   * On every byte string: each payload handled lies in the range walked, two payloads are nested or
   * disjoint, and there is at most one call for every eight bytes.
   */
  lemma {:induction false} CallsLieNested(data: seq<byte>, index: nat, size: int)
    requires size >= 8 ==> index + size <= |data|
    ensures Nested(Calls(data, index, size))
    ensures size >= 0 ==>
      && Within(Calls(data, index, size), index, index + size)
      && 8 * |Calls(data, index, size)| <= size
    decreases if size < 0 then 0 else size
  {
    hide DataSize, FourCC, IsValidFourCC, Nested, Within;
    NoCalls(index, size);
    if size >= 8 && BoxAt(data, index, size) {
      var n := DataSize(data, index);
      var call, inside := Call(FourCC(data, index), index + 8, n), Inside(data, index, size);
      var rest := Calls(data, index + 8 + n, size - 8 - n);
      CallsLieNested(data, index + 8, n);
      CallsLieNested(data, index + 8 + n, size - 8 - n);
      NoCalls(index + 8, n);
      NestedInside(call, inside);
      NestedConcat([call] + inside, rest, index, index + 8 + n, index + size);
    }
  }

  lemma NoCalls(index: nat, size: int)
    ensures Nested([]) && Within([], index, index + size)
  {}

  // ----- Well-formed files -----

  /** Boxes as section 4.2 of ISO/IEC 14496-12 lays them out: a size, a type, and bytes or further boxes. */
  datatype Box = Leaf(fourcc: seq<byte>, payload: seq<byte>) | Container(fourcc: seq<byte>, boxes: Boxes)

  datatype Boxes = Nil | Cons(head: Box, tail: Boxes)

  function BigEndian(v: nat): (b: seq<byte>)
    ensures |b| == 4
  {
    [v / 0x100_0000 % 256, v / 0x1_0000 % 256, v / 0x100 % 256, v % 256]
  }

  lemma BigEndianRead(v: nat)
    requires v < TWO32
    ensures ReverseByteOrder(BigEndian(v)) == v
  {
    var x, y, z := v / 0x100, v / 0x1_0000, v / 0x100_0000;
    assert v == 0x100 * x + v % 0x100;
    assert x == 0x100 * (x / 0x100) + x % 0x100 && x / 0x100 == y;
    assert y == 0x100 * (y / 0x100) + y % 0x100 && y / 0x100 == z;
    assert z % 256 == z;
    ReadFour(BigEndian(v), z % 256, y % 256, x % 256, v % 256);
  }

  /** The first byte weighs most. */
  lemma FirstByteHighest(a: byte, b: byte, c: byte, d: byte)
    ensures ReverseByteOrder([a, b, c, d]) == ((a as int * 256 + b as int) * 256 + c as int) * 256 + d as int
  {
    ReadFour([a, b, c, d], a, b, c, d);
  }

  lemma ReadFour(s: seq<byte>, a: byte, b: byte, c: byte, d: byte)
    requires s == [a, b, c, d]
    ensures ReverseByteOrder(s) == a as int * 0x100_0000 + b as int * 0x1_0000 + c as int * 0x100 + d as int
  {}

  function Payload(b: Box): seq<byte> {
    match b
    case Leaf(c, p) => p
    case Container(c, boxes) => AllBytes(boxes)
  }

  function Bytes(b: Box): seq<byte> {
    match b
    case Leaf(c, p) => BigEndian(8 + |p|) + c + p
    case Container(c, boxes) => BigEndian(8 + |AllBytes(boxes)|) + c + AllBytes(boxes)
  }

  function AllBytes(bs: Boxes): seq<byte> {
    match bs
    case Nil => []
    case Cons(b, rest) => Bytes(b) + AllBytes(rest)
  }

  /** Types of four bytes between '1' and 'z', and no leaf that begins like a box with such a type. */
  ghost predicate WellFormed(b: Box) {
    && |b.fourcc| == 4 && (forall i :: 0 <= i < 4 ==> 49 <= b.fourcc[i] <= 122)
    && match b
       case Leaf(c, p) => |p| >= 8 ==> exists i :: 4 <= i < 8 && !(49 <= p[i] <= 122)
       case Container(c, boxes) => AllWellFormed(boxes)
  }

  lemma TypesAreValid(b: Box)
    requires WellFormed(b)
    ensures IsValidFourCC(b.fourcc)
    ensures b.Leaf? && |b.payload| >= 8 ==> !IsValidFourCC(b.payload[4..8])
  {
    if b.Leaf? && |b.payload| >= 8 {
      var i :| 4 <= i < 8 && !(49 <= b.payload[i] <= 122);
      assert b.payload[4..8][i - 4] == b.payload[i];
    }
  }

  /** What is no box makes no call and fails: a size that is too large or below eight, or a byte that is in no type. */
  lemma NoBoxFails(data: seq<byte>, index: nat, size: nat)
    requires size >= 8 && index + size <= |data|
    requires var field := ReverseByteOrder(data[index..index + 4]);
      field > size || field < 8 || (exists i :: index + 4 <= i < index + 8 && !(49 <= data[i] <= 122))
    requires size < TWO32 - 8
    ensures Calls(data, index, size) == [] && !EndsWell(data, index, size)
  {
    if i :| index + 4 <= i < index + 8 && !(49 <= data[i] <= 122) {
      assert FourCC(data, index)[i - index - 4] == data[i];
    }
  }

  /** An empty box of type moov, byte by byte: one call, with success. */
  lemma EmptyMoov()
    ensures var data: seq<byte> := [0, 0, 0, 8, 0x6d, 0x6f, 0x6f, 0x76];
      Calls(data, 0, 8) == [Call([0x6d, 0x6f, 0x6f, 0x76], 8, 0)] && EndsWell(data, 0, 8)
  {
    var data: seq<byte> := [0, 0, 0, 8, 0x6d, 0x6f, 0x6f, 0x76];
    assert data[0..4] == [0, 0, 0, 8] && data[4..8] == [0x6d, 0x6f, 0x6f, 0x76];
    ReadFour(data[0..4], 0, 0, 0, 8);
    assert DataSize(data, 0) == 0 && FourCC(data, 0) == [0x6d, 0x6f, 0x6f, 0x76];
    assert BoxAt(data, 0, 8) && Inside(data, 0, 8) == [];
    assert Calls(data, 8, 0) == [] && EndsWell(data, 8, 0);
  }

  ghost predicate AllWellFormed(bs: Boxes) {
    bs.Cons? ==> WellFormed(bs.head) && AllWellFormed(bs.tail)
  }

  /** A box, then what is in it, then the next: each with the place of its payload. */
  function Preorder(bs: Boxes, index: nat): seq<Call> {
    match bs
    case Nil => []
    case Cons(b, rest) =>
      [Call(b.fourcc, index + 8, |Payload(b)|)]
      + (if b.Container? then Preorder(b.boxes, index + 8) else [])
      + Preorder(rest, index + 8 + |Payload(b)|)
  }

  ghost predicate At(data: seq<byte>, p: nat, bytes: seq<byte>) {
    p + |bytes| <= |data| && data[p..p + |bytes|] == bytes
  }

  lemma AtInside(data: seq<byte>, p: nat, bytes: seq<byte>)
    requires At(data, p, bytes)
    ensures p + |bytes| <= |data|
  {}

  lemma AtSplit(data: seq<byte>, p: nat, a: seq<byte>, b: seq<byte>)
    requires At(data, p, a + b)
    ensures At(data, p, a) && At(data, p + |a|, b)
  {
    assert data[p..p + |a|] == data[p..p + |a + b|][..|a|];
    assert data[p + |a|..p + |a| + |b|] == data[p..p + |a + b|][|a|..];
  }

  lemma HeaderAt(data: seq<byte>, p: nat, b: Box)
    requires At(data, p, Bytes(b)) && WellFormed(b) && |Bytes(b)| < TWO32
    ensures |Bytes(b)| == 8 + |Payload(b)|
    ensures p + 8 <= |data| && DataSize(data, p) == |Payload(b)| && FourCC(data, p) == b.fourcc
    ensures At(data, p + 8, Payload(b))
  {
    var n := 8 + |Payload(b)|;
    hide BigEndian, ReverseByteOrder;
    BigEndianRead(n);
    assert Bytes(b) == BigEndian(n) + b.fourcc + Payload(b);
    AtSplit(data, p, BigEndian(n) + b.fourcc, Payload(b));
    AtSplit(data, p, BigEndian(n), b.fourcc);
  }

  /** The demuxer hands over exactly the boxes of a well-formed file, in preorder, and reports success. */
  lemma {:induction false} CallsArePreorder(data: seq<byte>, index: nat, bs: Boxes)
    requires AllWellFormed(bs) && At(data, index, AllBytes(bs)) && |AllBytes(bs)| < TWO32
    ensures Calls(data, index, |AllBytes(bs)|) == Preorder(bs, index)
    ensures EndsWell(data, index, |AllBytes(bs)|)
    decreases bs
  {
    hide DataSize, FourCC, IsValidFourCC, At, Inside, Bytes, WellFormed, BoxAt, BigEndian, ReverseByteOrder;
    if bs.Cons? {
      var b, size := bs.head, |AllBytes(bs)|;
      AtSplit(data, index, Bytes(b), AllBytes(bs.tail));
      HeaderAt(data, index, b);
      CallsArePreorder(data, index + 8 + |Payload(b)|, bs.tail);
      AtInside(data, index, AllBytes(bs));
      InsideOf(data, index, size, b);
    }
  }

  lemma {:induction false} InsideOf(data: seq<byte>, index: nat, size: nat, b: Box)
    requires WellFormed(b) && At(data, index, Bytes(b)) && |Bytes(b)| <= size < TWO32 && index + size <= |data|
    ensures 8 <= size && BoxAt(data, index, size)
    ensures Inside(data, index, size) == if b.Container? then Preorder(b.boxes, index + 8) else []
    decreases b, 0
  {
    hide BigEndian, ReverseByteOrder;
    HeaderAt(data, index, b);
    TypesAreValid(b);
    if b.Container? {
      CallsArePreorder(data, index + 8, b.boxes);
      if b.boxes.Cons? {
        AtSplit(data, index + 8, Bytes(b.boxes.head), AllBytes(b.boxes.tail));
        HeaderAt(data, index + 8, b.boxes.head);
        TypesAreValid(b.boxes.head);
      }
    } else if |b.payload| >= 8 {
      assert FourCC(data, index + 8) == data[index + 8..index + 8 + |b.payload|][4..8];
    }
  }
}
