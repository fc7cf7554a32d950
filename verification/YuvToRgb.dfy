/**
 * ConvertYUV2RGB: planar 4:2:0 to RGB, two rows and two columns at a time, through tables.
 */
module YuvToRgb {
  import opened Common

  /** Clamp to 0..255. */
  function Clamp(x: int): (b: byte)
    ensures 0 <= x < 256 ==> b == x
  {
    if x < 0 then 0 else if x > 255 then 255 else x
  }

  datatype Rgb = Rgb(r: byte, g: byte, b: byte)

  /** The fixed-point formula for one pixel; the shift by 16 rounds down. */
  function Convert(p: Yuv): Rgb {
    var l := 76309 * (p.y as int - 16);
    Rgb(Clamp((l + 104597 * (p.v as int - 128)) / 65536),
        Clamp((l - 25675 * (p.u as int - 128) - 53279 * (p.v as int - 128)) / 65536),
        Clamp((l + 132201 * (p.u as int - 128)) / 65536))
  }

  /** A byte that is this value rounded down and clamped, but for two hundredths. */
  predicate Near(b: byte, x: real) {
    && b as real <= (if x < 0.0 then 0.0 else x) + 0.02
    && b as real >= (if x > 255.0 then 255.0 else x) - 1.02
  }

  lemma ClampedNear(n: int, x: real)
    requires x - 0.02 <= n as real / 65536.0 <= x + 0.02
    ensures Near(Clamp(n / 65536), x)
  {
    var q := n / 65536;
    assert 65536 * q <= n < 65536 * q + 65536;
    assert q as real <= n as real / 65536.0 < q as real + 1.0;
  }

  /** Red, green and blue by the factors of ITU-R BT.601 for 8 bits, to six places. */
  function Red601(y: int, v: int): real {
    1.164384 * (y - 16) as real + 1.596027 * (v - 128) as real
  }

  function Green601(y: int, u: int, v: int): real {
    1.164384 * (y - 16) as real - 0.391762 * (u - 128) as real - 0.812968 * (v - 128) as real
  }

  function Blue601(y: int, u: int): real {
    1.164384 * (y - 16) as real + 2.017232 * (u - 128) as real
  }

  lemma RedNear(y: byte, v: byte)
    ensures Near(Clamp((76309 * (y as int - 16) + 104597 * (v as int - 128)) / 65536), Red601(y, v))
  {
    hide Near;
    ClampedNear(76309 * (y as int - 16) + 104597 * (v as int - 128), Red601(y, v));
  }

  lemma GreenNear(y: byte, u: byte, v: byte)
    ensures Near(Clamp((76309 * (y as int - 16) - 25675 * (u as int - 128) - 53279 * (v as int - 128)) / 65536),
                 Green601(y, u, v))
  {
    hide Near;
    ClampedNear(76309 * (y as int - 16) - 25675 * (u as int - 128) - 53279 * (v as int - 128), Green601(y, u, v));
  }

  lemma BlueNear(y: byte, u: byte)
    ensures Near(Clamp((76309 * (y as int - 16) + 132201 * (u as int - 128)) / 65536), Blue601(y, u))
  {
    hide Near;
    ClampedNear(76309 * (y as int - 16) + 132201 * (u as int - 128), Blue601(y, u));
  }

  /** The formula is that conversion, rounded down and clamped. */
  lemma NearBt601(p: Yuv)
    ensures Near(Convert(p).r, Red601(p.y, p.v))
    ensures Near(Convert(p).g, Green601(p.y, p.u, p.v))
    ensures Near(Convert(p).b, Blue601(p.y, p.u))
  {
    hide Near, Red601, Green601, Blue601, Clamp;
    RedNear(p.y, p.v);
    GreenNear(p.y, p.u, p.v);
    BlueNear(p.y, p.u);
  }

  /** Without colour the three are equal, from black to the brightest value there is. */
  lemma Greys(y: byte)
    ensures var c := Convert(Yuv(y, 128, 128)); c.r == c.g == c.b
    ensures Convert(Yuv(16, 128, 128)) == Rgb(0, 0, 0) && Convert(Yuv(235, 128, 128)) == Rgb(254, 254, 254)
  {}

  // ----- Places -----

  /** Where the pixel in row r and column c is, in a plane of width w. */
  function Pos(r: nat, c: nat, w: nat): nat {
    r * w + c
  }

  lemma PosBounds(r: nat, c: nat, w: nat, h: nat)
    requires r < h && c < w
    ensures Pos(r, c, w) < h * w
  {
    Mono(r + 1, h, w);
  }

  lemma PosApart(r: nat, c: nat, r': nat, c': nat, w: nat)
    requires c < w && c' < w && (r, c) != (r', c')
    ensures Pos(r, c, w) != Pos(r', c', w)
  {
    if r < r' {
      Mono(r + 1, r', w);
    } else if r' < r {
      Mono(r' + 1, r, w);
    }
  }

  lemma PositiveWidth(h: nat, w: nat)
    requires Pos(h, 0, w) > 0
    ensures w > 0
  {}

  /** Every byte of the output belongs to one pixel. */
  lemma BytesArePixels(p: nat, w: nat, h: nat) returns (r: nat, c: nat, k: nat)
    requires w > 0 && p < 3 * (h * w)
    ensures r < h && c < w && k < 3 && p == 3 * Pos(r, c, w) + k
  {
    k := p % 3;
    var q := p / 3;
    r, c := q / w, q % w;
    assert q == w * (q / w) + q % w;
    if r >= h {
      Mono(h, r, w);
    }
  }

  // ----- The tables -----

  class Tables {
    const crv_tab: array<int>
    const cbu_tab: array<int>
    const cgu_tab: array<int>
    const cgv_tab: array<int>
    const tab_76309: array<int>
    const clp: array<byte>

    constructor ()
      ensures Allocated() && fresh(crv_tab) && fresh(cbu_tab) && fresh(cgu_tab) && fresh(cgv_tab) && fresh(tab_76309)
        && fresh(clp)
    {
      crv_tab := new int[256](_ => 0);
      cbu_tab := new int[256](_ => 0);
      cgu_tab := new int[256](_ => 0);
      cgv_tab := new int[256](_ => 0);
      tab_76309 := new int[256](_ => 0);
      clp := new byte[1024](_ => 0);
    }

    ghost function Repr(): set<object> {
      {crv_tab as object, cbu_tab, cgu_tab, cgv_tab, tab_76309, clp}
    }

    ghost predicate Allocated() {
      && crv_tab.Length == cbu_tab.Length == cgu_tab.Length == cgv_tab.Length == tab_76309.Length == 256
      && clp.Length == 1024
      && |{crv_tab, cbu_tab, cgu_tab, cgv_tab, tab_76309}| == 5
    }

    ghost predicate Ready()
      reads Repr()
    {
      Allocated() && ColoursReady(256) && ClampReady()
    }

    ghost predicate ColoursReady(n: nat)
      requires Allocated() && n <= 256
      reads crv_tab, cbu_tab, cgu_tab, cgv_tab, tab_76309
    {
      forall i :: 0 <= i < n ==>
        && crv_tab[i] == (i - 128) * 104597 && cbu_tab[i] == (i - 128) * 132201
        && cgu_tab[i] == (i - 128) * 25675 && cgv_tab[i] == (i - 128) * 53279
        && tab_76309[i] == 76309 * (i - 16)
    }

    /** clp clamps, for every index from 384 below zero to 384 above 255. */
    ghost predicate ClampReady()
      requires clp.Length == 1024
      reads clp
    {
      forall k :: 0 <= k < 1024 ==> clp[k] == Clamp(k - 384)
    }

    method InitConvertTable()
      requires Allocated()
      modifies Repr()
      ensures Ready()
    {
      InitColours();
      InitClamp();
    }

    method InitColours()
      requires Allocated()
      modifies crv_tab, cbu_tab, cgu_tab, cgv_tab, tab_76309
      ensures ColoursReady(256)
    {
      var crv, cbu, cgu, cgv := 104597, 132201, 25675, 53279;
      for i := 0 to 256
        invariant ColoursReady(i)
      {
        crv_tab[i] := (i - 128) * crv;
        cbu_tab[i] := (i - 128) * cbu;
        cgu_tab[i] := (i - 128) * cgu;
        cgv_tab[i] := (i - 128) * cgv;
        tab_76309[i] := 76309 * (i - 16);
      }
    }

    method InitClamp()
      requires clp.Length == 1024
      modifies clp
      ensures ClampReady()
    {
      for i := 0 to 384
        invariant forall k :: 0 <= k < i ==> clp[k] == 0
      {
        clp[i] := 0;
      }
      var ind := 384;
      for i := 0 to 256
        invariant ind == 384 + i && forall k :: 0 <= k < ind ==> clp[k] == Clamp(k - 384)
      {
        clp[ind] := i;
        ind := ind + 1;
      }
      ind := 640;
      for i := 0 to 384
        invariant ind == 640 + i && forall k :: 0 <= k < ind ==> clp[k] == Clamp(k - 384)
      {
        clp[ind] := 255;
        ind := ind + 1;
      }
    }

    // ----- The conversion -----

    /**
     * Three output bytes, through the clamp table, whose index stays between 0 and 1023. hits counts the writes to
     * each byte.
     */
    method WritePixel(dst: array<byte>, d: nat, t: Terms, ghost yuv: Yuv, ghost hits: seq<nat>)
      returns (ghost hits': seq<nat>)
      requires Ready() && dst !in Repr() && d + 3 <= dst.Length == |hits| && TermsOf(t, yuv)
      modifies dst
      ensures Rgb(dst[d], dst[d + 1], dst[d + 2]) == Convert(yuv)
      ensures forall p :: 0 <= p < dst.Length && !(d <= p < d + 3) ==> dst[p] == old(dst[p])
      ensures |hits'| == |hits|
      ensures forall p :: 0 <= p < |hits| ==> hits'[p] == hits[p] + if d <= p < d + 3 then 1 else 0
    {
      dst[d] := clp[384 + (t.y1 + t.c1) / 65536];
      dst[d + 1] := clp[384 + (t.y1 - t.c2 - t.c3) / 65536];
      dst[d + 2] := clp[384 + (t.y1 + t.c4) / 65536];
      hits' := seq(|hits|, p requires 0 <= p < |hits| => hits[p] + if d <= p < d + 3 then 1 else 0);
    }

    /** The pixel in row r and column c: it is right now, and the others are as they were. */
    method PutPixel(dst: array<byte>, d: nat, t: Terms, ghost r: nat, ghost c: nat, ghost im: Image,
                    ghost hits: seq<nat>)
      returns (ghost hits': seq<nat>)
      requires Ready() && dst !in Repr() && im.Fits(dst.Length) && r < im.h && c < im.w && d == 3 * Pos(r, c, im.w)
      requires |hits| == dst.Length && TermsOf(t, im.At(r, c)) && im.Untouched(hits, r, c)
      modifies dst
      ensures |hits'| == dst.Length && im.Done(dst[..], hits', r, c)
        && im.Kept(old(dst[..]), hits, dst[..], hits', {(r, c)})
    {
      hide Convert, TermsOf;
      PosBounds(r, c, im.w, im.h);
      ghost var was := dst[..];
      hits' := WritePixel(dst, d, t, im.At(r, c), hits);
      forall r': nat, c': nat | r' < im.h && c' < im.w && (r', c') != (r, c)
        ensures im.SamePixel(was, hits, dst[..], hits', r', c')
      {
        PosApart(r, c, r', c', im.w);
        PosBounds(r', c', im.w, im.h);
      }
    }

    /** One 2 by 2 block: four pixels that share their u and v. */
    method PutBlock(dst: array<byte>, d1: nat, d2: nat, y11: byte, y21: byte, y12: byte, y22: byte, u: byte, v: byte,
                    ghost j: nat, ghost i: nat, ghost im: Image, ghost hits: seq<nat>) returns (ghost hits': seq<nat>)
      requires Ready() && dst !in Repr() && im.Fits(dst.Length) && j + 1 < im.h && i + 1 < im.w && |hits| == dst.Length
      requires d1 == 3 * Pos(j, i, im.w) && d2 == 3 * Pos(j + 1, i, im.w)
      requires im.At(j, i) == Yuv(y11, u, v) && im.At(j + 1, i) == Yuv(y21, u, v)
      requires im.At(j, i + 1) == Yuv(y12, u, v) && im.At(j + 1, i + 1) == Yuv(y22, u, v)
      requires im.Untouched(hits, j, i) && im.Untouched(hits, j + 1, i)
      requires im.Untouched(hits, j, i + 1) && im.Untouched(hits, j + 1, i + 1)
      modifies dst
      ensures |hits'| == dst.Length && im.Kept(old(dst[..]), hits, dst[..], hits', Corners(j, i))
      ensures forall p :: p in Corners(j, i) ==> im.Done(dst[..], hits', p.0, p.1)
    {
      hide Convert, Image.At, Image.Fits, Image.Kept, Image.Done, Image.Untouched, Pos;
      NextRow(j, i, im.w);
      NextRow(j + 1, i, im.w);
      var c1, c2, c3, c4 := crv_tab[v], cgu_tab[u], cgv_tab[v], cbu_tab[u];
      ghost var s0 := dst[..];
      ghost var h1 := PutPixel(dst, d1, Terms(tab_76309[y11], c1, c2, c3, c4), j, i, im, hits);
      ghost var s1 := dst[..];
      im.KeptPixel(s0, hits, s1, h1, {(j, i)}, j + 1, i);
      ghost var h2 := PutPixel(dst, d2, Terms(tab_76309[y21], c1, c2, c3, c4), j + 1, i, im, h1);
      ghost var s2 := dst[..];
      im.KeptPixel(s1, h1, s2, h2, {(j + 1, i)}, j, i);
      im.KeptTwice(s0, hits, s1, h1, s2, h2, {(j, i)}, {(j + 1, i)});
      hits' := PutRight(dst, d1 + 3, d2 + 3, y12, y22, c1, c2, c3, c4, Yuv(y12, u, v), Yuv(y22, u, v),
                        j, i, im, s0, hits, h2);
    }

    /** The right half of a block. */
    method PutRight(dst: array<byte>, d1: nat, d2: nat, y12: byte, y22: byte, c1: int, c2: int, c3: int, c4: int,
                    ghost p12: Yuv, ghost p22: Yuv, ghost j: nat, ghost i: nat, ghost im: Image,
                    ghost s0: seq<byte>, ghost h0: seq<nat>, ghost hits: seq<nat>)
      returns (ghost hits': seq<nat>)
      requires Ready() && dst !in Repr() && im.Fits(dst.Length) && j + 1 < im.h && i + 1 < im.w && |hits| == dst.Length
      requires d1 == 3 * Pos(j, i + 1, im.w) && d2 == 3 * Pos(j + 1, i + 1, im.w)
      requires im.At(j, i + 1) == p12 && im.At(j + 1, i + 1) == p22
      requires TermsOf(Terms(tab_76309[y12], c1, c2, c3, c4), p12)
        && TermsOf(Terms(tab_76309[y22], c1, c2, c3, c4), p22)
      requires im.Untouched(h0, j, i + 1) && im.Untouched(h0, j + 1, i + 1)
      requires im.Done(dst[..], hits, j, i) && im.Done(dst[..], hits, j + 1, i)
      requires im.Kept(s0, h0, dst[..], hits, {(j, i)} + {(j + 1, i)})
      modifies dst
      ensures |hits'| == dst.Length && im.Kept(s0, h0, dst[..], hits', Corners(j, i))
      ensures forall p :: p in Corners(j, i) ==> im.Done(dst[..], hits', p.0, p.1)
    {
      hide Convert, Image.At, Image.Fits, Image.Kept, Image.Done, Image.Untouched, Pos;
      ghost var s2 := dst[..];
      im.KeptPixel(s0, h0, s2, hits, {(j, i)} + {(j + 1, i)}, j, i + 1);
      im.KeptPixel(s0, h0, s2, hits, {(j, i)} + {(j + 1, i)}, j + 1, i + 1);
      ghost var h3 := PutPixel(dst, d1, Terms(tab_76309[y12], c1, c2, c3, c4), j, i + 1, im, hits);
      ghost var s3 := dst[..];
      im.KeptPixel(s2, hits, s3, h3, {(j, i + 1)}, j, i);
      im.KeptPixel(s2, hits, s3, h3, {(j, i + 1)}, j + 1, i);
      im.KeptPixel(s2, hits, s3, h3, {(j, i + 1)}, j + 1, i + 1);
      im.KeptTwice(s0, h0, s2, hits, s3, h3, {(j, i)} + {(j + 1, i)}, {(j, i + 1)});
      hits' := PutPixel(dst, d2, Terms(tab_76309[y22], c1, c2, c3, c4), j + 1, i + 1, im, h3);
      im.KeptPixel(s3, h3, dst[..], hits', {(j + 1, i + 1)}, j, i);
      im.KeptPixel(s3, h3, dst[..], hits', {(j + 1, i + 1)}, j + 1, i);
      im.KeptPixel(s3, h3, dst[..], hits', {(j + 1, i + 1)}, j, i + 1);
      im.KeptTwice(s0, h0, s3, h3, dst[..], hits', {(j, i)} + {(j + 1, i)} + {(j, i + 1)}, {(j + 1, i + 1)});
      assert {(j, i)} + {(j + 1, i)} + {(j, i + 1)} + {(j + 1, i + 1)} == Corners(j, i);
    }

    /** Two rows: one pass of the outer loop. */
    method PutRows(dst: array<byte>, src0: array<byte>, src1: array<byte>, src2: array<byte>, width: nat,
                   py1_0: nat, py2_0: nat, d1_0: nat, d2_0: nat, s_0: nat, ghost j: nat, ghost im: Image,
                   ghost hits0: seq<nat>)
      returns (s: nat, ghost hits: seq<nat>)
      requires Ready() && dst !in Repr() && dst !in {src0, src1, src2} && im.Fits(dst.Length) && |hits0| == dst.Length
      requires im.w == width && im.ys == src0[..] && im.us == src1[..] && im.vs == src2[..]
      requires j % 2 == 0 && j + 1 < im.h && im.Progress(dst[..], hits0, j, 0)
      requires py1_0 == Pos(j, 0, width) && py2_0 == Pos(j + 1, 0, width) && s_0 == Pos(j / 2, 0, width / 2)
      requires d1_0 == 3 * py1_0 && d2_0 == 3 * py2_0
      modifies dst
      ensures |hits| == dst.Length && im.Progress(dst[..], hits, j + 2, 0)
      ensures s == Pos(j / 2 + 1, 0, width / 2)
    {
      hide Convert, Image.Progress, Image.Untouched, Image.Done, Image.Kept, Pos;
      var py1, py2, d1, d2 := py1_0, py2_0, d1_0, d2_0;
      s, hits := s_0, hits0;
      var i := 0;
      while i < width
        invariant 0 <= i <= width && i % 2 == 0 && |hits| == dst.Length && im.Progress(dst[..], hits, j, i)
        invariant py1 == Pos(j, i, width) && py2 == Pos(j + 1, i, width) && s == Pos(j / 2, i / 2, width / 2)
        invariant d1 == 3 * py1 && d2 == 3 * py2
      {
        im.BlockPlaces(j, i, dst.Length);
        im.Corner(dst[..], hits, j, i);
        ghost var was := dst[..];
        ghost var hits' := PutBlock(dst, d1, d2, src0[py1], src0[py2], src0[py1 + 1], src0[py2 + 1], src1[s], src2[s],
          j, i, im, hits);
        im.BlockDone(was, hits, dst[..], hits', j, i);
        hits := hits';
        s, py1, py2, d1, d2, i := s + 1, py1 + 2, py2 + 2, d1 + 6, d2 + 6, i + 2;
      }
      im.RowsDone(dst[..], hits, j);
      NextRow(j / 2, width / 2, width / 2);
    }

    /** ConvertYUV2RGB, for even width and height: every byte is written once, and every pixel is the converted one. */
    method ConvertYUV2RGB(src0: array<byte>, src1: array<byte>, src2: array<byte>, dst_ori: array<byte>, width: nat,
                          height: nat,
                          ghost im: Image) returns (ghost hits: seq<nat>)
      requires Ready() && dst_ori !in Repr() && dst_ori !in {src0, src1, src2}
      requires im == Image(width, height, src0[..], src1[..], src2[..]) && im.Fits(dst_ori.Length)
      modifies dst_ori
      ensures |hits| == dst_ori.Length && forall p :: 0 <= p < |hits| ==> hits[p] == 1
      ensures forall r: nat, c: nat :: r < height && c < width ==>
        3 * Pos(r, c, width) + 3 <= dst_ori.Length && RgbAt(dst_ori[..], 3 * Pos(r, c, width)) == Convert(im.At(r, c))
    {
      hide Convert, Image.Progress, Image.Untouched, Image.Done, Pos;
      hits := seq(dst_ori.Length, _ => 0);
      im.NothingDone(dst_ori[..], hits);
      var py1, py2, d1, d2, s := 0, width, 0, 3 * width, 0;
      RowZero(width);
      RowZero(width / 2);
      var j := 0;
      while j < height
        invariant 0 <= j <= height && j % 2 == 0 && |hits| == dst_ori.Length && im.Progress(dst_ori[..], hits, j, 0)
        invariant py1 == Pos(j, 0, width) && py2 == Pos(j + 1, 0, width) && s == Pos(j / 2, 0, width / 2)
        invariant d1 == 3 * py1 && d2 == 3 * py2
      {
        NextRow(j, 0, width);
        NextRow(j + 1, 0, width);
        NextRow(j + 2, 0, width);
        s, hits := PutRows(dst_ori, src0, src1, src2, width, py1, py2, d1, d2, s, j, im, hits);
        py1, py2 := py1 + 2 * width, py2 + 2 * width;
        d1, d2 := d1 + 6 * width, d2 + 6 * width;
        j := j + 2;
      }
      im.AllDone(dst_ori[..], hits, j);
    }
  }

  datatype Yuv = Yuv(y: byte, u: byte, v: byte)

  /** The table entries for one pixel. */
  datatype Terms = Terms(y1: int, c1: int, c2: int, c3: int, c4: int)

  predicate TermsOf(t: Terms, p: Yuv) {
    && t.y1 == 76309 * (p.y as int - 16) && t.c1 == 104597 * (p.v as int - 128)
    && t.c2 == 25675 * (p.u as int - 128) && t.c3 == 53279 * (p.v as int - 128) && t.c4 == 132201 * (p.u as int - 128)
  }

  /** A picture in planes: w by h samples of y, a quarter as many of u and v. */
  datatype Image = Image(w: nat, h: nat, ys: seq<byte>, us: seq<byte>, vs: seq<byte>) {
    predicate Fits(n: nat) {
      && w % 2 == 0 && h % 2 == 0
      && |ys| == Pos(h, 0, w) && |us| == |vs| == Pos(h / 2, 0, w / 2) && n == 3 * Pos(h, 0, w)
    }

    /** What the planes hold for the pixel in row r and column c. */
    ghost function At(r: nat, c: nat): Yuv {
      var p, q := Pos(r, c, w), Pos(r / 2, c / 2, w / 2);
      if p < |ys| && q < |us| && q < |vs| then Yuv(ys[p], us[q], vs[q]) else Yuv(0, 0, 0)
    }

    /** The pixel in row r and column c of the output is the converted one, each byte written once. */
    ghost predicate Done(dst: seq<byte>, hits: seq<nat>, r: nat, c: nat) {
      var d := 3 * Pos(r, c, w);
      && d + 3 <= |dst| == |hits|
      && Rgb(dst[d], dst[d + 1], dst[d + 2]) == Convert(At(r, c))
      && hits[d] == hits[d + 1] == hits[d + 2] == 1
    }

    ghost predicate Untouched(hits: seq<nat>, r: nat, c: nat) {
      var d := 3 * Pos(r, c, w);
      d + 3 <= |hits| && hits[d] == hits[d + 1] == hits[d + 2] == 0
    }

    ghost predicate SamePixel(dst: seq<byte>, hits: seq<nat>, dst': seq<byte>, hits': seq<nat>, r: nat, c: nat) {
      var d := 3 * Pos(r, c, w);
      && d + 3 <= |dst| == |hits| == |dst'| == |hits'|
      && dst[d] == dst'[d] && dst[d + 1] == dst'[d + 1] && dst[d + 2] == dst'[d + 2]
      && hits[d] == hits'[d] && hits[d + 1] == hits'[d + 1] && hits[d + 2] == hits'[d + 2]
    }

    /** All pixels but these are as they were. */
    ghost predicate Kept(dst: seq<byte>, hits: seq<nat>, dst': seq<byte>, hits': seq<nat>, but: set<(nat, nat)>) {
      forall r: nat, c: nat :: r < h && c < w && (r, c) !in but ==> SamePixel(dst, hits, dst', hits', r, c)
    }

    lemma KeptPixel(dst: seq<byte>, hits: seq<nat>, dst': seq<byte>, hits': seq<nat>, but: set<(nat, nat)>, r: nat,
                    c: nat)
      requires Kept(dst, hits, dst', hits', but) && r < h && c < w && (r, c) !in but
      ensures Untouched(hits, r, c) ==> Untouched(hits', r, c)
      ensures Done(dst, hits, r, c) ==> Done(dst', hits', r, c)
    {
      hide Convert, At;
      assert SamePixel(dst, hits, dst', hits', r, c);
    }

    lemma KeptTwice(s0: seq<byte>, h0: seq<nat>, s1: seq<byte>, h1: seq<nat>, s2: seq<byte>, h2: seq<nat>,
                    a: set<(nat, nat)>, b: set<(nat, nat)>)
      requires Kept(s0, h0, s1, h1, a) && Kept(s1, h1, s2, h2, b)
      ensures Kept(s0, h0, s2, h2, a + b)
    {
      hide Pos;
    }

    /** Where the samples of a block are. */
    lemma BlockPlaces(j: nat, i: nat, n: nat)
      requires Fits(n) && j % 2 == 0 && i % 2 == 0 && j + 1 < h && i + 1 < w
      ensures var p1, p2, q := Pos(j, i, w), Pos(j + 1, i, w), Pos(j / 2, i / 2, w / 2);
        && p1 + 1 < |ys| && p2 + 1 < |ys| && q < |us| == |vs|
        && At(j, i) == Yuv(ys[p1], us[q], vs[q]) && At(j + 1, i) == Yuv(ys[p2], us[q], vs[q])
        && At(j, i + 1) == Yuv(ys[p1 + 1], us[q], vs[q]) && At(j + 1, i + 1) == Yuv(ys[p2 + 1], us[q], vs[q])
      ensures Pos(j, i + 2, w) == Pos(j, i, w) + 2 && Pos(j + 1, i + 2, w) == Pos(j + 1, i, w) + 2
      ensures Pos(j / 2, (i + 2) / 2, w / 2) == Pos(j / 2, i / 2, w / 2) + 1
    {
      PosBounds(j, i + 1, w, h);
      PosBounds(j + 1, i + 1, w, h);
      PosBounds(j / 2, i / 2, w / 2, h / 2);
      assert (j + 1) / 2 == j / 2 && (i + 1) / 2 == i / 2;
    }

    lemma Corner(dst: seq<byte>, hits: seq<nat>, j: nat, i: nat)
      requires Progress(dst, hits, j, i) && j + 1 < h && i + 1 < w
      ensures Untouched(hits, j, i) && Untouched(hits, j + 1, i) && Untouched(hits, j, i + 1)
        && Untouched(hits, j + 1, i + 1)
    {
      hide Done, Untouched;
    }

    lemma BlockDone(dst: seq<byte>, hits: seq<nat>, dst': seq<byte>, hits': seq<nat>, j: nat, i: nat)
      requires Progress(dst, hits, j, i) && j + 1 < h && i + 1 < w
      requires Kept(dst, hits, dst', hits', Corners(j, i))
      requires forall p :: p in Corners(j, i) ==> Done(dst', hits', p.0, p.1)
      ensures Progress(dst', hits', j, i + 2)
    {
      hide Done, Untouched, Kept;
      forall r: nat, c: nat | r < h && c < w
        ensures if Before(r, c, j, i + 2) then Done(dst', hits', r, c) else Untouched(hits', r, c)
      {
        if (r, c) !in Corners(j, i) {
          KeptPixel(dst, hits, dst', hits', Corners(j, i), r, c);
        }
      }
    }

    lemma RowsDone(dst: seq<byte>, hits: seq<nat>, j: nat)
      requires Progress(dst, hits, j, w)
      ensures Progress(dst, hits, j + 2, 0)
    {
      hide Done, Untouched;
    }

    lemma NothingDone(dst: seq<byte>, hits: seq<nat>)
      requires Fits(|dst|) && |hits| == |dst| && forall p :: 0 <= p < |hits| ==> hits[p] == 0
      ensures Progress(dst, hits, 0, 0)
    {
      forall r: nat, c: nat | r < h && c < w ensures Untouched(hits, r, c) {
        PosBounds(r, c, w, h);
      }
    }

    lemma AllDone(dst: seq<byte>, hits: seq<nat>, j: nat)
      requires Fits(|dst|) && |hits| == |dst| && j >= h && Progress(dst, hits, j, 0)
      ensures forall p :: 0 <= p < |hits| ==> hits[p] == 1
      ensures forall r: nat, c: nat :: r < h && c < w ==>
        3 * Pos(r, c, w) + 3 <= |dst| && RgbAt(dst, 3 * Pos(r, c, w)) == Convert(At(r, c))
    {
      hide Convert, At, Pos;
      forall r: nat, c: nat | r < h && c < w
        ensures 3 * Pos(r, c, w) + 3 <= |dst| && RgbAt(dst, 3 * Pos(r, c, w)) == Convert(At(r, c))
      {
        assert Done(dst, hits, r, c);
      }
      assert forall r: nat, c: nat :: r < h && c < w ==> Done(dst, hits, r, c);
      forall p: nat | p < |hits| ensures hits[p] == 1 {
        ByteDone(dst, hits, p);
      }
    }

    lemma ByteDone(dst: seq<byte>, hits: seq<nat>, p: nat)
      requires Fits(|dst|) && |hits| == |dst| && p < |hits|
      requires forall r: nat, c: nat :: r < h && c < w ==> Done(dst, hits, r, c)
      ensures hits[p] == 1
    {
      PositiveWidth(h, w);
      var r, c, k := BytesArePixels(p, w, h);
      assert Done(dst, hits, r, c);
    }

    /** Rows before j are done, and of the two rows from j on the columns before i. */
    ghost predicate Progress(dst: seq<byte>, hits: seq<nat>, j: nat, i: nat) {
      forall r: nat, c: nat :: r < h && c < w ==>
        if Before(r, c, j, i) then Done(dst, hits, r, c) else Untouched(hits, r, c)
    }
  }

  function RgbAt(dst: seq<byte>, d: nat): Rgb
    requires d + 3 <= |dst|
  {
    Rgb(dst[d], dst[d + 1], dst[d + 2])
  }

  /** A converted pixel, byte by byte: red, green and blue of its own y and of the u and v it shares with its block. */
  lemma PixelBytes(im: Image, dst: seq<byte>, r: nat, c: nat)
    requires im.Fits(|dst|) && r < im.h && c < im.w
    requires 3 * Pos(r, c, im.w) + 3 <= |dst| && RgbAt(dst, 3 * Pos(r, c, im.w)) == Convert(im.At(r, c))
    ensures var p, q := r * im.w + c, r / 2 * (im.w / 2) + c / 2;
      && p < |im.ys| && q < |im.us| && q < |im.vs| && 3 * p + 3 <= |dst|
      && var colour := Convert(Yuv(im.ys[p], im.us[q], im.vs[q]));
         dst[3 * p] == colour.r && dst[3 * p + 1] == colour.g && dst[3 * p + 2] == colour.b
  {
    hide Convert;
    PosBounds(r, c, im.w, im.h);
    PosBounds(r / 2, c / 2, im.w / 2, im.h / 2);
  }

  lemma RowZero(w: nat)
    ensures Pos(0, 0, w) == 0 && Pos(1, 0, w) == w
  {}

  predicate Before(r: nat, c: nat, j: nat, i: nat) {
    r < j || (r < j + 2 && c < i)
  }

  ghost function Corners(j: nat, i: nat): set<(nat, nat)> {
    {(j, i), (j + 1, i), (j, i + 1), (j + 1, i + 1)}
  }

  lemma NextRow(r: nat, c: nat, w: nat)
    ensures Pos(r, w, w) == Pos(r + 1, 0, w) && Pos(r, c, w) + w == Pos(r + 1, c, w)
      && Pos(r, c, w) + 1 == Pos(r, c + 1, w)
  {}
}
