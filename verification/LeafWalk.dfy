/**
 * The header of a container as its parser meets it: a walk over tagged leaves, what it finds, and when it ends.
 */
module LeafWalk {
  import opened Common
  import opened Gf256
  import opened Files

  // ----- Fields -----

  datatype Fields = Fields(file_size: int, block_size: int, keyhint: seq<Byte>, layout: int, hash: seq<Byte>,
    remux: seq<Byte>)

  /** How many bytes a leaf of this tag is read for; other leaves are skipped. */
  function FieldLength(cc: seq<Byte>): nat {
    if cc == Tag("filesize") then 8
    else if cc == Tag("blocksize") then 8
    else if cc == Tag("keyhint") then 32
    else if cc == Tag("layout") then 8
    else if cc == Tag("srchash") then 20
    else if cc == Tag("remux") then 128
    else 0
  }

  function SetField(f: Fields, cc: seq<Byte>, d: seq<Byte>): Fields
    requires |d| == FieldLength(cc)
  {
    if cc == Tag("filesize") then f.(file_size := Int64Of(d))
    else if cc == Tag("blocksize") then f.(block_size := Int32Of(d))
    else if cc == Tag("keyhint") then f.(keyhint := d)
    else if cc == Tag("layout") then f.(layout := Int64Of(d))
    else if cc == Tag("srchash") then f.(hash := d)
    else if cc == Tag("remux") then f.(remux := d)
    else f
  }

  lemma KnownTags()
    ensures FieldLength(Tag("filesize")) == 8
    ensures FieldLength(Tag("blocksize")) == 8
    ensures FieldLength(Tag("layout")) == 8
    ensures FieldLength(Tag("srchash")) == 20
    ensures FieldLength(Tag("keyhint")) == 32
    ensures FieldLength(Tag("remux")) == 128
    ensures Distinct()
  {
    hide Tag;
    TagsDiffer("filesize", "blocksize");
    TagsDiffer("filesize", "keyhint");
    TagsDiffer("filesize", "layout");
    TagsDiffer("filesize", "srchash");
    TagsDiffer("filesize", "remux");
    TagsDiffer("blocksize", "keyhint");
    TagsDiffer("blocksize", "layout");
    TagsDiffer("blocksize", "srchash");
    TagsDiffer("blocksize", "remux");
    TagsDiffer("keyhint", "layout");
    TagsDiffer("keyhint", "srchash");
    TagsDiffer("keyhint", "remux");
    TagsDiffer("layout", "srchash");
    TagsDiffer("layout", "remux");
    TagsDiffer("srchash", "remux");
  }

  /** The tags the parser tests for, in the order it tests for them, are all different. */
  ghost predicate Distinct() {
    && Tag("filesize") !in {Tag("blocksize"), Tag("keyhint"), Tag("layout"), Tag("srchash"), Tag("remux")}
    && Tag("blocksize") !in {Tag("keyhint"), Tag("layout"), Tag("srchash"), Tag("remux")}
    && Tag("keyhint") !in {Tag("layout"), Tag("srchash"), Tag("remux")}
    && Tag("layout") !in {Tag("srchash"), Tag("remux")}
    && Tag("srchash") != Tag("remux")
  }

  // ----- The walk -----

  /** The LONG that a 64-bit number is cut to. */
  function Long(x: int): int {
    (x + TWO31) % TWO32 - TWO31
  }

  /** It is the number that agrees with x modulo 2^32 and fits in 32 bits with a sign. */
  lemma LongIs(x: int)
    ensures -0x8000_0000 <= Long(x) < 0x8000_0000 && (x - Long(x)) % 0x1_0000_0000 == 0
  {}

  /** Where the position is after a leaf at p, of which n bytes were read: a jump before the start is refused. */
  function NextLeaf(p: nat, size: int, n: nat): nat {
    var next := p + 16 + n + Long(size - n);
    if next >= 0 then next else p + 16 + n
  }

  /** From the leaf at p on, with left bytes of the root still to go, the walk takes at most this many further turns. */
  ghost predicate EndsWithin(data: seq<Byte>, p: nat, left: int, turns: nat)
    decreases turns
  {
    p + 16 <= |data| ==>
      var size, n := Int64Of(data[p + 8..p + 16]), FieldLength(data[p..p + 8]);
      p + 16 + n <= |data| && left - 16 - size > 0 ==>
        turns > 0 && EndsWithin(data, NextLeaf(p, size, n), left - 16 - size, turns - 1)
  }

  datatype Parsed = Stopped | Done(f: Fields, next: nat)

  /** The leaves from p on: the fields they set, or a short read. */
  ghost function Parse(data: seq<Byte>, p: nat, left: int, f: Fields, turns: nat): Parsed
    requires EndsWithin(data, p, left, turns)
    decreases turns
  {
    if p + 16 > |data| then Stopped else
    hide Tag, Int64Of;
    var cc := data[p..p + 8];
    var size := Int64Of(data[p + 8..p + 16]);
    var n := FieldLength(cc);
    if p + 16 + n > |data| then Stopped else
    var f' := SetField(f, cc, data[p + 16..p + 16 + n]);
    var next := NextLeaf(p, size, n);
    if left - 16 - size > 0 then Parse(data, next, left - 16 - size, f', turns - 1) else Done(f', next)
  }

  lemma ParseOne(data: seq<Byte>, p: nat, left: int, f: Fields, turns: nat)
    ensures p + 16 > |data| || p + 16 + FieldLength(data[p..p + 8]) > |data| ==>
      EndsWithin(data, p, left, turns) && Parse(data, p, left, f, turns) == Stopped
    ensures p + 16 <= |data| && p + 16 + FieldLength(data[p..p + 8]) <= |data| ==>
      var cc, size := data[p..p + 8], Int64Of(data[p + 8..p + 16]);
      var n := FieldLength(cc);
      var f', next, left' := SetField(f, cc, data[p + 16..p + 16 + n]), NextLeaf(p, size, n), left - 16 - size;
      if left' <= 0 then EndsWithin(data, p, left, turns) && Parse(data, p, left, f, turns) == Done(f', next)
      else if turns == 0 then !EndsWithin(data, p, left, turns)
      else && (EndsWithin(data, p, left, turns) <==> EndsWithin(data, next, left', turns - 1))
           && (EndsWithin(data, p, left, turns) ==>
                 Parse(data, p, left, f, turns) == Parse(data, next, left', f', turns - 1))
  {
    hide Int64Of, FieldLength, SetField, NextLeaf;
  }

  /** What the walk finds does not depend on the bound on its turns. */
  lemma {:induction false} BoundIrrelevant(data: seq<Byte>, p: nat, left: int, f: Fields, turns: nat, more: nat)
    requires EndsWithin(data, p, left, turns) && turns <= more
    ensures EndsWithin(data, p, left, more) && Parse(data, p, left, f, turns) == Parse(data, p, left, f, more)
    decreases turns
  {
    hide Int64Of, FieldLength, SetField, NextLeaf;
    if p + 16 <= |data| {
      var size, n := Int64Of(data[p + 8..p + 16]), FieldLength(data[p..p + 8]);
      if p + 16 + n <= |data| && left - 16 - size > 0 {
        var f' := SetField(f, data[p..p + 8], data[p + 16..p + 16 + n]);
        BoundIrrelevant(data, NextLeaf(p, size, n), left - 16 - size, f', turns - 1, more - 1);
      }
    }
  }

  ghost predicate HasRoot(data: seq<Byte>, p: nat) {
    p + 16 <= |data| && data[p..p + 8] == Tag("my12doom")
  }

  function RootSize(data: seq<Byte>, p: nat): int
    requires p + 16 <= |data|
  {
    Int64Of(data[p + 8..p + 16])
  }

  /** Opening a file at position p is over after at most this many further turns of the walk. */
  ghost predicate Over(data: seq<Byte>, p: nat, turns: nat) {
    HasRoot(data, p) ==> EndsWithin(data, p + 16, RootSize(data, p), turns)
  }

  /** What it finds. */
  ghost function ParseFile(data: seq<Byte>, p: nat, f: Fields, turns: nat): Parsed
    requires Over(data, p, turns)
  {
    if !HasRoot(data, p) then Stopped else
    match Parse(data, p + 16, RootSize(data, p), f, turns)
    case Stopped => Stopped
    case Done(f', next) => if f'.file_size == 0 || f'.block_size == 0 then Stopped else Done(f', next)
  }

  /** A container is known by these eight bytes. */
  lemma KnownByItsBytes(data: seq<Byte>, p: nat)
    ensures HasRoot(data, p)
       <==> p + 16 <= |data| && data[p..p + 8] == Bytes8(0x6d, 0x79, 0x31, 0x32, 0x64, 0x6f, 0x6f, 0x6d)
  {
    Tags();
    hide Tag;
  }

  /** What a leaf with these bytes in front sets, and how many bytes it is read for. */
  lemma FieldsByTheirBytes(f: Fields, d: seq<Byte>)
    ensures |d| == 8 ==>
      && FieldLength(Bytes8(0x66, 0x69, 0x6c, 0x65, 0x73, 0x69, 0x7a, 0x65)) == 8
      && SetField(f, Bytes8(0x66, 0x69, 0x6c, 0x65, 0x73, 0x69, 0x7a, 0x65), d) == f.(file_size := Int64Of(d))
      && FieldLength(Bytes8(0x62, 0x6c, 0x6f, 0x63, 0x6b, 0x73, 0x69, 0x7a)) == 8
      && SetField(f, Bytes8(0x62, 0x6c, 0x6f, 0x63, 0x6b, 0x73, 0x69, 0x7a), d) == f.(block_size := Int32Of(d))
      && FieldLength(Bytes8(0x6c, 0x61, 0x79, 0x6f, 0x75, 0x74, 0x00, 0x00)) == 8
      && SetField(f, Bytes8(0x6c, 0x61, 0x79, 0x6f, 0x75, 0x74, 0x00, 0x00), d) == f.(layout := Int64Of(d))
    ensures |d| == 20 ==>
      && FieldLength(Bytes8(0x73, 0x72, 0x63, 0x68, 0x61, 0x73, 0x68, 0x00)) == 20
      && SetField(f, Bytes8(0x73, 0x72, 0x63, 0x68, 0x61, 0x73, 0x68, 0x00), d) == f.(hash := d)
    ensures |d| == 32 ==>
      && FieldLength(Bytes8(0x6b, 0x65, 0x79, 0x68, 0x69, 0x6e, 0x74, 0x00)) == 32
      && SetField(f, Bytes8(0x6b, 0x65, 0x79, 0x68, 0x69, 0x6e, 0x74, 0x00), d) == f.(keyhint := d)
    ensures |d| == 128 ==>
      && FieldLength(Bytes8(0x72, 0x65, 0x6d, 0x75, 0x78, 0x00, 0x00, 0x00)) == 128
      && SetField(f, Bytes8(0x72, 0x65, 0x6d, 0x75, 0x78, 0x00, 0x00, 0x00), d) == f.(remux := d)
  {
    KnownTags();
    Tags();
    hide Tag, Bytes8, Int64Of, Int32Of;
  }

  /** A file is recognised exactly if it starts like a container and has a size and a block size that are not zero. */
  lemma RecognisedWhen(data: seq<Byte>, p: nat, f: Fields, turns: nat)
    requires Over(data, p, turns)
    ensures ParseFile(data, p, f, turns).Done?
       <==> && HasRoot(data, p) && Parse(data, p + 16, RootSize(data, p), f, turns).Done?
            && Parse(data, p + 16, RootSize(data, p), f, turns).f.file_size != 0
            && Parse(data, p + 16, RootSize(data, p), f, turns).f.block_size != 0
  {
    hide Parse, HasRoot;
  }

  // ----- When the walk ends -----

  /** Where the walk stands: at a leaf at p, with left bytes of the root still to go. */
  datatype Spot = Spot(p: nat, left: int)

  ghost function SizeAt(data: seq<Byte>, p: nat): int
    requires p + 16 <= |data|
  {
    Int64Of(data[p + 8..p + 16])
  }

  ghost function ReadAt(data: seq<Byte>, p: nat): nat
    requires p + 16 <= |data|
  {
    FieldLength(data[p..p + 8])
  }

  /** There is a leaf here, with its field, and it is not the last. */
  ghost predicate GoesOn(data: seq<Byte>, s: Spot) {
    s.p + 16 <= |data| && s.p + 16 + ReadAt(data, s.p) <= |data| && s.left - 16 - SizeAt(data, s.p) > 0
  }

  ghost function Turn(data: seq<Byte>, s: Spot): (next: Spot)
    requires GoesOn(data, s)
    ensures next.left > 0
  {
    Spot(NextLeaf(s.p, SizeAt(data, s.p), ReadAt(data, s.p)), s.left - 16 - SizeAt(data, s.p))
  }

  /** The walk goes on k times. */
  ghost predicate Goes(data: seq<Byte>, s: Spot, k: nat)
    decreases k
  {
    k > 0 ==> GoesOn(data, s) && Goes(data, Turn(data, s), k - 1)
  }

  ghost function After(data: seq<Byte>, s: Spot, k: nat): (next: Spot)
    requires Goes(data, s, k)
    ensures k > 0 ==> next.left > 0
    decreases k
  {
    if k == 0 then s else After(data, Turn(data, s), k - 1)
  }

  /** From here the walk comes back to the same leaf, c turns later, with no less left to go. */
  ghost predicate Circles(data: seq<Byte>, s: Spot, c: nat) {
    c > 0 && Goes(data, s, c) && After(data, s, c).p == s.p && After(data, s, c).left >= s.left
  }

  /** After k turns it stands where it circles. */
  ghost predicate CirclesAfter(data: seq<Byte>, s: Spot, k: nat) {
    Goes(data, s, k) && exists c: nat :: Circles(data, After(data, s, k), c)
  }

  /** Some leaf is met again with no less left to go. */
  ghost predicate Returns(data: seq<Byte>, p: nat, left: int) {
    exists k: nat :: CirclesAfter(data, Spot(p, left), k)
  }

  ghost predicate Ends(data: seq<Byte>, p: nat, left: int) {
    exists turns: nat :: EndsWithin(data, p, left, turns)
  }

  lemma {:induction false} EndsOrGoes(data: seq<Byte>, s: Spot, turns: nat)
    ensures EndsWithin(data, s.p, s.left, turns) <==> !Goes(data, s, turns + 1)
    decreases turns
  {
    hide Int64Of, FieldLength, NextLeaf;
    if GoesOn(data, s) && turns > 0 {
      EndsOrGoes(data, Turn(data, s), turns - 1);
    }
  }

  lemma NoTurn(data: seq<Byte>, s: Spot)
    ensures Goes(data, s, 0) && After(data, s, 0) == s
  {}

  /** So many turns, and then so many more. */
  lemma {:induction false} GoesFurther(data: seq<Byte>, s: Spot, j: nat, k: nat)
    requires Goes(data, s, j)
    ensures Goes(data, s, j + k) <==> Goes(data, After(data, s, j), k)
    ensures Goes(data, s, j + k) ==> After(data, s, j + k) == After(data, After(data, s, j), k)
    decreases j
  {
    hide GoesOn, Turn;
    if j > 0 {
      GoesFurther(data, Turn(data, s), j - 1, k);
    }
  }

  lemma OneTurnMore(data: seq<Byte>, s: Spot, k: nat)
    requires Goes(data, s, k)
    ensures Goes(data, s, k + 1) <==> GoesOn(data, After(data, s, k))
    ensures Goes(data, s, k + 1) ==> After(data, s, k + 1) == Turn(data, After(data, s, k))
  {
    hide GoesOn, Turn;
    GoesFurther(data, s, k, 1);
  }

  /** With more left to go, the walk meets the same leaves and goes at least as far. */
  lemma {:induction false} MoreLeft(data: seq<Byte>, s: Spot, extra: nat, k: nat)
    requires Goes(data, s, k)
    ensures Goes(data, s.(left := s.left + extra), k)
    ensures After(data, s.(left := s.left + extra), k)
         == After(data, s, k).(left := After(data, s, k).left + extra)
    decreases k
  {
    hide Int64Of, FieldLength, NextLeaf;
    if k > 0 {
      var next, more := Turn(data, s), s.(left := s.left + extra);
      assert Turn(data, more) == next.(left := next.left + extra);
      MoreLeft(data, next, extra, k - 1);
    }
  }

  lemma {:induction false} Fewer(data: seq<Byte>, s: Spot, k: nat, c: nat)
    requires Goes(data, s, c) && k <= c
    ensures Goes(data, s, k)
    decreases k
  {
    hide GoesOn, Turn;
    if k > 0 {
      Fewer(data, Turn(data, s), k - 1, c - 1);
    }
  }

  /** Once it circles, it goes on for ever. */
  lemma {:induction false} CirclesForEver(data: seq<Byte>, s: Spot, c: nat, k: nat)
    requires Circles(data, s, c)
    ensures Goes(data, s, k)
    decreases k
  {
    hide Goes, After;
    if k <= c {
      Fewer(data, s, k, c);
    } else {
      CirclesForEver(data, s, c, k - c);
      MoreLeft(data, s, After(data, s, c).left - s.left, k - c);
      GoesFurther(data, s, c, k - c);
    }
  }

  ghost predicate GoesForEver(data: seq<Byte>, s: Spot) {
    forall k: nat :: Goes(data, s, k)
  }

  lemma ReturnsForEver(data: seq<Byte>, s: Spot, k: nat)
    requires CirclesAfter(data, s, k)
    ensures GoesForEver(data, s)
  {
    var c: nat :| Circles(data, After(data, s, k), c);
    forall n: nat ensures Goes(data, s, n) {
      if n <= k {
        Fewer(data, s, n, k);
      } else {
        CirclesForEver(data, After(data, s, k), c, n - k);
        GoesFurther(data, s, k, n - k);
      }
    }
  }

  /** All the leaves from here on are at these positions. */
  ghost predicate StaysIn(data: seq<Byte>, s: Spot, places: set<nat>) {
    forall k: nat :: Goes(data, s, k) ==> After(data, s, k).p in places
  }

  lemma Later(data: seq<Byte>, s: Spot, places: set<nat>, j: nat)
    requires GoesForEver(data, s) && StaysIn(data, s, places)
    ensures Goes(data, s, j) && GoesForEver(data, After(data, s, j)) && StaysIn(data, After(data, s, j), places)
  {
    assert Goes(data, s, j);
    var later := After(data, s, j);
    forall k: nat ensures Goes(data, later, k) && After(data, later, k).p in places {
      assert Goes(data, s, j + k);
      GoesFurther(data, s, j, k);
    }
  }

  /** What circles from a later spot circles from here, some turns later. */
  lemma CirclesLater(data: seq<Byte>, s: Spot, j: nat, k: nat)
    requires Goes(data, s, j) && CirclesAfter(data, After(data, s, j), k)
    ensures CirclesAfter(data, s, j + k)
  {
    GoesFurther(data, s, j, k);
  }

  /**
   * A walk that never ends has to circle: either it comes back to its leaf, with less to go each time and so not
   * for ever, or it does without that leaf from then on.
   */
  lemma {:induction false} MustCircle(data: seq<Byte>, s: Spot, places: set<nat>) returns (k: nat)
    requires GoesForEver(data, s) && StaysIn(data, s, places) && s.left > 0
    ensures CirclesAfter(data, s, k)
    decreases |places|, s.left
  {
    hide Goes, After, GoesForEver, StaysIn, CirclesAfter;
    if c: nat :| c > 0 && Goes(data, s, c) && After(data, s, c).p == s.p {
      if After(data, s, c).left >= s.left {
        CirclesHere(data, s, c);
        k := 0;
      } else {
        Later(data, s, places, c);
        k := MustCircle(data, After(data, s, c), places);
        CirclesLater(data, s, c, k);
        k := c + k;
      }
    } else {
      Later(data, s, places, 1);
      Elsewhere(data, s, places);
      k := MustCircle(data, After(data, s, 1), places - {s.p});
      CirclesLater(data, s, 1, k);
      k := 1 + k;
    }
  }

  lemma CirclesHere(data: seq<Byte>, s: Spot, c: nat)
    requires Circles(data, s, c)
    ensures CirclesAfter(data, s, 0)
  {
    NoTurn(data, s);
  }

  /** A leaf that is not met again is one place less. */
  lemma Elsewhere(data: seq<Byte>, s: Spot, places: set<nat>)
    requires GoesForEver(data, s) && StaysIn(data, s, places) && Goes(data, s, 1)
    requires forall c: nat :: c > 0 && Goes(data, s, c) ==> After(data, s, c).p != s.p
    ensures s.p in places && |places - {s.p}| < |places| && StaysIn(data, After(data, s, 1), places - {s.p})
  {
    NoTurn(data, s);
    assert After(data, s, 0).p in places;
    assert places == (places - {s.p}) + {s.p};
    forall k: nat | Goes(data, After(data, s, 1), k) ensures After(data, After(data, s, 1), k).p in places - {s.p} {
      GoesFurther(data, s, 1, k);
      assert Goes(data, s, 1 + k);
    }
  }

  ghost function Below(n: nat): (places: set<nat>)
    ensures forall p: nat :: p in places <==> p < n
  {
    if n == 0 then {} else Below(n - 1) + {n - 1}
  }

  /** A walk that goes on for ever stays inside the file. */
  lemma StaysInside(data: seq<Byte>, s: Spot)
    requires GoesForEver(data, s)
    ensures StaysIn(data, s, Below(|data|))
  {
    forall k: nat | Goes(data, s, k) ensures After(data, s, k).p in Below(|data|) {
      assert Goes(data, s, k + 1);
      OneTurnMore(data, s, k);
    }
  }

  lemma EndsWithoutCircle(data: seq<Byte>, s: Spot, turns: nat, k: nat)
    requires EndsWithin(data, s.p, s.left, turns)
    ensures !CirclesAfter(data, s, k)
  {
    EndsOrGoes(data, s, turns);
    if CirclesAfter(data, s, k) {
      ReturnsForEver(data, s, k);
    }
  }

  lemma NeverEnds(data: seq<Byte>, s: Spot) returns (k: nat)
    requires forall turns: nat :: !EndsWithin(data, s.p, s.left, turns)
    ensures CirclesAfter(data, s, k)
  {
    hide EndsWithin;
    forall n: nat ensures Goes(data, s, n) {
      EndsOrGoes(data, s, n);
      Fewer(data, s, n, n + 1);
    }
    StaysInside(data, s);
    Later(data, s, Below(|data|), 1);
    k := MustCircle(data, After(data, s, 1), Below(|data|));
    CirclesLater(data, s, 1, k);
    k := 1 + k;
  }

  /** The walk over the leaves ends exactly when no leaf is met again with no less left to go. */
  lemma WalkEnds(data: seq<Byte>, p: nat, left: int)
    ensures Ends(data, p, left) <==> !Returns(data, p, left)
  {
    var s := Spot(p, left);
    if Ends(data, p, left) {
      var turns: nat :| EndsWithin(data, p, left, turns);
      forall k: nat ensures !CirclesAfter(data, s, k) {
        EndsWithoutCircle(data, s, turns, k);
      }
    } else {
      var k := NeverEnds(data, s);
    }
  }

  /** Opening a file comes to an end exactly if it has no header, or one in which no leaf is met again like that. */
  lemma OpeningEnds(data: seq<Byte>, p: nat)
    ensures (exists turns: nat :: Over(data, p, turns))
       <==> !(HasRoot(data, p) && Returns(data, p + 16, RootSize(data, p)))
  {
    if HasRoot(data, p) {
      var q, left := p + 16, RootSize(data, p);
      WalkEnds(data, q, left);
      hide EndsWithin, Returns, HasRoot;
      forall turns: nat ensures Over(data, p, turns) <==> EndsWithin(data, q, left, turns) {}
      if Ends(data, q, left) {
        var turns: nat :| EndsWithin(data, q, left, turns);
        assert Over(data, p, turns);
      }
    } else {
      assert Over(data, p, 0);
    }
  }

  /** Every leaf the walk meets has a size that is not negative and fits in a LONG. */
  ghost predicate Forward(data: seq<Byte>, p: nat, left: int)
    decreases if p <= |data| then |data| - p else 0
  {
    p + 16 <= |data| ==>
      var size := Int64Of(data[p + 8..p + 16]);
      0 <= size < TWO31 && (left - 16 - size > 0 ==> Forward(data, p + 16 + size, left - 16 - size))
  }

  /** With such leaves the walk ends, whatever else is in the file. */
  lemma {:induction false} ForwardEnds(data: seq<Byte>, p: nat, left: int, turns: nat)
    requires Forward(data, p, left) && p + 16 * turns >= |data|
    ensures EndsWithin(data, p, left, turns)
    decreases turns
  {
    hide Int64Of, FieldLength;
    if p + 16 <= |data| {
      var size, n := Int64Of(data[p + 8..p + 16]), FieldLength(data[p..p + 8]);
      if p + 16 + n <= |data| && left - 16 - size > 0 {
        FieldLengthSmall(data[p..p + 8]);
        assert NextLeaf(p, size, n) == p + 16 + size;
        ForwardEnds(data, p + 16 + size, left - 16 - size, turns - 1);
      }
    }
  }

  lemma FieldLengthSmall(cc: seq<Byte>)
    ensures FieldLength(cc) <= 128
  {
    hide Tag;
  }

  /** A leaf of size -16 that sets no field leads back to itself. */
  lemma StuckLeaf(data: seq<Byte>, p: nat, left: int)
    requires p + 16 <= |data| && left > 0
    requires FieldLength(data[p..p + 8]) == 0 && Int64Of(data[p + 8..p + 16]) == -16
    ensures Returns(data, p, left) && !Ends(data, p, left)
  {
    WalkEnds(data, p, left);
    hide Int64Of, FieldLength;
    var s := Spot(p, left);
    assert NextLeaf(p, -16, 0) == p;
    assert GoesOn(data, s) && Turn(data, s) == s;
    OneTurnMore(data, s, 0);
    CirclesHere(data, s, 1);
    assert CirclesAfter(data, s, 0);
  }

  /** A file of 32 bytes that is never open: its one leaf is unknown and has size -16. */
  function HangingFile(): (data: seq<Byte>)
    ensures |data| == 32
  {
    Tag("my12doom") + Le(1, 8) + Tag("x") + Le(TWO64 - 16, 8)
  }

  lemma HangingFileHangs(turns: nat)
    ensures !Over(HangingFile(), 0, turns)
  {
    HangingLeaf();
    hide HangingFile, Over, Returns, HasRoot, Tag, Le, Int64Of, FieldLength;
    StuckLeaf(HangingFile(), 16, 1);
    OpeningEnds(HangingFile(), 0);
  }

  lemma HangingLeaf()
    ensures HasRoot(HangingFile(), 0) && RootSize(HangingFile(), 0) == 1
    ensures FieldLength(HangingFile()[16..24]) == 0 && Int64Of(HangingFile()[24..32]) == -16
  {
    hide Tag, Le, OfLe;
    FourParts(Tag("my12doom"), Le(1, 8), Tag("x"), Le(TWO64 - 16, 8));
    Int64RoundTrip(1);
    Pow256At8();
    LeRoundTrip(TWO64 - 16, 8);
    TagsDiffer("x", "filesize");
    TagsDiffer("x", "blocksize");
    TagsDiffer("x", "keyhint");
    TagsDiffer("x", "layout");
    TagsDiffer("x", "srchash");
    TagsDiffer("x", "remux");
  }

  lemma FourParts(a: seq<Byte>, b: seq<Byte>, c: seq<Byte>, d: seq<Byte>)
    requires |a| == |b| == |c| == |d| == 8
    ensures var all := a + b + c + d;
      all[0..8] == a && all[8..16] == b && all[16..24] == c && all[24..32] == d
  {}
}
