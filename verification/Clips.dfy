/**
 * Reference-counted clips: PClip and AVSValue handles, and filters that hold their child.
 */
module Clips {
  import opened Common

  /** IClip and GenericVideoFilter: a count, and the child handle a filter is made with. */
  class Clip {
    var refcnt: int
    const child: Clip?
    const id: nat

    constructor (child: Clip?, id: nat)
      ensures this.child == child && this.id == id && refcnt == 0
    {
      this.child, this.id := child, id;
      refcnt := 0;
    }
  }

  /** What a variable of the program holds: a PClip, or an AVSValue of type 'c', 'v' or any other. */
  datatype Value = Pointer(p: Clip?) | ClipValue(clip: Clip?) | Void | Other(n: int)

  function Held(v: Value): Clip? {
    match v
    case Pointer(p) => p
    case ClipValue(c) => c
    case Void => null
    case Other(n) => null
  }

  ghost function SlotsIn(slots: map<nat, Value>, c: Clip, busy: set<nat>): set<nat> {
    set i | i in slots && i !in busy && Held(slots[i]) == c
  }

  ghost function ParentsIn(live: set<Clip>, c: Clip): set<Clip> {
    set d | d in live && d.child == c
  }

  /** One more live clip is one more handle to its child. */
  lemma ParentsGrow(live: set<Clip>, c: Clip, x: Clip)
    requires c !in live
    ensures |ParentsIn(live + {c}, x)| == |ParentsIn(live, x)| + if c.child == x then 1 else 0
  {
    if c.child == x {
      assert ParentsIn(live + {c}, x) == ParentsIn(live, x) + {c};
    } else {
      assert ParentsIn(live + {c}, x) == ParentsIn(live, x);
    }
  }

  lemma ParentsShrink(live: set<Clip>, c: Clip, x: Clip)
    requires c in live
    ensures |ParentsIn(live - {c}, x)| == |ParentsIn(live, x)| - if c.child == x then 1 else 0
  {
    assert live - {c} + {c} == live;
    ParentsGrow(live - {c}, c, x);
  }

  /** A variable that takes part again is one more handle to what it holds. */
  lemma SlotsGrow(slots: map<nat, Value>, i: nat, v: Value, x: Clip)
    ensures |SlotsIn(slots[i := v], x, {})| == |SlotsIn(slots, x, {i})| + if Held(v) == x then 1 else 0
  {
    if Held(v) == x {
      assert SlotsIn(slots[i := v], x, {}) == SlotsIn(slots, x, {i}) + {i};
    } else {
      assert SlotsIn(slots[i := v], x, {}) == SlotsIn(slots, x, {i});
    }
  }

  /** The variables of a program and the clips that exist. */
  class Program {
    var slots: map<nat, Value>
    var live: set<Clip>
    var born: seq<Clip>      // every clip ever made, in order
    ghost var deleted: seq<Clip>
    ghost var unused: set<Clip>  // made, and never yet in a handle

    constructor ()
      ensures Valid(multiset{}, {}) && slots == map[] && live == {} && born == [] && deleted == []
    {
      slots, live, born, deleted, unused := map[], {}, [], [], {};
    }

    ghost function SlotsOf(c: Clip, busy: set<nat>): set<nat>
      reads `slots
    {
      SlotsIn(slots, c, busy)
    }

    ghost function ParentsOf(c: Clip): set<Clip>
      reads `live
    {
      ParentsIn(live, c)
    }

    /** The live handles to a clip: variables, and children of live filters. */
    ghost function Handles(c: Clip, busy: set<nat>): nat
      reads `slots, `live
    {
      |SlotsOf(c, busy)| + |ParentsOf(c)|
    }

    /** Every count is the number of handles, and the references counted in extra. */
    ghost predicate Counted(extra: multiset<Clip>, busy: set<nat>)
      reads `slots, `live, live`refcnt
    {
      && (forall c :: c in live ==> c.refcnt == Handles(c, busy) + extra[c])
      && (forall c :: c in extra ==> c in live)
    }

    /** No handle is to a deleted clip, and a filter is younger than its child. */
    ghost predicate NoDangling(busy: set<nat>)
      reads `slots, `live
    {
      && (forall i :: i in slots && i !in busy ==> Held(slots[i]) == null || Held(slots[i]) in live)
      && (forall c :: c in live ==> c.child == null || (c.child in live && c.child.id < c.id))
    }

    /**
     * The state in the middle of an operation: extra counts the references taken or not yet given back,
     * and the busy variables do not count as handles.
     */
    ghost predicate Valid(extra: multiset<Clip>, busy: set<nat>)
      reads this, live
    {
      Counted(extra, busy) && NoDangling(busy) && Births() && Used({})
    }

    /** A live clip without references is one that never had any; but those in dying are about to be deleted. */
    ghost predicate Used(dying: set<Clip>)
      reads `live, `unused, live`refcnt
    {
      unused <= live && forall c :: c in live && c !in dying ==> (c.refcnt == 0 <==> c in unused)
    }

    /** Ids are given in order; every clip is live or deleted, once. */
    ghost predicate Births()
      reads `born, `live, `deleted
    {
      && (forall k :: 0 <= k < |born| ==> born[k].id == k)
      && (set c | c in born) == live + (set c | c in deleted)
      && (forall c :: c in deleted ==> c !in live)
      && (forall j, k :: 0 <= j < k < |deleted| ==> deleted[j] != deleted[k])
    }

    method AddRef(c: Clip, ghost extra: multiset<Clip>, ghost busy: set<nat>)
      requires Valid(extra, busy) && c in live
      modifies c`refcnt, `unused
      ensures Valid(extra + multiset{c}, busy) && unused == old(unused) - {c}
      ensures c.refcnt == old(c.refcnt) + 1
    {
      c.refcnt := c.refcnt + 1;
      unused := unused - {c};
    }

    method Decrement(c: Clip, ghost extra: multiset<Clip>, ghost busy: set<nat>)
      requires Valid(extra, busy) && extra[c] > 0
      modifies c`refcnt
      ensures Counted(extra - multiset{c}, busy) && NoDangling(busy) && Births()
      ensures c in live && c !in unused && c.refcnt == old(c.refcnt) - 1
      ensures if c.refcnt == 0 then Used({c}) && CountedBut(c, extra - multiset{c}, busy) else Used({})
    {
      c.refcnt := c.refcnt - 1;
    }

    /**
     * Give a reference back. When it was the last, the clip is deleted, and its handle to its child goes
     * with it, and so on down the chain.
     */
    method Release(c: Clip, ghost extra: multiset<Clip>, ghost busy: set<nat>)
      requires Valid(extra, busy) && extra[c] > 0
      modifies `live, `deleted, live`refcnt
      ensures Valid(extra - multiset{c}, busy)
      ensures live <= old(live) && old(deleted) <= deleted
      ensures c in live <==> old(c.refcnt) > 1
      decreases |live|
    {
      hide Counted, NoDangling, Births, CountedBut, Used;
      ghost var rest := extra - multiset{c};
      Referenced(c, extra, busy);
      Decrement(c, extra, busy);
      if c.refcnt == 0 {
        Delete(c, rest, busy);
        var child := c.child;
        if child != null {
          PlusMinus(rest, child);
          Release(child, rest + multiset{child}, busy);
        }
      }
    }

    lemma PlusMinus(rest: multiset<Clip>, c: Clip)
      ensures rest + multiset{c} - multiset{c} == rest && (rest + multiset{c})[c] > 0
    {}

    lemma Referenced(c: Clip, extra: multiset<Clip>, busy: set<nat>)
      requires Counted(extra, busy) && extra[c] > 0
      ensures c in live && c.refcnt >= 1
    {}

    /** The memory of a clip that nothing refers to goes; the reference to its child is still to be given back. */
    method Delete(c: Clip, ghost rest: multiset<Clip>, ghost busy: set<nat>)
      requires c in live && c !in unused && CountedBut(c, rest, busy) && NoDangling(busy) && Births() && Used({c})
      modifies `live, `deleted
      ensures live == old(live) - {c} && deleted == old(deleted) + [c]
      ensures Valid(if c.child == null then rest else rest + multiset{c.child}, busy)
    {
      hide Counted, CountedBut, NoDangling;
      Unlist(c, rest, busy);
      deleted := deleted + [c];
      assert (set d | d in deleted) == (set d | d in old(deleted)) + {c};
    }

    method Unlist(c: Clip, ghost rest: multiset<Clip>, ghost busy: set<nat>)
      requires c in live && CountedBut(c, rest, busy) && NoDangling(busy)
      modifies `live
      ensures live == old(live) - {c} && NoDangling(busy)
      ensures Counted(if c.child == null then rest else rest + multiset{c.child}, busy)
    {
      Unreferenced(c, busy);
      forall x | x in live ensures |ParentsIn(live - {c}, x)| == |ParentsIn(live, x)| - if c.child == x then 1 else 0 {
        ParentsShrink(live, c, x);
      }
      live := live - {c};
    }

    /** As Counted, where c itself has no references left. */
    ghost predicate CountedBut(c: Clip, extra: multiset<Clip>, busy: set<nat>)
      reads `slots, `live, live`refcnt
    {
      Counted(extra, busy) && Handles(c, busy) == 0 && c !in extra
    }

    lemma Unreferenced(c: Clip, busy: set<nat>)
      requires Handles(c, busy) == 0
      ensures forall i :: i in slots && i !in busy ==> Held(slots[i]) != c
      ensures forall d :: d in live ==> d.child != c
    {
      forall i | i in slots && i !in busy ensures Held(slots[i]) != c {
        assert i !in SlotsOf(c, busy);
      }
      forall d | d in live ensures d.child != c {
        assert d !in ParentsOf(c);
      }
    }

    // ----- Handles -----

    /** A reference becomes the handle in a variable. */
    method Store(i: nat, v: Value)
      requires Valid(if Held(v) == null then multiset{} else multiset{Held(v)}, {i})
      modifies `slots
      ensures Valid(multiset{}, {}) && slots == old(slots)[i := v]
    {
      HeldLive(v, {i});
      forall x | x in live
        ensures |SlotsIn(slots[i := v], x, {})| == |SlotsIn(slots, x, {i})| + if Held(v) == x then 1 else 0 {
        SlotsGrow(slots, i, v, x);
      }
      slots := slots[i := v];
    }

    lemma HeldLive(v: Value, busy: set<nat>)
      requires Valid(if Held(v) == null then multiset{} else multiset{Held(v)}, busy)
      ensures Held(v) == null || Held(v) in live
    {
      if Held(v) != null {
        assert Held(v) in multiset{Held(v)};
      }
    }

    /** The handle in a variable is about to be given up. */
    lemma GiveUp(i: nat, extra: multiset<Clip>)
      requires Valid(extra, {}) && i in slots
      ensures Held(slots[i]) != null ==> Held(slots[i]) in live
      ensures Valid(if Held(slots[i]) == null then extra else extra + multiset{Held(slots[i])}, {i})
    {
      var now := if Held(slots[i]) == null then extra else extra + multiset{Held(slots[i])};
      forall x | x in live ensures x.refcnt == Handles(x, {i}) + now[x] {
        assert SlotsOf(x, {i}) == SlotsOf(x, {}) - {i};
        assert i in SlotsOf(x, {}) <==> Held(slots[i]) == x;
      }
    }

    lemma NotThere(i: nat, extra: multiset<Clip>)
      requires Valid(extra, {}) && i !in slots
      ensures Valid(extra, {i})
    {
      forall x | x in live ensures Handles(x, {i}) == Handles(x, {}) {
        assert SlotsOf(x, {i}) == SlotsOf(x, {});
      }
    }

    /** A new handle: PClip::Init, and AVSValue::Assign with init set. */
    method Init(i: nat, v: Value)
      requires Valid(multiset{}, {}) && i !in slots && (Held(v) == null || Held(v) in live)
      modifies `slots, `unused, Held(v)
      ensures Valid(multiset{}, {}) && slots == old(slots)[i := v]
      ensures unused == if Held(v) == null then old(unused) else old(unused) - {Held(v)}
    {
      hide Valid;
      var c := Held(v);
      if c != null {
        AddRef(c, multiset{}, {});
        assert multiset{} + multiset{c} == multiset{c};
        NotThere(i, multiset{c});
      } else {
        NotThere(i, multiset{});
      }
      Store(i, v);
    }

    /** Assignment: the new reference is taken before the old one is given back, so that x = x is safe. */
    method Set(i: nat, v: Value)
      requires Valid(multiset{}, {}) && i in slots && (Held(v) == null || Held(v) in live)
      modifies `slots, `live, `deleted, `unused, live`refcnt
      ensures Valid(multiset{}, {}) && slots == old(slots)[i := v]
      ensures live <= old(live) && old(deleted) <= deleted
      ensures unused == if Held(v) == null then old(unused) else old(unused) - {Held(v)}
    {
      hide Valid;
      var c := Held(v);
      ghost var extra := if c == null then multiset{} else multiset{c};
      if c != null {
        AddRef(c, multiset{}, {});
        assert multiset{} + multiset{c} == multiset{c};
      }
      GiveUp(i, extra);
      var was := Held(slots[i]);
      if was != null {
        Release(was, extra + multiset{was}, {i});
        assert extra + multiset{was} - multiset{was} == extra;
      }
      Store(i, v);
    }

    /** ~PClip and ~AVSValue. */
    method Destroy(i: nat)
      requires Valid(multiset{}, {}) && i in slots
      modifies `slots, `live, `deleted, live`refcnt
      ensures Valid(multiset{}, {}) && slots == old(slots) - {i}
      ensures live <= old(live) && old(deleted) <= deleted
    {
      hide Valid;
      GiveUp(i, multiset{});
      var was := Held(slots[i]);
      if was != null {
        assert multiset{} + multiset{was} == multiset{was} && multiset{was} - multiset{was} == multiset{};
        Release(was, multiset{was}, {i});
      }
      Forget(i);
    }

    method Forget(i: nat)
      requires Valid(multiset{}, {i})
      modifies `slots
      ensures Valid(multiset{}, {}) && slots == old(slots) - {i}
    {
      slots := slots - {i};
      forall x | x in live ensures x.refcnt == Handles(x, {}) {
        assert SlotsOf(x, {}) == old(SlotsOf(x, {i}));
        assert ParentsOf(x) == old(ParentsOf(x));
      }
    }

    /** A source clip, or a filter whose constructor copies the handle it is given. */
    method MakeClip(child: Clip?) returns (c: Clip)
      requires Valid(multiset{}, {}) && (child != null ==> child in live)
      modifies `live, `born, `unused, child
      ensures Valid(multiset{}, {}) && fresh(c) && c.child == child
      ensures live == old(live) + {c} && born == old(born) + [c]
      ensures unused == old(unused) - (if child == null then {} else {child}) + {c}
    {
      hide Counted, NoDangling, Births, Used;
      if child != null {
        AddRef(child, multiset{}, {});
        assert multiset{} + multiset{child} == multiset{child};
      }
      ghost var extra := if child == null then multiset{} else multiset{child};
      ChildYounger(child, extra);
      c := new Clip(child, |born|);
      Enlist(c);
    }

    lemma ChildYounger(child: Clip?, extra: multiset<Clip>)
      requires Valid(extra, {}) && (child != null ==> child in live)
      ensures child != null ==> child.id < |born|
      ensures forall d :: d in live ==> d in born
    {
      forall d | d in live ensures d in born {
        assert d in (set x | x in born);
      }
      if child != null {
        var k :| 0 <= k < |born| && born[k] == child;
      }
    }

    /** The new clip's handle to its child takes over the reference. */
    method Enlist(c: Clip)
      requires Valid(if c.child == null then multiset{} else multiset{c.child}, {})
      requires c !in live && c !in born && c.refcnt == 0 && c.id == |born|
      requires c.child != null ==> c.child in live && c.child.id < c.id
      requires forall i :: i in slots ==> Held(slots[i]) != c
      requires forall d :: d in live ==> d.child != c
      modifies `live, `born, `unused
      ensures Valid(multiset{}, {})
      ensures live == old(live) + {c} && born == old(born) + [c] && unused == old(unused) + {c}
    {
      hide Counted, NoDangling;
      NotDeleted(c);
      AddLive(c);
      born, unused := born + [c], unused + {c};
      assert (set d | d in born) == (set d | d in old(born)) + {c};
    }

    method AddLive(c: Clip)
      requires Counted(if c.child == null then multiset{} else multiset{c.child}, {}) && NoDangling({})
      requires c !in live && c.refcnt == 0
      requires c.child != null ==> c.child in live && c.child.id < c.id
      requires forall i :: i in slots ==> Held(slots[i]) != c
      requires forall d :: d in live ==> d.child != c
      modifies `live
      ensures Counted(multiset{}, {}) && NoDangling({}) && live == old(live) + {c}
    {
      forall x: Clip | x in live
        ensures |ParentsIn(live + {c}, x)| == |ParentsIn(live, x)| + if c.child == x then 1 else 0 {
        ParentsGrow(live, c, x);
      }
      live := live + {c};
      NoHandles(c);
    }

    lemma NoHandles(c: Clip)
      requires forall i :: i in slots ==> Held(slots[i]) != c
      requires forall d :: d in live ==> d.child != c
      ensures Handles(c, {}) == 0
    {
      assert SlotsOf(c, {}) == {};
      assert ParentsOf(c) == {};
    }

    lemma NotDeleted(c: Clip)
      requires Births() && c !in born
      ensures c !in deleted
    {
      assert c in deleted ==> c in (set d | d in born);
    }

    // ----- Programs -----

    function Origin(from: Source): Clip?
      reads `slots, `born
    {
      match from
      case Null => null
      case Raw(k) => if k < |born| then born[k] else null
      case FromVariable(j) => if j in slots then Held(slots[j]) else null
    }

    predicate CanPoint(from: Source)
      reads `slots, `born, `live
    {
      Origin(from) == null || Origin(from) in live
    }

    /** A raw pointer is used only while its clip exists; variables are constructed once and used as what they are. */
    predicate Legal(op: Op)
      reads `slots, `born, `live
    {
      match op
      case NewPointer(i, from) => i !in slots && CanPoint(from)
      case SetPointer(i, from) => i in slots && slots[i].Pointer? && CanPoint(from)
      case NewClipValue(i, from) => i !in slots && CanPoint(from)
      case NewPlainValue(i, v) => i !in slots && (v.Void? || v.Other?)
      case CopyValue(i, j) => i !in slots && j in slots && !slots[j].Pointer?
      case AssignValue(i, j) => i in slots && j in slots && !slots[i].Pointer? && !slots[j].Pointer?
      case Drop(i) => i in slots
      case Make(from) => CanPoint(from)
    }

    /** The program's state without counts. */
    ghost function AsShape(): Shape
      reads `slots, `born, `unused
    {
      ShapeOf(slots, born, unused)
    }

    lemma ClipsHaveNumbers(c: Clip)
      requires Births() && c in live
      ensures c.id < |born| && born[c.id] == c
    {
      assert c in (set x | x in born);
      var k :| 0 <= k < |born| && born[k] == c;
    }

    /** A clip exists exactly if that follows from the state without counts. */
    lemma {:induction false} LiveExists(k: nat)
      requires Valid(multiset{}, {}) && k < |born|
      ensures born[k] in live <==> AsShape().Exists(k)
      decreases |born| - k
    {
      forall d: nat | k < d < |born| ensures born[d] in live <==> AsShape().Exists(d) {
        LiveExists(d);
      }
      if born[k] in live {
        LiveIsHeld(k);
      } else {
        DeletedIsNot(k);
      }
    }

    /** A live clip has never been in a handle, is in a variable, or is the child of a live one. */
    lemma LiveIsHeld(k: nat)
      requires Valid(multiset{}, {}) && k < |born| && born[k] in live
      requires forall d: nat :: k < d < |born| ==> (born[d] in live <==> AsShape().Exists(d))
      ensures AsShape().Exists(k)
    {
      var c, s := born[k], AsShape();
      if c !in unused {
        assert Handles(c, {}) > 0;
        if SlotsOf(c, {}) != {} {
          var i :| i in SlotsOf(c, {});
          assert s.InVariable(k, i);
        } else {
          var d :| d in ParentsOf(c);
          ClipsHaveNumbers(d);
          assert s.IsChild(k, d.id);
        }
      }
    }

    lemma DeletedIsNot(k: nat)
      requires Valid(multiset{}, {}) && k < |born| && born[k] !in live
      requires forall d: nat :: k < d < |born| ==> (born[d] in live <==> AsShape().Exists(d))
      ensures !AsShape().Exists(k)
    {
      var s := AsShape();
      forall i ensures !s.InVariable(k, i) {
        if s.InVariable(k, i) {
          ClipsHaveNumbers(Held(slots[i]));
        }
      }
      forall d: nat | k < d < |born| && s.IsChild(k, d) ensures !s.Exists(d) {
        if born[d] in live {
          ClipsHaveNumbers(born[d].child);
        }
      }
    }

    lemma OriginsAgree(from: Source)
      requires Valid(multiset{}, {})
      ensures AsShape().Origin(from) == IdOf(Origin(from))
      ensures CanPoint(from) <==> AsShape().CanPoint(from)
    {
      match from {
        case Null =>
        case Raw(k) =>
          if k < |born| {
            LiveExists(k);
          }
        case FromVariable(j) =>
          if j in slots && Held(slots[j]) != null {
            ClipsHaveNumbers(Held(slots[j]));
            LiveExists(Held(slots[j]).id);
          }
      }
    }

    lemma LegalAgrees(op: Op)
      requires Valid(multiset{}, {})
      ensures Legal(op) <==> AsShape().Legal(op)
    {
      hide Valid, Shape.Exists, CanPoint, Shape.CanPoint;
      match op {
        case NewPointer(i, from) => OriginsAgree(from);
        case SetPointer(i, from) => OriginsAgree(from);
        case NewClipValue(i, from) => OriginsAgree(from);
        case NewPlainValue(i, v) =>
        case CopyValue(i, j) =>
        case AssignValue(i, j) =>
        case Drop(i) =>
        case Make(from) => OriginsAgree(from);
      }
    }

    lemma Numbered(c: Clip?)
      requires Valid(multiset{}, {}) && (c == null || c in live)
      ensures HasNumber(born, c)
    {
      if c != null {
        ClipsHaveNumbers(c);
      }
    }

    method Do(op: Op)
      requires Valid(multiset{}, {}) && Legal(op)
      modifies this, live
      ensures Valid(multiset{}, {}) && AsShape() == old(AsShape().After(op))
      ensures match op
              case NewPointer(i, from) => slots == old(slots)[i := Pointer(old(Origin(from)))]
              case SetPointer(i, from) => slots == old(slots)[i := Pointer(old(Origin(from)))]
              case NewClipValue(i, from) => slots == old(slots)[i := ClipValue(old(Origin(from)))]
              case NewPlainValue(i, v) => slots == old(slots)[i := v]
              case CopyValue(i, j) => slots == old(slots)[i := old(slots[j])]
              case AssignValue(i, j) => slots == old(slots)[i := old(slots[j])]
              case Drop(i) => slots == old(slots) - {i}
              case Make(from) => slots == old(slots)
      ensures if op.Make? then |born| == |old(born)| + 1 && born[|old(born)|].child == old(Origin(op.from))
              else born == old(born)
      ensures forall c :: c in live ==> c in old(live) || fresh(c)
      ensures old(born) <= born && old(deleted) <= deleted
    {
      HandlesLive();
      match op {
        case NewPointer(i, from) =>
          OriginsAgree(from);
          Construct(i, Pointer(Origin(from)));
        case SetPointer(i, from) =>
          OriginsAgree(from);
          Assign(i, Pointer(Origin(from)));
        case NewClipValue(i, from) =>
          OriginsAgree(from);
          Construct(i, ClipValue(Origin(from)));
        case NewPlainValue(i, v) => Construct(i, v);
        case CopyValue(i, j) => Construct(i, slots[j]);
        case AssignValue(i, j) => Assign(i, slots[j]);
        case Drop(i) =>
          ShapeDropped(slots, born, unused, i);
          Destroy(i);
        case Make(from) =>
          OriginsAgree(from);
          Numbered(Origin(from));
          ghost var was, clips, idle := slots, born, unused;
          var c := MakeClip(Origin(from));
          ShapeGrown(was, clips, idle, c);
      }
    }

    method Construct(i: nat, v: Value)
      requires Valid(multiset{}, {}) && i !in slots && (Held(v) == null || Held(v) in live)
      modifies `slots, `unused, Held(v)
      ensures Valid(multiset{}, {}) && AsShape() == old(AsShape()).Put(i, ViewOf(v)) && slots == old(slots)[i := v]
    {
      Numbered(Held(v));
      ShapePut(slots, born, unused, i, v);
      hide Valid;
      Init(i, v);
    }

    method Assign(i: nat, v: Value)
      requires Valid(multiset{}, {}) && i in slots && (Held(v) == null || Held(v) in live)
      modifies `slots, `live, `deleted, `unused, live`refcnt
      ensures Valid(multiset{}, {}) && AsShape() == old(AsShape()).Put(i, ViewOf(v)) && slots == old(slots)[i := v]
      ensures live <= old(live) && old(deleted) <= deleted
    {
      Numbered(Held(v));
      ShapePut(slots, born, unused, i, v);
      hide Valid;
      Set(i, v);
    }

    lemma HandlesLive()
      requires Valid(multiset{}, {})
      ensures forall i :: i in slots ==> Held(slots[i]) == null || Held(slots[i]) in live
    {}

    /**
     * Every program does to the variables what it does without counts, and what exists then is what follows from
     * that: no handle to a deleted clip is left, no clip is deleted twice or too early, and none is kept too long.
     */
    method Run(ops: seq<Op>)
      requires Valid(multiset{}, {})
      modifies this, live
      ensures Valid(multiset{}, {}) && AsShape() == AfterAll(old(AsShape()), ops)
      ensures forall k :: 0 <= k < |born| ==> (born[k] in live <==> AsShape().Exists(k))
      ensures old(born) <= born && old(deleted) <= deleted
    {
      ghost var was := AsShape();
      NoOps(was, ops);
      hide Valid, Legal, AsShape, Shape.Legal, Shape.After, AfterAll;
      for n := 0 to |ops|
        invariant Valid(multiset{}, {}) && AsShape() == AfterAll(was, ops[..n])
        invariant forall c :: c in live ==> c in old(live) || fresh(c)
        invariant old(born) <= born && old(deleted) <= deleted
      {
        LegalAgrees(ops[n]);
        OneOp(was, ops, n);
        if Legal(ops[n]) {
          Do(ops[n]);
        }
      }
      forall k | 0 <= k < |born| ensures born[k] in live <==> AsShape().Exists(k) {
        LiveExists(k);
      }
    }

    /** Each count is that of the variables, of either kind, and the filters that hold the clip; all of these exist. */
    lemma CountsAreHandles(c: Clip)
      requires Valid(multiset{}, {}) && c in live
      ensures c.refcnt == |set i | i in slots && (slots[i] == Pointer(c) || slots[i] == ClipValue(c))|
                        + |set d | d in live && d.child == c|
      ensures forall i :: i in slots && slots[i].Pointer? && slots[i].p != null ==> slots[i].p in live
      ensures forall i :: i in slots && slots[i].ClipValue? && slots[i].clip != null ==> slots[i].clip in live
    {
      HandlesLive();
      forall i | i in slots && slots[i].Pointer? && slots[i].p != null ensures slots[i].p in live {
        assert Held(slots[i]) == slots[i].p;
      }
      forall i | i in slots && slots[i].ClipValue? && slots[i].clip != null ensures slots[i].clip in live {
        assert Held(slots[i]) == slots[i].clip;
      }
      assert SlotsOf(c, {}) == set i | i in slots && (slots[i] == Pointer(c) || slots[i] == ClipValue(c));
      assert ParentsOf(c) == set d | d in live && d.child == c;
    }

    /** Whatever is in a variable has been in a handle. */
    lemma KnowsItsClips()
      requires Valid(multiset{}, {})
      ensures AsShape().Known()
    {
      var s := AsShape();
      forall i, k | i in s.vars && Target(s.vars[i]) == Some(k) ensures k in s.held {
        var c := Held(slots[i]);
        ClipsHaveNumbers(c);
        assert i in SlotsOf(c, {});
        assert Handles(c, {}) > 0;
      }
    }

    lemma YoungestHasNoHandles(c: Clip)
      requires NoDangling({}) && slots == map[] && forall d :: d in live ==> d.id <= c.id
      ensures Handles(c, {}) == 0
    {
      NoHandles(c);
    }

    /** When no variable is left, and every clip has been in a handle at some time, every clip has been deleted. */
    lemma NothingLeaks()
      requires Valid(multiset{}, {}) && slots == map[] && unused == {}
      ensures live == {}
      ensures forall c :: c in born ==> c in deleted
    {
      if live != {} {
        var c := Youngest(live);
        YoungestHasNoHandles(c);
        assert false;
      }
      forall c | c in born ensures c in deleted {
        assert c in (set x | x in born);
        assert c in live + (set d | d in deleted);
      }
    }

    /** While a clip has a handle it exists, and the moment its last handle goes it does not. */
    lemma LivesWithItsHandles(c: Clip)
      requires Valid(multiset{}, {}) && c in born && c !in unused
      ensures c in live <==> Handles(c, {}) > 0
      ensures c in live <==> c !in deleted
    {
      assert c in (set x | x in born);
      if c !in live {
        forall i | i in slots ensures Held(slots[i]) != c {
        }
        assert SlotsOf(c, {}) == {};
        assert ParentsOf(c) == {};
      }
    }
  }

  // ----- Programs without counts -----

  /** What a variable holds, with clips by their numbers. */
  datatype View = PointerTo(p: Option<nat>) | ClipOf(clip: Option<nat>) | NoValue | Plain(n: int)

  function IdOf(c: Clip?): Option<nat> {
    if c == null then None else Some(c.id)
  }

  function ViewOf(v: Value): View {
    match v
    case Pointer(p) => PointerTo(IdOf(p))
    case ClipValue(c) => ClipOf(IdOf(c))
    case Void => NoValue
    case Other(n) => Plain(n)
  }

  function Target(v: View): Option<nat> {
    match v
    case PointerTo(p) => p
    case ClipOf(c) => c
    case NoValue => None
    case Plain(n) => None
  }

  function Just(id: Option<nat>): set<nat> {
    if id.Some? then {id.value} else {}
  }

  /** The variables, the child of each clip made, and the clips that have ever been in a handle. */
  datatype Shape = Shape(vars: map<nat, View>, children: seq<Option<nat>>, held: set<nat>) {
    predicate InVariable(k: nat, i: nat) {
      i in vars && Target(vars[i]) == Some(k)
    }

    /** What is in a variable has been in a handle. */
    ghost predicate Known() {
      forall i :: i in vars ==> Just(Target(vars[i])) <= held
    }

    predicate IsChild(k: nat, d: nat) {
      d < |children| && children[d] == Some(k)
    }

    /**
     * A clip exists until it has been in a handle, and then as long as it can be reached: from a variable, or as
     * the child of a clip that exists.
     */
    ghost predicate Exists(k: nat)
      decreases |children| - k
    {
      k < |children| &&
      (k !in held || (exists i :: InVariable(k, i))
       || exists d: nat :: k < d < |children| && IsChild(k, d) && Exists(d))
    }

    function Origin(from: Source): Option<nat> {
      match from
      case Null => None
      case Raw(k) => if k < |children| then Some(k) else None
      case FromVariable(j) => if j in vars then Target(vars[j]) else None
    }

    ghost predicate CanPoint(from: Source) {
      Origin(from) == None || Exists(Origin(from).value)
    }

    ghost predicate Legal(op: Op) {
      match op
      case NewPointer(i, from) => i !in vars && CanPoint(from)
      case SetPointer(i, from) => i in vars && vars[i].PointerTo? && CanPoint(from)
      case NewClipValue(i, from) => i !in vars && CanPoint(from)
      case NewPlainValue(i, v) => i !in vars && (v.Void? || v.Other?)
      case CopyValue(i, j) => i !in vars && j in vars && !vars[j].PointerTo?
      case AssignValue(i, j) => i in vars && j in vars && !vars[i].PointerTo? && !vars[j].PointerTo?
      case Drop(i) => i in vars
      case Make(from) => CanPoint(from)
    }

    function Put(i: nat, v: View): Shape {
      Shape(vars[i := v], children, held + Just(Target(v)))
    }

    function After(op: Op): Shape {
      match op
      case NewPointer(i, from) => Put(i, PointerTo(Origin(from)))
      case SetPointer(i, from) => Put(i, PointerTo(Origin(from)))
      case NewClipValue(i, from) => Put(i, ClipOf(Origin(from)))
      case NewPlainValue(i, v) => Put(i, ViewOf(v))
      case CopyValue(i, j) => if j in vars then Put(i, vars[j]) else this
      case AssignValue(i, j) => if j in vars then Put(i, vars[j]) else this
      case Drop(i) => this.(vars := vars - {i})
      case Make(from) => Shape(vars, children + [Origin(from)], held + Just(Origin(from)))
    }
  }

  /** A program: what is not legal is not done. */
  ghost function AfterAll(s: Shape, ops: seq<Op>): Shape {
    if ops == [] then s else
    var now, op := AfterAll(s, ops[..|ops| - 1]), ops[|ops| - 1];
    if now.Legal(op) then now.After(op) else now
  }

  // ----- Laws of programs -----

  /** What one operation changes, and that it changes nothing else. */
  lemma OneEffect(s: Shape, op: Op)
    requires s.Legal(op)
    ensures var now := s.After(op);
      var place: Option<nat> := match op
        case NewPointer(i, from) => Some(i)
        case SetPointer(i, from) => Some(i)
        case NewClipValue(i, from) => Some(i)
        case NewPlainValue(i, v) => Some(i)
        case CopyValue(i, j) => Some(i)
        case AssignValue(i, j) => Some(i)
        case Drop(i) => Some(i)
        case Make(from) => None;
      && (forall k :: Some(k) != place ==> (k in now.vars <==> k in s.vars))
      && (forall k :: k in s.vars && Some(k) != place ==> now.vars[k] == s.vars[k])
      && (place.Some? ==> (place.value in now.vars <==> !op.Drop?))
      && (op.CopyValue? || op.AssignValue? ==> now.vars[op.i] == s.vars[op.j])
      && (op.NewPointer? || op.SetPointer? ==> now.vars[op.i] == PointerTo(s.Origin(op.from)))
      && (op.NewPlainValue? ==> now.vars[op.i] == if op.v.Other? then Plain(op.v.n) else NoValue)
      && (op.NewClipValue? ==> now.vars[op.i] == ClipOf(s.Origin(op.from)))
      && (if op.Make? then now.children == s.children + [s.Origin(op.from)] else now.children == s.children)
      && s.held <= now.held
  {}

  /** A copy that is then dropped leaves every variable and every clip as it was. */
  lemma CopyThenDrop(s: Shape, i: nat, j: nat)
    requires s.Known() && i !in s.vars && j in s.vars && !s.vars[j].PointerTo?
    ensures AfterAll(s, [CopyValue(i, j), Drop(i)]) == s
  {
    var copy := s.After(CopyValue(i, j));
    TwoOps(s, CopyValue(i, j), Drop(i));
    assert copy.Legal(Drop(i));
    assert copy.vars - {i} == s.vars;
    assert copy.held == s.held;
  }

  /** So does assigning a variable to itself. */
  lemma SelfAssignment(s: Shape, i: nat)
    requires s.Known() && i in s.vars && !s.vars[i].PointerTo?
    ensures AfterAll(s, [AssignValue(i, i)]) == s
  {
    NoOps(s, [AssignValue(i, i)]);
    OneOp(s, [AssignValue(i, i)], 0);
    assert s.vars[i := s.vars[i]] == s.vars;
  }

  lemma Copied(s: Shape, op: Op, i: nat, j: nat)
    requires s.Known() && s.Legal(op) && (op == CopyValue(i, j) || op == AssignValue(i, j))
    ensures s.After(op) == s.(vars := s.vars[i := s.vars[j]]) && s.After(op).Known()
  {
    assert s.After(op).held == s.held;
  }

  /** Two variables are exchanged by way of a third, and no clip is made or deleted. */
  lemma Exchange(s: Shape, i: nat, j: nat, t: nat)
    requires s.Known() && t !in s.vars && i in s.vars && j in s.vars && i != j
    requires !s.vars[i].PointerTo? && !s.vars[j].PointerTo?
    ensures AfterAll(s, [CopyValue(t, i), AssignValue(i, j), AssignValue(j, t), Drop(t)])
         == s.(vars := s.vars[i := s.vars[j]][j := s.vars[i]])
  {
    var a := s.After(CopyValue(t, i));
    Copied(s, CopyValue(t, i), t, i);
    var b := a.After(AssignValue(i, j));
    Copied(a, AssignValue(i, j), i, j);
    var c := b.After(AssignValue(j, t));
    Copied(b, AssignValue(j, t), j, t);
    Dropped(c, t);
    hide AfterAll, Shape.After, Shape.Known;
    FourOps(s, CopyValue(t, i), AssignValue(i, j), AssignValue(j, t), Drop(t));
    hide Shape.Legal;
    assert c.vars - {t} == s.vars[i := s.vars[j]][j := s.vars[i]];
  }

  lemma FourOps(s: Shape, a: Op, b: Op, c: Op, d: Op)
    requires s.Legal(a) && s.After(a).Legal(b) && s.After(a).After(b).Legal(c)
    requires s.After(a).After(b).After(c).Legal(d)
    ensures AfterAll(s, [a, b, c, d]) == s.After(a).After(b).After(c).After(d)
  {
    var ops := [a, b, c, d];
    NoOps(s, ops);
    OneOp(s, ops, 0);
    OneOp(s, ops, 1);
    OneOp(s, ops, 2);
    OneOp(s, ops, 3);
    hide AfterAll, Shape.After, Shape.Legal;
  }

  lemma Dropped(s: Shape, t: nat)
    requires t in s.vars
    ensures s.Legal(Drop(t)) && s.After(Drop(t)) == s.(vars := s.vars - {t})
  {}

  /** A pointer to a clip in a variable keeps it: dropping the variable deletes nothing. */
  lemma PointerKeeps(s: Shape, i: nat, j: nat, k: nat)
    requires i !in s.vars && j in s.vars && k < |s.children|
    requires s.vars[j] == PointerTo(Some(k)) || s.vars[j] == ClipOf(Some(k))
    ensures AfterAll(s, [NewPointer(i, FromVariable(j)), Drop(j)]).Exists(k)
  {
    assert s.InVariable(k, j) && s.Exists(k);
    var both := s.After(NewPointer(i, FromVariable(j)));
    TwoOps(s, NewPointer(i, FromVariable(j)), Drop(j));
    assert both.Legal(Drop(j));
    assert both.After(Drop(j)).InVariable(k, i);
  }

  lemma TwoOps(s: Shape, a: Op, b: Op)
    requires s.Legal(a)
    ensures AfterAll(s, [a, b]) == if s.After(a).Legal(b) then s.After(a).After(b) else s.After(a)
  {
    NoOps(s, [a, b]);
    OneOp(s, [a, b], 0);
    OneOp(s, [a, b], 1);
    hide AfterAll, Shape.After, Shape.Legal;
  }

  lemma NoOps(s: Shape, ops: seq<Op>)
    ensures AfterAll(s, ops[..0]) == s && ops[..|ops|] == ops
  {}

  lemma OneOp(s: Shape, ops: seq<Op>, n: nat)
    requires n < |ops|
    ensures var now := AfterAll(s, ops[..n]);
      AfterAll(s, ops[..n + 1]) == if now.Legal(ops[n]) then now.After(ops[n]) else now
  {
    assert ops[..n + 1][..n] == ops[..n];
  }

  ghost function ShapeOf(slots: map<nat, Value>, born: seq<Clip>, unused: set<Clip>): Shape {
    Shape(
      map i | i in slots :: ViewOf(slots[i]),
      seq(|born|, k requires 0 <= k < |born| => IdOf(born[k].child)),
      set k: nat | k < |born| && born[k] !in unused)
  }

  ghost predicate HasNumber(born: seq<Clip>, c: Clip?) {
    && (c != null ==> c.id < |born| && born[c.id] == c)
    && forall k :: 0 <= k < |born| ==> born[k].id == k
  }

  /** A clip that gets into a handle is no longer unused. */
  lemma HeldNow(born: seq<Clip>, unused: set<Clip>, c: Clip)
    requires HasNumber(born, c)
    ensures (set k: nat | k < |born| && born[k] !in unused - {c})
      == (set k: nat | k < |born| && born[k] !in unused) + {c.id}
  {}

  lemma ShapePut(slots: map<nat, Value>, born: seq<Clip>, unused: set<Clip>, i: nat, v: Value)
    requires HasNumber(born, Held(v))
    ensures ShapeOf(slots[i := v], born, if Held(v) == null then unused else unused - {Held(v)})
         == ShapeOf(slots, born, unused).Put(i, ViewOf(v))
  {
    if Held(v) != null {
      HeldNow(born, unused, Held(v));
    }
    assert ShapeOf(slots[i := v], born, unused).vars == ShapeOf(slots, born, unused).vars[i := ViewOf(v)];
  }

  lemma ShapeDropped(slots: map<nat, Value>, born: seq<Clip>, unused: set<Clip>, i: nat)
    ensures ShapeOf(slots - {i}, born, unused).vars == ShapeOf(slots, born, unused).vars - {i}
  {}

  /** A new clip is unused, and its child is not. */
  lemma ShapeGrown(slots: map<nat, Value>, born: seq<Clip>, unused: set<Clip>, c: Clip)
    requires HasNumber(born, c.child) && c !in born
    ensures var now := ShapeOf(slots, born + [c], unused - (if c.child == null then {} else {c.child}) + {c});
      now == Shape(ShapeOf(slots, born, unused).vars, ShapeOf(slots, born, unused).children + [IdOf(c.child)],
                   ShapeOf(slots, born, unused).held + Just(IdOf(c.child)))
  {
    var was := ShapeOf(slots, born, unused);
    var now := ShapeOf(slots, born + [c], unused - (if c.child == null then {} else {c.child}) + {c});
    if c.child != null {
      HeldNow(born, unused, c.child);
    }
    assert now.children == was.children + [IdOf(c.child)];
    assert now.held == was.held + Just(IdOf(c.child));
  }

  lemma Youngest(s: set<Clip>) returns (c: Clip)
    requires s != {}
    ensures c in s && forall d :: d in s ==> d.id <= c.id
    decreases |s|
  {
    c :| c in s;
    if s != {c} {
      assert s - {c} != {};
      var d := Youngest(s - {c});
      if d.id > c.id {
        c := d;
      }
    }
  }

  /** Where a pointer comes from: nowhere, a raw pointer to the k-th clip made, or a handle. */
  datatype Source = Null | Raw(k: nat) | FromVariable(j: nat)

  datatype Op = NewPointer(i: nat, from: Source) | SetPointer(i: nat, from: Source) | NewClipValue(i: nat, from: Source)
              | NewPlainValue(i: nat, v: Value) | CopyValue(i: nat, j: nat) | AssignValue(i: nat, j: nat)
              | Drop(i: nat) | Make(from: Source)
}
