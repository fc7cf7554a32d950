/**
 * ComPtrList: a circular doubly linked list of reference-counted items, through an anchor node.
 */
module ComPtrList {
  import opened Media

  /** A COM object, as far as the list is concerned: its reference count. */
  class Item {
    var refs: int

    constructor ()
      ensures refs == 1
    {
      refs := 1;
    }

    method AddRef()
      modifies this
      ensures refs == old(refs) + 1
    {
      refs := refs + 1;
    }

    method Release()
      modifies this
      ensures refs == old(refs) - 1
    {
      refs := refs - 1;
    }
  }

  class Node {
    var prev: Node?
    var next: Node?
    var item: Item?

    constructor Anchor()
      ensures item == null && prev == next == this
    {
      item := null;
      prev, next := this, this;
    }

    /** A node holds a reference to its item. */
    constructor (item: Item?)
      modifies item
      ensures this.item == item
      ensures item != null ==> item.refs == old(item.refs) + 1
    {
      this.item := item;
      prev, next := null, null;
      new;
      if item != null {
        item.AddRef();
      }
    }

    /** The destructor gives the reference back. */
    method Delete()
      modifies this`item, item
      ensures item == null
      ensures old(item) != null ==> old(item).refs == old(item.refs) - 1
    {
      if item != null {
        item.Release();
        item := null;
      }
    }
  }

  function Without<T>(s: seq<T>, k: nat): (r: seq<T>)
    requires k < |s|
    ensures |r| == |s| - 1
  {
    s[..k] + s[k + 1..]
  }

  lemma WithoutEnds<T>(s: seq<T>)
    requires s != []
    ensures Without(s, 0) == s[1..] && Without(s, |s| - 1) == s[..|s| - 1]
  {}

  lemma WithoutKeeps<T>(s: seq<T>, k: nat)
    requires k < |s|
    ensures forall x :: x in Without(s, k) ==> x in s
  {}

  function Inserted<T>(s: seq<T>, k: nat, x: T): (r: seq<T>)
    requires k <= |s|
    ensures |r| == |s| + 1
  {
    s[..k] + [x] + s[k..]
  }

  /** Once round from a node back to itself, all others met once, prev and next agreeing at each step. */
  ghost predicate RingOk(r: seq<Node>)
    reads r`next, r`prev
  {
    && Closed(r)
    && forall i :: 0 <= i < |r| - 1 ==> r[i].next == r[i + 1] && r[i + 1].prev == r[i]
  }

  ghost predicate Closed(r: seq<Node>) {
    && |r| >= 2 && r[0] == r[|r| - 1]
    && forall i, j :: 0 <= i < j < |r| - 1 ==> r[i] != r[j]
  }

  lemma RingCloses(r: seq<Node>)
    requires RingOk(r)
    ensures Closed(r)
  {}

  lemma EmptyRing(anchor: Node)
    requires anchor.next == anchor.prev == anchor
    ensures RingOk([anchor, anchor])
  {}

  lemma ClosedInserted(r: seq<Node>, k: nat, n: Node)
    requires Closed(r) && k < |r| - 1 && n !in r
    ensures Closed(Inserted(r, k + 1, n))
  {}

  lemma ClosedWithout(r: seq<Node>, k: nat)
    requires Closed(r) && 0 < k < |r| - 1
    ensures Closed(Without(r, k)) && r[k] !in Without(r, k)
  {}

  method LinkAfter(pBefore: Node, pNode: Node, pAfter: Node, ghost r: seq<Node>, ghost k: nat)
    requires RingOk(r) && k < |r| - 1 && pBefore == r[k] && pAfter == r[k + 1] && pNode !in r
    modifies pBefore`next, pAfter`prev, pNode`prev, pNode`next
    ensures RingOk(Inserted(r, k + 1, pNode))
  {
    ClosedInserted(r, k, pNode);
    pBefore.next := pNode;
    pAfter.prev := pNode;
    pNode.prev := pBefore;
    pNode.next := pAfter;
  }

  method Unlink(pNode: Node, ghost before: Node, ghost after: Node, ghost r: seq<Node>, ghost k: nat)
    requires RingOk(r) && 0 < k < |r| - 1 && pNode == r[k] && before == r[k - 1] && after == r[k + 1]
    modifies before`next, after`prev
    ensures RingOk(Without(r, k))
  {
    ClosedWithout(r, k);
    pNode.next.prev := pNode.prev;
    pNode.prev.next := pNode.next;
  }

  class PtrList {
    const NULLABLE: bool
    const m_anchor: Node
    var m_count: nat

    ghost var nodes: seq<Node>  // the nodes from front to back

    constructor (nullable: bool)
      ensures Valid() && Contents() == [] && NULLABLE == nullable && fresh(m_anchor) && nodes == []
    {
      NULLABLE := nullable;
      m_anchor := new Node.Anchor();
      m_count := 0;
      nodes := [];
    }

    /** Once round the ring, from anchor to anchor. */
    ghost function Ring(): (r: seq<Node>)
      reads this
      ensures |r| == |nodes| + 2
    {
      [m_anchor] + nodes + [m_anchor]
    }

    ghost predicate Valid()
      reads this, m_anchor, nodes
    {
      && m_count == |nodes|
      && RingOk(Ring())
      && (!NULLABLE ==> forall i :: 0 <= i < |nodes| ==> nodes[i].item != null)
    }

    /** The list as a sequence of items, front first. */
    ghost function Contents(): (s: seq<Item?>)
      reads this, nodes
      ensures |s| == |nodes|
    {
      ItemsOf(nodes)
    }

    /** The items that the list holds references to. */
    ghost function Items(): (s: set<Item>)
      reads this, nodes
    {
      set x: Item | x in Contents()
    }

    function Front(): Node?
      reads m_anchor
    {
      m_anchor.next
    }

    function Back(): Node?
      reads m_anchor
    {
      m_anchor.prev
    }

    method InsertAfter(item: Item?, pBefore: Node?, ghost k: nat) returns (hr: HResult)
      requires Valid()
      requires k <= |nodes| && (pBefore == null || pBefore == Ring()[k])
      modifies this, m_anchor, nodes, item
      ensures Valid() && (forall n :: n in nodes ==> n in old(nodes) || fresh(n))
      ensures hr == if pBefore == null || (item == null && !NULLABLE) then E_POINTER else S_OK
      ensures Contents() == if hr == S_OK then Inserted(old(Contents()), k, item) else old(Contents())
      ensures item != null ==> item.refs == old(item.refs) + if hr == S_OK then 1 else 0
    {
      hide RingOk;
      if pBefore == null {
        return E_POINTER;
      }
      if item == null && !NULLABLE {
        return E_POINTER;
      }
      var pNode := new Node(item);
      assert pNode !in nodes;
      InsertNode(pBefore, pNode, k);
      return S_OK;
    }

    method InsertNode(pBefore: Node, pNode: Node, ghost k: nat)
      requires Valid() && k <= |nodes| && pBefore == Ring()[k] && pNode !in Ring()
      requires pNode.item != null || NULLABLE
      modifies this`m_count, this`nodes, m_anchor, nodes, pNode`prev, pNode`next
      ensures Valid() && nodes == Inserted(old(nodes), k, pNode)
      ensures Contents() == Inserted(old(Contents()), k, pNode.item)
    {
      hide RingOk;
      ghost var ring := Ring();
      NextInRing(k);
      var pAfter := pBefore.next;
      LinkAfter(pBefore, pNode, pAfter, ring, k);
      m_count := m_count + 1;
      nodes := Inserted(nodes, k, pNode);
      assert Ring() == Inserted(ring, k + 1, pNode);
    }

    /** The item comes back with a reference of its own. */
    method GetItem(pNode: Node?) returns (hr: HResult, item: Item?)
      requires pNode == null || pNode in nodes
      modifies if pNode == null then {} else {pNode.item}
      ensures hr == if pNode == null then E_POINTER else S_OK
      ensures hr == S_OK ==> item == pNode.item
      ensures hr == S_OK && item != null ==> item.refs == old(pNode.item.refs) + 1
    {
      if pNode == null {
        return E_POINTER, null;
      }
      item := pNode.item;
      if item != null {
        item.AddRef();
      }
      return S_OK, item;
    }

    /** Takes a node out and deletes it; the item comes back, with a reference of its own, if it is wanted. */
    method RemoveItem(pNode: Node?, want: bool, ghost k: nat) returns (hr: HResult, item: Item?)
      requires Valid() && (pNode == null || pNode == m_anchor || (k < |nodes| && pNode == nodes[k]))
      modifies this, m_anchor, nodes, if pNode == null then {} else {pNode.item}
      ensures Valid()
      ensures hr == if pNode == null then E_POINTER else if pNode == m_anchor then E_INVALIDARG else S_OK
      ensures hr != S_OK ==> nodes == old(nodes) && Contents() == old(Contents())
      ensures hr == S_OK ==>
        && nodes == Without(old(nodes), k) && Contents() == Without(old(Contents()), k)
        && (want ==> item == old(Contents())[k])
      ensures hr == S_OK && old(pNode.item) != null ==>
        old(pNode.item).refs == old(pNode.item.refs) + if want then 0 else -1
    {
      hide RingOk;
      if pNode == null {
        return E_POINTER, null;
      }
      if pNode == m_anchor {
        return E_INVALIDARG, null;
      }
      RemoveNode(pNode, k);
      item := pNode.item;
      if want && item != null {
        item.AddRef();
      }
      pNode.Delete();
      m_count := m_count - 1;
      return S_OK, item;
    }

    method RemoveNode(pNode: Node, ghost k: nat)
      requires Valid() && k < |nodes| && pNode == nodes[k]
      modifies this`nodes, m_anchor, nodes
      ensures nodes == Without(old(nodes), k) && RingOk(Ring()) && pNode !in Ring() && pNode !in nodes
      ensures pNode.item == old(pNode.item)
      ensures !NULLABLE ==> forall i :: 0 <= i < |nodes| ==> nodes[i].item != null
      ensures Contents() == Without(old(Contents()), k)
    {
      hide RingOk, Closed;
      ghost var ring := Ring();
      RingCloses(ring);
      ClosedWithout(ring, k + 1);
      Unlink(pNode, ring[k], ring[k + 2], ring, k + 1);
      nodes := Without(nodes, k);
      assert Ring() == Without(ring, k + 1);
      assert pNode !in nodes by {
        assert forall n :: n in nodes ==> n in Ring();
      }
    }

    /** Deletes the nodes one by one and closes the ring. */
    method Clear()
      requires Valid()
      modifies this, m_anchor, nodes, Items()
      ensures Valid() && nodes == []
      ensures forall x :: x in old(Items()) ==> x.refs == old(x.refs) - multiset(old(Contents()))[x]
    {
      hide RingOk;
      DeleteNodes();
      m_anchor.next := m_anchor;
      m_anchor.prev := m_anchor;
      m_count := 0;
      nodes := [];
      assert Ring() == [m_anchor, m_anchor];
      EmptyRing(m_anchor);
    }

    method DeleteNodes()
      requires Valid()
      modifies nodes, Items()
      ensures forall x :: x in old(Items()) ==> x.refs == old(x.refs) - multiset(old(Contents()))[x]
    {
      hide RingOk, Remaining, Owed, ItemsOf;
      ghost var contents, gone := Contents(), multiset{};
      ghost var base := map x | x in Items() :: x.refs;
      NextNode(0);
      Undeleted(base);
      var n := m_anchor.next;
      ghost var i := 0;
      while n != m_anchor
        invariant 0 <= i <= |nodes| && n == NodeAt(i) && RingOk(Ring())
        invariant Remaining(i, contents)
        invariant gone == multiset(contents[..i]) && Owed(gone, base)
        decreases |nodes| - i
      {
        NextNode(i);
        var tmp := n.next;
        DeleteNode(n, i, contents, gone, base);
        MultisetSnoc(contents, i);
        gone := gone + multiset{contents[i]};
        n := tmp;
        i := i + 1;
      }
      AtEnd(i);
      assert contents[..|nodes|] == contents;
      Paid(gone, base);
    }

    /** The nodes from i on still hold their items. */
    ghost predicate Remaining(i: nat, contents: seq<Item?>)
      reads this, nodes
    {
      |contents| == |nodes| && forall j :: i <= j < |nodes| ==> nodes[j].item == contents[j]
    }

    lemma Undeleted(base: map<Item, int>)
      requires forall x :: x in base ==> x.refs == base[x]
      ensures Remaining(0, Contents()) && Owed(multiset{}, base)
    {}

    lemma Paid(gone: multiset<Item?>, base: map<Item, int>)
      requires Owed(gone, base)
      ensures forall x :: x in base ==> x.refs == base[x] - gone[x]
    {}

    method DeleteNode(n: Node, ghost i: nat, ghost contents: seq<Item?>, ghost gone: multiset<Item?>,
                      ghost base: map<Item, int>)
      requires RingOk(Ring()) && Remaining(i, contents) && i < |nodes| && n == nodes[i]
      requires Owed(gone, base) && forall x: Item :: x in contents ==> x in base
      modifies n`item, base.Keys
      ensures RingOk(Ring()) && Remaining(i + 1, contents) && Owed(gone + multiset{contents[i]}, base)
    {
      DistinctNodes();
      n.Delete();
    }

    lemma AtEnd(i: nat)
      requires RingOk(Ring()) && i <= |nodes| && NodeAt(i) == m_anchor
      ensures i == |nodes|
    {
      DistinctNodes();
    }

    /** The i-th node; the anchor after the last. */
    ghost function NodeAt(i: nat): Node
      reads this
    {
      if i < |nodes| then nodes[i] else m_anchor
    }

    lemma NextNode(i: nat)
      requires RingOk(Ring()) && i <= |nodes|
      ensures m_anchor.next == NodeAt(0)
      ensures i < |nodes| ==> nodes[i].next == NodeAt(i + 1)
    {
      assert Ring()[0] == m_anchor && Ring()[1] == NodeAt(0);
      if i < |nodes| {
        assert Ring()[i + 1] == nodes[i] && Ring()[i + 2] == NodeAt(i + 1);
      }
    }

    lemma DistinctNodes()
      requires RingOk(Ring())
      ensures m_anchor !in nodes && forall i, j :: 0 <= i < j < |nodes| ==> nodes[i] != nodes[j]
    {
      forall i, j | 0 <= i < j < |nodes| ensures nodes[i] != nodes[j] {
        assert Ring()[i + 1] != Ring()[j + 1];
      }
      forall i | 0 <= i < |nodes| ensures nodes[i] != m_anchor {
        assert Ring()[0] != Ring()[i + 1];
      }
    }

    predicate IsEmpty()
      reads this
    {
      m_count == 0
    }

    method InsertBack(item: Item?) returns (hr: HResult)
      requires Valid()
      modifies this, m_anchor, nodes, item
      ensures Valid() && (forall n :: n in nodes ==> n in old(nodes) || fresh(n))
      ensures hr == if item == null && !NULLABLE then E_POINTER else S_OK
      ensures Contents() == if hr == S_OK then old(Contents()) + [item] else old(Contents())
      ensures item != null ==> item.refs == old(item.refs) + if hr == S_OK then 1 else 0
    {
      NextInRing(|nodes|);
      hr := InsertAfter(item, m_anchor.prev, |nodes|);
    }

    method InsertFront(item: Item?) returns (hr: HResult)
      requires Valid()
      modifies this, m_anchor, nodes, item
      ensures Valid() && (forall n :: n in nodes ==> n in old(nodes) || fresh(n))
      ensures hr == if item == null && !NULLABLE then E_POINTER else S_OK
      ensures Contents() == if hr == S_OK then [item] + old(Contents()) else old(Contents())
      ensures item != null ==> item.refs == old(item.refs) + if hr == S_OK then 1 else 0
    {
      hr := InsertAfter(item, m_anchor, 0);
    }

    method RemoveBack(want: bool) returns (hr: HResult, item: Item?)
      requires Valid()
      modifies this, m_anchor, nodes, Items()
      ensures Valid() && (forall n :: n in nodes ==> n in old(nodes))
      ensures hr == if |old(nodes)| == 0 then E_FAIL else S_OK
      ensures hr != S_OK ==> nodes == old(nodes) && Contents() == []
      ensures hr == S_OK ==> Contents() == old(Contents())[..|old(nodes)| - 1]
      ensures hr == S_OK && want ==> item == old(Contents())[|old(nodes)| - 1]
      ensures forall x :: x in old(Items()) ==>
        x.refs == old(x.refs) - if !want && x == old(Contents())[|old(nodes)| - 1] then 1 else 0
    {
      if IsEmpty() {
        return E_FAIL, null;
      }
      hide RingOk, ItemsOf, Without;
      NextInRing(|nodes|);
      ItemHeld(|nodes| - 1);
      WithoutEnds(Contents());
      WithoutKeeps(nodes, |nodes| - 1);
      hr, item := RemoveItem(Back(), want, |nodes| - 1);
    }

    method RemoveFront(want: bool) returns (hr: HResult, item: Item?)
      requires Valid()
      modifies this, m_anchor, nodes, Items()
      ensures Valid() && (forall n :: n in nodes ==> n in old(nodes))
      ensures hr == if |old(nodes)| == 0 then E_FAIL else S_OK
      ensures hr != S_OK ==> nodes == old(nodes) && Contents() == []
      ensures hr == S_OK ==> Contents() == old(Contents())[1..]
      ensures hr == S_OK && want ==> item == old(Contents())[0]
      ensures forall x :: x in old(Items()) ==>
        x.refs == old(x.refs) - if !want && x == old(Contents())[0] then 1 else 0
    {
      if IsEmpty() {
        return E_FAIL, null;
      }
      hide RingOk, ItemsOf, Without;
      NextInRing(0);
      ItemHeld(0);
      WithoutEnds(Contents());
      WithoutKeeps(nodes, 0);
      hr, item := RemoveItem(Front(), want, 0);
    }

    method GetBack() returns (hr: HResult, item: Item?)
      requires Valid()
      modifies Items()
      ensures hr == if |nodes| == 0 then E_FAIL else S_OK
      ensures hr == S_OK ==> item == old(Contents())[|nodes| - 1]
      ensures forall x :: x in old(Items()) ==>
        x.refs == old(x.refs) + if x == old(Contents())[|nodes| - 1] then 1 else 0
    {
      if IsEmpty() {
        return E_FAIL, null;
      }
      NextInRing(|nodes|);
      ItemHeld(|nodes| - 1);
      hr, item := GetItem(Back());
    }

    method GetFront() returns (hr: HResult, item: Item?)
      requires Valid()
      modifies Items()
      ensures hr == if |nodes| == 0 then E_FAIL else S_OK
      ensures hr == S_OK ==> item == old(Contents())[0]
      ensures forall x :: x in old(Items()) ==> x.refs == old(x.refs) + if x == old(Contents())[0] then 1 else 0
    {
      if IsEmpty() {
        return E_FAIL, null;
      }
      NextInRing(0);
      ItemHeld(0);
      hr, item := GetItem(Front());
    }

    lemma ItemHeld(k: nat)
      requires k < |nodes|
      ensures nodes[k].item == Contents()[k] && (nodes[k].item != null ==> nodes[k].item in Items())
    {}

    // ----- Enumeration -----

    method FrontPosition() returns (pos: Node?)
      requires Valid()
      ensures pos == if |nodes| == 0 then null else nodes[0]
    {
      if IsEmpty() {
        return null;
      }
      NextInRing(0);
      return Front();
    }

    method Next(pos: Node?, ghost k: nat) returns (next: Node?)
      requires Valid() && (pos != null ==> k < |nodes| && pos == nodes[k])
      ensures next == if pos != null && k + 1 < |nodes| then nodes[k + 1] else null
    {
      DistinctNodes();
      if pos != null {
        NextNode(k);
      }
      if pos != null && pos.next != m_anchor {
        return pos.next;
      }
      return null;
    }

    method GetItemByPosition(pos: Node?) returns (hr: HResult, item: Item?)
      requires Valid() && (pos == null || pos in nodes)
      modifies if pos == null then {} else {pos.item}
      ensures hr == if pos == null then E_FAIL else S_OK
      ensures hr == S_OK ==> item == pos.item
      ensures hr == S_OK && item != null ==> item.refs == old(pos.item.refs) + 1
    {
      if pos == null {
        return E_FAIL, null;
      }
      hr, item := GetItem(pos);
    }

    /** The enumeration loop of the documentation: each element once, in order, with no reference left over. */
    method Enumerate() returns (items: seq<Item?>)
      requires Valid()
      modifies Items()
      ensures items == Contents()
      ensures forall x :: x in Items() ==> x.refs == old(x.refs)
    {
      hide RingOk;
      items := [];
      var pos := FrontPosition();
      ghost var k := 0;
      while pos != null
        invariant 0 <= k <= |nodes| && pos == if k < |nodes| then nodes[k] else null
        invariant items == Contents()[..k]
        invariant forall x :: x in Items() ==> x.refs == old(x.refs)
        decreases |nodes| - k
      {
        ItemHeld(k);
        var hr, item := GetItemByPosition(pos);
        items := items + [item];
        if item != null {
          item.Release();
        }
        assert Contents()[..k + 1] == Contents()[..k] + [item];
        pos := Next(pos, k);
        k := k + 1;
      }
    }

    lemma NextInRing(k: nat)
      requires RingOk(Ring()) && k <= |nodes|
      ensures Ring()[k].next == Ring()[k + 1] && Ring()[k + 1].prev == Ring()[k]
      ensures m_anchor.next == Ring()[1] && m_anchor.prev == Ring()[|nodes|]
    {
      assert Ring()[0] == m_anchor && Ring()[|nodes| + 1] == m_anchor;
    }
  }

  /** Of the references the list held at first, those to the items in gone have been given back. */
  ghost predicate Owed(gone: multiset<Item?>, base: map<Item, int>)
    reads base.Keys
  {
    forall x :: x in base ==> x.refs == base[x] - gone[x]
  }

  lemma MultisetSnoc(s: seq<Item?>, i: nat)
    requires i < |s|
    ensures multiset(s[..i + 1]) == multiset(s[..i]) + multiset{s[i]}
  {
    assert s[..i + 1] == s[..i] + [s[i]];
  }

  ghost function ItemsOf(nodes: seq<Node>): (s: seq<Item?>)
    reads nodes
    ensures |s| == |nodes|
  {
    seq(|nodes|, i requires 0 <= i < |nodes| reads nodes => nodes[i].item)
  }

  // ----- Whole runs -----

  datatype Op = InsertFront(item: Item?) | InsertBack(item: Item?) | RemoveFront(want: bool) | RemoveBack(want: bool)
              | GetFront | GetBack | Clear

  /** What an operation does to a list seen as a sequence: the new sequence, the result, and the items handed out. */
  ghost function Apply(s: seq<Item?>, op: Op, nullable: bool): (r: (seq<Item?>, HResult, seq<Item?>)) {
    match op
    case InsertFront(x) => if x == null && !nullable then (s, E_POINTER, []) else ([x] + s, S_OK, [])
    case InsertBack(x) => if x == null && !nullable then (s, E_POINTER, []) else (s + [x], S_OK, [])
    case RemoveFront(want) => if s == [] then (s, E_FAIL, []) else (s[1..], S_OK, if want then [s[0]] else [])
    case RemoveBack(want) =>
      if s == [] then (s, E_FAIL, []) else (s[..|s| - 1], S_OK, if want then [s[|s| - 1]] else [])
    case GetFront => if s == [] then (s, E_FAIL, []) else (s, S_OK, [s[0]])
    case GetBack => if s == [] then (s, E_FAIL, []) else (s, S_OK, [s[|s| - 1]])
    case Clear => ([], S_OK, [])
  }

  ghost function ApplyAll(s: seq<Item?>, ops: seq<Op>, nullable: bool): (r: (seq<Item?>, seq<HResult>, seq<Item?>))
    decreases |ops|
  {
    if ops == [] then (s, [], []) else
    var first := Apply(s, ops[0], nullable);
    var rest := ApplyAll(first.0, ops[1..], nullable);
    (rest.0, [first.1] + rest.1, first.2 + rest.2)
  }

  /** What goes in at one end comes out there first, and after all others at the other end; a look changes nothing. */
  lemma BothEnds(s: seq<Item?>, x: Item?, nullable: bool)
    requires x != null || nullable
    ensures ApplyAll(s, [InsertFront(x), GetFront, RemoveFront(true)], nullable) == (s, [S_OK, S_OK, S_OK], [x, x])
    ensures ApplyAll(s, [InsertBack(x), GetBack, RemoveBack(true)], nullable) == (s, [S_OK, S_OK, S_OK], [x, x])
    ensures s != [] ==>
      && ApplyAll(s, [InsertFront(x), GetBack, RemoveBack(true)], nullable)
         == ([x] + s[..|s| - 1], [S_OK, S_OK, S_OK], [s[|s| - 1], s[|s| - 1]])
      && ApplyAll(s, [InsertBack(x), GetFront, RemoveFront(true)], nullable)
         == (s[1..] + [x], [S_OK, S_OK, S_OK], [s[0], s[0]])
  {
    Three(s, InsertFront(x), GetFront, RemoveFront(true), nullable);
    Three(s, InsertBack(x), GetBack, RemoveBack(true), nullable);
    assert ([x] + s)[1..] == s && (s + [x])[..|s + [x]| - 1] == s && (s + [x])[|s + [x]| - 1] == x;
    TwoOut(x);
    if s != [] {
      Three(s, InsertFront(x), GetBack, RemoveBack(true), nullable);
      Three(s, InsertBack(x), GetFront, RemoveFront(true), nullable);
      assert ([x] + s)[..|[x] + s| - 1] == [x] + s[..|s| - 1] && ([x] + s)[|[x] + s| - 1] == s[|s| - 1];
      assert (s + [x])[1..] == s[1..] + [x] && (s + [x])[0] == s[0];
      TwoOut(s[0]);
      TwoOut(s[|s| - 1]);
    }
    hide ApplyAll;
  }

  lemma TwoOut(x: Item?)
    ensures [] + ([x] + [x]) == [x, x]
  {}

  lemma Three(s: seq<Item?>, a: Op, b: Op, c: Op, nullable: bool)
    ensures var p := Apply(s, a, nullable);
      var q := Apply(p.0, b, nullable);
      var r := Apply(q.0, c, nullable);
      ApplyAll(s, [a, b, c], nullable) == (r.0, [p.1, q.1, r.1], p.2 + (q.2 + r.2))
  {
    hide Apply;
    var p := Apply(s, a, nullable);
    var q := Apply(p.0, b, nullable);
    var r := Apply(q.0, c, nullable);
    OneThen(s, a, [b, c], nullable);
    OneThen(p.0, b, [c], nullable);
    OneThen(q.0, c, [], nullable);
    assert [a] + [b, c] == [a, b, c] && [b] + [c] == [b, c] && [c] + [] == [c];
    hide ApplyAll;
    assert ApplyAll(q.0, [c], nullable) == (r.0, [r.1] + [], r.2 + []);
    assert [r.1] + [] == [r.1] && r.2 + [] == r.2;
    assert [q.1] + [r.1] == [q.1, r.1] && [p.1] + [q.1, r.1] == [p.1, q.1, r.1];
  }

  lemma OneThen(s: seq<Item?>, op: Op, rest: seq<Op>, nullable: bool)
    ensures var p := Apply(s, op, nullable);
      var q := ApplyAll(p.0, rest, nullable);
      ApplyAll(s, [op] + rest, nullable) == (q.0, [p.1] + q.1, p.2 + q.2)
    ensures rest == [] ==> ApplyAll(s, rest, nullable) == (s, [], [])
  {
    hide Apply;
    assert ([op] + rest)[1..] == rest;
  }

  ghost predicate Listed(s: seq<Item?>, items: set<Item>) {
    forall i :: 0 <= i < |s| ==> s[i] == null || s[i] in items
  }

  /** How many references each item has. */
  ghost function Counts(items: set<Item>): (was: map<Item, int>)
    reads items
    ensures was.Keys == items
  {
    map x | x in items :: x.refs
  }

  /** The references an operation takes: one for a new node, one for an item handed out by Get. */
  ghost function Gained(s: seq<Item?>, op: Op, nullable: bool): multiset<Item?> {
    match op
    case InsertFront(x) => if x == null && !nullable then multiset{} else multiset{x}
    case InsertBack(x) => if x == null && !nullable then multiset{} else multiset{x}
    case RemoveFront(want) => multiset{}
    case RemoveBack(want) => multiset{}
    case GetFront => if s == [] then multiset{} else multiset{s[0]}
    case GetBack => if s == [] then multiset{} else multiset{s[|s| - 1]}
    case Clear => multiset{}
  }

  /** The references an operation gives back: those of deleted nodes, unless they pass to the caller. */
  ghost function Lost(s: seq<Item?>, op: Op): multiset<Item?> {
    match op
    case InsertFront(x) => multiset{}
    case InsertBack(x) => multiset{}
    case RemoveFront(want) => if s == [] || want then multiset{} else multiset{s[0]}
    case RemoveBack(want) => if s == [] || want then multiset{} else multiset{s[|s| - 1]}
    case GetFront => multiset{}
    case GetBack => multiset{}
    case Clear => multiset(s)
  }

  ghost function Recounted(was: map<Item, int>, s: seq<Item?>, op: Op, nullable: bool): (now: map<Item, int>)
    ensures now.Keys == was.Keys
  {
    map y | y in was :: was[y] + Gained(s, op, nullable)[y] - Lost(s, op)[y]
  }

  lemma CountsAre(items: set<Item>, now: map<Item, int>)
    requires now.Keys == items && forall x :: x in items ==> x.refs == now[x]
    ensures Counts(items) == now
  {}

  /**
   * The operation op does to the list s, to the references of the items, and to what the caller gets, what it
   * does to a sequence.
   */
  ghost predicate Does(s: seq<Item?>, refs: map<Item, int>, op: Op, nullable: bool,
                       s': seq<Item?>, refs': map<Item, int>, hr: HResult, given: seq<Item?>)
  {
    (s', hr, given) == Apply(s, op, nullable) && refs' == Recounted(refs, s, op, nullable)
  }

  method DoInsert(list: PtrList, op: Op, ghost others: map<Item, int>) returns (hr: HResult, given: seq<Item?>)
    requires list.Valid() && Listed(list.Contents(), others.Keys)
    requires (op.InsertFront? || op.InsertBack?) && (op.item == null || op.item in others)
    modifies list, list.m_anchor, list.nodes, others.Keys
    ensures list.Valid()
    ensures forall k :: 0 <= k < |list.nodes| ==> list.nodes[k] in old(list.nodes) || fresh(list.nodes[k])
    ensures Does(old(list.Contents()), old(Counts(others.Keys)), op, list.NULLABLE,
                 list.Contents(), Counts(others.Keys), hr, given)
  {
    hide RingOk, ItemsOf, PtrList.Valid, Counts;
    ghost var was, s := Counts(others.Keys), list.Contents();
    ghost var now := Recounted(was, s, op, list.NULLABLE);
    CountsBefore(others.Keys);
    if op.InsertFront? {
      hr := list.InsertFront(op.item);
    } else {
      hr := list.InsertBack(op.item);
    }
    given := [];
    CountsAre(others.Keys, now);
  }

  lemma CountsBefore(items: set<Item>)
    ensures forall x :: x in items ==> Counts(items)[x] == x.refs
  {}

  method DoRemoveFront(list: PtrList, op: Op, ghost others: map<Item, int>) returns (hr: HResult, given: seq<Item?>)
    requires list.Valid() && Listed(list.Contents(), others.Keys)
    requires op.RemoveFront?
    modifies list, list.m_anchor, list.nodes, others.Keys
    ensures list.Valid()
    ensures forall k :: 0 <= k < |list.nodes| ==> list.nodes[k] in old(list.nodes) || fresh(list.nodes[k])
    ensures Does(old(list.Contents()), old(Counts(others.Keys)), op, list.NULLABLE,
                 list.Contents(), Counts(others.Keys), hr, given)
  {
    hide RingOk, ItemsOf, PtrList.Valid, Counts;
    ghost var was, s, held := Counts(others.Keys), list.Contents(), list.Items();
    CountsBefore(others.Keys);
    var item;
    hr, item := list.RemoveFront(op.want);
    given := if hr == S_OK && op.want then [item] else [];
    ghost var now := Recounted(was, s, op, list.NULLABLE);
    forall x | x in others ensures x.refs == now[x] {
      assert x in held <==> x in s;
    }
    CountsAre(others.Keys, now);
  }

  method DoRemoveBack(list: PtrList, op: Op, ghost others: map<Item, int>) returns (hr: HResult, given: seq<Item?>)
    requires list.Valid() && Listed(list.Contents(), others.Keys)
    requires op.RemoveBack?
    modifies list, list.m_anchor, list.nodes, others.Keys
    ensures list.Valid()
    ensures forall k :: 0 <= k < |list.nodes| ==> list.nodes[k] in old(list.nodes) || fresh(list.nodes[k])
    ensures Does(old(list.Contents()), old(Counts(others.Keys)), op, list.NULLABLE,
                 list.Contents(), Counts(others.Keys), hr, given)
  {
    hide RingOk, ItemsOf, PtrList.Valid, Counts;
    ghost var was, s, held := Counts(others.Keys), list.Contents(), list.Items();
    CountsBefore(others.Keys);
    var item;
    hr, item := list.RemoveBack(op.want);
    given := if hr == S_OK && op.want then [item] else [];
    ghost var now := Recounted(was, s, op, list.NULLABLE);
    forall x | x in others ensures x.refs == now[x] {
      assert x in held <==> x in s;
    }
    CountsAre(others.Keys, now);
  }

  method DoGetFront(list: PtrList, op: Op, ghost others: map<Item, int>) returns (hr: HResult, given: seq<Item?>)
    requires list.Valid() && Listed(list.Contents(), others.Keys)
    requires op.GetFront?
    modifies list, list.m_anchor, list.nodes, others.Keys
    ensures list.Valid()
    ensures forall k :: 0 <= k < |list.nodes| ==> list.nodes[k] in old(list.nodes) || fresh(list.nodes[k])
    ensures Does(old(list.Contents()), old(Counts(others.Keys)), op, list.NULLABLE,
                 list.Contents(), Counts(others.Keys), hr, given)
  {
    hide RingOk, ItemsOf, PtrList.Valid, Counts;
    ghost var was, s, held := Counts(others.Keys), list.Contents(), list.Items();
    CountsBefore(others.Keys);
    var item;
    hr, item := list.GetFront();
    given := if hr == S_OK then [item] else [];
    ghost var now := Recounted(was, s, op, list.NULLABLE);
    forall x | x in others ensures x.refs == now[x] {
      assert x in held <==> x in s;
    }
    CountsAre(others.Keys, now);
  }

  method DoGetBack(list: PtrList, op: Op, ghost others: map<Item, int>) returns (hr: HResult, given: seq<Item?>)
    requires list.Valid() && Listed(list.Contents(), others.Keys)
    requires op.GetBack?
    modifies list, list.m_anchor, list.nodes, others.Keys
    ensures list.Valid()
    ensures forall k :: 0 <= k < |list.nodes| ==> list.nodes[k] in old(list.nodes) || fresh(list.nodes[k])
    ensures Does(old(list.Contents()), old(Counts(others.Keys)), op, list.NULLABLE,
                 list.Contents(), Counts(others.Keys), hr, given)
  {
    hide RingOk, ItemsOf, PtrList.Valid, Counts;
    ghost var was, s, held := Counts(others.Keys), list.Contents(), list.Items();
    CountsBefore(others.Keys);
    var item;
    hr, item := list.GetBack();
    given := if hr == S_OK then [item] else [];
    ghost var now := Recounted(was, s, op, list.NULLABLE);
    forall x | x in others ensures x.refs == now[x] {
      assert x in held <==> x in s;
    }
    CountsAre(others.Keys, now);
  }

  method DoClear(list: PtrList, op: Op, ghost others: map<Item, int>) returns (hr: HResult, given: seq<Item?>)
    requires list.Valid() && Listed(list.Contents(), others.Keys)
    requires op.Clear?
    modifies list, list.m_anchor, list.nodes, others.Keys
    ensures list.Valid()
    ensures forall k :: 0 <= k < |list.nodes| ==> list.nodes[k] in old(list.nodes) || fresh(list.nodes[k])
    ensures Does(old(list.Contents()), old(Counts(others.Keys)), op, list.NULLABLE,
                 list.Contents(), Counts(others.Keys), hr, given)
  {
    hide RingOk, ItemsOf, PtrList.Valid, Counts;
    ghost var was, s, held := Counts(others.Keys), list.Contents(), list.Items();
    CountsBefore(others.Keys);
    list.Clear();
    hr, given := S_OK, [];
    ghost var now := Recounted(was, s, op, list.NULLABLE);
    forall x | x in others ensures x.refs == now[x] {
      assert x in held <==> x in s;
    }
    CountsAre(others.Keys, now);
  }

  method Do(list: PtrList, op: Op, ghost others: map<Item, int>) returns (hr: HResult, given: seq<Item?>)
    requires list.Valid() && Listed(list.Contents(), others.Keys)
    requires op.InsertFront? || op.InsertBack? ==> op.item == null || op.item in others
    modifies list, list.m_anchor, list.nodes, others.Keys
    ensures list.Valid()
    ensures forall k :: 0 <= k < |list.nodes| ==> list.nodes[k] in old(list.nodes) || fresh(list.nodes[k])
    ensures Does(old(list.Contents()), old(Counts(others.Keys)), op, list.NULLABLE,
                 list.Contents(), Counts(others.Keys), hr, given)
  {
    hide PtrList.Valid, Apply, Recounted, Counts, Listed;
    match op {
      case InsertFront(x) => hr, given := DoInsert(list, op, others);
      case InsertBack(x) => hr, given := DoInsert(list, op, others);
      case RemoveFront(want) => hr, given := DoRemoveFront(list, op, others);
      case RemoveBack(want) => hr, given := DoRemoveBack(list, op, others);
      case GetFront => hr, given := DoGetFront(list, op, others);
      case GetBack => hr, given := DoGetBack(list, op, others);
      case Clear => hr, given := DoClear(list, op, others);
    }
  }

  /**
   * Every reference is accounted for: besides the references that others hold, an item has one for each
   * time it is in the list and one for each time it has been handed out.
   */
  ghost predicate Balanced(refs: map<Item, int>, others: map<Item, int>, contents: seq<Item?>, out: seq<Item?>) {
    && refs.Keys == others.Keys && Listed(contents, others.Keys)
    && forall x :: x in others ==> refs[x] == others[x] + multiset(contents)[x] + multiset(out)[x]
  }

  lemma MultisetEnds(s: seq<Item?>)
    requires s != []
    ensures multiset(s) == multiset(s[1..]) + multiset{s[0]} == multiset(s[..|s| - 1]) + multiset{s[|s| - 1]}
  {
    assert s == [s[0]] + s[1..] && s == s[..|s| - 1] + [s[|s| - 1]];
  }

  ghost predicate Accounts(s: seq<Item?>, op: Op, nullable: bool) {
    var (s', hr, given) := Apply(s, op, nullable);
    multiset(s') + multiset(given) + Lost(s, op) == multiset(s) + Gained(s, op, nullable)
  }

  lemma AccountedInsert(s: seq<Item?>, op: Op, nullable: bool)
    requires op.InsertFront? || op.InsertBack?
    ensures Accounts(s, op, nullable)
  {
    assert multiset([op.item] + s) == multiset{op.item} + multiset(s) == multiset(s + [op.item]);
  }

  lemma AccountedRemove(s: seq<Item?>, op: Op, nullable: bool)
    requires op.RemoveFront? || op.RemoveBack?
    ensures Accounts(s, op, nullable)
  {
    if s != [] {
      MultisetEnds(s);
      var x := if op.RemoveFront? then s[0] else s[|s| - 1];
      assert multiset([x]) == multiset{x};
    }
  }

  lemma AccountedGet(s: seq<Item?>, op: Op, nullable: bool)
    requires op.GetFront? || op.GetBack? || op.Clear?
    ensures Accounts(s, op, nullable)
  {}

  /** What the list loses it hands out or gives back. */
  lemma Accounted(s: seq<Item?>, op: Op, nullable: bool)
    ensures var (s', hr, given) := Apply(s, op, nullable);
      multiset(s') + multiset(given) + Lost(s, op) == multiset(s) + Gained(s, op, nullable)
  {
    hide Apply, Lost, Gained;
    if op.InsertFront? || op.InsertBack? {
      AccountedInsert(s, op, nullable);
    } else if op.RemoveFront? || op.RemoveBack? {
      AccountedRemove(s, op, nullable);
    } else {
      AccountedGet(s, op, nullable);
    }
  }

  /** Every operation keeps the balance. */
  lemma StaysBalanced(refs: map<Item, int>, others: map<Item, int>, s: seq<Item?>, out: seq<Item?>, op: Op,
                      nullable: bool)
    requires Balanced(refs, others, s, out)
    requires op.InsertFront? || op.InsertBack? ==> op.item == null || op.item in others
    ensures var (s', hr, given) := Apply(s, op, nullable);
      Balanced(Recounted(refs, s, op, nullable), others, s', out + given)
  {
    var (s', hr, given) := Apply(s, op, nullable);
    Accounted(s, op, nullable);
    StaysListed(s, op, nullable, others.Keys);
    hide Apply, Gained, Lost, Listed;
    var now, gained, lost := Recounted(refs, s, op, nullable), Gained(s, op, nullable), Lost(s, op);
    forall x | x in others ensures now[x] == others[x] + multiset(s')[x] + multiset(out + given)[x] {
      assert (multiset(s') + multiset(given) + lost)[x] == multiset(s')[x] + multiset(given)[x] + lost[x];
      assert (multiset(s) + gained)[x] == multiset(s)[x] + gained[x];
    }
  }

  lemma BalancedLists(refs: map<Item, int>, others: map<Item, int>, s: seq<Item?>, out: seq<Item?>)
    requires Balanced(refs, others, s, out)
    ensures Listed(s, others.Keys)
  {}

  lemma StaysListed(s: seq<Item?>, op: Op, nullable: bool, items: set<Item>)
    requires Listed(s, items)
    requires op.InsertFront? || op.InsertBack? ==> op.item == null || op.item in items
    ensures Listed(Apply(s, op, nullable).0, items)
  {}

  /** An item in the list is alive: it has a reference that no one else can give back. */
  lemma ListedIsAlive(refs: map<Item, int>, others: map<Item, int>, contents: seq<Item?>, out: seq<Item?>, x: Item)
    requires Balanced(refs, others, contents, out) && x in contents && others[x] >= 0
    ensures refs[x] > others[x] + multiset(out)[x] >= 0
  {
    assert x in multiset(contents);
  }

  /** Any run of operations does to the list what it does to a sequence, and keeps every reference accounted for. */
  method Run(list: PtrList, ops: seq<Op>, ghost others: map<Item, int>) returns (hrs: seq<HResult>, out: seq<Item?>)
    requires list.Valid() && Balanced(Counts(others.Keys), others, list.Contents(), [])
    requires forall op :: op in ops && (op.InsertFront? || op.InsertBack?) ==> op.item == null || op.item in others
    modifies list, list.m_anchor, list.nodes, others.Keys
    ensures list.Valid()
    ensures (list.Contents(), hrs, out) == ApplyAll(old(list.Contents()), ops, list.NULLABLE)
    ensures Balanced(Counts(others.Keys), others, list.Contents(), out)
  {
    hide PtrList.Valid, Apply, ApplyAll, Recounted, Counts, Listed, Balanced, Continues;
    hrs, out := [], [];
    var i := 0;
    AtStart(list.Contents(), ops, list.NULLABLE);
    while i < |ops|
      invariant 0 <= i <= |ops| && list.Valid()
      invariant forall k :: 0 <= k < |list.nodes| ==> list.nodes[k] in old(list.nodes) || fresh(list.nodes[k])
      invariant Balanced(Counts(others.Keys), others, list.Contents(), out)
      invariant Continues(ApplyAll(old(list.Contents()), ops, list.NULLABLE), hrs, out, list.Contents(), ops[i..],
        list.NULLABLE)
    {
      ghost var was := list.Contents();
      StaysBalanced(Counts(others.Keys), others, list.Contents(), out, ops[i], list.NULLABLE);
      BalancedLists(Counts(others.Keys), others, was, out);
      assert ops[i] in ops;
      var hr, given := Do(list, ops[i], others);
      OneFurther(ApplyAll(old(list.Contents()), ops, list.NULLABLE), hrs, out, was, ops, i, list.NULLABLE);
      hrs := hrs + [hr];
      out := out + given;
      i := i + 1;
    }
    AtEnd(ApplyAll(old(list.Contents()), ops, list.NULLABLE), hrs, out, list.Contents(), ops, list.NULLABLE);
  }

  lemma AtStart(s: seq<Item?>, ops: seq<Op>, nullable: bool)
    ensures Continues(ApplyAll(s, ops, nullable), [], [], s, ops[0..], nullable)
  {
    assert ops[0..] == ops;
  }

  lemma OneFurther(all: (seq<Item?>, seq<HResult>, seq<Item?>), hrs: seq<HResult>, out: seq<Item?>, s: seq<Item?>,
                   ops: seq<Op>, i: nat, nullable: bool)
    requires i < |ops| && Continues(all, hrs, out, s, ops[i..], nullable)
    ensures var (s', hr, given) := Apply(s, ops[i], nullable);
      Continues(all, hrs + [hr], out + given, s', ops[i + 1..], nullable)
  {
    hide Apply;
    assert ops[i..][0] == ops[i] && ops[i..][1..] == ops[i + 1..];
  }

  lemma AtEnd(all: (seq<Item?>, seq<HResult>, seq<Item?>), hrs: seq<HResult>, out: seq<Item?>, s: seq<Item?>,
              ops: seq<Op>, nullable: bool)
    requires Continues(all, hrs, out, s, ops[|ops|..], nullable)
    ensures (s, hrs, out) == all
  {
    assert hrs + [] == hrs && out + [] == out;
  }

  /** What is left to do leads from here to the outcome all. */
  ghost predicate Continues(all: (seq<Item?>, seq<HResult>, seq<Item?>), hrs: seq<HResult>, out: seq<Item?>,
                            contents: seq<Item?>, left: seq<Op>, nullable: bool) {
    var rest := ApplyAll(contents, left, nullable);
    all.0 == rest.0 && all.1 == hrs + rest.1 && all.2 == out + rest.2
  }
}
