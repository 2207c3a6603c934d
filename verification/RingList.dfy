/** The generated doubly linked list of mpquic_trans/internal/utils/byteinterval_linkedlist.go: a ring
    that is closed by a sentinel, and initialised on first use. */
module RingList {
  datatype ByteInterval = ByteInterval(start: nat, end: nat)

  class Element {
    var next: Element?
    var prev: Element?
    var list: List?
    var value: ByteInterval

    constructor (v: ByteInterval)
      ensures value == v && next == null && prev == null && list == null
    {
      value, next, prev, list := v, null, null, null;
    }

    /** The next element, or null at the end of the list and outside of any list. */
    method Next() returns (e: Element?)
      requires list != null ==> list.Valid() && this in list.elements
      ensures list == null ==> e == null
      ensures list != null ==> forall k :: 0 <= k < |list.elements| && list.elements[k] == this ==>
                e == if k + 1 < |list.elements| then list.elements[k + 1] else null
    {
      hide Chain;
      var p := next;
      if list == null { return null; }
      ghost var s, nodes := list.elements, Nodes(list.root, list.elements);
      ghost var k :| 0 <= k < |s| && s[k] == this;
      assert s == s[..k + 1] + s[k + 1..];
      LinksAt(NextOf(nodes), PrevOf(nodes), list.root, s[..k + 1], s[k + 1..]);
      return if p != list.root then p else null;
    }

    method Prev() returns (e: Element?)
      requires list != null ==> list.Valid() && this in list.elements
      ensures list == null ==> e == null
      ensures list != null ==> forall k :: 0 <= k < |list.elements| && list.elements[k] == this ==>
                e == if k > 0 then list.elements[k - 1] else null
    {
      hide Chain;
      var p := prev;
      if list == null { return null; }
      ghost var s, nodes := list.elements, Nodes(list.root, list.elements);
      ghost var k :| 0 <= k < |s| && s[k] == this;
      assert s == s[..k] + s[k..];
      LinksAt(NextOf(nodes), PrevOf(nodes), list.root, s[..k], s[k..]);
      return if p != list.root then p else null;
    }
  }

  type Links = map<Element, Element?>

  // ----- chains: what the links say between two nodes -----

  /** From `x` the links lead through `s` to `y`, and back. */
  ghost predicate Chain(next: Links, prev: Links, x: Element, s: seq<Element>, y: Element)
    decreases |s|
  {
    if s == [] then x in next && next[x] == y && y in prev && prev[y] == x
    else x in next && next[x] == s[0] && s[0] in prev && prev[s[0]] == x && Chain(next, prev, s[0], s[1..], y)
  }

  ghost function Last(x: Element, s: seq<Element>): Element { if s == [] then x else s[|s| - 1] }

  ghost function First(s: seq<Element>, y: Element): Element { if s == [] then y else s[0] }

  ghost predicate Distinct(root: Element, s: seq<Element>) {
    root !in s && forall i, j :: 0 <= i < j < |s| ==> s[i] != s[j]
  }

  lemma {:induction false} Apart(root: Element, a: seq<Element>, b: seq<Element>)
    requires Distinct(root, a + b)
    ensures Distinct(root, a) && Distinct(root, b) && forall z :: z in a ==> z !in b
  {
    var s := a + b;
    assert forall i :: 0 <= i < |a| ==> s[i] == a[i];
    forall i | 0 <= i < |b| ensures s[|a| + i] == b[i] {}
    forall i, j | 0 <= i < |a| && 0 <= j < |b| ensures a[i] != b[j] { assert s[i] != s[|a| + j]; }
    forall i, j | 0 <= i < j < |b| ensures b[i] != b[j] { assert s[|a| + i] != s[|a| + j]; }
  }

  lemma {:induction false} DistinctInsert(root: Element, a: seq<Element>, m: Element, b: seq<Element>)
    requires Distinct(root, a + b) && m != root && m !in a + b
    ensures Distinct(root, a + [m] + b)
  {
    var s, t := a + b, a + [m] + b;
    forall i, j | 0 <= i < j < |t| ensures t[i] != t[j] {
      assert i != |a| ==> t[i] == s[if i < |a| then i else i - 1];
      assert j != |a| ==> t[j] == s[if j < |a| then j else j - 1];
    }
  }

  lemma {:induction false} DistinctRemove(root: Element, a: seq<Element>, m: Element, b: seq<Element>)
    requires Distinct(root, a + [m] + b)
    ensures Distinct(root, a + b) && m != root && m !in a + b
  {
    var s, t := a + b, a + [m] + b;
    assert t[|a|] == m;
    forall i | 0 <= i < |s| ensures s[i] == t[if i < |a| then i else i + 1] {}
  }

  /** A chain depends only on the links forward from its start and backward from its end. */
  lemma {:induction false} ChainFrame(n: Links, p: Links, n': Links, p': Links, x: Element, s: seq<Element>, y: Element)
    requires Chain(n, p, x, s, y)
    requires forall z :: z in n && (z == x || z in s) ==> z in n' && n'[z] == n[z]
    requires forall z :: z in p && (z == y || z in s) ==> z in p' && p'[z] == p[z]
    ensures Chain(n', p', x, s, y)
    decreases |s|
  {
    if s != [] {
      assert s[0] in s;
      assert forall z :: z in s[1..] ==> z in s;
      ChainFrame(n, p, n', p', s[0], s[1..], y);
    }
  }

  lemma {:induction false} ChainSplit(n: Links, p: Links, x: Element, a: seq<Element>, m: Element, b: seq<Element>,
                                      y: Element)
    ensures Chain(n, p, x, a + [m] + b, y) <==> Chain(n, p, x, a, m) && Chain(n, p, m, b, y)
    decreases |a|
  {
    var all := a + [m] + b;
    if a == [] {
      assert all[0] == m && all[1..] == b;
    } else {
      assert all[0] == a[0] && all[1..] == a[1..] + [m] + b;
      ChainSplit(n, p, a[0], a[1..], m, b, y);
    }
  }

  /** A chain ends with a link. */
  lemma {:induction false} ChainEnds(n: Links, p: Links, x: Element, s: seq<Element>, y: Element)
    requires Chain(n, p, x, s, y)
    ensures x in n && n[x] == First(s, y) && y in p && p[y] == Last(x, s)
    decreases |s|
  {
    if s != [] { ChainEnds(n, p, s[0], s[1..], y); }
  }

  // ----- linking in and out -----

  /** Only the links around the place between `at` and `n` differ. */
  ghost predicate LinksIn(n: Links, p: Links, n': Links, p': Links, at: Element, e: Element, y: Element) {
    && (forall z :: z in n && z != at && z != e ==> z in n' && n'[z] == n[z])
    && (forall z :: z in p && z != y && z != e ==> z in p' && p'[z] == p[z])
    && at in n' && n'[at] == e && e in p' && p'[e] == at
    && e in n' && n'[e] == y && y in p' && p'[y] == e
  }

  lemma {:induction false} InsertFirst(n: Links, p: Links, n': Links, p': Links, x: Element, e: Element,
                                       b: seq<Element>, y: Element)
    requires Chain(n, p, x, b, y) && LinksIn(n, p, n', p', x, e, First(b, y))
    requires Distinct(y, b) && x !in b && e != y && e !in b
    ensures Chain(n', p', x, [e] + b, y)
  {
    assert ([e] + b)[1..] == b;
    if b != [] {
      assert b == [b[0]] + b[1..];
      Apart(y, [b[0]], b[1..]);
      assert forall z :: z in b[1..] ==> z in b;
      assert b[0] in [b[0]];
      ChainFrame(n, p, n', p', b[0], b[1..], y);
    }
  }

  lemma {:induction false} InsertChain(n: Links, p: Links, n': Links, p': Links, root: Element, a: seq<Element>,
                                       e: Element, b: seq<Element>)
    requires Chain(n, p, root, a + b, root) && LinksIn(n, p, n', p', Last(root, a), e, First(b, root))
    requires Distinct(root, a + b) && e != root && e !in a + b
    ensures Chain(n', p', root, a + [e] + b, root)
  {
    hide Chain, LinksIn, Distinct;
    Apart(root, a, b);
    if a == [] {
      assert a + b == b && a + [e] + b == [e] + b;
      RootIsNotIn(root, b);
      InsertFirst(n, p, n', p', root, e, b, root);
    } else {
      var init, at := a[..|a| - 1], a[|a| - 1];
      assert a == init + [at];
      assert a + b == init + [at] + b && a + [e] + b == init + [at] + ([e] + b);
      ChainSplit(n, p, root, init, at, b, root);
      ChainSplit(n', p', root, init, at, [e] + b, root);
      Apart(root, init, [at]);
      assert at in a;
      InsertFirst(n, p, n', p', at, e, b, root);
      FrontFrame(n, p, n', p', root, init, at, e, b);
    }
  }

  lemma {:induction false} RootIsNotIn(root: Element, b: seq<Element>)
    requires Distinct(root, b)
    ensures root !in b
  {}

  lemma {:induction false} FrontFrame(n: Links, p: Links, n': Links, p': Links, root: Element, a: seq<Element>,
                                      at: Element, e: Element, b: seq<Element>)
    requires Chain(n, p, root, a, at) && LinksIn(n, p, n', p', at, e, First(b, root))
    requires Distinct(root, a + [at] + b) && e != root && e !in a + [at] + b
    ensures Chain(n', p', root, a, at)
  {
    Apart(root, a + [at], b);
    Apart(root, a, [at]);
    assert at in [at] && at in a + [at];
    assert forall z :: z in a ==> z in a + [at];
    ChainFrame(n, p, n', p', root, a, at);
  }

  ghost predicate LinksOut(n: Links, p: Links, n': Links, p': Links, at: Element, e: Element, y: Element) {
    && (forall z :: z in n && z != at && z != e ==> z in n' && n'[z] == n[z])
    && (forall z :: z in p && z != y && z != e ==> z in p' && p'[z] == p[z])
    && at in n' && n'[at] == y && y in p' && p'[y] == at
  }

  lemma {:induction false} RemoveFirst(n: Links, p: Links, n': Links, p': Links, x: Element, e: Element,
                                       b: seq<Element>, y: Element)
    requires Chain(n, p, e, b, y) && LinksOut(n, p, n', p', x, e, First(b, y))
    requires Distinct(y, b) && x !in b && e != y && e !in b
    ensures Chain(n', p', x, b, y)
  {
    if b != [] {
      assert b == [b[0]] + b[1..];
      Apart(y, [b[0]], b[1..]);
      assert forall z :: z in b[1..] ==> z in b;
      assert b[0] in [b[0]];
      ChainFrame(n, p, n', p', b[0], b[1..], y);
    }
  }

  lemma {:induction false} RemoveChain(n: Links, p: Links, n': Links, p': Links, root: Element, a: seq<Element>,
                                       e: Element, b: seq<Element>)
    requires Chain(n, p, root, a + [e] + b, root) && LinksOut(n, p, n', p', Last(root, a), e, First(b, root))
    requires Distinct(root, a + [e] + b)
    ensures Chain(n', p', root, a + b, root)
  {
    hide Chain, LinksOut, Distinct;
    DistinctRemove(root, a, e, b);
    Apart(root, a, b);
    ChainSplit(n, p, root, a, e, b, root);
    RootIsNotIn(root, b);
    if a == [] {
      assert a + b == b;
      RemoveFirst(n, p, n', p', root, e, b, root);
    } else {
      var init, at := a[..|a| - 1], a[|a| - 1];
      assert a == init + [at] && a == init + [at] + [];
      assert a + b == init + [at] + b;
      ChainSplit(n, p, root, init, at, [], e);
      ChainSplit(n', p', root, init, at, b, root);
      assert at in a;
      RemoveFirst(n, p, n', p', at, e, b, root);
      FrontFrameOut(n, p, n', p', root, init, at, e, b);
    }
  }

  lemma {:induction false} FrontFrameOut(n: Links, p: Links, n': Links, p': Links, root: Element, a: seq<Element>,
                                         at: Element, e: Element, b: seq<Element>)
    requires Chain(n, p, root, a, at) && LinksOut(n, p, n', p', at, e, First(b, root))
    requires Distinct(root, a + [at] + b) && e != root && e !in a + [at] + b
    ensures Chain(n', p', root, a, at)
  {
    Apart(root, a + [at], b);
    Apart(root, a, [at]);
    assert at in [at] && at in a + [at];
    assert forall z :: z in a ==> z in a + [at];
    ChainFrame(n, p, n', p', root, a, at);
  }

  /** The links around a place in the ring. */
  lemma {:induction false} LinksAt(n: Links, p: Links, root: Element, a: seq<Element>, b: seq<Element>)
    requires Chain(n, p, root, a + b, root)
    ensures var at, y := Last(root, a), First(b, root); at in n && n[at] == y && y in p && p[y] == at
  {
    if a == [] {
      assert a + b == b;
      LinkBack(n, p, root, b, root);
    } else {
      var init, at := a[..|a| - 1], a[|a| - 1];
      assert a + b == init + [at] + b;
      ChainSplit(n, p, root, init, at, b, root);
      LinkBack(n, p, at, b, root);
    }
  }

  lemma {:induction false} LinkBack(n: Links, p: Links, x: Element, s: seq<Element>, y: Element)
    requires Chain(n, p, x, s, y)
    ensures x in n && n[x] == First(s, y) && First(s, y) in p && p[First(s, y)] == x
  {}

  // ----- the list -----

  ghost function NextOf(nodes: set<Element>): Links
    reads nodes`next
  {
    map x | x in nodes :: x.next
  }

  ghost function PrevOf(nodes: set<Element>): Links
    reads nodes`prev
  {
    map x | x in nodes :: x.prev
  }

  ghost function Nodes(root: Element, elements: seq<Element>): set<Element> { {root} + set x | x in elements }

  class List {
    const root: Element
    var len: nat
    ghost var elements: seq<Element>

    ghost predicate IsRing()
      reads this, Nodes(root, elements)
    {
      Chain(NextOf(Nodes(root, elements)), PrevOf(Nodes(root, elements)), root, elements, root)
    }

    /** The ring is closed, or the list is empty and was never used. */
    ghost predicate Valid()
      reads this, Nodes(root, elements)
    {
      && len == |elements| && Distinct(root, elements) && root.list == null
      && (forall x :: x in elements ==> x.list == this)
      && if root.next == null then elements == [] else IsRing()
    }

    /** The zero list. */
    constructor ()
      ensures Valid() && elements == [] && fresh(root)
    {
      root := new Element(ByteInterval(0, 0));
      len, elements := 0, [];
    }

    /** Clears the list, whatever it holds; the elements themselves are not touched. */
    method Init()
      requires Valid()
      modifies this, root
      ensures Valid() && elements == [] && IsRing() && root.next != null
    {
      root.next := root;
      root.prev := root;
      len, elements := 0, [];
    }

    method LazyInit()
      requires Valid()
      modifies this, root
      ensures Valid() && elements == old(elements) && root.next != null && IsRing()
      ensures forall x :: x in elements ==> x.value == old(x.value)
    {
      if root.next == null {
        Init();
      }
    }

    method Front() returns (e: Element?)
      requires Valid()
      ensures e == if elements == [] then null else elements[0]
    {
      if len == 0 { return null; }
      ghost var nodes := Nodes(root, elements);
      assert [] + elements == elements;
      LinksAt(NextOf(nodes), PrevOf(nodes), root, [], elements);
      return root.next;
    }

    method Back() returns (e: Element?)
      requires Valid()
      ensures e == if elements == [] then null else elements[|elements| - 1]
    {
      if len == 0 { return null; }
      ghost var nodes := Nodes(root, elements);
      assert elements + [] == elements;
      LinksAt(NextOf(nodes), PrevOf(nodes), root, elements, []);
      return root.prev;
    }

    lemma {:induction false} RingMeans(nodes: set<Element>)
      requires nodes == Nodes(root, elements)
      ensures IsRing() <==> Chain(NextOf(nodes), PrevOf(nodes), root, elements, root)
    {}

    /** The links when `e` is put between `a` and `b`. */
    method LinkIn(e: Element, at: Element, ghost a: seq<Element>, ghost b: seq<Element>)
      requires IsRing() && elements == a + b && Distinct(root, elements) && at == Last(root, a) && e != root
               && e !in elements
      modifies root`next, root`prev, elements`next, elements`prev, e`next, e`prev
      ensures var nodes := Nodes(root, elements) + {e}; Chain(NextOf(nodes), PrevOf(nodes), root, a + [e] + b, root)
      ensures root.next != null
    {
      hide Chain, Distinct, LinksIn, IsRing, NextOf, PrevOf;
      ghost var before := Nodes(root, elements);
      ghost var nx, pv := NextOf(before), PrevOf(before);
      RingMeans(before);
      LinksAt(nx, pv, root, a, b);
      LinksMean(before);
      var n := LinkAfter(at, e);
      InsertedLinks(nx, pv, before, at, e, n);
      InsertChain(nx, pv, NextOf(before + {e}), PrevOf(before + {e}), root, a, e, b);
      ChainEnds(NextOf(before + {e}), PrevOf(before + {e}), root, a + [e] + b, root);
      LinksMean(before + {e});
    }

    /** Puts `e` behind `at`, the last of the first `k` nodes. */
    method Insert(e: Element, at: Element, ghost k: nat)
      requires Valid() && root.next != null && k <= |elements| && at == Last(root, elements[..k])
      requires e.list == null && e != root
      modifies this, root, elements, e
      ensures Valid() && root.next != null
      ensures elements == old(elements[..k]) + [e] + old(elements[k..])
      ensures e.value == old(e.value) && forall x :: x in old(elements) ==> x.value == old(x.value)
    {
      hide Chain, Distinct, IsRing, NextOf, PrevOf;
      ghost var a, b, nodes := elements[..k], elements[k..], Nodes(root, elements) + {e};
      assert elements == a + b && e !in elements;
      LinkIn(e, at, a, b);
      e.list := this;
      len := len + 1;
      elements := a + [e] + b;
      DistinctInsert(root, a, e, b);
      assert Nodes(root, elements) == nodes;
      RingMeans(nodes);
    }

    /** The links when `e` is taken out from between `a` and `b`. */
    method LinkOut(e: Element, ghost a: seq<Element>, ghost b: seq<Element>)
      requires IsRing() && elements == a + [e] + b && Distinct(root, elements)
      modifies root`next, root`prev, elements`next, elements`prev
      ensures var nodes := Nodes(root, elements) - {e}; Chain(NextOf(nodes), PrevOf(nodes), root, a + b, root)
      ensures root.next != null && e.next == null && e.prev == null
    {
      hide Chain, Distinct, LinksOut, IsRing, NextOf, PrevOf;
      ghost var before := Nodes(root, elements);
      ghost var nx, pv := NextOf(before), PrevOf(before);
      assert a + [e] + b == a + ([e] + b) && a + [e] + b == (a + [e]) + b;
      RingMeans(before);
      LinksAt(nx, pv, root, a, [e] + b);
      LinksAt(nx, pv, root, a + [e], b);
      DistinctRemove(root, a, e, b);
      LinksMean(before);
      ghost var left := before - {e};
      Unlink(e);
      RemovedLinks(nx, pv, before, left, Last(root, a), e, First(b, root));
      RemoveChain(nx, pv, NextOf(left), PrevOf(left), root, a, e, b);
      ChainEnds(NextOf(left), PrevOf(left), root, a + b, root);
      LinksMean(left);
    }

    /** Takes the element at position `k` out of the ring. */
    method RemoveAt(e: Element, ghost k: nat)
      requires Valid() && k < |elements| && e == elements[k]
      modifies this, root, elements
      ensures Valid() && root.next != null
      ensures elements == old(elements[..k]) + old(elements[k + 1..])
      ensures e.list == null && e.next == null && e.prev == null
      ensures forall x :: x in old(elements) ==> x.value == old(x.value)
    {
      hide Chain, Distinct, IsRing, NextOf, PrevOf;
      ghost var a, b, nodes := elements[..k], elements[k + 1..], Nodes(root, elements) - {e};
      assert elements == a + [e] + b;
      DistinctRemove(root, a, e, b);
      LinkOut(e, a, b);
      e.list := null;
      len := len - 1;
      elements := a + b;
      assert Nodes(root, elements) == nodes;
      RingMeans(nodes);
    }

    /** Takes `e` out of the list if it is in it.  What is not in this list does not name it. */
    method Remove(e: Element) returns (v: ByteInterval)
      requires Valid() && (e.list == this ==> e in elements)
      modifies this, root, elements
      ensures Valid() && v == old(e.value)
      ensures e !in old(elements) ==> elements == old(elements)
      ensures forall k :: 0 <= k < |old(elements)| && old(elements)[k] == e ==>
                elements == old(elements)[..k] + old(elements)[k + 1..] && e.list == null
      ensures forall x :: x in old(elements) ==> x.value == old(x.value)
    {
      if e.list == this {
        ghost var k :| 0 <= k < |elements| && elements[k] == e;
        RemoveAt(e, k);
      }
      return e.value;
    }

    method PushFront(v: ByteInterval) returns (e: Element)
      requires Valid()
      modifies this, root, elements
      ensures Valid() && fresh(e) && e.value == v && elements == [e] + old(elements)
      ensures forall x :: x in old(elements) ==> x.value == old(x.value)
    {
      hide Chain, Distinct;
      LazyInit();
      e := new Element(v);
      assert elements[..0] == [];
      Insert(e, root, 0);
      assert elements == [e] + old(elements);
    }

    method PushBack(v: ByteInterval) returns (e: Element)
      requires Valid()
      modifies this, root, elements
      ensures Valid() && fresh(e) && e.value == v && elements == old(elements) + [e]
      ensures forall x :: x in old(elements) ==> x.value == old(x.value)
    {
      hide Chain, Distinct, IsRing;
      LazyInit();
      ghost var nodes, n := Nodes(root, elements), |elements|;
      assert elements + [] == elements && elements[..n] == elements;
      RingMeans(nodes);
      LinksAt(NextOf(nodes), PrevOf(nodes), root, elements, []);
      e := new Element(v);
      Insert(e, root.prev, n);
      assert elements == old(elements) + [e];
    }

    /** Nothing happens if `mark` is not in the list. */
    method InsertAfter(v: ByteInterval, mark: Element) returns (e: Element?)
      requires Valid() && (mark.list == this ==> mark in elements)
      modifies this, root, elements
      ensures Valid()
      ensures mark !in old(elements) ==> e == null && elements == old(elements)
      ensures forall k :: 0 <= k < |old(elements)| && old(elements)[k] == mark ==>
                e != null && fresh(e) && e.value == v && elements == old(elements)[..k + 1] + [e]
                    + old(elements)[k + 1..]
      ensures forall x :: x in old(elements) ==> x.value == old(x.value)
    {
      hide Chain;
      if mark.list != this { return null; }
      ghost var k :| 0 <= k < |elements| && elements[k] == mark;
      e := new Element(v);
      Insert(e, mark, k + 1);
    }

    method InsertBefore(v: ByteInterval, mark: Element) returns (e: Element?)
      requires Valid() && (mark.list == this ==> mark in elements)
      modifies this, root, elements
      ensures Valid()
      ensures mark !in old(elements) ==> e == null && elements == old(elements)
      ensures forall k :: 0 <= k < |old(elements)| && old(elements)[k] == mark ==>
                e != null && fresh(e) && e.value == v && elements == old(elements)[..k] + [e] + old(elements)[k..]
      ensures forall x :: x in old(elements) ==> x.value == old(x.value)
    {
      hide Chain, IsRing;
      if mark.list != this { return null; }
      ghost var k :| 0 <= k < |elements| && elements[k] == mark;
      ghost var nodes := Nodes(root, elements);
      assert elements == elements[..k] + elements[k..];
      RingMeans(nodes);
      LinksAt(NextOf(nodes), PrevOf(nodes), root, elements[..k], elements[k..]);
      e := new Element(v);
      Insert(e, mark.prev, k);
    }
  }

  /** The assignments that take `e` out. */
  method Unlink(e: Element)
    requires e.next != null && e.prev != null && e.prev != e && e.next != e
    modifies e.prev`next, e.next`prev, e`next, e`prev
    ensures e.next == null && e.prev == null
    ensures old(e.prev).next == old(e.next) && old(e.next).prev == old(e.prev)
  {
    e.prev.next := e.next;
    e.next.prev := e.prev;
    e.next := null;
    e.prev := null;
  }

  lemma {:induction false} RemovedLinks(nx: Links, pv: Links, nodes: set<Element>, left: set<Element>, at: Element,
                                        e: Element, n: Element)
    requires nx.Keys == nodes && pv.Keys == nodes && left == nodes - {e} && at in left && n in left
    requires forall z :: z in left && z != at ==> z.next == nx[z]
    requires forall z :: z in left && z != n ==> z.prev == pv[z]
    requires at.next == n && n.prev == at
    ensures LinksOut(nx, pv, NextOf(left), PrevOf(left), at, e, n)
  {}

  /** The four assignments that link `e` in behind `at`. */
  method LinkAfter(at: Element, e: Element) returns (n: Element)
    requires at.next != null && e != at && e != at.next
    modifies at`next, e`next, e`prev, at.next`prev
    ensures n == old(at.next) && at.next == e && e.prev == at && e.next == n && n.prev == e
  {
    n := at.next;
    at.next := e;
    e.prev := at;
    e.next := n;
    n.prev := e;
  }

  lemma {:induction false} LinksMean(nodes: set<Element>)
    ensures NextOf(nodes).Keys == nodes && PrevOf(nodes).Keys == nodes
    ensures forall z :: z in nodes ==> NextOf(nodes)[z] == z.next && PrevOf(nodes)[z] == z.prev
  {}

  lemma {:induction false} InsertedLinks(nx: Links, pv: Links, nodes: set<Element>, at: Element, e: Element, n: Element)
    requires nx.Keys == nodes && pv.Keys == nodes && e !in nodes && at in nodes && n in nodes
    requires forall z :: z in nodes && z != at ==> z.next == nx[z]
    requires forall z :: z in nodes && z != n ==> z.prev == pv[z]
    requires at.next == e && e.prev == at && e.next == n && n.prev == e
    ensures LinksIn(nx, pv, NextOf(nodes + {e}), PrevOf(nodes + {e}), at, e, n)
  {}
}
