/**
 * A doubly-linked list of heap nodes with a cursor that can walk it, insert on either
 * side of the current node and take the current node out. `Nodes` is the list's ghost
 * view: its nodes front to back; `Items()` their items.
 */
module LinkedLists {
  import opened Wrappers

  class Node<T> {
    const item: T
    /** Toward the back of the list. */
    var next: Node?<T>
    /** Toward the front of the list. */
    var prev: Node?<T>

    /** `Node::new`: a node linked to nothing. */
    constructor (item: T)
      ensures this.item == item && next == null && prev == null
    {
      this.item := item;
      next := null;
      prev := null;
    }
  }

  /** The node after position `i` of `nodes`, or null after the last. */
  function After<T>(nodes: seq<Node<T>>, i: nat): Node?<T> {
    if i + 1 < |nodes| then nodes[i + 1] else null
  }

  /** The node at position `i` of `nodes`, or null past the last. */
  function At<T>(nodes: seq<Node<T>>, i: nat): Node?<T> {
    if i < |nodes| then nodes[i] else null
  }

  /** The node before position `i` of `nodes`, or null before the first. */
  function Before<T>(nodes: seq<Node<T>>, i: nat): Node?<T>
    requires i <= |nodes|
  {
    if 0 < i then nodes[i - 1] else null
  }

  /** Each node of `nodes` links to its neighbours in `nodes`, and the ends to nothing. */
  ghost predicate Linked<T>(nodes: seq<Node<T>>)
    reads nodes
  {
    forall i :: 0 <= i < |nodes| ==> At(nodes, i) != null && At(nodes, i).next == After(nodes, i) && At(nodes, i).prev == Before(nodes, i)
  }

  /** No node occurs twice in `nodes`. */
  ghost predicate Distinct<T>(nodes: seq<Node<T>>) {
    forall i, j :: 0 <= i < j < |nodes| ==> At(nodes, i) != At(nodes, j)
  }

  lemma DistinctRemove<T>(nodes: seq<Node<T>>, k: nat)
    requires Distinct(nodes) && k < |nodes|
    ensures Distinct(nodes[..k] + nodes[k + 1..])
  {
    var rest := nodes[..k] + nodes[k + 1..];
    forall i, j | 0 <= i < j < |rest|
      ensures At(rest, i) != At(rest, j)
    {
      var i' := if i < k then i else i + 1;
      var j' := if j < k then j else j + 1;
      assert At(rest, i) == At(nodes, i') && At(rest, j) == At(nodes, j');
    }
  }

  /** Where the ends of `nodes` and its neighbours of `k` are once the node at `k` is cut out. */
  lemma RemoveEnds<T>(nodes: seq<Node<T>>, k: nat)
    requires k < |nodes|
    ensures var rest := nodes[..k] + nodes[k + 1..];
      && |rest| == |nodes| - 1
      && (rest != [] ==> rest[0] == (if k == 0 then nodes[1] else nodes[0]))
      && (rest != [] ==> rest[|rest| - 1] == (if k + 1 == |nodes| then nodes[k - 1] else nodes[|nodes| - 1]))
      && (k + 1 < |nodes| ==> rest[k] == nodes[k + 1])
      && (0 < k ==> rest[k - 1] == nodes[k - 1])
  {
  }

  /** Where the ends of `nodes` are once `n` is linked in at `k`. */
  lemma InsertEnds<T>(nodes: seq<Node<T>>, k: nat, n: Node<T>)
    requires k <= |nodes|
    ensures var grown := nodes[..k] + [n] + nodes[k..];
      && |grown| == |nodes| + 1 && grown[k] == n
      && grown[0] == (if k == 0 then n else nodes[0])
      && grown[|grown| - 1] == (if k == |nodes| then n else nodes[|nodes| - 1])
  {
  }

  lemma DistinctInsert<T>(nodes: seq<Node<T>>, k: nat, n: Node<T>)
    requires Distinct(nodes) && k <= |nodes| && n !in nodes
    ensures Distinct(nodes[..k] + [n] + nodes[k..])
  {
    var grown := nodes[..k] + [n] + nodes[k..];
    forall i, j | 0 <= i < j < |grown|
      ensures At(grown, i) != At(grown, j)
    {
      var i' := if i < k then i else i - 1;
      var j' := if j < k then j else j - 1;
      if i == k {
        assert At(grown, j) == nodes[j'];
      } else if j == k {
        assert At(grown, i) == nodes[i'];
      } else {
        assert At(grown, i) == At(nodes, i') && At(grown, j) == At(nodes, j');
      }
    }
  }

  /**
   * Cut the node at `k` out of the linked `nodes` by linking its neighbours `prev` and
   * `next` to each other; the rest stay linked in order.
   */
  method Relink<T>(ghost nodes: seq<Node<T>>, ghost k: nat, prev: Node?<T>, next: Node?<T>)
    requires k < |nodes| && Linked(nodes) && Distinct(nodes)
    requires prev == Before(nodes, k) && next == After(nodes, k)
    modifies prev, next
    ensures Linked(nodes[..k] + nodes[k + 1..])
  {
    if next != null {
      next.prev := prev;
    }
    if prev != null {
      prev.next := next;
    }
    var rest := nodes[..k] + nodes[k + 1..];
    forall i | 0 <= i < |rest|
      ensures At(rest, i) != null && At(rest, i).next == After(rest, i) && At(rest, i).prev == Before(rest, i)
    {
      var j := if i < k then i else i + 1;
      assert At(rest, i) == At(nodes, j);
      assert k == 0 || prev == At(nodes, k - 1);
      assert next == At(nodes, k + 1);
    }
  }

  /**
   * Link the new node `n` in between `prev` and `next`, the nodes at `k - 1` and `k` of
   * the linked `nodes`; the grown sequence is linked in order.
   */
  method Splice<T>(ghost nodes: seq<Node<T>>, ghost k: nat, prev: Node?<T>, n: Node<T>, next: Node?<T>)
    requires k <= |nodes| && Linked(nodes) && Distinct(nodes) && n !in nodes
    requires prev == Before(nodes, k) && next == At(nodes, k)
    modifies prev, n, next
    ensures Linked(nodes[..k] + [n] + nodes[k..])
  {
    n.prev := prev;
    n.next := next;
    if next != null {
      next.prev := n;
    }
    if prev != null {
      prev.next := n;
    }
    var grown := nodes[..k] + [n] + nodes[k..];
    forall i | 0 <= i < |grown|
      ensures At(grown, i) != null && At(grown, i).next == After(grown, i) && At(grown, i).prev == Before(grown, i)
    {
      if i != k {
        var j := if i < k then i else i - 1;
        assert At(grown, i) == At(nodes, j);
        assert k == 0 || prev == At(nodes, k - 1);
        assert next == At(nodes, k);
      }
    }
  }

  /** The items of `nodes`, in order. */
  function ItemsOf<T>(nodes: seq<Node<T>>): seq<T> {
    seq(|nodes|, i requires 0 <= i < |nodes| => nodes[i].item)
  }

  /** Unlinking the node at `k` drops its item and keeps the others in order. */
  lemma ItemsOfRemove<T>(nodes: seq<Node<T>>, k: nat)
    requires k < |nodes|
    ensures ItemsOf(nodes[..k] + nodes[k + 1..]) == ItemsOf(nodes)[..k] + ItemsOf(nodes)[k + 1..]
  {
  }

  /** Linking a node in at `k` puts its item at `k` and keeps the others in order. */
  lemma ItemsOfInsert<T>(nodes: seq<Node<T>>, k: nat, n: Node<T>)
    requires k <= |nodes|
    ensures ItemsOf(nodes[..k] + [n] + nodes[k..]) == ItemsOf(nodes)[..k] + [n.item] + ItemsOf(nodes)[k..]
  {
  }

  class LinkedList<T> {
    var front: Node?<T>
    var back: Node?<T>
    var len: nat
    ghost var Nodes: seq<Node<T>>

    /** Each node links to its neighbours in `Nodes`; `front` and `back` are its ends; `len` counts it. */
    ghost predicate Valid()
      reads this, Nodes
    {
      && len == |Nodes|
      && front == (if Nodes == [] then null else Nodes[0])
      && back == (if Nodes == [] then null else Nodes[|Nodes| - 1])
      && Linked(Nodes)
      && Distinct(Nodes)
    }

    ghost function Items(): seq<T>
      reads this
    {
      ItemsOf(Nodes)
    }

    /** `LinkedList::new`: the empty list. */
    constructor ()
      ensures Valid() && Nodes == [] && Items() == []
    {
      front := null;
      back := null;
      len := 0;
      Nodes := [];
    }

    /** `count`: walk the `next` links from `front`, one item per node reached. */
    method Count() returns (n: nat)
      requires Valid()
      ensures n == |Items()|
    {
      n := 0;
      var p := front;
      while p != null
        invariant n <= |Nodes|
        invariant p == (if n < |Nodes| then Nodes[n] else null)
        decreases |Nodes| - n
      {
        assert At(Nodes, n) == p;
        p := p.next;
        n := n + 1;
      }
    }

    /** `len`: the stored length, which is the number of nodes reachable from `front`. */
    method Len() returns (n: nat)
      requires Valid()
      ensures n == |Items()|
    {
      var counted := Count();
      assert len == counted;
      return len;
    }

    /** `is_empty`. */
    function IsEmpty(): (r: bool)
      reads this, Nodes
      requires Valid()
      ensures r <==> Items() == []
    {
      len == 0
    }

    /** `front`: the first item, none when the list is empty. */
    function Front(): (r: Option<T>)
      reads this, Nodes
      requires Valid()
      ensures r == if Items() == [] then None else Some(Items()[0])
    {
      if front == null then None else Some(front.item)
    }

    /** `back`: the last item, none when the list is empty. */
    function Back(): (r: Option<T>)
      reads this, Nodes
      requires Valid()
      ensures r == if Items() == [] then None else Some(Items()[|Items()| - 1])
    {
      if back == null then None else Some(back.item)
    }

    /** `cursor_front`: a cursor on the first item, or on nothing when the list is empty. */
    method CursorFront() returns (c: Cursor<T>)
      requires Valid()
      ensures fresh(c) && c.ll == this && c.Valid()
      ensures Nodes == [] ==> c.ptr == null
      ensures Nodes != [] ==> c.ptr != null && c.Index == 0
    {
      c := new Cursor(this, front, 0);
    }

    /** `cursor_back`: a cursor on the last item, or on nothing when the list is empty. */
    method CursorBack() returns (c: Cursor<T>)
      requires Valid()
      ensures fresh(c) && c.ll == this && c.Valid()
      ensures Nodes == [] ==> c.ptr == null
      ensures Nodes != [] ==> c.ptr != null && c.Index == |Nodes| - 1
    {
      c := new Cursor(this, back, if Nodes == [] then 0 else |Nodes| - 1);
    }

    /** `push_back`: insert after a cursor on the last item. */
    method PushBack(x: T)
      requires Valid()
      modifies this, set n | n in Nodes
      ensures Valid()
      ensures Items() == old(Items()) + [x]
      ensures forall n :: n in Nodes ==> n in old(Nodes) || fresh(n)
    {
      var c := CursorBack();
      c.InsertAfter(x);
      assert old(Items()) == old(Items())[..|old(Items())|];
    }

    /** `push_front`: insert before a cursor on the first item. */
    method PushFront(x: T)
      requires Valid()
      modifies this, set n | n in Nodes
      ensures Valid()
      ensures Items() == [x] + old(Items())
      ensures forall n :: n in Nodes ==> n in old(Nodes) || fresh(n)
    {
      var c := CursorFront();
      c.InsertBefore(x);
      assert old(Items()) == old(Items())[0..];
    }

    /** `pop_back`: take the item under a cursor on the last item. */
    method PopBack() returns (r: Option<T>)
      requires Valid()
      modifies this, set n | n in Nodes
      ensures Valid()
      ensures old(Items()) == [] ==> r == None && Items() == []
      ensures old(Items()) != [] ==> r == Some(old(Items())[|old(Items())| - 1]) && Items() == old(Items())[..|old(Items())| - 1]
    {
      var c := CursorBack();
      r := c.Take();
    }

    /** `pop_front`: take the item under a cursor on the first item. */
    method PopFront() returns (r: Option<T>)
      requires Valid()
      modifies this, set n | n in Nodes
      ensures Valid()
      ensures old(Items()) == [] ==> r == None && Items() == []
      ensures old(Items()) != [] ==> r == Some(old(Items())[0]) && Items() == old(Items())[1..]
    {
      var c := CursorFront();
      r := c.Take();
    }

    /**
     * Cut `node`, the node at `k`, out of the list: its neighbours link to each other,
     * or `front`/`back` move past it when it is an end, and `len` drops by one.
     */
    method Unlink(ghost k: nat, node: Node<T>)
      requires Valid() && k < |Nodes| && Nodes[k] == node
      modifies this, Nodes
      ensures Valid() && Nodes == old(Nodes)[..k] + old(Nodes)[k + 1..]
    {
      assert At(Nodes, k) == node;
      var next, prev := node.next, node.prev;
      var oldFront, oldBack, oldLen := front, back, len;
      ghost var nodes := Nodes;
      DistinctRemove(nodes, k);
      RemoveEnds(nodes, k);
      Relink(nodes, k, prev, next);
      front, back, len, Nodes :=
        if prev == null then next else oldFront,
        if next == null then prev else oldBack,
        oldLen - 1,
        nodes[..k] + nodes[k + 1..];
    }

    /**
     * Link the new node `n` in at `k`, between `prev` and `next`, or as `front`/`back`
     * where either is missing; `len` grows by one.
     */
    method Link(ghost k: nat, prev: Node?<T>, n: Node<T>, next: Node?<T>)
      requires Valid() && k <= |Nodes| && n !in Nodes
      requires prev == Before(Nodes, k) && next == At(Nodes, k)
      modifies this, Nodes, n
      ensures Valid() && Nodes == old(Nodes)[..k] + [n] + old(Nodes)[k..]
    {
      var oldFront, oldBack, oldLen := front, back, len;
      ghost var nodes := Nodes;
      DistinctInsert(nodes, k, n);
      InsertEnds(nodes, k, n);
      Splice(nodes, k, prev, n, next);
      front, back, len, Nodes :=
        if prev == null then n else oldFront,
        if next == null then n else oldBack,
        oldLen + 1,
        nodes[..k] + [n] + nodes[k..];
    }

    /** `iter`: an iterator from the front. */
    method Iter() returns (it: Iter<T>)
      requires Valid()
      ensures fresh(it) && it.ll == this && it.Valid() && it.Index == 0
    {
      it := new Iter(this, front, 0);
    }

    /** Draining `iter` gives the items front to back. */
    method Elements() returns (items: seq<T>)
      requires Valid()
      ensures items == Items()
    {
      var it := Iter();
      items := [];
      while true
        invariant it.Valid() && it.ll == this && items == Items()[..it.Index]
        decreases |Nodes| - it.Index
      {
        var x := it.Next();
        if x.None? {
          return;
        }
        items := items + [x.value];
      }
    }
  }

  /** `from_iter`: push each item to the back of a new list; the list holds them in order. */
  method FromIter<T>(xs: seq<T>) returns (list: LinkedList<T>)
    ensures fresh(list) && list.Valid() && list.Items() == xs
  {
    list := new LinkedList();
    for i := 0 to |xs|
      invariant fresh(list) && list.Valid() && list.Items() == xs[..i]
      invariant forall n :: n in list.Nodes ==> fresh(n)
    {
      list.PushBack(xs[i]);
      assert xs[..i + 1] == xs[..i] + [xs[i]];
    }
  }

  /** A push at the back followed by a pop at the back returns the pushed item and the list it started from. */
  method PushPopBack<T>(list: LinkedList<T>, x: T) returns (r: Option<T>)
    requires list.Valid()
    modifies list, set n | n in list.Nodes
    ensures list.Valid() && r == Some(x) && list.Items() == old(list.Items())
  {
    list.PushBack(x);
    r := list.PopBack();
    assert (old(list.Items()) + [x])[..|old(list.Items())|] == old(list.Items());
  }

  /** Pushing at the back and popping at the front is first in, first out. */
  method PushBackPopFront<T>(list: LinkedList<T>, x: T) returns (r: Option<T>)
    requires list.Valid()
    modifies list, set n | n in list.Nodes
    ensures list.Valid()
    ensures r == Some((old(list.Items()) + [x])[0])
    ensures list.Items() == (old(list.Items()) + [x])[1..]
  {
    list.PushBack(x);
    r := list.PopFront();
  }

  /**
   * The unit test `cursor_insert_after_in_middle`, for any list of at least five items:
   * `seek_forward(4)` from the front succeeds, and inserting `xs` back to front after the
   * cursor puts `xs`, in order, between the fifth and sixth items.
   */
  method SeekForwardInsertAfter<T>(list: LinkedList<T>, xs: seq<T>) returns (ok: bool)
    requires list.Valid() && |list.Items()| >= 5
    modifies list, set n | n in list.Nodes
    ensures ok
    ensures list.Valid() && list.Items() == old(list.Items())[..5] + xs + old(list.Items())[5..]
  {
    ghost var s := list.Items();
    var c := list.CursorFront();
    ok := c.SeekForward(4);
    var i := |xs|;
    while i > 0
      invariant 0 <= i <= |xs|
      invariant c.ll == list && c.Valid() && c.ptr != null && c.Index == 4
      invariant list.Items() == s[..5] + xs[i..] + s[5..]
      invariant forall n :: n in list.Nodes ==> n in old(list.Nodes) || fresh(n)
    {
      i := i - 1;
      ghost var before := list.Items();
      c.InsertAfter(xs[i]);
      assert before[..5] == s[..5];
      assert before[5..] == xs[i + 1..] + s[5..];
      assert [xs[i]] + xs[i + 1..] == xs[i..];
    }
  }

  /**
   * The unit test `cursor_insert_before_in_middle`, for any list of at least five items:
   * `seek_backward(4)` from the back succeeds, and inserting `xs` front to back before the
   * cursor puts `xs`, in order, between the items before and from the fifth-last.
   */
  method SeekBackwardInsertBefore<T>(list: LinkedList<T>, xs: seq<T>) returns (ok: bool)
    requires list.Valid() && |list.Items()| >= 5
    modifies list, set n | n in list.Nodes
    ensures ok
    ensures list.Valid()
    ensures list.Items() == old(list.Items())[..|old(list.Items())| - 5] + xs + old(list.Items())[|old(list.Items())| - 5..]
  {
    ghost var s := list.Items();
    ghost var k := |s| - 5;
    var c := list.CursorBack();
    ok := c.SeekBackward(4);
    var i := 0;
    while i < |xs|
      invariant 0 <= i <= |xs|
      invariant c.ll == list && c.Valid() && c.ptr != null && c.Index == k + i
      invariant list.Items() == s[..k] + xs[..i] + s[k..]
      invariant forall n :: n in list.Nodes ==> n in old(list.Nodes) || fresh(n)
    {
      ghost var before := list.Items();
      c.InsertBefore(xs[i]);
      assert before[..k + i] == s[..k] + xs[..i];
      assert before[k + i..] == s[k..];
      assert xs[..i] + [xs[i]] == xs[..i + 1];
      i := i + 1;
    }
    assert xs[..|xs|] == xs;
  }

  /**
   * The unit test `cursor_take`, for any list of more than five items: after
   * `seek_forward(5)` from the front, repeated `take`s return the items from the sixth to
   * the last, then the first five from the fifth back to the first, and empty the list.
   */
  method SeekForwardTakeAll<T>(list: LinkedList<T>) returns (ok: bool, taken: seq<T>)
    requires list.Valid() && |list.Items()| > 5
    modifies list, set n | n in list.Nodes
    ensures ok && list.Valid() && list.Items() == []
    ensures |taken| == |old(list.Items())|
    ensures taken[..|taken| - 5] == old(list.Items())[5..]
    ensures var s := old(list.Items()); taken[|taken| - 5..] == [s[4], s[3], s[2], s[1], s[0]]
  {
    ghost var s := list.Items();
    var len := list.Len();
    var c := list.CursorFront();
    ok := c.SeekForward(5);
    var rest := TakeToBack(c, len - 5);
    var front := TakeToFront(c, 5);
    taken := rest + front;
    assert taken[..|taken| - 5] == rest;
    assert taken[|taken| - 5..] == front;
  }

  /**
   * `count` `take`s from a cursor on the item `count` before the end, past the first
   * item: they return the items from the cursor to the end, in order, and leave the
   * cursor on the last item that remains.
   */
  method TakeToBack<T>(c: Cursor<T>, count: nat) returns (taken: seq<T>)
    requires c.Valid() && c.ptr != null && 0 < c.Index && c.Index + count == |c.ll.Nodes|
    modifies c, c.ll, set n | n in c.ll.Nodes
    ensures c.Valid() && c.ptr != null && c.Index == old(c.Index) - 1
    ensures forall n :: n in c.ll.Nodes ==> n in old(c.ll.Nodes)
    ensures taken == old(c.ll.Items())[old(c.Index)..]
    ensures c.ll.Items() == old(c.ll.Items())[..old(c.Index)]
  {
    ghost var s := c.ll.Items();
    ghost var k := c.Index;
    taken := [];
    var j := 0;
    while j < count
      invariant 0 <= j <= count
      invariant c.Valid() && c.ptr != null
      invariant c.Index == if j < count then k else k - 1
      invariant taken == s[k..k + j] && c.ll.Items() == s[..k] + s[k + j..]
      invariant forall n :: n in c.ll.Nodes ==> n in old(c.ll.Nodes)
    {
      var r := c.Take();
      taken := taken + [r.value];
      assert s[k..k + j] + [s[k + j]] == s[k..k + j + 1];
      j := j + 1;
    }
  }

  /**
   * `count` `take`s from a cursor on the last of `count` items: they return the items
   * from the last back to the first and leave the list empty.
   */
  method TakeToFront<T>(c: Cursor<T>, count: nat) returns (taken: seq<T>)
    requires c.Valid() && c.ptr != null && c.Index + 1 == |c.ll.Nodes| == count
    modifies c, c.ll, set n | n in c.ll.Nodes
    ensures c.Valid() && c.ll.Items() == [] && |taken| == count
    ensures forall i :: 0 <= i < count ==> taken[i] == old(c.ll.Items())[count - 1 - i]
  {
    ghost var s := c.ll.Items();
    taken := [];
    var m := 0;
    while m < count
      invariant 0 <= m <= count
      invariant c.Valid() && (m < count ==> c.ptr != null && c.Index == count - 1 - m)
      invariant |taken| == m && forall i :: 0 <= i < m ==> taken[i] == s[count - 1 - i]
      invariant c.ll.Items() == s[..count - m]
      invariant forall n :: n in c.ll.Nodes ==> n in old(c.ll.Nodes)
    {
      var r := c.Take();
      taken := taken + [r.value];
      m := m + 1;
    }
  }

  /**
   * A cursor over `ll`: on the node `ptr`, at position `Index`, or on nothing when
   * `ptr` is null (an empty list, or a cursor moved off an end).
   */
  class Cursor<T> {
    const ll: LinkedList<T>
    var ptr: Node?<T>
    ghost var Index: nat

    ghost predicate Valid()
      reads this, ll, ll.Nodes
    {
      ll.Valid() && (ptr != null ==> Index < |ll.Nodes| && ll.Nodes[Index] == ptr)
    }

    /** `Cursor::new`. */
    constructor (ll: LinkedList<T>, ptr: Node?<T>, ghost index: nat)
      requires ll.Valid() && (ptr != null ==> index < |ll.Nodes| && ll.Nodes[index] == ptr)
      ensures this.ll == ll && this.ptr == ptr && Index == index && Valid()
    {
      this.ll := ll;
      this.ptr := ptr;
      Index := index;
    }

    /** `elem`: the current item, none when on nothing. */
    function Elem(): (r: Option<T>)
      reads this, ll, ll.Nodes
      requires Valid()
      ensures r == if ptr == null then None else Some(ll.Items()[Index])
    {
      if ptr == null then None else Some(ptr.item)
    }

    /** `peek_next`: the item after the current one, none at the back or when on nothing. */
    function PeekNext(): (r: Option<T>)
      reads this, ll, ll.Nodes
      requires Valid()
      ensures r == if ptr != null && Index + 1 < |ll.Items()| then Some(ll.Items()[Index + 1]) else None
    {
      assert ptr != null ==> At(ll.Nodes, Index) == ptr;
      if ptr == null || ptr.next == null then None else Some(ptr.next.item)
    }

    /** `peek_prev`: the item before the current one, none at the front or when on nothing. */
    function PeekPrev(): (r: Option<T>)
      reads this, ll, ll.Nodes
      requires Valid()
      ensures r == if ptr != null && 0 < Index then Some(ll.Items()[Index - 1]) else None
    {
      assert ptr != null ==> At(ll.Nodes, Index) == ptr;
      if ptr == null || ptr.prev == null then None else Some(ptr.prev.item)
    }

    /** `advance`: step toward the back, off the list after the last item; stay on nothing. */
    method Advance() returns (r: Option<T>)
      requires Valid()
      modifies this
      ensures Valid()
      ensures old(ptr) == null ==> ptr == null
      ensures old(ptr) != null && old(Index) + 1 < |ll.Nodes| ==> ptr != null && Index == old(Index) + 1
      ensures old(ptr) != null && old(Index) + 1 == |ll.Nodes| ==> ptr == null
      ensures r == Elem()
    {
      assert ptr != null ==> At(ll.Nodes, Index) == ptr;
      if ptr != null {
        ptr := ptr.next;
        Index := Index + 1;
      }
      r := Elem();
    }

    /** `retreat`: step toward the front, off the list before the first item; stay on nothing. */
    method Retreat() returns (r: Option<T>)
      requires Valid()
      modifies this
      ensures Valid()
      ensures old(ptr) == null ==> ptr == null
      ensures old(ptr) != null && 0 < old(Index) ==> ptr != null && Index == old(Index) - 1
      ensures old(ptr) != null && old(Index) == 0 ==> ptr == null
      ensures r == Elem()
    {
      assert ptr != null ==> At(ll.Nodes, Index) == ptr;
      if ptr != null {
        ptr := ptr.prev;
        if Index > 0 {
          Index := Index - 1;
        }
      }
      r := Elem();
    }

    /**
     * `seek_forward`: advance up to `n` times, stopping as soon as the cursor is on
     * nothing; true exactly when it is still on an item after all `n` steps, and always
     * for `n == 0`.
     */
    method SeekForward(n: nat) returns (ok: bool)
      requires Valid()
      modifies this
      ensures Valid()
      ensures ok <==> n == 0 || (old(ptr) != null && old(Index) + n < |ll.Nodes|)
      ensures ok && n == 0 ==> ptr == old(ptr) && Index == old(Index)
      ensures ok && n > 0 ==> ptr != null && Index == old(Index) + n
      ensures !ok ==> ptr == null
    {
      ok := true;
      var i := 0;
      while i < n && ok
        invariant Valid() && i <= n
        invariant ok ==> (i == 0 && ptr == old(ptr) && Index == old(Index)) || (ptr != null && old(ptr) != null && Index == old(Index) + i)
        invariant !ok ==> 0 < i && ptr == null && (old(ptr) == null || old(Index) + i >= |ll.Nodes|)
        invariant ptr != null ==> old(ptr) != null
      {
        var e := Advance();
        ok := e.Some?;
        i := i + 1;
      }
    }

    /**
     * `seek_backward`: retreat up to `n` times, stopping as soon as the cursor is on
     * nothing; true exactly when it is still on an item after all `n` steps, and always
     * for `n == 0`.
     */
    method SeekBackward(n: nat) returns (ok: bool)
      requires Valid()
      modifies this
      ensures Valid()
      ensures ok <==> n == 0 || (old(ptr) != null && n <= old(Index))
      ensures ok && n == 0 ==> ptr == old(ptr) && Index == old(Index)
      ensures ok && n > 0 ==> ptr != null && Index == old(Index) - n
      ensures !ok ==> ptr == null
    {
      ok := true;
      var i := 0;
      while i < n && ok
        invariant Valid() && i <= n
        invariant ok ==> (i == 0 && ptr == old(ptr) && Index == old(Index)) || (ptr != null && old(ptr) != null && i <= old(Index) && Index == old(Index) - i)
        invariant !ok ==> 0 < i && ptr == null && (old(ptr) == null || i > old(Index))
        invariant ptr != null ==> old(ptr) != null
      {
        var e := Retreat();
        ok := e.Some?;
        i := i + 1;
      }
    }

    /**
     * `take`: unlink the current node and return its item; the cursor moves to the next
     * node, or to the previous one when it took the last, and `front`/`back` follow when
     * it took an end. On nothing it returns nothing and changes nothing.
     */
    method Take() returns (r: Option<T>)
      requires Valid()
      modifies this, ll, ll.Nodes
      ensures Valid()
      ensures old(ptr) == null ==> r == None && ptr == null && ll.Nodes == old(ll.Nodes)
      ensures old(ptr) != null ==>
        && r == Some(old(ll.Items())[old(Index)])
        && ll.Nodes == old(ll.Nodes)[..old(Index)] + old(ll.Nodes)[old(Index) + 1..]
        && ll.Items() == old(ll.Items())[..old(Index)] + old(ll.Items())[old(Index) + 1..]
      ensures old(ptr) != null && old(Index) + 1 < |old(ll.Nodes)| ==> ptr != null && Index == old(Index)
      ensures old(ptr) != null && old(Index) + 1 == |old(ll.Nodes)| && 0 < old(Index) ==> ptr != null && Index == old(Index) - 1
      ensures old(ptr) != null && |old(ll.Nodes)| == 1 ==> ptr == null
    {
      if ptr == null {
        return None;
      }
      var node := ptr;
      var next := node.next;
      var prev := node.prev;
      ghost var k := Index;
      ghost var nodes := ll.Nodes;
      assert next == After(nodes, k) && prev == Before(nodes, k);
      ll.Unlink(k, node);
      RemoveEnds(nodes, k);
      ItemsOfRemove(nodes, k);
      ptr, Index :=
        if next != null then next else prev,
        if next == null && k > 0 then k - 1 else k;
      r := Some(node.item);
    }

    /**
     * `insert_after`: link a new node holding `x` after the current one; the cursor
     * stays where it is. On an empty list the new node becomes the whole list and the
     * cursor lands on it.
     */
    method InsertAfter(x: T)
      requires Valid()
      requires ptr != null || ll.Nodes == []
      modifies this, ll, ll.Nodes
      ensures Valid() && ptr != null
      ensures old(ptr) == null ==> ll.Items() == [x] && Index == 0
      ensures old(ptr) != null ==>
        && ptr == old(ptr) && Index == old(Index)
        && ll.Items() == old(ll.Items())[..old(Index) + 1] + [x] + old(ll.Items())[old(Index) + 1..]
      ensures forall n :: n in ll.Nodes ==> n in old(ll.Nodes) || fresh(n)
    {
      ghost var nodes := ll.Nodes;
      var n := new Node(x);
      if ptr == null {
        ll.Link(0, null, n, null);
        ptr, Index := n, 0;
      } else {
        ghost var k := Index + 1;
        assert At(ll.Nodes, Index) == ptr;
        ll.Link(k, ptr, n, ptr.next);
        ItemsOfInsert(nodes, k, n);
        assert ll.Nodes[Index] == nodes[Index];
      }
    }

    /**
     * `insert_before`: link a new node holding `x` before the current one; the cursor
     * stays on the same node, now one place further back. On an empty list the new
     * node becomes the whole list and the cursor lands on it.
     */
    method InsertBefore(x: T)
      requires Valid()
      requires ptr != null || ll.Nodes == []
      modifies this, ll, ll.Nodes
      ensures Valid() && ptr != null
      ensures old(ptr) == null ==> ll.Items() == [x] && Index == 0
      ensures old(ptr) != null ==>
        && ptr == old(ptr) && Index == old(Index) + 1
        && ll.Items() == old(ll.Items())[..old(Index)] + [x] + old(ll.Items())[old(Index)..]
      ensures forall n :: n in ll.Nodes ==> n in old(ll.Nodes) || fresh(n)
    {
      ghost var nodes := ll.Nodes;
      var n := new Node(x);
      if ptr == null {
        ll.Link(0, null, n, null);
        ptr, Index := n, 0;
      } else {
        ghost var k := Index;
        assert At(ll.Nodes, Index) == ptr;
        ll.Link(k, ptr.prev, n, ptr);
        ItemsOfInsert(nodes, k, n);
        Index := k + 1;
        assert ll.Nodes[Index] == nodes[k];
      }
    }
  }

  /** An iterator over `ll` from the front: `ptr` is the node at `Index`, null past the back. */
  class Iter<T> {
    const ll: LinkedList<T>
    var ptr: Node?<T>
    ghost var Index: nat

    ghost predicate Valid()
      reads this, ll, ll.Nodes
    {
      && ll.Valid() && Index <= |ll.Nodes|
      && ptr == (if Index < |ll.Nodes| then ll.Nodes[Index] else null)
    }

    /** `Iter::new`. */
    constructor (ll: LinkedList<T>, ptr: Node?<T>, ghost index: nat)
      requires ll.Valid() && index <= |ll.Nodes| && ptr == (if index < |ll.Nodes| then ll.Nodes[index] else null)
      ensures this.ll == ll && Index == index && Valid()
    {
      this.ll := ll;
      this.ptr := ptr;
      Index := index;
    }

    /** `next`: the item at the current node, then step toward the back; none past the back. */
    method Next() returns (r: Option<T>)
      requires Valid()
      modifies this
      ensures Valid()
      ensures old(Index) < |ll.Nodes| ==> r == Some(ll.Items()[old(Index)]) && Index == old(Index) + 1
      ensures old(Index) == |ll.Nodes| ==> r == None && Index == old(Index)
    {
      if ptr == null {
        return None;
      }
      assert At(ll.Nodes, Index) == ptr;
      r := Some(ptr.item);
      ptr := ptr.next;
      Index := Index + 1;
    }
  }
}
