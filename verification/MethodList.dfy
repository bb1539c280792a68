/** The circular list of `core/util-list.h` that links the nodes a method has created. */
module MethodList {

  class Item {
    var next: Item?
    var prev: Item?

    constructor ()
      ensures next == null && prev == null
    {
      next, prev := null, null;
    }
  }

  predicate Distinct(ring: seq<Item>) {
    forall i, j :: 0 <= i < j < |ring| ==> ring[i] != ring[j]
  }

  lemma SamePlace(ring: seq<Item>, i: nat, j: nat)
    requires Distinct(ring) && i < |ring| && j < |ring|
    ensures ring[i] == ring[j] <==> i == j
  {
  }

  ghost function SetOf(ring: seq<Item>): set<Item> {
    set x | x in ring
  }

  lemma Without(ring: seq<Item>, k: nat)
    requires Distinct(ring) && k < |ring|
    ensures Distinct(ring[..k] + ring[k + 1..])
    ensures SetOf(ring[..k] + ring[k + 1..]) == SetOf(ring) - {ring[k]}
  {
    var rest := ring[..k] + ring[k + 1..];
    assert ring == ring[..k] + [ring[k]] + ring[k + 1..];
    forall i | 0 <= i < |rest| ensures rest[i] == ring[if i < k then i else i + 1] {}
    forall i | 0 <= i < |ring| && i != k ensures ring[i] in rest {
      assert ring[i] == rest[if i < k then i else i - 1];
    }
  }

  /** Neighbours in the ring point at each other. */
  ghost predicate Joined(ring: seq<Item>, i: nat)
    requires i < |ring|
    reads SetOf(ring)
  {
    var next := ring[if i + 1 < |ring| then i + 1 else 0];
    ring[i].next == next && next.prev == ring[i]
  }

  ghost predicate IsRing(ring: seq<Item>)
    reads SetOf(ring)
  {
    Distinct(ring) && forall i: nat :: i < |ring| ==> Joined(ring, i)
  }

  /** The pointers of `lai_list_unlink`. */
  method Cut(item: Item, ghost ring: seq<Item>, ghost at: nat)
    requires IsRing(ring) && 0 < at < |ring| && ring[at] == item
    modifies SetOf(ring)
    ensures IsRing(ring[..at] + ring[at + 1..]) && item.next == null && item.prev == null
  {
    hide Distinct;
    ghost var k, after := at - 1, if at + 1 < |ring| then at + 1 else 0;
    Without(ring, at);
    assert Joined(ring, k) && Joined(ring, at);
    SamePlace(ring, k, at);
    SamePlace(ring, after, at);
    var prev, next := item.prev, item.next;
    item.prev := null;
    item.next := null;
    prev.next := next;
    next.prev := prev;
    ghost var rest := ring[..at] + ring[at + 1..];
    forall i: nat | i < |rest| ensures Joined(rest, i) {
      ghost var there: nat := if i < at then i else i + 1;
      ghost var beyond: nat := if there + 1 < |ring| then there + 1 else 0;
      assert old(Joined(ring, there));
      SamePlace(ring, there, k);
      SamePlace(ring, there, at);
      SamePlace(ring, beyond, at);
      SamePlace(ring, beyond, after);
    }
  }

  class LinkedList {
    const hook: Item
    ghost var items: seq<Item>

    /** The hook followed by all items, in the order in which they were linked. */
    ghost function Ring(): seq<Item>
      reads this
    {
      [hook] + items
    }

    ghost function Nodes(): set<Item>
      reads this
    {
      SetOf(Ring())
    }

    /** Every pointer goes to the neighbour in the ring. */
    ghost predicate Valid()
      reads this, hook, Nodes()
    {
      IsRing(Ring())
    }

    /** `lai_list_init`. */
    constructor ()
      ensures Valid() && items == [] && fresh(hook)
    {
      hook := new Item();
      items := [];
      new;
      hook.next, hook.prev := hook, hook;
    }

    /** `lai_list_link`: a new item goes to the end. */
    method Link(item: Item)
      requires Valid() && item !in Ring()
      modifies this, item, hook, Nodes()
      ensures Valid() && items == old(items) + [item]
    {
      var tail := hook.prev;
      ghost var ring := Ring();
      assert Joined(ring, |items|) && hook == ring[0] && tail == ring[|items|];
      item.next := hook;
      item.prev := tail;
      tail.next := item;
      hook.prev := item;
      items := items + [item];
      assert Ring() == ring + [item];
      forall i: nat | i < |Ring()| ensures Joined(Ring(), i) {
        if i < |ring| { assert old(Joined(ring, i)); }
      }
    }

    /** `lai_list_unlink`: the item goes, the order of the others stays; its own pointers are cleared. */
    method Unlink(item: Item, ghost k: nat)
      requires Valid() && k < |items| && items[k] == item
      modifies this, hook, Nodes()
      ensures Valid() && items == old(items[..k] + items[k + 1..])
      ensures item.next == null && item.prev == null && Nodes() == old(Nodes()) - {item}
    {
      hide Distinct, Joined;
      ghost var ring := Ring();
      Without(ring, k + 1);
      Cut(item, ring, k + 1);
      items := items[..k] + items[k + 1..];
      assert Ring() == ring[..k + 1] + ring[k + 2..];
    }

    /** `lai_list_first`. */
    method First() returns (item: Item?)
      requires Valid()
      ensures Valid() && items == old(items) && Nodes() == old(Nodes())
      ensures item == if items == [] then null else items[0]
    {
      assert Ring()[0] == hook && (items != [] ==> Ring()[1] == items[0] && Ring()[0] != Ring()[1]);
      assert Joined(Ring(), 0) && Joined(Ring(), |items|);
      if hook.next == hook { return null; }
      return hook.next;
    }

    /** `lai_list_next`. */
    method Next(item: Item, ghost k: nat) returns (next: Item?)
      requires Valid() && k < |items| && items[k] == item
      ensures next == if k + 1 < |items| then items[k + 1] else null
    {
      assert Joined(Ring(), k + 1) && Ring()[0] == hook && Ring()[k + 1] == item;
      assert k + 1 < |items| ==> Ring()[k + 2] == items[k + 1] && Ring()[0] != Ring()[k + 2];
      if item.next == hook { return null; }
      return item.next;
    }
  }

  lemma FirstOfAll(order: seq<Item>, items: seq<Item>, all: seq<Item>)
    requires items != [] && order + items == all
    ensures (order + [items[0]]) + items[1..] == all
  {
    assert items == [items[0]] + items[1..];
  }

  /** The clean-up loop at the end of a method: the first item is taken until the list is empty, so
      that nodes are uninstalled in the order of their creation. */
  method Drain(list: LinkedList) returns (order: seq<Item>)
    requires list.Valid()
    modifies list, list.hook, list.Nodes()
    ensures list.Valid() && list.items == [] && order == old(list.items)
  {
    hide LinkedList.Valid, LinkedList.Ring, LinkedList.Nodes, SetOf, Distinct, Joined, IsRing;
    order := [];
    var item := list.First();
    assert order + list.items == list.items;
    while item != null
      invariant list.Valid() && order + list.items == old(list.items)
      invariant list.Nodes() <= old(list.Nodes())
      invariant item == if list.items == [] then null else list.items[0]
      decreases |list.items|
    {
      ghost var before := list.items;
      FirstOfAll(order, before, old(list.items));
      list.Unlink(item, 0);
      order := order + [item];
      assert list.items == before[1..] by { assert before[..0] + before[1..] == before[1..]; }
      item := list.First();
    }
  }
}
