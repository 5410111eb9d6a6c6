// The sibling chains of cJSON: the children of an array or object hang on its child pointer
// and are linked in both directions (3rdParty/libcjson/cJSON.c:508-533).
module JsonChain {
  import opened Wrappers

  class Item {
    var next: Item?
    var prev: Item?
    var child: Item?

    var kind: int            // the type without its flag
    var isReference: bool    // the flag cJSON_IsReference
    var valuestring: Option<string>
    var valueint: int
    var valuedouble: real
    var name: Option<string>

    // cJSON_New_Item
    constructor ()
      ensures next == null && prev == null && child == null
      ensures kind == 0 && !isReference && valueint == 0 && valuedouble == 0.0
      ensures valuestring == None && name == None
    {
      next, prev, child := null, null, null;
      kind, isReference, valueint, valuedouble := 0, false, 0, 0.0;
      valuestring, name := None, None;
    }
  }

  predicate Distinct(xs: seq<Item>) {
    forall i, j :: 0 <= i < j < |xs| ==> xs[i] != xs[j]
  }

  // The item at a position, null beside the sequence.
  function Link(xs: seq<Item>, i: int): Item? {
    if 0 <= i < |xs| then xs[i] else null
  }

  // The item at position i points to its neighbours.
  ghost predicate LinkedAt(xs: seq<Item>, i: nat)
    requires i < |xs|
    reads xs[i]
  {
    xs[i].next == Link(xs, i + 1) && xs[i].prev == Link(xs, i - 1)
  }

  // The links along xs are mirrored and end at both sides, so the chain cannot loop.
  ghost predicate Linked(xs: seq<Item>)
    reads xs
  {
    Distinct(xs) && forall i :: 0 <= i < |xs| ==> LinkedAt(xs, i)
  }

  // xs are the children of an array or object in their order.
  ghost predicate Children(owner: Item, xs: seq<Item>)
    reads owner, xs
  {
    owner !in xs && owner.child == Link(xs, 0) && Linked(xs)
  }

  // A chain has one sequence of items: it is what the pointers say.
  lemma {:induction false} ChildrenUnique(owner: Item, xs: seq<Item>, ys: seq<Item>)
    requires Children(owner, xs) && Children(owner, ys)
    ensures xs == ys
  {
    var i := 0;
    while i < |xs| && i < |ys|
      invariant 0 <= i <= |xs| && i <= |ys|
      invariant xs[..i] == ys[..i]
      invariant Link(xs, i) == Link(ys, i)
    {
      assert xs[i] == ys[i] && LinkedAt(xs, i) && LinkedAt(ys, i);
      assert xs[..i + 1] == xs[..i] + [xs[i]] && ys[..i + 1] == ys[..i] + [ys[i]];
      i := i + 1;
    }
    assert xs[..i] == xs && ys[..i] == ys;
  }

  // suffix_object
  method SuffixObject(p: Item, item: Item)
    modifies p`next, item`prev
    ensures p.next == item && item.prev == p
  {
    p.next := item;
    item.prev := p;
  }

  // cJSON_AddItemToArray
  method AddItemToArray(owner: Item, item: Item?, ghost xs: seq<Item>)
    requires Children(owner, xs)
    requires item != null ==> item != owner && item !in xs && item.next == null && item.prev == null
    modifies owner`child, xs`next, (if item == null then {} else {item})`prev
    ensures item == null ==> Children(owner, xs)
    ensures item != null ==> Children(owner, xs + [item])
  {
    var c := owner.child;
    if item == null {
      return;
    }
    if c == null {
      owner.child := item;
      assert xs == [];
    } else {
      ghost var i := 0;
      while c != null && c.next != null
        invariant 0 <= i < |xs| && c == xs[i] && LinkedAt(xs, i)
        decreases |xs| - i
      {
        c := c.next;
        i := i + 1;
        assert LinkedAt(xs, i);
      }
      SuffixObject(c, item);
    }
    ghost var ys := xs + [item];
    forall i | 0 <= i < |ys| ensures LinkedAt(ys, i) {
      if i < |xs| {
        assert old(LinkedAt(xs, i)) && ys[i] == xs[i];
      }
    }
  }

  // cJSON_GetArraySize
  method GetArraySize(owner: Item, ghost xs: seq<Item>) returns (n: nat)
    requires Children(owner, xs)
    ensures n == |xs|
  {
    var c := owner.child;
    n := 0;
    while c != null
      invariant 0 <= n <= |xs| && c == Link(xs, n)
      decreases |xs| - n
    {
      assert LinkedAt(xs, n);
      n := n + 1;
      c := c.next;
    }
  }

  // The position a number names; a negative one names the first item.
  function Position(which: int): nat {
    if which < 0 then 0 else which
  }

  // cJSON_GetArrayItem
  method GetArrayItem(owner: Item, item: int, ghost xs: seq<Item>) returns (c: Item?)
    requires Children(owner, xs)
    ensures c == Link(xs, Position(item))
  {
    c := owner.child;
    var which := item;
    ghost var i := 0;
    while c != null && which > 0
      invariant 0 <= i <= |xs| && c == Link(xs, i)
      invariant c != null ==> Position(item) == i + Position(which)
      invariant c == null ==> Position(item) >= |xs|
      decreases |xs| - i
    {
      assert LinkedAt(xs, i);
      which := which - 1;
      c := c.next;
      i := i + 1;
    }
  }

  function Without<T>(xs: seq<T>, k: nat): seq<T>
    requires k < |xs|
  {
    xs[..k] + xs[k + 1..]
  }

  // cJSON_DetachItemFromArray
  method DetachItemFromArray(owner: Item, which: int, ghost xs: seq<Item>) returns (c: Item?)
    requires Children(owner, xs)
    modifies owner`child, xs`next, xs`prev
    ensures c == Link(xs, Position(which))
    ensures c == null ==> Children(owner, xs)
    ensures c != null ==>
      && Position(which) < |xs| && Children(owner, Without(xs, Position(which)))
      && c.next == null && c.prev == null
  {
    c := GetArrayItem(owner, which, xs);
    if c == null {
      return;
    }
    ghost var k := Position(which);
    assert LinkedAt(xs, k);
    if c.prev != null {
      c.prev.next := c.next;
    }
    if c.next != null {
      c.next.prev := c.prev;
    }
    if c == owner.child {
      owner.child := c.next;
    }
    c.prev, c.next := null, null;
    ghost var ys := Without(xs, k);
    forall i | 0 <= i < |ys| ensures LinkedAt(ys, i) {
      ghost var j := if i < k then i else i + 1;
      assert old(LinkedAt(xs, j)) && ys[i] == xs[j];
    }
  }

  // cJSON_ReplaceItemInArray, up to the release of the item that was replaced
  method ReplaceItemInArray(owner: Item, which: int, newitem: Item, ghost xs: seq<Item>) returns (c: Item?)
    requires Children(owner, xs) && newitem != owner && newitem !in xs
    modifies owner`child, xs`next, xs`prev, newitem`next, newitem`prev
    ensures c == Link(xs, Position(which))
    ensures c == null ==>
      Children(owner, xs) && newitem.next == old(newitem.next) && newitem.prev == old(newitem.prev)
    ensures c != null ==>
      && Position(which) < |xs| && Children(owner, xs[Position(which) := newitem])
      && c.next == null && c.prev == null
  {
    c := GetArrayItem(owner, which, xs);
    if c == null {
      return;
    }
    ghost var k := Position(which);
    assert LinkedAt(xs, k);
    newitem.next := c.next;
    newitem.prev := c.prev;
    if newitem.next != null {
      newitem.next.prev := newitem;
    }
    if c == owner.child {
      owner.child := newitem;
    } else {
      newitem.prev.next := newitem;
    }
    c.next, c.prev := null, null;
    ghost var ys := xs[k := newitem];
    forall i | 0 <= i < |ys| ensures LinkedAt(ys, i) {
      assert old(LinkedAt(xs, i)) && ys[i] == if i == k then newitem else xs[i];
    }
  }
}
