// cJSON_Duplicate: a copy in new memory (3rdParty/libcjson/cJSON.c:552-577).
module JsonDuplicate {
  import opened Wrappers
  import opened JsonChain

  // How the items below an item hang together.
  datatype Shape = Shape(node: Item, kids: seq<Shape>)

  // What an item holds beside its links.
  datatype Data = Data(kind: int, isReference: bool, valuestring: Option<string>,
                       valueint: int, valuedouble: real, name: Option<string>)

  datatype Tree = Tree(data: Data, kids: seq<Tree>)

  function NodeAt(kids: seq<Shape>, i: int): Item? {
    if 0 <= i < |kids| then kids[i].node else null
  }

  function Front<T>(xs: seq<T>): seq<T>
    requires xs != []
  {
    xs[..|xs| - 1]
  }

  function Last<T>(xs: seq<T>): T
    requires xs != []
  {
    xs[|xs| - 1]
  }

  // -------------------------------------------------------------------- the items of a shape

  ghost function Nodes(sh: Shape): set<Item>
    decreases sh, 1
  {
    {sh.node} + Below(sh.kids)
  }

  ghost function Below(kids: seq<Shape>): set<Item>
    decreases kids, 0
  {
    if kids == [] then {} else Below(Front(kids)) + Nodes(Last(kids))
  }

  // The children end behind the last one.
  ghost predicate Ends(kids: seq<Shape>)
    reads (if kids == [] then {} else {Last(kids).node})`next
  {
    kids != [] ==> Last(kids).node.next == null
  }

  // -------------------------------------------------------------------- the original

  // The child and next pointers follow the shape.  Items may occur in several places: the
  // children of a reference are those of the item it refers to.
  ghost predicate Reaches(sh: Shape)
    reads Nodes(sh)
    decreases sh, 1
  {
    && sh.node.child == NodeAt(sh.kids, 0) && ReachesAll(sh.kids)
    && (sh.kids != [] ==> Last(sh.kids).node in Nodes(Last(sh.kids)))
    && Ends(sh.kids)
  }

  ghost predicate ReachesAll(kids: seq<Shape>)
    reads Below(kids)
    decreases kids, 0
  {
    kids != [] ==>
      && ReachesAll(Front(kids)) && Reaches(Last(kids))
      && (Front(kids) != [] ==>
            assert Last(Front(kids)).node in Nodes(Last(Front(kids)));
            Last(Front(kids)).node.next == Last(kids).node)
  }

  lemma {:induction false} ReachesPrefix(kids: seq<Shape>, i: nat)
    requires i <= |kids| && ReachesAll(kids)
    ensures ReachesAll(kids[..i])
    ensures i < |kids| ==> Reaches(kids[i])
    ensures i + 1 < |kids| ==> kids[i].node.next == kids[i + 1].node
    decreases |kids|
  {
    if i == |kids| {
      assert kids[..i] == kids;
    } else {
      var front := Front(kids);
      if i < |front| {
        ReachesPrefix(front, i);
        assert front[..i] == kids[..i];
      } else {
        assert front == kids[..i];
      }
    }
  }

  // -------------------------------------------------------------------- the copy

  // A tree of its own: all items are different and the siblings are linked both ways.
  ghost predicate Proper(sh: Shape)
    reads sh.node`child, Below(sh.kids)`child, Below(sh.kids)`prev, Below(sh.kids)`next
    decreases sh, 1
  {
    && sh.node !in Below(sh.kids)
    && sh.node.child == NodeAt(sh.kids, 0) && ProperAll(sh.kids) && Ends(sh.kids)
  }

  ghost predicate ProperAll(kids: seq<Shape>)
    reads Below(kids)`child, Below(kids)`prev
    reads (if kids == [] then {} else Below(kids) - {Last(kids).node})`next
    decreases kids, 0
  {
    kids != [] ==>
      var front, last := Front(kids), Last(kids);
      && Nodes(last) !! Below(front)
      && last.node !in Below(last.kids)
      && ProperAll(front) && Proper(last)
      && last.node.prev == NodeAt(front, |front| - 1)
      && (front != [] ==> Last(front).node.next == last.node)
  }

  // -------------------------------------------------------------------- values

  ghost function DataOf(x: Item): Data
    reads x`kind, x`isReference, x`valuestring, x`valueint, x`valuedouble, x`name
  {
    Data(x.kind, x.isReference, x.valuestring, x.valueint, x.valuedouble, x.name)
  }

  ghost function TreeOf(sh: Shape): Tree
    reads Nodes(sh)`kind, Nodes(sh)`isReference, Nodes(sh)`valuestring
    reads Nodes(sh)`valueint, Nodes(sh)`valuedouble, Nodes(sh)`name
    decreases sh, 1
  {
    Tree(DataOf(sh.node), TreesOf(sh.kids))
  }

  ghost function TreesOf(kids: seq<Shape>): seq<Tree>
    reads Below(kids)`kind, Below(kids)`isReference, Below(kids)`valuestring
    reads Below(kids)`valueint, Below(kids)`valuedouble, Below(kids)`name
    decreases kids, 0
  {
    if kids == [] then [] else TreesOf(Front(kids)) + [TreeOf(Last(kids))]
  }

  // The tree with no item marked as a reference.
  function Cleared(t: Tree): Tree {
    Tree(t.data.(isReference := false), ClearedAll(t.kids))
  }

  function ClearedAll(ts: seq<Tree>): seq<Tree> {
    if ts == [] then [] else ClearedAll(Front(ts)) + [Cleared(Last(ts))]
  }

  // -------------------------------------------------------------------- the operation

  // An item with the same contents that stands alone and is no reference
  method CopyItem(item: Item) returns (newitem: Item)
    ensures fresh(newitem)
    ensures DataOf(newitem) == DataOf(item).(isReference := false)
    ensures newitem.next == null && newitem.prev == null && newitem.child == null
  {
    newitem := new Item();
    newitem.kind, newitem.isReference := item.kind, false;
    newitem.valueint, newitem.valuedouble := item.valueint, item.valuedouble;
    newitem.valuestring, newitem.name := item.valuestring, item.name;
  }

  lemma BelowSnoc(kids: seq<Shape>, sh: Shape)
    ensures Front(kids + [sh]) == kids && Last(kids + [sh]) == sh
    ensures Below(kids + [sh]) == Below(kids) + Nodes(sh)
  {
    assert Front(kids + [sh]) == kids;
  }

  lemma ClearedSnoc(ts: seq<Tree>, t: Tree)
    ensures ClearedAll(ts + [t]) == ClearedAll(ts) + [Cleared(t)]
  {
    assert Front(ts + [t]) == ts;
  }

  lemma TreesSnoc(kids: seq<Shape>, sh: Shape)
    ensures TreesOf(kids + [sh]) == TreesOf(kids) + [TreeOf(sh)]
  {
    assert Front(kids + [sh]) == kids;
  }

  // A copy is linked behind the last one, or becomes the first child.
  method Crosswire(owner: Item, nptr: Item?, newchild: Item, ghost kids: seq<Shape>, ghost child: Shape)
    returns (nptr': Item)
    requires ProperAll(kids) && Ends(kids) && Proper(child)
    requires nptr == NodeAt(kids, |kids| - 1) && newchild == child.node
    requires owner.child == NodeAt(kids, 0) && newchild.next == null && newchild.prev == null
    requires Nodes(child) !! Below(kids) && owner !in Nodes(child) && owner !in Below(kids)
    modifies owner`child, newchild`prev, (if nptr == null then {} else {nptr})`next
    ensures nptr' == newchild
    ensures owner.child == NodeAt(kids + [child], 0)
    ensures ProperAll(kids + [child]) && Ends(kids + [child])
  {
    BelowSnoc(kids, child);
    if nptr != null {
      assert nptr in Nodes(Last(kids)) && nptr in Below(kids);
      nptr.next := newchild;
      newchild.prev := nptr;
    } else {
      owner.child := newchild;
    }
    nptr' := newchild;
  }

  lemma {:induction false} NodesAllocated(sh: Shape)
    ensures forall o: Item :: o in Nodes(sh) ==> allocated(o)
    decreases sh, 1
  {
    BelowAllocated(sh.kids);
  }

  lemma {:induction false} BelowAllocated(kids: seq<Shape>)
    ensures forall o: Item :: o in Below(kids) ==> allocated(o)
    decreases kids, 0
  {
    if kids != [] {
      BelowAllocated(Front(kids));
      NodesAllocated(Last(kids));
    }
  }

  // Duplicate the child and hang it behind the kids copied so far.
  method DuplicateKid(owner: Item, nptr: Item?, cptr: Item, ghost kids: seq<Shape>, ghost sh: Shape)
    returns (newchild: Item, ghost child: Shape)
    requires sh.node == cptr && Reaches(sh) && owner !in Nodes(sh)
    requires ProperAll(kids) && Ends(kids) && nptr == NodeAt(kids, |kids| - 1)
    requires owner.child == NodeAt(kids, 0) && owner !in Below(kids)
    modifies owner`child, (if nptr == null then {} else {nptr})`next
    ensures newchild == child.node && fresh(Nodes(child))
    ensures owner.child == NodeAt(kids + [child], 0)
    ensures ProperAll(kids + [child]) && Ends(kids + [child])
    ensures TreesOf(kids + [child]) == old(TreesOf(kids)) + [Cleared(old(TreeOf(sh)))]
    decreases sh, 2
  {
    hide Proper, ProperAll, Reaches, ReachesAll, Ends, TreeOf, TreesOf, Cleared, ClearedAll, Nodes, Below;
    BelowAllocated(kids);
    LastBelow(kids);
    NodesAllocated(sh);
    newchild, child := Duplicate(cptr, true, sh);
    NodeInShape(child);
    assert TreesOf(kids) == old(TreesOf(kids));
    ghost var tree := TreeOf(child);
    NodesAllocated(child);
    var nptr' := Crosswire(owner, nptr, newchild, kids, child);
    assert TreeOf(child) == tree && TreesOf(kids) == old(TreesOf(kids));
    TreesSnoc(kids, child);
  }

  // The children are copied one after another, each linked behind the last.
  method DuplicateKids(item: Item, copied: Item, ghost sh: Shape) returns (ghost kids: seq<Shape>)
    requires sh.node == item && Reaches(sh) && copied !in Nodes(sh) && copied.child == null
    modifies copied`child
    ensures fresh(Below(kids)) && ProperAll(kids) && Ends(kids)
    ensures copied.child == NodeAt(kids, 0)
    ensures TreesOf(kids) == ClearedAll(old(TreesOf(sh.kids)))
    decreases sh, 0
  {
    hide Proper, ProperAll, Reaches, ReachesAll, Ends, TreeOf, TreesOf, Cleared, ClearedAll, Nodes, Below;
    NodesAllocated(sh);
    Unfolded(sh);
    var cptr, nptr: Item? := item.child, null;
    kids := [];
    ghost var i := 0;
    ghost var trees := TreesOf(sh.kids);
    NoKids(kids);
    TreesAt(sh.kids, 0);
    while cptr != null
      invariant 0 <= i <= |sh.kids| && |kids| == i && |trees| == |sh.kids|
      invariant cptr == NodeAt(sh.kids, i)
      invariant nptr == NodeAt(kids, i - 1)
      invariant copied !in Nodes(sh) && Below(sh.kids) <= Nodes(sh)
      invariant ReachesAll(sh.kids) && Ends(sh.kids)
      invariant fresh(Below(kids)) && copied !in Below(kids)
      invariant ProperAll(kids) && Ends(kids)
      invariant copied.child == NodeAt(kids, 0)
      invariant TreesOf(sh.kids) == trees
      invariant TreesOf(kids) == ClearedAll(trees[..i])
      decreases |sh.kids| - i
    {
      ReachesPrefix(sh.kids, i);
      EndsAt(sh.kids, i);
      BelowPrefix(sh.kids, i);
      LastBelow(kids);
      LastBelow(sh.kids);
      TreesAt(sh.kids, i);
      ghost var child;
      nptr, child := DuplicateKid(copied, nptr, cptr, kids, sh.kids[i]);
      assert trees[..i + 1] == trees[..i] + [trees[i]];
      BelowSnoc(kids, child);
      ClearedSnoc(trees[..i], trees[i]);
      kids := kids + [child];
      i := i + 1;
      cptr := cptr.next;
    }
    assert trees[..i] == trees;
  }

  lemma {:induction false} TreesAt(kids: seq<Shape>, i: nat)
    ensures |TreesOf(kids)| == |kids|
    ensures i < |kids| ==> TreesOf(kids)[i] == TreeOf(kids[i])
    decreases |kids|
  {
    if kids != [] {
      TreesAt(Front(kids), i);
    }
  }

  lemma Unfolded(sh: Shape)
    requires Reaches(sh)
    ensures sh.node.child == NodeAt(sh.kids, 0) && ReachesAll(sh.kids) && Ends(sh.kids)
    ensures Below(sh.kids) <= Nodes(sh)
  {
  }

  lemma NoKids(kids: seq<Shape>)
    requires kids == []
    ensures ProperAll(kids) && Ends(kids) && Below(kids) == {}
    ensures TreesOf(kids) == [] && ClearedAll(TreesOf(kids)) == []
  {
  }

  lemma EndsAt(kids: seq<Shape>, i: nat)
    requires Ends(kids) && i < |kids|
    ensures i + 1 == |kids| ==> kids[i].node.next == null
  {
  }

  lemma {:induction false} BelowPrefix(kids: seq<Shape>, i: nat)
    requires i < |kids|
    ensures Below(kids[..i]) <= Below(kids) && Nodes(kids[i]) <= Below(kids) && kids[i].node in Nodes(kids[i])
    decreases |kids|
  {
    var front := Front(kids);
    if i < |front| {
      BelowPrefix(front, i);
      assert front[..i] == kids[..i];
    } else {
      assert front == kids[..i];
    }
  }

  lemma LastBelow(kids: seq<Shape>)
    ensures kids != [] ==> Last(kids).node in Below(kids)
  {
  }

  lemma NodeInShape(sh: Shape)
    ensures sh.node in Nodes(sh)
  {
  }

  lemma ProperOf(sh: Shape)
    requires sh.node !in Below(sh.kids)
    requires sh.node.child == NodeAt(sh.kids, 0) && ProperAll(sh.kids) && Ends(sh.kids)
    ensures Proper(sh) && Nodes(sh) == {sh.node} + Below(sh.kids)
    ensures TreeOf(sh) == Tree(DataOf(sh.node), TreesOf(sh.kids))
  {
  }

  // The copy is an equal tree without references, of items that did not exist before.
  method Duplicate(item: Item?, recurse: bool, ghost sh: Shape) returns (newitem: Item?, ghost copy: Shape)
    requires item != null ==> sh.node == item && Reaches(sh)
    ensures item == null ==> newitem == null
    ensures item != null ==> newitem != null && copy.node == newitem && fresh(Nodes(copy))
    ensures item != null ==> Proper(copy) && newitem.next == null && newitem.prev == null
    ensures item != null ==>
      TreeOf(copy) == if recurse then Cleared(TreeOf(sh)) else Tree(DataOf(item).(isReference := false), [])
    decreases sh, 1
  {
    hide ProperAll, ReachesAll, Ends, TreesOf, Below, ClearedAll;
    copy := sh;
    if item == null {
      return null, copy;
    }
    NodesAllocated(sh);
    var copied := CopyItem(item);
    newitem := copied;
    ghost var kids := [];
    NoKids(kids);
    if recurse {
      kids := DuplicateKids(item, copied, sh);
    }
    copy := Shape(copied, kids);
    ProperOf(copy);
  }

  // --------------------------------------------------------------------- its chains

  function Heads(kids: seq<Shape>): seq<Item> {
    seq(|kids|, i requires 0 <= i < |kids| => kids[i].node)
  }

  lemma {:induction false} HeadAt(kids: seq<Shape>, i: nat)
    requires ProperAll(kids) && i < |kids|
    ensures kids[i].node in Below(kids) && Proper(kids[i])
    ensures kids[i].node.prev == NodeAt(kids, i - 1)
    ensures i + 1 < |kids| ==> kids[i].node.next == kids[i + 1].node
    decreases |kids|
  {
    var front := Front(kids);
    assert Last(kids).node in Nodes(Last(kids));
    if i < |front| {
      HeadAt(front, i);
      assert kids[i] == front[i] && NodeAt(kids, i - 1) == NodeAt(front, i - 1);
    } else {
      assert NodeAt(kids, i - 1) == NodeAt(front, |front| - 1);
    }
    hide Proper, ProperAll, Below, Nodes;
  }

  lemma {:induction false} HeadsDiffer(kids: seq<Shape>, i: nat, j: nat)
    requires ProperAll(kids) && i < j < |kids|
    ensures kids[i].node != kids[j].node
    decreases |kids|
  {
    var front := Front(kids);
    if j < |front| {
      HeadsDiffer(front, i, j);
    } else {
      HeadAt(front, i);
      assert Last(kids).node in Nodes(Last(kids));
    }
  }

  // The children of every item of a copy form a chain of their own.
  lemma CopyHasChildren(sh: Shape)
    requires Proper(sh)
    ensures Children(sh.node, Heads(sh.kids))
    ensures forall i :: 0 <= i < |sh.kids| ==> Proper(sh.kids[i])
  {
    hide Proper, ProperAll, Below, Nodes, Ends;
    ProperParts(sh);
    var xs := Heads(sh.kids);
    forall i, j | 0 <= i < j < |xs| ensures xs[i] != xs[j] {
      HeadsDiffer(sh.kids, i, j);
    }
    forall i | 0 <= i < |xs| ensures LinkedAt(xs, i) && Proper(sh.kids[i]) && xs[i] in Below(sh.kids) {
      HeadAt(sh.kids, i);
      LastEnds(sh.kids);
    }
  }

  lemma ProperParts(sh: Shape)
    requires Proper(sh)
    ensures sh.node !in Below(sh.kids) && sh.node.child == NodeAt(sh.kids, 0) && ProperAll(sh.kids) && Ends(sh.kids)
  {
  }

  lemma LastEnds(kids: seq<Shape>)
    requires Ends(kids)
    ensures kids != [] ==> kids[|kids| - 1].node.next == null
  {
  }

  // No item of a tree is marked as a reference, and nothing else is changed, if it is cleared.
  lemma {:induction false} ClearedIsEqual(t: Tree)
    ensures Cleared(t).data == t.data.(isReference := false)
    ensures |Cleared(t).kids| == |t.kids|
    ensures forall i :: 0 <= i < |t.kids| ==> Cleared(t).kids[i] == Cleared(t.kids[i])
  {
    ClearedAllAt(t.kids);
  }

  lemma {:induction false} ClearedAllAt(ts: seq<Tree>)
    ensures |ClearedAll(ts)| == |ts|
    ensures forall i :: 0 <= i < |ts| ==> ClearedAll(ts)[i] == Cleared(ts[i])
  {
    if ts != [] {
      ClearedAllAt(Front(ts));
    }
  }
}
