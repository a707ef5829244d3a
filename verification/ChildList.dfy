/** Editing the children of a node in place: each operation relinks a few nodes, and the chain that
    results is the edited sequence. */
module ChildList {
  import opened JsonNodes
  import opened NodeLists

  function Without(kids: seq<Shape>, w: nat): seq<Shape>
    requires w < |kids|
  {
    kids[..w] + kids[w + 1..]
  }

  /** The counting loops stop at once for a negative index. */
  function Position(which: int): nat {
    if which < 0 then 0 else which
  }

  /** A subtree that is in no list. */
  ghost predicate Detached(n: Node, s: Shape)
    reads s.node, s.all
  {
    n == s.node && Distinct(s) && Rep(s) && n.next == null && n.prev == null
  }

  /** A detached subtree that shares nothing with a container. */
  ghost predicate Loose(n: Node, s: Shape, parent: Node, kids: seq<Shape>)
    reads s.node, s.all
  {
    Detached(n, s) && s.all !! ListAll(kids) && parent !in s.all
  }

  // ---------------------------------------------------------------- edited lists

  lemma WithoutAt(kids: seq<Shape>, w: nat, i: nat)
    requires w < |kids| && i < |kids| - 1
    ensures |Without(kids, w)| == |kids| - 1
    ensures Without(kids, w)[i] == kids[if i < w then i else i + 1]
  {
  }

  lemma AllWithout(kids: seq<Shape>, w: nat)
    requires w < |kids|
    ensures ListAll(Without(kids, w)) + kids[w].all == ListAll(kids)
  {
    var rest := Without(kids, w);
    forall o | o in ListAll(kids)
      ensures o in ListAll(rest) || o in kids[w].all
    {
      var k :| 0 <= k < |kids| && o in kids[k].all;
      if k != w {
        WithoutAt(kids, w, if k < w then k else k - 1);
      }
    }
    forall o | o in ListAll(rest)
      ensures o in ListAll(kids)
    {
      var i :| 0 <= i < |rest| && o in rest[i].all;
      WithoutAt(kids, w, i);
    }
  }

  lemma ApartWithout(kids: seq<Shape>, w: nat)
    requires DistinctList(kids) && w < |kids|
    ensures ListAll(Without(kids, w)) !! kids[w].all
  {
  }

  lemma DistinctWithout(kids: seq<Shape>, w: nat)
    requires DistinctList(kids) && w < |kids|
    ensures DistinctList(Without(kids, w))
  {
  }

  lemma AllCons(s: Shape, kids: seq<Shape>)
    ensures ListAll([s] + kids) == s.all + ListAll(kids)
  {
    var longer := [s] + kids;
    forall o | o in s.all + ListAll(kids)
      ensures o in ListAll(longer)
    {
      if o in s.all {
        assert o in longer[0].all;
      } else {
        var k :| 0 <= k < |kids| && o in kids[k].all;
        assert longer[k + 1] == kids[k];
      }
    }
  }

  lemma DistinctCons(s: Shape, kids: seq<Shape>)
    requires DistinctList(kids) && Distinct(s) && s.all !! ListAll(kids)
    ensures DistinctList([s] + kids)
  {
  }

  lemma AllReplaced(kids: seq<Shape>, w: nat, s: Shape)
    requires w < |kids|
    ensures ListAll(kids[w := s]) == ListAll(Without(kids, w)) + s.all
  {
    var list, rest := kids[w := s], Without(kids, w);
    forall o | o in ListAll(list)
      ensures o in ListAll(rest) + s.all
    {
      var k :| 0 <= k < |list| && o in list[k].all;
      if k != w {
        WithoutAt(kids, w, if k < w then k else k - 1);
      }
    }
    forall o | o in ListAll(rest) + s.all
      ensures o in ListAll(list)
    {
      if o in s.all {
        assert o in list[w].all;
      } else {
        var i :| 0 <= i < |rest| && o in rest[i].all;
        WithoutAt(kids, w, i);
        assert list[if i < w then i else i + 1] == rest[i];
      }
    }
  }

  lemma DistinctReplaced(kids: seq<Shape>, w: nat, s: Shape)
    requires DistinctList(kids) && w < |kids| && Distinct(s) && s.all !! ListAll(kids)
    ensures DistinctList(kids[w := s])
  {
  }

  // ---------------------------------------------------------------- links of the edited lists

  lemma LinkedWithout(kids: seq<Shape>, w: nat)
    requires w < |kids|
    requires forall i {:trigger kids[i].node.next} :: 0 <= i < |kids| && i != w ==>
               kids[i].node.next == NodeAt(kids, if i + 1 == w then i + 2 else i + 1)
    requires forall i {:trigger kids[i].node.prev} :: 0 <= i < |kids| && i != w ==>
               kids[i].node.prev == NodeAt(kids, if i - 1 == w then i - 2 else i - 1)
    ensures Linked(Without(kids, w))
  {
  }

  lemma LinkedCons(s: Shape, kids: seq<Shape>)
    requires s.node.next == NodeAt(kids, 0) && s.node.prev == null
    requires forall i {:trigger kids[i].node.next} :: 0 <= i < |kids| ==> kids[i].node.next == NodeAt(kids, i + 1)
    requires forall i {:trigger kids[i].node.prev} :: 0 <= i < |kids| ==>
               kids[i].node.prev == if i == 0 then s.node else NodeAt(kids, i - 1)
    ensures Linked([s] + kids)
  {
  }

  lemma LinkedReplaced(kids: seq<Shape>, w: nat, s: Shape)
    requires w < |kids|
    requires s.node.next == NodeAt(kids, w + 1) && s.node.prev == NodeAt(kids, w - 1)
    requires forall i {:trigger kids[i].node.next} :: 0 <= i < |kids| && i != w ==>
               kids[i].node.next == if i + 1 == w then s.node else NodeAt(kids, i + 1)
    requires forall i {:trigger kids[i].node.prev} :: 0 <= i < |kids| && i != w ==>
               kids[i].node.prev == if i - 1 == w then s.node else NodeAt(kids, i - 1)
    ensures Linked(kids[w := s])
  {
  }

  // ---------------------------------------------------------------- reading

  /** The index walk shared by Get, Detach and Replace. */
  method ItemAt(parent: Node, which: int, ghost kids: seq<Shape>) returns (c: Node?)
    requires Children(parent, kids)
    ensures c == NodeAt(kids, Position(which))
  {
    c := parent.child;
    var left := which;
    ghost var i := 0;
    assert Linked(kids);
    while c != null && left > 0
      invariant 0 <= i <= |kids| && c == NodeAt(kids, i)
      invariant i + Position(left) == Position(which)
      decreases |kids| - i
    {
      c := c.next;
      left := left - 1;
      i := i + 1;
    }
  }

  method ArraySize(parent: Node, ghost kids: seq<Shape>) returns (n: nat)
    requires Children(parent, kids)
    ensures n == |kids|
  {
    var c := parent.child;
    n := 0;
    assert Linked(kids);
    while c != null
      invariant n <= |kids| && c == NodeAt(kids, n)
      decreases |kids| - n
    {
      n := n + 1;
      c := c.next;
    }
  }

  // ---------------------------------------------------------------- adding

  method LastOf(first: Node, ghost kids: seq<Shape>) returns (c: Node)
    requires |kids| > 0 && first == kids[0].node && Linked(kids)
    ensures c == NodeAt(kids, |kids| - 1)
  {
    c := first;
    ghost var i := 0;
    while c.next != null
      invariant 0 <= i < |kids| && c == NodeAt(kids, i)
      decreases |kids| - i
    {
      c := c.next;
      i := i + 1;
    }
  }

  method Append(parent: Node, last: Node?, item: Node, ghost kids: seq<Shape>, ghost s: Shape)
    requires Hangs(parent, last, kids) && Loose(item, s, parent, kids)
    modifies parent`child, NodesOf(kids)`next, item`prev
    ensures Pending(parent, kids, item) && Rep(s)
  {
    NodesInside(kids);
    TopApart(s);
    Link(parent, last, item, kids);
    RepFrame(s);
  }

  function NodeSet(n: Node?): set<Node> {
    if n == null then {} else {n}
  }

  /** cJSON_AddItemToArray. */
  method AddItemToArray(parent: Node, item: Node?, ghost kids: seq<Shape>, ghost s: Shape)
    requires Children(parent, kids) && (item != null ==> Loose(item, s, parent, kids))
    modifies parent`child, NodesOf(kids)`next, NodeSet(item)`prev
    ensures Children(parent, if item == null then kids else kids + [s])
  {
    if item == null {
      return;
    }
    var c := parent.child;
    if c != null {
      LinksOf(kids);
      c := LastOf(c, kids);
    }
    Append(parent, c, item, kids, s);
    HangsSnoc(parent, kids, s);
  }

  /** Relinking for cJSON_AddItemToArrayHead. */
  method LinkBefore(parent: Node, item: Node, ghost kids: seq<Shape>, ghost s: Shape)
    requires parent.child == NodeAt(kids, 0) && Linked(kids) && NodesDiffer(kids)
    requires item == s.node && item !in NodesOf(kids) && item.next == null && item.prev == null
    modifies parent`child, NodesOf(kids)`prev, item`prev, item`next
    ensures parent.child == item && Linked([s] + kids)
  {
    var c := parent.child;
    if c != null {
      item.prev := c.prev;
      item.next := c;
      c.prev := item;
    }
    parent.child := item;
    LinkedCons(s, kids);
  }

  /** Everything but the links is as it was, so a well-linked list of old and loose subtrees is the
      new child list. */
  lemma Rebuilt(parent: Node, list: seq<Shape>)
    requires DistinctList(list) && Linked(list) && parent.child == NodeAt(list, 0)
    requires parent !in ListAll(list)
    requires forall i :: 0 <= i < |list| ==> Rep(list[i])
    ensures Children(parent, list)
  {
  }

  /** cJSON_AddItemToArrayHead. */
  method AddItemToArrayHead(parent: Node, item: Node?, ghost kids: seq<Shape>, ghost s: Shape)
    requires Children(parent, kids) && (item != null ==> Loose(item, s, parent, kids))
    modifies parent`child, NodesOf(kids)`prev, NodeSet(item)`prev, NodeSet(item)`next
    ensures Children(parent, if item == null then kids else [s] + kids)
  {
    if item == null {
      return;
    }
    LinksOf(kids);
    NodesInside(kids);
    TopApart(s);
    LinkBefore(parent, item, kids, s);
    RepFrame(s);
    assert OnlyLinks(kids);
    RepsKept(kids);
    DistinctCons(s, kids);
    AllCons(s, kids);
    Rebuilt(parent, [s] + kids);
  }

  /** Relinking for cJSON_DetachItemFromArray. */
  method Unlink(parent: Node, c: Node, ghost kids: seq<Shape>, ghost w: nat)
    requires w < |kids| && c == kids[w].node
    requires parent.child == NodeAt(kids, 0) && Linked(kids) && NodesDiffer(kids)
    modifies parent`child, NodesOf(kids)`prev, NodesOf(kids)`next
    ensures parent.child == NodeAt(Without(kids, w), 0) && Linked(Without(kids, w))
    ensures c.next == null && c.prev == null
  {
    assert c.prev == NodeAt(kids, w - 1) && c.next == NodeAt(kids, w + 1);
    if c.prev != null {
      c.prev.next := c.next;
    }
    if c.next != null {
      c.next.prev := c.prev;
    }
    if c == parent.child {
      parent.child := c.next;
    }
    c.prev := null;
    c.next := null;
    LinkedWithout(kids, w);
  }

  /** The list without one child. */
  lemma Removed(parent: Node, kids: seq<Shape>, w: nat)
    requires DistinctList(kids) && w < |kids| && parent !in ListAll(kids)
    requires Linked(Without(kids, w)) && parent.child == NodeAt(Without(kids, w), 0)
    requires forall i :: 0 <= i < |kids| ==> Rep(kids[i])
    requires kids[w].node.next == null && kids[w].node.prev == null
    ensures Children(parent, Without(kids, w)) && Loose(kids[w].node, kids[w], parent, Without(kids, w))
  {
    DistinctWithout(kids, w);
    AllWithout(kids, w);
    ApartWithout(kids, w);
    forall i | 0 <= i < |Without(kids, w)|
      ensures Rep(Without(kids, w)[i])
    {
      WithoutAt(kids, w, i);
    }
    Rebuilt(parent, Without(kids, w));
  }

  method DetachNode(parent: Node, c: Node, ghost kids: seq<Shape>, ghost w: nat)
    requires Children(parent, kids) && w < |kids| && c == kids[w].node
    modifies parent`child, NodesOf(kids)`prev, NodesOf(kids)`next
    ensures Children(parent, Without(kids, w)) && Loose(c, kids[w], parent, Without(kids, w))
  {
    NodesInside(kids);
    LinksOf(kids);
    Unlink(parent, c, kids, w);
    assert OnlyLinks(kids);
    RepsKept(kids);
    Removed(parent, kids, w);
  }

  /** cJSON_DetachItemFromArray: the node leaves the list and is in no list afterwards. */
  method DetachItemFromArray(parent: Node, which: int, ghost kids: seq<Shape>) returns (c: Node?)
    requires Children(parent, kids)
    modifies parent`child, NodesOf(kids)`prev, NodesOf(kids)`next
    ensures c == NodeAt(kids, Position(which))
    ensures c == null ==> Children(parent, kids)
    ensures c != null ==>
      var s := kids[Position(which)];
      Children(parent, Without(kids, Position(which))) && Loose(c, s, parent, Without(kids, Position(which)))
  {
    c := ItemAt(parent, which, kids);
    if c != null {
      DetachNode(parent, c, kids, Position(which));
    }
  }

  lemma SingleList(list: seq<Shape>)
    requires |list| == 1 && Detached(list[0].node, list[0])
    ensures DistinctList(list) && ListRep(list) && ListAll(list) == list[0].all
  {
  }

  /** cJSON_DeleteItemFromArray: frees exactly the removed subtree. */
  method DeleteItemFromArray(heap: Heap, parent: Node, which: int, ghost kids: seq<Shape>)
    requires Children(parent, kids)
    requires heap !in heap.live && ListAll(kids) <= heap.live && parent in heap.live
    modifies heap`live, parent`child, NodesOf(kids)`prev, NodesOf(kids)`next
    ensures Position(which) >= |kids| ==> Children(parent, kids) && heap.live == old(heap.live)
    ensures Position(which) < |kids| ==>
      Children(parent, Without(kids, Position(which))) && heap.live == old(heap.live) - kids[Position(which)].all
  {
    var c := DetachItemFromArray(parent, which, kids);
    if c != null {
      DeleteDetached(heap, parent, c, Without(kids, Position(which)), kids[Position(which)]);
    }
  }

  method DeleteDetached(heap: Heap, parent: Node, c: Node, ghost kids: seq<Shape>, ghost s: Shape)
    requires Children(parent, kids) && Loose(c, s, parent, kids)
    requires heap !in heap.live && s.all <= heap.live && ListAll(kids) <= heap.live && parent in heap.live
    modifies heap`live
    ensures Children(parent, kids) && heap.live == old(heap.live) - s.all
  {
    SingleList([s]);
    Delete(heap, c, [s]);
  }

  /** Relinking for cJSON_ReplaceItemInArray. */
  method Relink(parent: Node, c: Node, newitem: Node, ghost kids: seq<Shape>, ghost w: nat, ghost s: Shape)
    requires w < |kids| && c == kids[w].node && newitem == s.node && newitem !in NodesOf(kids)
    requires parent.child == NodeAt(kids, 0) && Linked(kids) && NodesDiffer(kids)
    modifies parent`child, NodesOf(kids)`prev, NodesOf(kids)`next, newitem`prev, newitem`next
    ensures parent.child == NodeAt(kids[w := s], 0) && Linked(kids[w := s])
    ensures c.next == null && c.prev == null
  {
    assert c.prev == NodeAt(kids, w - 1) && c.next == NodeAt(kids, w + 1);
    newitem.next := c.next;
    newitem.prev := c.prev;
    if newitem.next != null {
      newitem.next.prev := newitem;
    }
    if c == parent.child {
      parent.child := newitem;
    } else {
      newitem.prev.next := newitem;
    }
    c.next := null;
    c.prev := null;
    LinkedReplaced(kids, w, s);
  }

  /** The list with another subtree in the place of one child. */
  lemma Exchanged(parent: Node, kids: seq<Shape>, w: nat, s: Shape)
    requires DistinctList(kids) && w < |kids| && parent !in ListAll(kids)
    requires Distinct(s) && Rep(s) && s.all !! ListAll(kids) && parent !in s.all
    requires Linked(kids[w := s]) && parent.child == NodeAt(kids[w := s], 0)
    requires forall i :: 0 <= i < |kids| ==> Rep(kids[i])
    requires kids[w].node.next == null && kids[w].node.prev == null
    ensures Children(parent, kids[w := s]) && Loose(kids[w].node, kids[w], parent, kids[w := s])
  {
    DistinctReplaced(kids, w, s);
    AllReplaced(kids, w, s);
    AllWithout(kids, w);
    ApartWithout(kids, w);
    Rebuilt(parent, kids[w := s]);
  }

  /** The list part of a replacement: the old node is in no list afterwards. */
  method Exchange(parent: Node, c: Node, newitem: Node, ghost kids: seq<Shape>, ghost w: nat, ghost s: Shape)
    requires Children(parent, kids) && Loose(newitem, s, parent, kids)
    requires w < |kids| && c == kids[w].node
    modifies parent`child, NodesOf(kids)`prev, NodesOf(kids)`next, newitem`prev, newitem`next
    ensures Children(parent, kids[w := s]) && Loose(c, kids[w], parent, kids[w := s])
  {
    LinksOf(kids);
    NodesInside(kids);
    TopApart(s);
    Relink(parent, c, newitem, kids, w, s);
    RepFrame(s);
    assert OnlyLinks(kids);
    RepsKept(kids);
    Exchanged(parent, kids, w, s);
  }

  /** cJSON_ReplaceItemInArray: out of range, nothing happens; otherwise exactly the old subtree is
      freed. */
  method ReplaceItemInArray(heap: Heap, parent: Node, which: int, newitem: Node, ghost kids: seq<Shape>, ghost s: Shape)
    requires Children(parent, kids) && Loose(newitem, s, parent, kids)
    requires heap !in heap.live && ListAll(kids) <= heap.live && s.all <= heap.live && parent in heap.live
    modifies heap`live, parent`child, NodesOf(kids)`prev, NodesOf(kids)`next, newitem`prev, newitem`next
    ensures Position(which) >= |kids| ==>
      Children(parent, kids) && Loose(newitem, s, parent, kids) && heap.live == old(heap.live)
    ensures Position(which) < |kids| ==>
      Children(parent, kids[Position(which) := s]) && heap.live == old(heap.live) - kids[Position(which)].all
  {
    var c := ItemAt(parent, which, kids);
    if c != null {
      ghost var w := Position(which);
      Exchange(parent, c, newitem, kids, w, s);
      AllReplaced(kids, w, s);
      AllWithout(kids, w);
      DeleteDetached(heap, parent, c, kids[w := s], kids[w]);
    }
  }
}
