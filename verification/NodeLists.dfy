/** Linking a node behind the last one of a child list. */
module NodeLists {
  import opened JsonNodes

  /** The children of `item`. */
  ghost predicate Children(item: Node, kids: seq<Shape>)
    reads item`child, ListAll(kids)
  {
    && DistinctList(kids) && ListRep(kids)
    && item.child == NodeAt(kids, 0)
    && item !in ListAll(kids)
  }

  /** The children of `item`, the last one being `last`. */
  ghost predicate Hangs(item: Node, last: Node?, kids: seq<Shape>)
    reads item`child, ListAll(kids)
  {
    Children(item, kids) && last == NodeAt(kids, |kids| - 1)
  }

  lemma DistinctSnoc(kids: seq<Shape>, t: Shape)
    requires DistinctList(kids) && Distinct(t) && ListAll(kids) !! t.all
    ensures DistinctList(kids + [t])
  {
  }

  /** The links of a list whose last node is to be `n`, which is not parsed yet. */
  ghost predicate Chained(item: Node, kids: seq<Shape>, n: Node)
    reads item`child, NodesOf(kids)`next, NodesOf(kids)`prev, n`next, n`prev
  {
    && item.child == (if |kids| == 0 then n else kids[0].node)
    && (forall i {:trigger kids[i].node.next} :: 0 <= i < |kids| ==>
          kids[i].node.next == if i == |kids| - 1 then n else NodeAt(kids, i + 1))
    && (forall i {:trigger kids[i].node.prev} :: 0 <= i < |kids| ==> kids[i].node.prev == NodeAt(kids, i - 1))
    && n.next == null && n.prev == NodeAt(kids, |kids| - 1)
  }

  ghost predicate NodesDiffer(kids: seq<Shape>) {
    forall i, j :: 0 <= i < j < |kids| ==> kids[i].node != kids[j].node
  }

  lemma LinksOf(kids: seq<Shape>)
    requires DistinctList(kids) && ListRep(kids)
    ensures Linked(kids) && NodesDiffer(kids)
  {
  }

  method LinkBehind(last: Node, n: Node, ghost kids: seq<Shape>)
    requires NodesDiffer(kids) && Linked(kids) && last == NodeAt(kids, |kids| - 1)
    requires n !in NodesOf(kids) && n.prev == null
    modifies last`next, n`prev
    ensures last.next == n && n.prev == last
    ensures forall i {:trigger kids[i].node.next} :: 0 <= i < |kids| - 1 ==> kids[i].node.next == NodeAt(kids, i + 1)
    ensures forall i {:trigger kids[i].node.prev} :: 0 <= i < |kids| ==> kids[i].node.prev == NodeAt(kids, i - 1)
  {
    last.next := n;
    n.prev := last;
  }

  /** A list that is whole but for its last node `n`, which is not parsed yet. */
  ghost predicate Pending(item: Node, kids: seq<Shape>, n: Node)
    reads item`child, ListAll(kids), n`next, n`prev
  {
    && DistinctList(kids) && item !in ListAll(kids) && n !in ListAll(kids)
    && (NodesInside(kids); Chained(item, kids, n))
    && (forall i :: 0 <= i < |kids| ==> Rep(kids[i]))
  }

  /** Parsing into the last node leaves the list as it is. */
  twostate lemma {:induction false} PendingKept(list: (Node, seq<Shape>, Node))
    requires old(Pending(list.0, list.1, list.2))
    requires unchanged(list.0`child, list.2`next, list.2`prev) && unchanged(ListAll(list.1))
    ensures Pending(list.0, list.1, list.2)
  {
  }

  /** Link a node behind the last child, or as the first one. */
  method Link(item: Node, last: Node?, n: Node, ghost kids: seq<Shape>)
    requires Hangs(item, last, kids)
    requires n !in ListAll(kids) && n != item && n.next == null && n.prev == null
    modifies item`child, NodesOf(kids)`next, n`prev
    ensures Pending(item, kids, n)
  {
    if last == null {
      item.child := n;
    } else {
      LinksOf(kids);
      NodesInside(kids);
      assert last == kids[|kids| - 1].node && last in NodesOf(kids);
      assert last as object in Objects(NodesOf(kids));
      LinkBehind(last, n, kids);
      RepsKept(kids);
    }
  }

  lemma LinkedSnoc(item: Node, kids: seq<Shape>, t: Shape)
    requires Chained(item, kids, t.node)
    ensures Linked(kids + [t]) && item.child == NodeAt(kids + [t], 0)
  {
  }

  lemma RepSnoc(kids: seq<Shape>, t: Shape)
    requires DistinctList(kids + [t])
    requires Linked(kids + [t])
    requires forall i :: 0 <= i < |kids| ==> Distinct(kids[i]) && Rep(kids[i])
    requires Distinct(t) && Rep(t)
    ensures ListRep(kids + [t])
  {
  }

  /** The list with the new child at its end. */
  lemma HangsSnoc(item: Node, kids: seq<Shape>, t: Shape)
    requires Pending(item, kids, t.node)
    requires Distinct(t) && ListAll(kids) !! t.all && item !in t.all && Rep(t)
    ensures Hangs(item, t.node, kids + [t])
  {
    DistinctSnoc(kids, t);
    ListAllSnoc(kids, t);
    LinkedSnoc(item, kids, t);
    RepSnoc(kids, t);
  }
}
