/** JSON trees on the heap: nodes in doubly linked child lists, the strings they own, and a record
    of what is allocated.
 */
module JsonNodes {
  import opened Bytes
  import opened JsonInt
  import opened JsonText
  import opened JsonBuffers

  datatype Kind = FalseKind | TrueKind | NullKind | IntKind | DoubleKind | StringKind | ArrayKind | ObjectKind

  /** struct cJSON. A decimal that is not an integer is kept as mantissa and exponent. */
  class Node {
    var next: Node?
    var prev: Node?
    var child: Node?
    var kind: Kind
    var valuestring: array?<byte>
    var valueint: u64
    var sign: int
    var mantissa: nat
    var exponent: int
    var name: array?<byte>

    constructor ()
      ensures next == null && prev == null && child == null && valuestring == null && name == null
      ensures kind == FalseKind && valueint == 0 && sign == 0 && mantissa == 0 && exponent == 0
    {
      next, prev, child, valuestring, name := null, null, null, null, null;
      kind, valueint, sign, mantissa, exponent := FalseKind, 0, 0, 0, 0;
    }
  }

  /** The allocated nodes and strings, those that callers pass as keys included. */
  class Heap {
    ghost var live: set<object>

    constructor ()
      ensures live == {}
    {
      live := {};
    }

    /** malloc of an object made elsewhere in one step. */
    ghost method Allocated(o: object)
      modifies this`live
      ensures live == old(live) + {o}
    {
      live := live + {o};
    }

    /** free: the object must be allocated, so nothing is freed twice. */
    ghost method Free(o: object)
      requires o in live
      modifies this`live
      ensures live == old(live) - {o}
    {
      live := live - {o};
    }
  }

  method NewItem(heap: Heap) returns (n: Node)
    modifies heap`live
    ensures fresh(n) && heap.live == old(heap.live) + {n}
    ensures n.next == null && n.prev == null && n.child == null && n.valuestring == null && n.name == null
    ensures n.kind == FalseKind && n.valueint == 0 && n.sign == 0 && n.mantissa == 0 && n.exponent == 0
  {
    n := new Node();
    heap.Allocated(n);
  }

  // ---------------------------------------------------------------- shapes

  /** An owned string: the buffer and its contents. */
  datatype Block = NoBlock | Block(at: array<byte>, chars: text)

  datatype Data = Data(kind: Kind, valueint: u64, sign: int, mantissa: nat, exponent: int, text: Block, name: Block)

  /** What a subtree of nodes looks like: the node, its data, its children, and every object
      (node or string) of the subtree. */
  datatype Shape = Shape(node: Node, data: Data, kids: seq<Shape>, all: set<object>)

  function BlockSet(b: Block): set<object> {
    match b
    case NoBlock => {}
    case Block(at, _) => {at as object}
  }

  function Own(node: Node, data: Data): set<object> {
    {node as object} + BlockSet(data.text) + BlockSet(data.name)
  }

  ghost function ListAll(list: seq<Shape>): set<object> {
    set i, o | 0 <= i < |list| && o in list[i].all :: o
  }

  /** The object set is right, and no node and no string is used twice. */
  ghost predicate Distinct(s: Shape)
    decreases s
  {
    && BlockSet(s.data.text) !! BlockSet(s.data.name) !! {s.node as object}
    && Own(s.node, s.data) !! ListAll(s.kids)
    && s.all == Own(s.node, s.data) + ListAll(s.kids)
    && DistinctList(s.kids)
  }

  ghost predicate DistinctList(list: seq<Shape>)
    decreases list
  {
    && (forall i :: 0 <= i < |list| ==> Distinct(list[i]))
    && (forall i, j :: 0 <= i < j < |list| ==> list[i].all !! list[j].all)
  }

  // ---------------------------------------------------------------- what a shape says about the heap

  ghost predicate BlockOk(b: Block, p: array?<byte>)
    reads BlockSet(b)
  {
    match b
    case NoBlock => p == null
    case Block(at, chars) => p == at && Holds(at, chars)
  }

  /** The node at a position of a list, null before its start and behind its end. */
  function NodeAt(list: seq<Shape>, i: int): Node? {
    if 0 <= i < |list| then list[i].node else null
  }

  ghost function NodesOf(list: seq<Shape>): set<Node> {
    set i | 0 <= i < |list| :: list[i].node
  }

  /** The nodes of a list are chained in order, in both directions, and end in null. */
  ghost predicate Linked(list: seq<Shape>)
    reads NodesOf(list)`next, NodesOf(list)`prev
  {
    && (forall i {:trigger list[i].node.next} :: 0 <= i < |list| ==> list[i].node.next == NodeAt(list, i + 1))
    && (forall i {:trigger list[i].node.prev} :: 0 <= i < |list| ==> list[i].node.prev == NodeAt(list, i - 1))
  }

  ghost predicate DataOk(d: Data, n: Node)
    reads n`kind, n`valueint, n`sign, n`mantissa, n`exponent, n`valuestring, n`name, BlockSet(d.text), BlockSet(d.name)
  {
    && n.kind == d.kind && n.valueint == d.valueint && n.sign == d.sign
    && n.mantissa == d.mantissa && n.exponent == d.exponent
    && BlockOk(d.text, n.valuestring) && BlockOk(d.name, n.name)
  }

  lemma NodesInside(list: seq<Shape>)
    requires DistinctList(list)
    ensures forall n :: n in NodesOf(list) ==> n as object in ListAll(list)
  {
  }

  /** The heap holds the subtree `s`. The links of its top node belong to the list it is in. */
  ghost predicate Rep(s: Shape)
    requires Distinct(s)
    reads s.node`kind, s.node`valueint, s.node`sign, s.node`mantissa, s.node`exponent, s.node`valuestring,
      s.node`name, s.node`child
    reads BlockSet(s.data.text), BlockSet(s.data.name), ListAll(s.kids)
    decreases s
  {
    && DataOk(s.data, s.node)
    && s.node.child == NodeAt(s.kids, 0)
    && ListRep(s.kids)
  }

  ghost predicate ListRep(list: seq<Shape>)
    requires DistinctList(list)
    reads ListAll(list)
    decreases list
  {
    NodesInside(list);
    && Linked(list)
    && (forall i :: 0 <= i < |list| ==> Rep(list[i]))
  }

  // ---------------------------------------------------------------- the tree of a shape

  function Chars(b: Block): text {
    match b
    case NoBlock => []
    case Block(_, chars) => chars
  }

  function KeyOf(b: Block): Key {
    match b
    case NoBlock => Unkeyed
    case Block(_, chars) => Keyed(chars)
  }

  function Tree(s: Shape): Json
    decreases s
  {
    match s.data.kind
    case FalseKind => False
    case TrueKind => True
    case NullKind => Null
    case IntKind => Int(s.data.valueint, s.data.sign)
    case DoubleKind => Double(s.data.sign, s.data.mantissa, s.data.exponent)
    case StringKind => Str(Chars(s.data.text))
    case ArrayKind => Arr(Trees(s.kids))
    case ObjectKind => Obj(MembersOf(s.kids))
  }

  function Trees(list: seq<Shape>): (r: seq<Json>)
    ensures |r| == |list|
    decreases list
  {
    seq(|list|, i requires 0 <= i < |list| => Tree(list[i]))
  }

  function MembersOf(list: seq<Shape>): (r: seq<Member>)
    ensures |r| == |list|
    decreases list
  {
    seq(|list|, i requires 0 <= i < |list| => Member(KeyOf(list[i].data.name), Tree(list[i])))
  }

  /** Every string node has its text. */
  predicate Whole(s: Shape)
    decreases s
  {
    && (s.data.kind == StringKind ==> s.data.text.Block?)
    && (forall i :: 0 <= i < |s.kids| ==> Whole(s.kids[i]))
  }

  predicate AllWhole(list: seq<Shape>) {
    forall i :: 0 <= i < |list| ==> Whole(list[i])
  }

  // ---------------------------------------------------------------- deletion

  lemma ListAllSnoc(list: seq<Shape>, s: Shape)
    ensures ListAll(list + [s]) == ListAll(list) + s.all
  {
    var longer := list + [s];
    forall o | o in ListAll(list) + s.all
      ensures o in ListAll(longer)
    {
      if o in s.all {
        assert o in longer[|list|].all;
      } else {
        var i :| 0 <= i < |list| && o in list[i].all;
        assert o in longer[i].all;
      }
    }
  }

  /** Everything a subtree owns except the links of its top node. */
  ghost function Below(s: Shape): set<object> {
    ListAll(s.kids) + BlockSet(s.data.text) + BlockSet(s.data.name)
  }

  lemma TopApart(s: Shape)
    requires Distinct(s)
    ensures s.node in s.all && s.node !in Below(s) && Below(s) <= s.all
  {
  }

  /** A subtree survives every change that touches at most the links of its top node. */
  twostate lemma RepFrame(s: Shape)
    requires Distinct(s) && old(Rep(s))
    requires unchanged(s.node`kind, s.node`valueint, s.node`sign, s.node`mantissa, s.node`exponent)
    requires unchanged(s.node`valuestring, s.node`name, s.node`child)
    requires unchanged(Below(s))
    ensures Rep(s)
  {
  }

  function Objects(nodes: set<Node>): set<object> {
    set n | n in nodes :: n as object
  }

  /** Of the objects in a list of subtrees, at most links of the top nodes have changed. */
  twostate predicate OnlyLinks(list: seq<Shape>)
    reads ListAll(list), NodesOf(list)
  {
    var tops := NodesOf(list);
    && unchanged(ListAll(list) - Objects(tops))
    && unchanged(tops`kind, tops`valueint, tops`sign, tops`mantissa, tops`exponent, tops`valuestring, tops`name,
       tops`child)
  }

  lemma BelowAvoids(list: seq<Shape>, i: nat)
    requires DistinctList(list) && i < |list|
    ensures list[i].node in NodesOf(list)
    ensures Below(list[i]) <= ListAll(list) - Objects(NodesOf(list))
  {
    TopApart(list[i]);
    forall n | n in NodesOf(list)
      ensures n !in Below(list[i])
    {
      var k :| 0 <= k < |list| && list[k].node == n;
      TopApart(list[k]);
      if i < k {
        assert list[i].all !! list[k].all;
      } else if k < i {
        assert list[k].all !! list[i].all;
      }
    }
  }

  twostate lemma {:induction false} RepKept(list: seq<Shape>, new i: nat)
    requires DistinctList(list) && i < |list| && old(Rep(list[i]))
    requires OnlyLinks(list)
    ensures Rep(list[i])
  {
    BelowAvoids(list, i);
    RepFrame(list[i]);
  }

  /** Relinking the nodes of a list leaves every subtree of it as it was. */
  twostate lemma {:induction false} RepsKept(list: seq<Shape>)
    requires DistinctList(list) && (forall i :: 0 <= i < |list| ==> old(Rep(list[i])))
    requires OnlyLinks(list)
    ensures forall i :: 0 <= i < |list| ==> Rep(list[i])
  {
    forall i: nat | i < |list| {
      RepKept(list, i);
    }
  }

  lemma PrefixApart(list: seq<Shape>, i: nat)
    requires i < |list| && DistinctList(list)
    ensures ListAll(list[..i]) !! list[i].all
    ensures list[i].all <= ListAll(list)
  {
  }

  lemma ListAllNext(list: seq<Shape>, i: nat)
    requires i < |list|
    ensures ListAll(list[..i + 1]) == ListAll(list[..i]) + list[i].all
  {
  }

  lemma NextFreed(list: seq<Shape>, i: nat, before: set<object>, live: set<object>)
    requires i < |list| && DistinctList(list) && ListAll(list) <= before
    requires live == before - ListAll(list[..i])
    ensures list[i].all <= live && list[i].node in live
    ensures live - list[i].all == before - ListAll(list[..i + 1])
  {
    ListAllNext(list, i);
    PrefixApart(list, i);
    NodeInAll(list[i]);
  }

  lemma NodeInAll(s: Shape)
    requires Distinct(s)
    ensures s.node in s.all
  {
  }

  /** Freeing one node with its strings and everything below it. */
  method DeleteItem(heap: Heap, c: Node, ghost s: Shape)
    requires c == s.node && Distinct(s) && Rep(s)
    requires s.all <= heap.live && heap !in heap.live
    modifies heap`live
    ensures heap.live == old(heap.live) - s.all
    decreases s
  {
    if c.child != null {
      Delete(heap, c.child, s.kids);
    } else {
      assert ListAll(s.kids) == {};
    }
    if c.valuestring != null {
      heap.Free(c.valuestring);
    }
    if c.name != null {
      heap.Free(c.name);
    }
    heap.Free(c);
  }

  /** cJSON_Delete: frees a node, the siblings behind it, and everything below them, each object
      exactly once, and reads only what is still allocated. */
  method Delete(heap: Heap, first: Node?, ghost list: seq<Shape>)
    requires first == NodeAt(list, 0)
    requires DistinctList(list) && ListRep(list)
    requires ListAll(list) <= heap.live && heap !in heap.live
    modifies heap`live
    ensures heap.live == old(heap.live) - ListAll(list)
    decreases list
  {
    var c := first;
    ghost var i := 0;
    assert ListAll(list[..0]) == {};
    assert heap !in ListAll(list);
    while c != null
      invariant 0 <= i <= |list|
      invariant c == NodeAt(list, i)
      invariant heap.live == old(heap.live) - ListAll(list[..i])
      invariant ListRep(list)
      decreases |list| - i
    {
      NextFreed(list, i, old(heap.live), heap.live);
      assert c in heap.live;
      var next := c.next;
      DeleteItem(heap, c, list[i]);
      c := next;
      i := i + 1;
    }
    assert list[..i] == list;
  }
}
