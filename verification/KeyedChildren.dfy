/** Object members are found by the first name that is equal up to ASCII case. */
module KeyedChildren {
  import opened Bytes
  import opened JsonText
  import opened JsonBuffers
  import opened JsonNodes
  import opened NodeLists
  import opened ChildList

  function ToLower(b: byte): byte {
    if 65 <= b <= 90 then b + 32 else b
  }

  /** Equal bytes, or the upper-case and the lower-case form of one ASCII letter. */
  predicate SameLetter(a: byte, b: byte) {
    a == b || (65 <= a <= 90 && b == a + 32) || (65 <= b <= 90 && a == b + 32)
  }

  predicate SameUpToCase(a: text, b: text) {
    |a| == |b| && forall i :: 0 <= i < |a| ==> SameLetter(a[i], b[i])
  }

  lemma LowerDecides(a: byte, b: byte)
    ensures ToLower(a) == ToLower(b) <==> SameLetter(a, b)
  {
  }

  /** A missing name is equal to no name. */
  predicate SameName(name: Key, key: text) {
    name.Keyed? && SameUpToCase(name.name, key)
  }

  predicate Matches(s: Shape, key: text) {
    SameName(KeyOf(s.data.name), key)
  }

  /** The position of the first member with a name, or the number of members. */
  function FirstMatch(kids: seq<Shape>, key: text): (r: nat)
    ensures r <= |kids|
    ensures forall k :: 0 <= k < r ==> !Matches(kids[k], key)
    ensures r < |kids| ==> Matches(kids[r], key)
  {
    if |kids| == 0 || Matches(kids[0], key) then 0 else 1 + FirstMatch(kids[1..], key)
  }

  /** cJSON_strcasecmp of a member name, which may be missing, and a name that is sought. */
  method StrCaseCmp(s1: array?<byte>, s2: array<byte>, ghost b: Block, ghost key: text) returns (r: int)
    requires BlockOk(b, s1) && Holds(s2, key)
    ensures r == 0 <==> b.Block? && SameUpToCase(b.chars, key)
  {
    if s1 == null {
      return 1;
    }
    var i := 0;
    while ToLower(s1[i]) == ToLower(s2[i])
      invariant 0 <= i <= |b.chars| && i <= |key|
      invariant forall k :: 0 <= k < i ==> SameLetter(b.chars[k], key[k])
      decreases |key| - i
    {
      LowerDecides(s1[i], s2[i]);
      if s1[i] == NUL {
        return 0;
      }
      i := i + 1;
    }
    r := ToLower(s1[i]) - ToLower(s2[i]);
    LowerDecides(s1[i], s2[i]);
    assert i < |b.chars| && i < |key| ==> !SameLetter(b.chars[i], key[i]);
  }

  /** The name walk shared by Get, Detach and Replace. */
  method FindKey(ghost heap: Heap, parent: Node, wanted: array<byte>, ghost kids: seq<Shape>, ghost key: text)
    returns (c: Node?, i: nat)
    requires Children(parent, kids) && Holds(wanted, key) && wanted in heap.live
    ensures i == FirstMatch(kids, key) && c == NodeAt(kids, i)
    ensures i < |kids| ==> kids[i].data.name.Block? && SameUpToCase(kids[i].data.name.chars, key)
    ensures forall k :: 0 <= k < i && kids[k].data.name.Block? ==> !SameUpToCase(kids[k].data.name.chars, key)
  {
    c, i := parent.child, 0;
    assert Linked(kids);
    while c != null
      invariant 0 <= i <= FirstMatch(kids, key) && c == NodeAt(kids, i)
      invariant Children(parent, kids)
      decreases |kids| - i
    {
      assert Rep(kids[i]) && DataOk(kids[i].data, kids[i].node);
      var r := StrCaseCmp(c.name, wanted, kids[i].data.name, key);
      if r == 0 {
        return;
      }
      c := c.next;
      i := i + 1;
    }
  }

  /** cJSON_DetachItemFromObject. */
  method DetachItemFromObject(ghost heap: Heap, parent: Node, wanted: array<byte>, ghost kids: seq<Shape>,
                              ghost key: text)
    returns (c: Node?)
    requires Children(parent, kids) && Holds(wanted, key) && wanted in heap.live
    modifies parent`child, NodesOf(kids)`prev, NodesOf(kids)`next
    ensures c == NodeAt(kids, FirstMatch(kids, key))
    ensures c == null ==> Children(parent, kids)
    ensures c != null ==>
      var w := FirstMatch(kids, key);
      Children(parent, Without(kids, w)) && Loose(c, kids[w], parent, Without(kids, w))
  {
    var i;
    c, i := FindKey(heap, parent, wanted, kids, key);
    if c != null {
      c := DetachItemFromArray(parent, i, kids);
    }
  }

  /** cJSON_DeleteItemFromObject. */
  method DeleteItemFromObject(heap: Heap, parent: Node, wanted: array<byte>, ghost kids: seq<Shape>, ghost key: text)
    requires Children(parent, kids) && Holds(wanted, key) && wanted in heap.live
    requires heap !in heap.live && ListAll(kids) <= heap.live && parent in heap.live
    modifies heap`live, parent`child, NodesOf(kids)`prev, NodesOf(kids)`next
    ensures FirstMatch(kids, key) == |kids| ==> Children(parent, kids) && heap.live == old(heap.live)
    ensures FirstMatch(kids, key) < |kids| ==>
      var w := FirstMatch(kids, key);
      Children(parent, Without(kids, w)) && heap.live == old(heap.live) - kids[w].all
  {
    var c := DetachItemFromObject(heap, parent, wanted, kids, key);
    if c != null {
      ghost var w := FirstMatch(kids, key);
      DeleteDetached(heap, parent, c, Without(kids, w), kids[w]);
    }
  }

  /** A subtree whose top node has another name. */
  ghost function Renamed(s: Shape, name: Block): Shape {
    var data := s.data.(name := name);
    Shape(s.node, data, s.kids, Own(s.node, data) + ListAll(s.kids))
  }

  /** `newitem->string = cJSON_strdup(string)`. */
  method Rename(heap: Heap, item: Node, wanted: array<byte>, ghost s: Shape, ghost key: text) returns (ghost t: Shape)
    requires Detached(item, s) && Holds(wanted, key) && wanted in heap.live
    requires heap !in heap.live && heap !in s.all
    modifies heap`live, item`name
    ensures t.data.name.Block? && t.data.name.chars == key && fresh(t.data.name.at)
    ensures t == Renamed(s, t.data.name) && Detached(item, t) && BlockSet(t.data.name) !! old(heap.live)
    ensures heap !in heap.live && heap.live == old(heap.live) + BlockSet(t.data.name)
  {
    var copy := StrDupBuffer(wanted, key);
    heap.Allocated(copy);
    t := Renamed(s, Block(copy, key));
    item.name := copy;
  }

  /** Replacing at a known position. */
  method ReplaceNamed(heap: Heap, parent: Node, wanted: array<byte>, newitem: Node, w: nat, ghost kids: seq<Shape>,
                      ghost s: Shape, ghost key: text)
    returns (ghost t: Shape)
    requires Children(parent, kids) && Loose(newitem, s, parent, kids) && w < |kids|
    requires Holds(wanted, key) && wanted in heap.live
    requires heap !in heap.live && ListAll(kids) <= heap.live && s.all <= heap.live && parent in heap.live
    modifies heap`live, parent`child, NodesOf(kids)`prev, NodesOf(kids)`next
    modifies newitem`prev, newitem`next, newitem`name
    ensures t.data.name.Block? && t.data.name.chars == key && fresh(t.data.name.at) && t == Renamed(s, t.data.name)
    ensures BlockSet(t.data.name) !! old(heap.live)
    ensures Children(parent, kids[w := t]) && heap.live == old(heap.live) + BlockSet(t.data.name) - kids[w].all
  {
    NodesInside(kids);
    t := Rename(heap, newitem, wanted, s, key);
    assert Children(parent, kids);
    ReplaceItemInArray(heap, parent, w, newitem, kids, t);
  }

  /** cJSON_ReplaceItemInObject. The new item's previous name, if any, stays allocated and is no
      longer reachable from the tree. */
  method ReplaceItemInObject(heap: Heap, parent: Node, wanted: array<byte>, newitem: Node, ghost kids: seq<Shape>,
                             ghost s: Shape, ghost key: text)
    returns (ghost t: Shape)
    requires Children(parent, kids) && Loose(newitem, s, parent, kids)
    requires Holds(wanted, key) && wanted in heap.live
    requires heap !in heap.live && ListAll(kids) <= heap.live && s.all <= heap.live && parent in heap.live
    modifies heap`live, parent`child, NodesOf(kids)`prev, NodesOf(kids)`next, newitem`prev, newitem`next, newitem`name
    ensures FirstMatch(kids, key) == |kids| ==>
      Children(parent, kids) && Loose(newitem, s, parent, kids) && heap.live == old(heap.live)
    ensures FirstMatch(kids, key) < |kids| ==>
      var w := FirstMatch(kids, key);
      && t.data.name.Block? && t.data.name.chars == key && fresh(t.data.name.at) && t == Renamed(s, t.data.name)
      && BlockSet(t.data.name) !! old(heap.live)
      && Children(parent, kids[w := t])
      && heap.live == old(heap.live) + BlockSet(t.data.name) - kids[w].all
  {
    var c, i := FindKey(heap, parent, wanted, kids, key);
    t := s;
    if c != null {
      t := ReplaceNamed(heap, parent, wanted, newitem, i, kids, s, key);
    }
  }

  /** The part of cJSON_AddItemToObject behind the free. */
  method AddNamed(heap: Heap, parent: Node, wanted: array<byte>, item: Node, ghost kids: seq<Shape>, ghost s: Shape,
                  ghost key: text)
    returns (ghost t: Shape)
    requires Children(parent, kids) && Loose(item, s, parent, kids)
    requires Holds(wanted, key) && wanted in heap.live
    requires heap !in heap.live && heap !in s.all && heap !in ListAll(kids)
    modifies heap`live, parent`child, NodesOf(kids)`next, item`prev, item`name
    ensures t.data.name.Block? && t.data.name.chars == key && fresh(t.data.name.at) && t == Renamed(s, t.data.name)
    ensures Children(parent, kids + [t]) && BlockSet(t.data.name) !! old(heap.live)
    ensures heap.live == old(heap.live) + BlockSet(t.data.name)
  {
    TopApart(s);
    t := Rename(heap, item, wanted, s, key);
    assert Children(parent, kids);
    AddItemToArray(parent, item, kids, t);
  }

  /** cJSON_AddItemToObject. The item's previous name is freed before the key is copied, so the copy is
      defined iff the key is not that name; if it is, the key is no longer allocated when it is read, and
      nothing is said of what follows. */
  method AddItemToObject(heap: Heap, parent: Node, wanted: array<byte>, item: Node?, ghost kids: seq<Shape>,
                         ghost s: Shape, ghost key: text)
    returns (defined: bool, ghost t: Shape)
    requires Children(parent, kids) && (item != null ==> Loose(item, s, parent, kids) && s.all <= heap.live)
    requires Holds(wanted, key) && wanted in heap.live
    requires heap !in heap.live && ListAll(kids) <= heap.live && parent in heap.live
    modifies heap`live, parent`child, NodesOf(kids)`next, NodeSet(item)`prev, NodeSet(item)`name
    ensures defined <==> item == null || wanted !in BlockSet(s.data.name)
    ensures !defined ==> item.name == wanted && wanted !in heap.live
    ensures !defined ==> heap.live == old(heap.live) - BlockSet(s.data.name)
    ensures item == null ==> Children(parent, kids) && heap.live == old(heap.live)
    ensures defined && item != null ==>
      && t.data.name.Block? && t.data.name.chars == key && fresh(t.data.name.at) && t == Renamed(s, t.data.name)
      && BlockSet(t.data.name) !! old(heap.live)
      && Children(parent, kids + [t])
      && heap.live == old(heap.live) - BlockSet(s.data.name) + BlockSet(t.data.name)
  {
    defined, t := true, s;
    if item == null {
      return;
    }
    defined := item.name != wanted;
    if item.name != null {
      heap.Free(item.name);
    }
    if !defined {
      return;
    }
    t := AddNamed(heap, parent, wanted, item, kids, s, key);
  }

  /** What renaming and appending mean for the members: the new one is last and carries the key. */
  lemma AppendedMember(kids: seq<Shape>, s: Shape, name: Block)
    requires name.Block?
    ensures MembersOf(kids + [Renamed(s, name)]) == MembersOf(kids) + [Member(Keyed(name.chars), Tree(s))]
  {
  }

  /** An item of its own with the name "a". */
  method NamedItem(heap: Heap) returns (item: Node, at: array<byte>, ghost s: Shape)
    requires heap !in heap.live
    modifies heap`live
    ensures fresh(item) && fresh(s.all) && Detached(item, s) && s.data.name == Block(at, [97])
    ensures heap !in heap.live && heap.live == old(heap.live) + s.all
  {
    item := NewItem(heap);
    at := StrDup([97]);
    heap.Allocated(at);
    item.name := at;
    ghost var data := Data(FalseKind, 0, 0, 0, 0, NoBlock, Block(at, [97]));
    s := Shape(item, data, [], Own(item, data));
  }

  /** Adding that item to an empty object under its own name: the code goes on with a name that is freed,
      and has to copy it. */
  method OwnNameIsFreed(heap: Heap) returns (item: Node, defined: bool)
    requires heap !in heap.live
    modifies heap`live
    ensures !defined && item.name != null && item.name !in heap.live
  {
    var parent := NewItem(heap);
    parent.kind := ObjectKind;
    var at;
    ghost var s, t;
    item, at, s := NamedItem(heap);
    defined, t := AddItemToObject(heap, parent, at, item, [], s, [97]);
  }
}
