/** The wrapper's index from array positions to wrappers of the element nodes. It shortcuts the
    child list, so an operation that moves elements has to evict what it makes stale. The overloads
    that take an object do so for natural indices; those that take a scalar never do. */
module ArrayCache {
  import opened Bytes
  import opened JsonInt
  import opened JsonText
  import opened JsonRoundTrip
  import opened JsonEquality
  import opened JsonBuffers
  import opened JsonNodes
  import opened NodeLists
  import opened JsonNodeParser
  import opened ChildList
  import opened Wrapper

  // ---------------------------------------------------------------- the index

  /** The conversions between keys and indices. */
  function AsInt(k: u32): i32 {
    if k < 0x8000_0000 then k else k - 0x1_0000_0000
  }

  function AsKey(which: i32): u32 {
    if which < 0 then which + 0x1_0000_0000 else which
  }

  /** The position a key stands for: the list walk takes negative indices for the first element. */
  function Slot(k: u32): nat {
    Position(AsInt(k))
  }

  /** Every cached wrapper refers to the node that is now at its position, or to none past the end. */
  ghost predicate Coherent(o: CJsonObject, elements: seq<Shape>)
    reads o`cache, o.cache.Values`extern
  {
    forall k :: k in o.cache ==> o.cache[k].extern == NodeAt(elements, Slot(k))
  }

  /** operator[]: the cached wrapper, or a new one that is cached from now on. */
  method Index(o: CJsonObject, k: u32, ghost c: Content) returns (w: CJsonObject)
    requires o.Has(c) && Coherent(o, Elements(c))
    modifies o`cache
    ensures Coherent(o, Elements(c))
    ensures k in o.cache && o.cache[k] == w && w.extern == NodeAt(Elements(c), Slot(k))
    ensures o.cache.Keys == old(o.cache).Keys + {k}
    ensures forall i :: i in old(o.cache) ==> o.cache[i] == old(o.cache)[i]
  {
    if k in o.cache {
      w := o.cache[k];
    } else {
      var n := o.Element(AsInt(k), c);
      w := new CJsonObject.OfNode(n);
      o.cache := o.cache[k := w];
    }
  }

  function Restricted(cache: map<u32, CJsonObject>, bound: nat): map<u32, CJsonObject> {
    map k | k in cache && k < bound :: cache[k]
  }

  /** Erase the entries from an index on. */
  method Evict(o: CJsonObject, from: nat)
    modifies o`cache
    ensures o.cache == Restricted(old(o.cache), from)
  {
    var left := o.cache.Keys;
    while left != {}
      invariant left <= old(o.cache).Keys
      invariant o.cache == map k | k in old(o.cache) && (k in left || k < from) :: old(o.cache)[k]
      decreases |left|
    {
      var k :| k in left;
      if k >= from {
        o.cache := o.cache - {k};
      }
      left := left - {k};
    }
  }

  /** Of a coherent index, the entries that are left are right for another list iff their positions
      hold the nodes they held before. */
  lemma StillCoherent(o: CJsonObject, before: map<u32, CJsonObject>, elements: seq<Shape>, after: seq<Shape>)
    requires forall k :: k in before ==> before[k].extern == NodeAt(elements, Slot(k))
    requires forall k :: k in o.cache ==> k in before && o.cache[k] == before[k]
    ensures Coherent(o, after) <==> forall k :: k in o.cache ==> NodeAt(after, Slot(k)) == NodeAt(elements, Slot(k))
  {
  }

  // ---------------------------------------------------------------- what is put into an array

  /** An object, given by its text, or a scalar. */
  datatype Value = Parsed(s: text) | Chars(s: text) | Number(bits: u64, sign: int) | Flag(b: bool)

  predicate Given(v: Value) {
    v.Parsed? ==> !JsonText.Parse(v.s).Undefined?
  }

  predicate Makes(v: Value) {
    v.Parsed? ==> JsonText.Parse(v.s).Ok?
  }

  /** What a C string shows of a C++ string. */
  function UpToNul(s: text): (r: text)
    ensures NulFree(r)
  {
    if At(s) == NUL then [] else [s[0]] + UpToNul(s[1..])
  }

  function ValueTree(v: Value): Json
    requires Makes(v)
  {
    match v
    case Parsed(s) => JsonText.Parse(s).value
    case Chars(s) => Str(UpToNul(s))
    case Number(bits, sign) => Int(bits, sign)
    case Flag(b) => if b then True else False
  }

  /** The texts that wrappers pass on parse to the wrapped tree. */
  lemma PrintedIsGiven(c: Content)
    requires c.Some? ==> Printable(Tree(c.shape))
    ensures Given(Parsed(Text(c)))
    ensures Makes(Parsed(Text(c))) <==> c.Some?
    ensures c.Some? ==> ValueTree(Parsed(Text(c))) == Norm(Tree(c.shape))
  {
    if c.Some? {
      ReparseAgrees(Tree(c.shape), 0, false);
    }
  }

  method MakeString(heap: Heap, chars: text) returns (item: Node, ghost t: Shape)
    requires heap !in heap.live && NulFree(chars)
    modifies heap`live
    ensures Detached(item, t) && fresh(item) && fresh(t.all)
    ensures heap !in heap.live && heap.live == old(heap.live) + t.all && Tree(t) == Str(chars)
  {
    item := NewItem(heap);
    var copy := StrDup(chars);
    heap.Allocated(copy);
    item.kind, item.valuestring := StringKind, copy;
    t := LeafOf(item, Block(copy, chars), NoBlock);
    LeafOk(item, Block(copy, chars), NoBlock);
  }

  /** cJSON_CreateString, cJSON_CreateInt and cJSON_CreateBool. */
  method MakeScalar(heap: Heap, v: Value) returns (item: Node, ghost t: Shape)
    requires !v.Parsed? && heap !in heap.live
    modifies heap`live
    ensures Detached(item, t) && fresh(item) && fresh(t.all)
    ensures heap !in heap.live && heap.live == old(heap.live) + t.all && Tree(t) == ValueTree(v)
  {
    if v.Chars? {
      item, t := MakeString(heap, UpToNul(v.s));
      return;
    }
    item := NewItem(heap);
    if v.Number? {
      item.kind, item.valueint, item.sign := IntKind, v.bits, v.sign;
    } else {
      item.kind := if v.b then TrueKind else FalseKind;
    }
    t := LeafOf(item, NoBlock, NoBlock);
    LeafOk(item, NoBlock, NoBlock);
  }

  /** An array, by its top node. */
  ghost predicate IsArray(n: Node, root: Shape)
    reads root.node, BlockSet(root.data.text), BlockSet(root.data.name), ListAll(root.kids)
  {
    Sound(root) && root.data.kind == ArrayKind && n == root.node
  }

  /** A loose subtree that can be put into an array. */
  ghost predicate Insertable(item: Node, t: Shape, root: Shape)
    reads t.node, t.all
  {
    Loose(item, t, root.node, root.kids) && t.all !! root.all
  }

  /** The node to insert, if the value makes one. */
  method MakeItem(heap: Heap, v: Value, ghost root: Shape) returns (item: Node?, ghost t: Shape)
    requires Distinct(root) && heap !in heap.live && root.all <= heap.live && Given(v)
    modifies heap`live
    ensures item != null <==> Makes(v)
    ensures item == null ==> heap.live == old(heap.live)
    ensures item != null ==>
      && Insertable(item, t, root) && fresh(item) && fresh(t.all)
      && heap !in heap.live && heap.live == old(heap.live) + t.all && Tree(t) == ValueTree(v)
  {
    t := root;
    if v.Parsed? {
      ghost var list;
      item, list := ParseTree(heap, v.s);
      if item != null {
        t := list[0];
        LinksOf(list);
      }
    } else {
      item, t := MakeScalar(heap, v);
    }
    ListAllOf(root);
  }

  // ---------------------------------------------------------------- insertion

  ghost function WithKids(root: Shape, kids: seq<Shape>): Shape {
    Shape(root.node, root.data, kids, Own(root.node, root.data) + ListAll(kids))
  }

  /** An array with other children is still sound. */
  lemma Regrown(root: Shape, kids: seq<Shape>)
    requires Distinct(root) && DataOk(root.data, root.node)
    requires Own(root.node, root.data) !! ListAll(kids) && Children(root.node, kids)
    ensures Sound(WithKids(root, kids))
  {
  }

  lemma ListAllOf(root: Shape)
    requires Distinct(root)
    ensures ListAll(root.kids) <= root.all && root.node in root.all && Own(root.node, root.data) !! ListAll(root.kids)
  {
  }

  lemma ArrayKids(n: Node, root: Shape)
    requires IsArray(n, root)
    ensures Children(n, root.kids) && DataOk(root.data, n)
  {
  }

  /** The array to insert into, created when the wrapper is empty. */
  ghost predicate TakesArray(c: Content) {
    c.Nothing? || c.shape.data.kind == ArrayKind
  }

  method FocusArray(heap: Heap, o: CJsonObject, ghost c: Content) returns (n: Node?, ghost r: Content)
    requires o.Has(c) && heap !in heap.live && Footprint(c) <= heap.live && o !in heap.live
    modifies heap`live, o`data
    ensures n != null <==> TakesArray(c)
    ensures o.Has(r) && Elements(r) == Elements(c) && (c.Some? ==> r == c)
    ensures n != null ==> r.Some? && IsArray(n, r.shape)
    ensures n == null ==> r == c
    ensures Footprint(c) <= Footprint(r) && fresh(Footprint(r) - Footprint(c))
    ensures heap !in heap.live && heap.live == old(heap.live) + Footprint(r)
  {
    n, r := o.Focus(), c;
    if n == null {
      n := NewItem(heap);
      n.kind := ArrayKind;
      o.data := n;
      r := Some(LeafOf(n, NoBlock, NoBlock));
      LeafOk(n, NoBlock, NoBlock);
    } else if n.kind != ArrayKind {
      n := null;
    }
  }

  ghost function Longer(front: bool, kids: seq<Shape>, t: Shape): seq<Shape> {
    if front then [t] + kids else kids + [t]
  }

  lemma LongerAll(front: bool, root: Shape, t: Shape)
    requires Distinct(root)
    ensures ListAll(Longer(front, root.kids, t)) == ListAll(root.kids) + t.all
    ensures WithKids(root, Longer(front, root.kids, t)).all == root.all + t.all
  {
    ListAllSnoc(root.kids, t);
    AllCons(t, root.kids);
  }

  method LinkItem(n: Node, item: Node, front: bool, ghost root: Shape, ghost t: Shape)
    requires IsArray(n, root) && Insertable(item, t, root)
    modifies n`child, NodesOf(root.kids)`next, NodesOf(root.kids)`prev, item`prev, item`next
    ensures Sound(WithKids(root, Longer(front, root.kids, t)))
  {
    ArrayKids(n, root);
    ListAllOf(root);
    NodesInside(root.kids);
    if front {
      AddItemToArrayHead(n, item, root.kids, t);
    } else {
      AddItemToArray(n, item, root.kids, t);
    }
    LongerAll(front, root, t);
    Regrown(root, Longer(front, root.kids, t));
  }

  /** Make a node and put it at an end of an array. */
  method Insert(heap: Heap, n: Node, v: Value, front: bool, ghost root: Shape)
    returns (ok: bool, ghost r: Shape, ghost t: Shape)
    requires IsArray(n, root) && Given(v)
    requires heap !in heap.live && root.all <= heap.live
    modifies heap`live, n`child, NodesOf(root.kids)`next, NodesOf(root.kids)`prev
    ensures ok <==> Makes(v)
    ensures IsArray(n, r) && root.all <= r.all && r == if ok then WithKids(root, Longer(front, root.kids, t)) else root
    ensures ok ==> Tree(t) == ValueTree(v) && fresh(t.node)
    ensures fresh(r.all - root.all) && heap !in heap.live && heap.live == old(heap.live) + r.all
  {
    var item;
    item, t := MakeItem(heap, v, root);
    ok, r := item != null, root;
    if item != null {
      LinkItem(n, item, front, root, t);
      LongerAll(front, root, t);
      r := WithKids(root, Longer(front, root.kids, t));
    }
  }

  lemma LongerTrees(front: bool, kids: seq<Shape>, t: Shape)
    ensures Trees(Longer(front, kids, t)) == if front then [Tree(t)] + Trees(kids) else Trees(kids) + [Tree(t)]
  {
  }

  /** Behind a list one position is new; in front of it, all positions move. */
  lemma LongerMoves(front: bool, kids: seq<Shape>, t: Shape, j: nat)
    requires NodesDiffer(kids) && t.node !in NodesOf(kids)
    ensures NodeAt(Longer(front, kids, t), j) == NodeAt(kids, j) <==> if front then j > |kids| else j != |kids|
  {
    if j < |kids| {
      assert kids[j].node in NodesOf(kids);
      assert 0 < j ==> kids[j - 1].node != kids[j].node;
    }
  }

  /** Whether an index whose keys are these is right after an insertion. */
  predicate InsertSafe(front: bool, keys: set<u32>, n: nat) {
    forall k :: k in keys ==> if front then Slot(k) > n else Slot(k) != n
  }

  lemma InsertedCoherent(o: CJsonObject, front: bool, before: map<u32, CJsonObject>, kids: seq<Shape>, t: Shape)
    requires NodesDiffer(kids) && t.node !in NodesOf(kids)
    requires forall k :: k in before ==> before[k].extern == NodeAt(kids, Slot(k))
    requires forall k :: k in o.cache ==> k in before && o.cache[k] == before[k]
    ensures Coherent(o, Longer(front, kids, t)) <==> InsertSafe(front, o.cache.Keys, |kids|)
  {
    StillCoherent(o, before, kids, Longer(front, kids, t));
    forall k | k in o.cache
      ensures (NodeAt(Longer(front, kids, t), Slot(k)) == NodeAt(kids, Slot(k))) <==>
              if front then Slot(k) > |kids| else Slot(k) != |kids|
    {
      LongerMoves(front, kids, t, Slot(k));
    }
  }

  /** The entries an insertion leaves: for an object those below the changed positions, for a scalar
      all of them. */
  function KeptAfterInsert(cache: map<u32, CJsonObject>, v: Value, front: bool, n: nat): map<u32, CJsonObject> {
    if v.Parsed? then Restricted(cache, if front then 0 else n) else cache
  }

  method Size(n: Node, ghost root: Shape) returns (size: nat)
    requires IsArray(n, root)
    ensures size == |root.kids|
  {
    ArrayKids(n, root);
    size := ArraySize(n, root.kids);
  }

  lemma KeptAreOld(cache: map<u32, CJsonObject>, v: Value, front: bool, n: nat)
    ensures forall k :: k in KeptAfterInsert(cache, v, front, n) ==>
              k in cache && KeptAfterInsert(cache, v, front, n)[k] == cache[k]
    ensures v.Parsed? ==> InsertSafe(front, KeptAfterInsert(cache, v, front, n).Keys, n)
  {
  }

  lemma TopsDiffer(front: bool, kids: seq<Shape>, t: Shape)
    requires DistinctList(Longer(front, kids, t))
    ensures NodesDiffer(kids) && t.node !in NodesOf(kids)
  {
    var list := Longer(front, kids, t);
    var d := if front then 1 else 0;
    forall i | 0 <= i < |kids|
      ensures kids[i].node != t.node
    {
      assert list[i + d] == kids[i] && list[if front then 0 else |kids|] == t;
    }
    forall i, j | 0 <= i < j < |kids|
      ensures kids[i].node != kids[j].node
    {
      assert list[i + d] == kids[i] && list[j + d] == kids[j];
    }
  }

  /** The eviction that follows an insertion. */
  method EvictInserted(o: CJsonObject, n: Node, v: Value, front: bool, ghost kids: seq<Shape>, ghost root: Shape,
                       ghost t: Shape)
    requires Coherent(o, kids) && IsArray(n, root) && root.kids == Longer(front, kids, t)
    modifies o`cache
    ensures o.cache == KeptAfterInsert(old(o.cache), v, front, |kids|)
    ensures Coherent(o, root.kids) <==> InsertSafe(front, o.cache.Keys, |kids|)
  {
    ghost var before := o.cache;
    if v.Parsed? {
      if front {
        Evict(o, 0);
      } else {
        var size := Size(n, root);
        Evict(o, size - 1);
      }
    }
    KeptAreOld(before, v, front, |kids|);
    TopsDiffer(front, kids, t);
    InsertedCoherent(o, front, before, kids, t);
  }

  method InsertInto(heap: Heap, o: CJsonObject, n: Node, v: Value, front: bool, ghost root: Shape)
    returns (ok: bool, ghost r: Shape)
    requires o.Focus() == n && IsArray(n, root) && Coherent(o, root.kids) && Given(v)
    requires heap !in heap.live && root.all <= heap.live && o !in heap.live
    modifies heap`live, o`cache, n`child, NodesOf(root.kids)`next, NodesOf(root.kids)`prev
    ensures o.Focus() == n && IsArray(n, r) && root.all <= r.all && fresh(r.all - root.all)
    ensures ok <==> Makes(v)
    ensures Trees(r.kids) == Inserted(front, Trees(root.kids), v)
    ensures o.cache == if ok then KeptAfterInsert(old(o.cache), v, front, |root.kids|) else old(o.cache)
    ensures Coherent(o, r.kids) <==> !ok || InsertSafe(front, o.cache.Keys, |root.kids|)
    ensures heap !in heap.live && heap.live == old(heap.live) + r.all
  {
    ghost var t;
    ok, r, t := Insert(heap, n, v, front, root);
    if ok {
      EvictInserted(o, n, v, front, root.kids, r, t);
      LongerTrees(front, root.kids, t);
    }
  }

  function Inserted(front: bool, items: seq<Json>, v: Value): seq<Json> {
    if !Makes(v) then items else if front then [ValueTree(v)] + items else items + [ValueTree(v)]
  }

  lemma GrowTwice(live: set<object>, a: set<object>, b: set<object>, c: set<object>)
    requires a <= b <= c
    ensures live + b + c == live + c && c - a == (b - a) + (c - b)
  {
  }

  ghost function TopOf(c: Content): set<Node> {
    if c.Some? then {c.shape.node} else {}
  }

  /** The focused array, with what it owns beyond `had`, and an insertion into it. */
  method InsertFocused(heap: Heap, o: CJsonObject, n: Node, v: Value, front: bool, ghost root: Shape,
                       ghost had: set<object>, ghost live: set<object>)
    returns (ok: bool, ghost r: Content)
    requires o.Focus() == n && IsArray(n, root) && Coherent(o, root.kids) && Given(v)
    requires heap !in heap.live && heap.live == live + root.all && had <= live && had <= root.all && o !in heap.live
    modifies heap`live, o`cache, n`child, NodesOf(root.kids)`next, NodesOf(root.kids)`prev
    ensures o.Has(r) && r.Some? && r.shape.data.kind == ArrayKind
    ensures ok <==> Makes(v)
    ensures Trees(Elements(r)) == Inserted(front, Trees(root.kids), v)
    ensures o.cache == if ok then KeptAfterInsert(old(o.cache), v, front, |root.kids|) else old(o.cache)
    ensures Coherent(o, Elements(r)) <==> !ok || InsertSafe(front, o.cache.Keys, |root.kids|)
    ensures had <= Footprint(r) && fresh(Footprint(r) - root.all)
    ensures heap !in heap.live && heap.live == live + Footprint(r)
  {
    ghost var grown;
    ok, grown := InsertInto(heap, o, n, v, front, root);
    GrowTwice(live, had, root.all, grown.all);
    r := Some(grown);
  }

  method InsertAny(heap: Heap, o: CJsonObject, v: Value, front: bool, ghost c: Content)
    returns (ok: bool, ghost r: Content)
    requires o.Has(c) && Coherent(o, Elements(c)) && Given(v)
    requires heap !in heap.live && Footprint(c) <= heap.live && o !in heap.live
    modifies heap`live, o`data, o`cache, TopOf(c)`child, NodesOf(Elements(c))`next, NodesOf(Elements(c))`prev
    ensures o.Has(r) && (TakesArray(c) <==> TakesArray(r)) && (r.Nothing? ==> !TakesArray(c))
    ensures ok <==> TakesArray(c) && Makes(v)
    ensures Trees(Elements(r)) == if ok then Inserted(front, Trees(Elements(c)), v) else Trees(Elements(c))
    ensures o.cache == if ok then KeptAfterInsert(old(o.cache), v, front, |Elements(c)|) else old(o.cache)
    ensures Coherent(o, Elements(r)) <==> !ok || InsertSafe(front, o.cache.Keys, |Elements(c)|)
    ensures Footprint(c) <= Footprint(r) && fresh(Footprint(r) - Footprint(c))
    ensures heap !in heap.live && heap.live == old(heap.live) + Footprint(r)
  {
    ok := false;
    var n;
    n, r := FocusArray(heap, o, c);
    if n != null {
      ok, r := InsertFocused(heap, o, n, v, front, r.shape, Footprint(c), old(heap.live));
    }
  }

  /** Add. The overload for an object evicts the entries from the new last position on, and the index
      stays right; after a scalar it is right iff no entry stood for that position. */
  method Add(heap: Heap, o: CJsonObject, v: Value, ghost c: Content) returns (ok: bool, ghost r: Content)
    requires o.Has(c) && Coherent(o, Elements(c)) && Given(v)
    requires heap !in heap.live && Footprint(c) <= heap.live && o !in heap.live
    modifies heap`live, o`data, o`cache, TopOf(c)`child, NodesOf(Elements(c))`next, NodesOf(Elements(c))`prev
    ensures o.Has(r) && (TakesArray(c) <==> TakesArray(r)) && (r.Nothing? ==> !TakesArray(c))
    ensures ok <==> TakesArray(c) && Makes(v)
    ensures Trees(Elements(r)) == Trees(Elements(c)) + (if ok then [ValueTree(v)] else [])
    ensures o.cache == if ok && v.Parsed? then Restricted(old(o.cache), |Elements(c)|) else old(o.cache)
    ensures Coherent(o, Elements(r)) <==>
            ok && !v.Parsed? ==> forall k :: k in old(o.cache) ==> Slot(k) != |Elements(c)|
    ensures Footprint(c) <= Footprint(r) && fresh(Footprint(r) - Footprint(c))
    ensures heap !in heap.live && heap.live == old(heap.live) + Footprint(r)
  {
    KeptAreOld(o.cache, v, false, |Elements(c)|);
    ok, r := InsertAny(heap, o, v, false, c);
  }

  /** AddAsFirst. Every element moves. The overload for an object evicts every entry; after a scalar
      the index is right iff every entry stood for a position past the new end. */
  method AddAsFirst(heap: Heap, o: CJsonObject, v: Value, ghost c: Content) returns (ok: bool, ghost r: Content)
    requires o.Has(c) && Coherent(o, Elements(c)) && Given(v)
    requires heap !in heap.live && Footprint(c) <= heap.live && o !in heap.live
    modifies heap`live, o`data, o`cache, TopOf(c)`child, NodesOf(Elements(c))`next, NodesOf(Elements(c))`prev
    ensures o.Has(r) && (TakesArray(c) <==> TakesArray(r)) && (r.Nothing? ==> !TakesArray(c))
    ensures ok <==> TakesArray(c) && Makes(v)
    ensures Trees(Elements(r)) == (if ok then [ValueTree(v)] else []) + Trees(Elements(c))
    ensures o.cache == if ok && v.Parsed? then map[] else old(o.cache)
    ensures Coherent(o, Elements(r)) <==>
            ok && !v.Parsed? ==> forall k :: k in old(o.cache) ==> Slot(k) > |Elements(c)|
    ensures Footprint(c) <= Footprint(r) && fresh(Footprint(r) - Footprint(c))
    ensures heap !in heap.live && heap.live == old(heap.live) + Footprint(r)
  {
    KeptAreOld(o.cache, v, true, |Elements(c)|);
    ok, r := InsertAny(heap, o, v, true, c);
  }

  // ---------------------------------------------------------------- deletion

  lemma CutAt<T>(a: seq<T>, w: nat, i: nat)
    requires w < |a| && i < |a| - 1
    ensures |a[..w] + a[w + 1..]| == |a| - 1
    ensures (a[..w] + a[w + 1..])[i] == a[if i < w then i else i + 1]
  {
  }

  lemma WithoutTrees(kids: seq<Shape>, w: nat)
    requires w < |kids|
    ensures Trees(Without(kids, w)) == Trees(kids)[..w] + Trees(kids)[w + 1..]
  {
    var a, b := Trees(Without(kids, w)), Trees(kids)[..w] + Trees(kids)[w + 1..];
    assert |a| == |b| == |kids| - 1;
    forall i | 0 <= i < |a|
      ensures a[i] == b[i]
    {
      WithoutAt(kids, w, i);
      CutAt(Trees(kids), w, i);
    }
    assert a == b;
  }

  ghost function Cut(kids: seq<Shape>, w: nat): seq<Shape> {
    if w < |kids| then Without(kids, w) else kids
  }

  /** What a list loses at a position. */
  ghost function Gone(kids: seq<Shape>, w: nat): set<object> {
    if w < |kids| then kids[w].all else {}
  }

  lemma CutRoot(root: Shape, w: nat)
    requires Distinct(root) && DataOk(root.data, root.node) && Children(root.node, Cut(root.kids, w))
    ensures Sound(WithKids(root, Cut(root.kids, w)))
    ensures WithKids(root, Cut(root.kids, w)).all == root.all - Gone(root.kids, w)
  {
    if w < |root.kids| {
      AllWithout(root.kids, w);
      ApartWithout(root.kids, w);
    }
    Regrown(root, Cut(root.kids, w));
  }

  method CutItem(heap: Heap, n: Node, which: i32, ghost root: Shape)
    requires IsArray(n, root) && heap !in heap.live && root.all <= heap.live
    modifies heap`live, n`child, NodesOf(root.kids)`prev, NodesOf(root.kids)`next
    ensures DataOk(root.data, n) && Children(n, Cut(root.kids, Position(which)))
    ensures heap.live == old(heap.live) - Gone(root.kids, Position(which))
  {
    ArrayKids(n, root);
    ListAllOf(root);
    NodesInside(root.kids);
    DeleteItemFromArray(heap, n, which, root.kids);
  }

  /** From the deleted position to the old end every position gets another node. */
  lemma CutMoves(kids: seq<Shape>, w: nat, j: nat)
    requires NodesDiffer(kids) && w < |kids|
    ensures NodeAt(Without(kids, w), j) == NodeAt(kids, j) <==> j < w || j >= |kids|
  {
    if j < |kids| - 1 {
      WithoutAt(kids, w, j);
      assert kids[j].node != kids[j + 1].node;
    }
  }

  /** Whether an index whose keys are these is right after a deletion. */
  predicate DeleteSafe(keys: set<u32>, w: nat, n: nat) {
    w < n ==> forall k :: k in keys ==> Slot(k) < w || Slot(k) >= n
  }

  lemma CutCoherent(o: CJsonObject, before: map<u32, CJsonObject>, kids: seq<Shape>, w: nat)
    requires NodesDiffer(kids)
    requires forall k :: k in before ==> before[k].extern == NodeAt(kids, Slot(k))
    requires forall k :: k in o.cache ==> k in before && o.cache[k] == before[k]
    ensures Coherent(o, Cut(kids, w)) <==> DeleteSafe(o.cache.Keys, w, |kids|)
  {
    StillCoherent(o, before, kids, Cut(kids, w));
    if w < |kids| {
      forall k | k in o.cache
        ensures (NodeAt(Cut(kids, w), Slot(k)) == NodeAt(kids, Slot(k))) <==> Slot(k) < w || Slot(k) >= |kids|
      {
        CutMoves(kids, w, Slot(k));
      }
    }
  }

  /** The keys below a natural index stand for positions below it. */
  lemma BelowIsSafe(cache: map<u32, CJsonObject>, which: i32, n: nat)
    requires which >= 0
    ensures DeleteSafe(Restricted(cache, AsKey(which)).Keys, Position(which), n)
  {
  }

  function Shorter(items: seq<Json>, w: nat): seq<Json> {
    if w < |items| then items[..w] + items[w + 1..] else items
  }

  /** The eviction that follows a deletion. */
  method EvictDeleted(o: CJsonObject, which: i32, ghost kids: seq<Shape>)
    requires Coherent(o, kids) && NodesDiffer(kids)
    modifies o`cache
    ensures o.cache == Restricted(old(o.cache), AsKey(which))
    ensures Coherent(o, Cut(kids, Position(which))) <==> DeleteSafe(o.cache.Keys, Position(which), |kids|)
  {
    ghost var before := o.cache;
    Evict(o, AsKey(which));
    CutCoherent(o, before, kids, Position(which));
  }

  method DeleteFrom(heap: Heap, o: CJsonObject, n: Node, which: i32, ghost root: Shape) returns (ghost r: Shape)
    requires o.Focus() == n && IsArray(n, root) && Coherent(o, root.kids)
    requires heap !in heap.live && root.all <= heap.live && o !in heap.live
    modifies heap`live, o`cache, n`child, NodesOf(root.kids)`prev, NodesOf(root.kids)`next
    ensures r == WithKids(root, Cut(root.kids, Position(which))) && o.Focus() == n && IsArray(n, r)
    ensures o.cache == Restricted(old(o.cache), AsKey(which))
    ensures Coherent(o, r.kids) <==> DeleteSafe(o.cache.Keys, Position(which), |root.kids|)
    ensures r.all == root.all - Gone(root.kids, Position(which))
    ensures heap !in heap.live && heap.live == old(heap.live) - Gone(root.kids, Position(which))
  {
    ghost var w := Position(which);
    ArrayKids(n, root);
    LinksOf(root.kids);
    CutItem(heap, n, which, root);
    CutRoot(root, w);
    KidInRoot(root, w);
    r := WithKids(root, Cut(root.kids, w));
    EvictDeleted(o, which, root.kids);
  }

  lemma KidInRoot(root: Shape, w: nat)
    requires Distinct(root)
    ensures Gone(root.kids, w) <= root.all && root.node !in Gone(root.kids, w)
  {
  }

  /** Delete(index) evicts the entries whose keys are at least the index. For a natural index that is
      enough; a negative one deletes the first element, but as a key it is too large to evict. */
  method DeleteAt(heap: Heap, o: CJsonObject, which: i32, ghost c: Content) returns (ok: bool, ghost r: Content)
    requires o.Has(c) && Coherent(o, Elements(c))
    requires heap !in heap.live && Footprint(c) <= heap.live && o !in heap.live
    modifies heap`live, o`cache, TopOf(c)`child, NodesOf(Elements(c))`prev, NodesOf(Elements(c))`next
    ensures o.Has(r) && (TakesArray(c) <==> TakesArray(r)) && (r.Some? <==> c.Some?)
    ensures ok <==> c.Some? && c.shape.data.kind == ArrayKind
    ensures Trees(Elements(r)) == Shorter(Trees(Elements(c)), Position(which))
    ensures o.cache == if ok then Restricted(old(o.cache), AsKey(which)) else old(o.cache)
    ensures Coherent(o, Elements(r)) <==> !ok || DeleteSafe(o.cache.Keys, Position(which), |Elements(c)|)
    ensures which >= 0 ==> Coherent(o, Elements(r))
    ensures Footprint(r) == Footprint(c) - Gone(Elements(c), Position(which))
    ensures heap !in heap.live && heap.live == old(heap.live) - Gone(Elements(c), Position(which))
  {
    var n := o.Focus();
    ok, r := n != null && n.kind == ArrayKind, c;
    if ok {
      ghost var before := o.cache;
      ghost var shrunk := DeleteFrom(heap, o, n, which, c.shape);
      r := Some(shrunk);
      if which >= 0 {
        BelowIsSafe(before, which, |Elements(c)|);
      }
      if Position(which) < |c.shape.kids| {
        WithoutTrees(c.shape.kids, Position(which));
      }
    }
  }

  // ---------------------------------------------------------------- replacement

  ghost function Put(kids: seq<Shape>, w: nat, t: Shape): seq<Shape> {
    if w < |kids| then kids[w := t] else kids
  }

  lemma PutRoot(root: Shape, w: nat, t: Shape)
    requires Distinct(root) && DataOk(root.data, root.node)
    requires t.all !! root.all && Children(root.node, Put(root.kids, w, t))
    ensures Sound(WithKids(root, Put(root.kids, w, t)))
    ensures w < |root.kids| ==> WithKids(root, Put(root.kids, w, t)).all == root.all - root.kids[w].all + t.all
    ensures w >= |root.kids| ==> WithKids(root, Put(root.kids, w, t)) == root
  {
    if w < |root.kids| {
      AllReplaced(root.kids, w, t);
      AllWithout(root.kids, w);
      ApartWithout(root.kids, w);
    }
    Regrown(root, Put(root.kids, w, t));
  }

  method PutItem(heap: Heap, n: Node, which: i32, item: Node, ghost root: Shape, ghost t: Shape)
    requires IsArray(n, root) && Insertable(item, t, root)
    requires heap !in heap.live && root.all <= heap.live && t.all <= heap.live
    modifies heap`live, n`child, NodesOf(root.kids)`prev, NodesOf(root.kids)`next, item`prev, item`next
    ensures DataOk(root.data, n) && Children(n, Put(root.kids, Position(which), t))
    ensures heap.live == old(heap.live) - Gone(root.kids, Position(which))
  {
    ArrayKids(n, root);
    ListAllOf(root);
    NodesInside(root.kids);
    ReplaceItemInArray(heap, n, which, item, root.kids, t);
  }

  method ReplaceTree(heap: Heap, n: Node, which: i32, item: Node, ghost root: Shape, ghost t: Shape)
    returns (ok: bool, ghost r: Shape)
    requires IsArray(n, root) && Insertable(item, t, root)
    requires heap !in heap.live && root.all <= heap.live && t.all <= heap.live
    modifies heap`live, n`child, NodesOf(root.kids)`prev, NodesOf(root.kids)`next, item`prev, item`next
    ensures ok <==> Position(which) < |root.kids|
    ensures IsArray(n, r) && r == WithKids(root, Put(root.kids, Position(which), t)) && (!ok ==> r == root)
    ensures ok ==> r.all == root.all - root.kids[Position(which)].all + t.all
    ensures heap.live == old(heap.live) - Gone(root.kids, Position(which))
  {
    ghost var w := Position(which);
    PutItem(heap, n, which, item, root, t);
    PutRoot(root, w, t);
    r := WithKids(root, Put(root.kids, w, t));
    ArrayKids(n, r);
    var c := ItemAt(n, which, r.kids);
    ok := c != null;
  }

  /** The array `r` is `root` with a new child for the value `v`. */
  ghost predicate SwapOf(root: Shape, w: nat, v: Value, r: Shape, t: Shape)
    requires Makes(v) && w < |root.kids|
  {
    && r.kids == root.kids[w := t] && r.data == root.data && Tree(t) == ValueTree(v)
    && r.all == root.all - root.kids[w].all + t.all
  }

  /** Make a node and put it in the place of an element. Out of range, the new tree is in no list and
      stays allocated. */
  method Swap(heap: Heap, n: Node, which: i32, v: Value, ghost root: Shape)
    returns (ok: bool, ghost r: Shape, ghost t: Shape, ghost leaked: set<object>)
    requires IsArray(n, root) && Given(v) && heap !in heap.live && root.all <= heap.live
    modifies heap`live, n`child, NodesOf(root.kids)`prev, NodesOf(root.kids)`next
    ensures ok <==> Makes(v) && Position(which) < |root.kids|
    ensures IsArray(n, r) && heap !in heap.live && fresh(leaked)
    ensures leaked != {} <==> Makes(v) && Position(which) >= |root.kids|
    ensures !ok ==> r == root && heap.live == old(heap.live) + leaked
    ensures ok ==> SwapOf(root, Position(which), v, r, t) && fresh(t.all) && fresh(t.node)
    ensures ok ==> heap.live == old(heap.live) + t.all - root.kids[Position(which)].all
  {
    var item;
    item, t := MakeItem(heap, v, root);
    ok, r, leaked := false, root, {};
    if item != null {
      TopApart(t);
      ok, r := ReplaceTree(heap, n, which, item, root, t);
      leaked := if ok then {} else t.all;
    }
  }

  /** Whether an index whose keys are these is right after a replacement. */
  predicate ReplaceSafe(keys: set<u32>, w: nat) {
    forall k :: k in keys ==> Slot(k) != w
  }

  lemma PutCoherent(o: CJsonObject, before: map<u32, CJsonObject>, kids: seq<Shape>, w: nat, t: Shape)
    requires w < |kids| && t.node != kids[w].node
    requires forall k :: k in before ==> before[k].extern == NodeAt(kids, Slot(k))
    requires forall k :: k in o.cache ==> k in before && o.cache[k] == before[k]
    ensures Coherent(o, kids[w := t]) <==> ReplaceSafe(o.cache.Keys, w)
  {
    StillCoherent(o, before, kids, kids[w := t]);
  }

  lemma PutTrees(kids: seq<Shape>, w: nat, t: Shape)
    requires w < |kids|
    ensures Trees(kids[w := t]) == Trees(kids)[w := Tree(t)]
  {
  }

  function KeptAfterReplace(cache: map<u32, CJsonObject>, v: Value, which: i32): map<u32, CJsonObject> {
    if v.Parsed? then cache - {AsKey(which)} else cache
  }

  /** The eviction that follows a replacement, successful or not. */
  method EvictReplaced(o: CJsonObject, ok: bool, v: Value, which: i32, ghost n: Node, ghost r: Shape,
                       ghost kids: seq<Shape>, ghost t: Shape)
    requires Coherent(o, kids) && (!ok ==> r.kids == kids)
    requires ok ==>
      Position(which) < |kids| && t.node != kids[Position(which)].node && r.kids == kids[Position(which) := t]
    requires IsArray(n, r) && o !in r.all
    modifies o`cache
    ensures IsArray(n, r)
    ensures o.cache == if ok then KeptAfterReplace(old(o.cache), v, which) else old(o.cache)
    ensures Coherent(o, r.kids) <==> !ok || ReplaceSafe(o.cache.Keys, Position(which))
  {
    if ok {
      ghost var before := o.cache;
      if v.Parsed? {
        o.cache := o.cache - {AsKey(which)};
      }
      PutCoherent(o, before, kids, Position(which), t);
    }
  }

  /** A swap does not touch the wrapper. */
  method SwapUnder(heap: Heap, o: CJsonObject, n: Node, which: i32, v: Value, ghost root: Shape)
    returns (ok: bool, ghost r: Shape, ghost t: Shape, ghost leaked: set<object>)
    requires IsArray(n, root) && Coherent(o, root.kids) && Given(v)
    requires heap !in heap.live && root.all <= heap.live && o !in heap.live
    modifies heap`live, n`child, NodesOf(root.kids)`prev, NodesOf(root.kids)`next
    ensures ok <==> Makes(v) && Position(which) < |root.kids|
    ensures IsArray(n, r) && heap !in heap.live && fresh(leaked) && Coherent(o, root.kids)
    ensures leaked != {} <==> Makes(v) && Position(which) >= |root.kids|
    ensures !ok ==> r == root && heap.live == old(heap.live) + leaked
    ensures ok ==> SwapOf(root, Position(which), v, r, t) && fresh(t.all)
    ensures ok ==> heap.live == old(heap.live) + t.all - root.kids[Position(which)].all
    ensures o !in r.all && (ok ==> t.node != root.kids[Position(which)].node)
  {
    ok, r, t, leaked := Swap(heap, n, which, v, root);
  }

  method ReplaceIn(heap: Heap, o: CJsonObject, n: Node, which: i32, v: Value, ghost root: Shape)
    returns (ok: bool, ghost r: Shape, ghost t: Shape, ghost leaked: set<object>)
    requires o.Focus() == n && IsArray(n, root) && Coherent(o, root.kids) && Given(v)
    requires heap !in heap.live && root.all <= heap.live && o !in heap.live
    modifies heap`live, o`cache, n`child, NodesOf(root.kids)`prev, NodesOf(root.kids)`next
    ensures ok <==> Makes(v) && Position(which) < |root.kids|
    ensures o.Focus() == n && IsArray(n, r) && heap !in heap.live && fresh(leaked)
    ensures leaked != {} <==> Makes(v) && Position(which) >= |root.kids|
    ensures !ok ==> r == root && heap.live == old(heap.live) + leaked
    ensures ok ==> SwapOf(root, Position(which), v, r, t) && fresh(t.all)
    ensures ok ==> heap.live == old(heap.live) + t.all - root.kids[Position(which)].all
    ensures o.cache == if ok then KeptAfterReplace(old(o.cache), v, which) else old(o.cache)
    ensures Coherent(o, r.kids) <==> !ok || ReplaceSafe(o.cache.Keys, Position(which))
  {
    ok, r, t, leaked := SwapUnder(heap, o, n, which, v, root);
    EvictReplaced(o, ok, v, which, n, r, root.kids, t);
  }

  lemma SwapFits(live: set<object>, all: set<object>, gone: set<object>, come: set<object>)
    requires all <= live && come !! live && gone <= live
    ensures all - gone + come <= live + come - gone && all - gone + come - all == come
  {
  }

  /** Replace(index). The overload for an object evicts the entry whose key is the index; the index
      is right afterwards iff no entry that is left stood for the replaced position. Out of range the
      new tree is leaked. */
  method ReplaceAt(heap: Heap, o: CJsonObject, which: i32, v: Value, ghost c: Content)
    returns (ok: bool, ghost r: Content, ghost leaked: set<object>)
    requires o.Has(c) && Coherent(o, Elements(c)) && Given(v)
    requires heap !in heap.live && Footprint(c) <= heap.live && o !in heap.live
    modifies heap`live, o`cache, TopOf(c)`child, NodesOf(Elements(c))`prev, NodesOf(Elements(c))`next
    ensures o.Has(r) && (TakesArray(c) <==> TakesArray(r)) && (r.Some? <==> c.Some?)
    ensures heap !in heap.live && fresh(leaked)
    ensures Footprint(r) <= heap.live && fresh(Footprint(r) - Footprint(c))
    ensures ok <==> Position(which) < |Elements(c)| && Makes(v)
    ensures leaked != {} <==>
            c.Some? && c.shape.data.kind == ArrayKind && Position(which) >= |Elements(c)| && Makes(v)
    ensures !ok ==> r == c && heap.live == old(heap.live) + leaked
    ensures ok ==>
      var w := Position(which);
      && |Elements(r)| == |Elements(c)| && Trees(Elements(r)) == Trees(Elements(c))[w := ValueTree(v)]
      && heap.live == old(heap.live) + Elements(r)[w].all - Elements(c)[w].all
      && fresh(Elements(r)[w].all) && Footprint(r) == Footprint(c) - Elements(c)[w].all + Elements(r)[w].all
    ensures o.cache == if ok then KeptAfterReplace(old(o.cache), v, which) else old(o.cache)
    ensures Coherent(o, Elements(r)) <==> !ok || ReplaceSafe(o.cache.Keys, Position(which))
  {
    var n := o.Focus();
    ok, r, leaked := false, c, {};
    if n != null && n.kind == ArrayKind {
      ghost var swapped, t;
      ok, swapped, t, leaked := ReplaceIn(heap, o, n, which, v, c.shape);
      if ok {
        r := Some(swapped);
        SwapFits(old(heap.live), c.shape.all, c.shape.kids[Position(which)].all, t.all);
        PutTrees(c.shape.kids, Position(which), t);
      }
    }
  }
}
