/** Runs of list operations. A run moves subtrees between the child list of one node and a stock of
    loose subtrees; the chain follows the edited sequence, and every object is accounted for. */
module ChildEdits {
  import opened Bytes
  import opened JsonText
  import opened JsonBuffers
  import opened JsonNodes
  import opened NodeLists
  import opened ChildList
  import opened KeyedChildren

  // ---------------------------------------------------------------- what a run does to values

  /** A subtree: the node, its name, the string that holds the name (if it is not one that the run has
      made), its other data, and the subtrees below with all their nodes and strings. */
  datatype Item = Item(node: Node, name: Key, own: set<object>, data: Data, below: seq<Shape>)

  datatype View = View(kids: seq<Item>, loose: map<Node, Item>)

  datatype Edit =
    | AddTail(item: Node?)
    | AddHead(item: Node?)
    | AddKey(at: array<byte>, key: text, item: Node?)
    | DetachAt(which: int)
    | DetachKey(at: array<byte>, key: text)
    | DeleteAt(which: int)
    | DeleteKey(at: array<byte>, key: text)
    | ReplaceAt(which: int, newitem: Node)
    | ReplaceKey(at: array<byte>, key: text, newitem: Node)

  /** The position of the first item with a name, or the number of items. */
  function FirstNamed(kids: seq<Item>, key: text): (r: nat)
    ensures r <= |kids|
    ensures forall k :: 0 <= k < r ==> !SameName(kids[k].name, key)
    ensures r < |kids| ==> SameName(kids[r].name, key)
  {
    if |kids| == 0 || SameName(kids[0].name, key) then 0 else 1 + FirstNamed(kids[1..], key)
  }

  predicate HasKey(e: Edit) {
    e.AddKey? || e.DetachKey? || e.DeleteKey? || e.ReplaceKey?
  }

  predicate IsAdd(e: Edit) {
    e.AddTail? || e.AddHead? || e.AddKey?
  }

  predicate IsReplace(e: Edit) {
    e.ReplaceAt? || e.ReplaceKey?
  }

  /** The position an edit takes a child from. */
  function Target(kids: seq<Item>, e: Edit): nat
    requires !IsAdd(e)
  {
    if HasKey(e) then FirstNamed(kids, e.key) else Position(e.which)
  }

  /** What an edit brings is loose at that time. */
  predicate Fits(v: View, e: Edit) {
    && (IsAdd(e) && e.item != null ==> e.item in v.loose)
    && (IsReplace(e) ==> e.newitem in v.loose)
  }

  /** Keyed operations give the item a copy of the key as its name. */
  function Brought(v: View, e: Edit, n: Node): Item
    requires n in v.loose
  {
    if HasKey(e) then v.loose[n].(name := Keyed(e.key), own := {}) else v.loose[n]
  }

  function Cut<T>(s: seq<T>, w: nat): seq<T>
    requires w < |s|
  {
    s[..w] + s[w + 1..]
  }

  function Apply(v: View, e: Edit): View
    requires Fits(v, e)
  {
    if IsAdd(e) then
      if e.item == null then v
      else
        var item := Brought(v, e, e.item);
        View(if e.AddHead? then [item] + v.kids else v.kids + [item], v.loose - {e.item})
    else
      var w := Target(v.kids, e);
      if w >= |v.kids| then v
      else if IsReplace(e) then View(v.kids[w := Brought(v, e, e.newitem)], v.loose - {e.newitem})
      else if e.DeleteAt? || e.DeleteKey? then View(Cut(v.kids, w), v.loose)
      else View(Cut(v.kids, w), v.loose[v.kids[w].node := v.kids[w]])
  }

  predicate FitsAll(v: View, edits: seq<Edit>)
    decreases |edits|
  {
    |edits| > 0 ==> Fits(v, edits[0]) && FitsAll(Apply(v, edits[0]), edits[1..])
  }

  function ApplyAll(v: View, edits: seq<Edit>): View
    requires FitsAll(v, edits)
    decreases |edits|
  {
    if |edits| == 0 then v else ApplyAll(Apply(v, edits[0]), edits[1..])
  }

  /** Replacing by key overwrites the name of the new item without freeing it. */
  function Leaks(v: View, e: Edit): nat
    requires Fits(v, e)
  {
    if e.ReplaceKey? && Target(v.kids, e) < |v.kids| && v.loose[e.newitem].name.Keyed? then 1 else 0
  }

  /** The name that is leaked then, if it was allocated when the run began. */
  function LeakedBy(v: View, e: Edit): set<object>
    requires Fits(v, e)
  {
    if e.ReplaceKey? && Target(v.kids, e) < |v.kids| then v.loose[e.newitem].own else {}
  }

  function LeaksAll(v: View, edits: seq<Edit>): nat
    requires FitsAll(v, edits)
    decreases |edits|
  {
    if |edits| == 0 then 0 else Leaks(v, edits[0]) + LeaksAll(Apply(v, edits[0]), edits[1..])
  }

  // ---------------------------------------------------------------- what a run works on

  /** The subtrees in the list, and the loose ones by their top nodes. */
  datatype Holding = Holding(kids: seq<Shape>, loose: map<Node, Shape>)

  /** The subtree as an item; `had` is what was allocated when the run began. */
  ghost function ItemOf(s: Shape, had: set<object>): Item {
    Item(s.node, KeyOf(s.data.name), BlockSet(s.data.name) * had, s.data.(name := NoBlock), s.kids)
  }

  ghost function ItemsOf(kids: seq<Shape>, had: set<object>): (r: seq<Item>)
    ensures |r| == |kids|
  {
    seq(|kids|, i requires 0 <= i < |kids| => ItemOf(kids[i], had))
  }

  ghost function ViewOf(h: Holding, had: set<object>): View {
    View(ItemsOf(h.kids, had), LooseItems(h.loose, had))
  }

  ghost function LooseAll(loose: map<Node, Shape>): set<object> {
    set n, o | n in loose && o in loose[n].all :: o
  }

  ghost function Total(h: Holding): set<object> {
    ListAll(h.kids) + LooseAll(h.loose)
  }

  ghost function Tops(h: Holding): set<Node> {
    NodesOf(h.kids) + h.loose.Keys
  }

  ghost predicate Apart(loose: map<Node, Shape>) {
    forall n, k :: n in loose && k in loose && n != k ==> loose[n].all !! loose[k].all
  }

  /** What of this does not depend on the heap. */
  ghost predicate Clean(parent: Node, h: Holding) {
    && DistinctList(h.kids) && Apart(h.loose) && parent !in Total(h)
    && (forall n :: n in h.loose ==> Distinct(h.loose[n]) && h.loose[n].node == n)
    && LooseAll(h.loose) !! ListAll(h.kids)
  }

  /** The list is linked, the loose subtrees are whole, in no list, and share nothing. */
  ghost predicate Held(heap: Heap, parent: Node, h: Holding)
    reads heap`live, parent`child, Total(h), Tops(h), (set n | n in h.loose :: h.loose[n].node)
  {
    && Children(parent, h.kids)
    && (forall n :: n in h.loose ==> Loose(n, h.loose[n], parent, h.kids))
    && Apart(h.loose)
    && heap !in heap.live && Total(h) <= heap.live && parent in heap.live
  }

  /** The key of an edit is a C string that may be read. */
  ghost predicate KeyHeld(heap: Heap, e: Edit)
    reads heap`live, if HasKey(e) then {e.at as object} else {}
  {
    HasKey(e) ==> Holds(e.at, e.key) && e.at in heap.live
  }

  ghost predicate KeysHeld(edits: seq<Edit>)
    reads set k | 0 <= k < |edits| && HasKey(edits[k]) :: edits[k].at
  {
    forall k :: 0 <= k < |edits| && HasKey(edits[k]) ==> Holds(edits[k].at, edits[k].key)
  }

  // ---------------------------------------------------------------- values of edited lists

  lemma SameFirst(kids: seq<Shape>, key: text, had: set<object>)
    ensures FirstNamed(ItemsOf(kids, had), key) == FirstMatch(kids, key)
  {
    assert forall k :: 0 <= k < |kids| ==> (SameName(ItemsOf(kids, had)[k].name, key) <==> Matches(kids[k], key));
  }

  lemma ItemsSnoc(kids: seq<Shape>, s: Shape, had: set<object>)
    ensures ItemsOf(kids + [s], had) == ItemsOf(kids, had) + [ItemOf(s, had)]
  {
  }

  lemma ItemsCons(s: Shape, kids: seq<Shape>, had: set<object>)
    ensures ItemsOf([s] + kids, had) == [ItemOf(s, had)] + ItemsOf(kids, had)
  {
  }

  lemma ItemsWithout(kids: seq<Shape>, w: nat, had: set<object>)
    requires w < |kids|
    ensures ItemsOf(Without(kids, w), had) == Cut(ItemsOf(kids, had), w)
  {
  }

  lemma ItemsReplaced(kids: seq<Shape>, w: nat, s: Shape, had: set<object>)
    requires w < |kids|
    ensures ItemsOf(kids[w := s], had) == ItemsOf(kids, had)[w := ItemOf(s, had)]
  {
  }

  lemma RenamedItem(s: Shape, name: Block, had: set<object>)
    requires name.Block? && BlockSet(name) !! had
    ensures ItemOf(Renamed(s, name), had) == ItemOf(s, had).(name := Keyed(name.chars), own := {})
  {
  }

  lemma LooseTaken(loose: map<Node, Shape>, n: Node)
    requires n in loose
    ensures LooseAll(loose) == LooseAll(loose - {n}) + loose[n].all
    ensures Apart(loose) ==> LooseAll(loose - {n}) !! loose[n].all && Apart(loose - {n})
  {
    var others := loose - {n};
    forall o | o in LooseAll(loose)
      ensures o in LooseAll(others) || o in loose[n].all
    {
      var k: Node :| k in loose && o in loose[k].all;
      assert k == n || (k in others && others[k] == loose[k]);
    }
    forall o | o in LooseAll(others)
      ensures o in LooseAll(loose) && (Apart(loose) ==> o !in loose[n].all)
    {
      var k: Node :| k in others && o in others[k].all;
      assert k in loose && loose[k] == others[k] && k != n;
    }
  }

  lemma LoosePut(loose: map<Node, Shape>, s: Shape)
    requires s.node !in loose
    ensures LooseAll(loose[s.node := s]) == LooseAll(loose) + s.all
  {
    var more := loose[s.node := s];
    forall o | o in LooseAll(more)
      ensures o in LooseAll(loose) || o in s.all
    {
      var k: Node :| k in more && o in more[k].all;
      assert k == s.node || (k in loose && more[k] == loose[k]);
    }
    forall o | o in LooseAll(loose) + s.all
      ensures o in LooseAll(more)
    {
      if o in LooseAll(loose) {
        var k: Node :| k in loose && o in loose[k].all;
        assert k in more && more[k] == loose[k];
      } else {
        assert s.node in more && o in more[s.node].all;
      }
    }
  }

  // ---------------------------------------------------------------- one edit

  /** Every object is accounted for: what was worked on has become `total`, but for lost objects that
      stay allocated and those that are freed; what is new was not allocated before. */
  ghost predicate Books(live: set<object>, was: set<object>, now: set<object>, total: set<object>, lost: set<object>) {
    && now == live - was + total + lost
    && lost !! total && lost - was !! live && total - was !! live
  }

  twostate lemma {:induction false} LooseKept(loose: map<Node, Shape>)
    requires (forall n :: n in loose ==> old(Detached(n, loose[n]))) && unchanged(LooseAll(loose))
    ensures forall n :: n in loose ==> Detached(n, loose[n])
  {
    forall n | n in loose
      ensures Detached(n, loose[n])
    {
      OneInside(loose, n);
      OneKept(loose[n]);
    }
  }

  lemma OneInside(loose: map<Node, Shape>, n: Node)
    requires n in loose
    ensures loose[n].all <= LooseAll(loose)
  {
  }

  lemma LooseAway(heap: Heap, parent: Node, h: Holding)
    requires Held(heap, parent, h)
    ensures Clean(parent, h)
    ensures forall n: Node :: n in NodesOf(h.kids) ==> n !in LooseAll(h.loose)
  {
    NodesInside(h.kids);
    forall o | o in LooseAll(h.loose)
      ensures o !in ListAll(h.kids) && o != parent
    {
      var n: Node :| n in h.loose && o in h.loose[n].all;
      assert Loose(n, h.loose[n], parent, h.kids);
    }
  }

  twostate lemma {:induction false} OneKept(s: Shape)
    requires old(Detached(s.node, s)) && unchanged(s.all)
    ensures Detached(s.node, s)
  {
    TopApart(s);
    RepFrame(s);
  }

  /** Every loose subtree but one is as it was. */
  ghost predicate OthersHeld(h: Holding, n: Node)
    reads Total(h), (set k | k in h.loose :: h.loose[k].node)
  {
    forall k: Node :: k in h.loose && k != n ==> Detached(k, h.loose[k])
  }

  /** What the operations need of a loose subtree. */
  lemma OneGiven(heap: Heap, parent: Node, h: Holding, n: Node)
    requires Held(heap, parent, h) && n in h.loose
    ensures Loose(n, h.loose[n], parent, h.kids) && h.loose[n].all <= heap.live && n in h.loose[n].all
    ensures LooseAll(h.loose) == LooseAll(h.loose - {n}) + h.loose[n].all
    ensures LooseAll(h.loose - {n}) !! h.loose[n].all && n !in LooseAll(h.loose - {n})
  {
    LooseTaken(h.loose, n);
    TopApart(h.loose[n]);
  }

  twostate lemma {:induction false} OthersKept(p: (Holding, Node))
    requires (forall k: Node :: k in p.0.loose ==> old(Detached(k, p.0.loose[k])))
    requires unchanged(LooseAll(p.0.loose - {p.1}))
    ensures OthersHeld(p.0, p.1)
  {
    forall k: Node | k in p.0.loose && k != p.1
      ensures Detached(k, p.0.loose[k])
    {
      assert k in p.0.loose - {p.1} && (p.0.loose - {p.1})[k] == p.0.loose[k];
      OneInside(p.0.loose - {p.1}, k);
      OneKept(p.0.loose[k]);
    }
  }

  /** The holding after a loose subtree has gone into the list, perhaps under a new name. */
  lemma TakenHeld(heap: Heap, parent: Node, h: Holding, n: Node, kids: seq<Shape>, names: set<object>)
    requires Clean(parent, h) && n in h.loose && Children(parent, kids) && OthersHeld(h, n)
    requires ListAll(kids) <= ListAll(h.kids) + h.loose[n].all + names && names !! Total(h)
    requires heap !in heap.live && Total(Holding(kids, h.loose - {n})) <= heap.live && parent in heap.live
    ensures Held(heap, parent, Holding(kids, h.loose - {n}))
  {
    LooseTaken(h.loose, n);
    forall k: Node | k in h.loose && k != n
      ensures h.loose[k].all !! ListAll(kids) && parent !in h.loose[k].all
    {
      assert h.loose[k].all !! h.loose[n].all;
      OneInside(h.loose, k);
    }
  }

  method StepTail(heap: Heap, parent: Node, item: Node, ghost h: Holding) returns (ghost after: Holding)
    requires Held(heap, parent, h) && item in h.loose
    modifies parent`child, NodesOf(h.kids)`prev, NodesOf(h.kids)`next, item`prev, item`next
    ensures after == Holding(h.kids + [h.loose[item]], h.loose - {item})
    ensures Held(heap, parent, after) && Total(after) == Total(h) && heap.live == old(heap.live)
  {
    ghost var s := h.loose[item];
    OneGiven(heap, parent, h, item);
    LooseAway(heap, parent, h);
    label Before:
    AddItemToArray(parent, item, h.kids, s);
    OthersKept@Before((h, item));
    ListAllSnoc(h.kids, s);
    after := Holding(h.kids + [s], h.loose - {item});
    TakenHeld(heap, parent, h, item, h.kids + [s], {});
  }

  method StepHead(heap: Heap, parent: Node, item: Node, ghost h: Holding) returns (ghost after: Holding)
    requires Held(heap, parent, h) && item in h.loose
    modifies parent`child, NodesOf(h.kids)`prev, NodesOf(h.kids)`next, item`prev, item`next
    ensures after == Holding([h.loose[item]] + h.kids, h.loose - {item})
    ensures Held(heap, parent, after) && Total(after) == Total(h) && heap.live == old(heap.live)
  {
    ghost var s := h.loose[item];
    OneGiven(heap, parent, h, item);
    LooseAway(heap, parent, h);
    label Before:
    AddItemToArrayHead(parent, item, h.kids, s);
    OthersKept@Before((h, item));
    AllCons(s, h.kids);
    after := Holding([s] + h.kids, h.loose - {item});
    TakenHeld(heap, parent, h, item, [s] + h.kids, {});
  }

  function TargetOf(kids: seq<Shape>, e: Edit): nat
    requires !IsAdd(e)
  {
    if HasKey(e) then FirstMatch(kids, e.key) else Position(e.which)
  }

  lemma RenamedAll(s: Shape, name: Block)
    requires Distinct(s) && BlockSet(name) !! s.all
    ensures BlockSet(s.data.name) <= s.all
    ensures Renamed(s, name).all == s.all - BlockSet(s.data.name) + BlockSet(name)
  {
  }

  lemma NamedTotal(parent: Node, h: Holding, n: Node, name: Block)
    requires Clean(parent, h) && n in h.loose && BlockSet(name) !! Total(h)
    ensures var s := h.loose[n];
      && BlockSet(s.data.name) <= s.all <= Total(h)
      && ListAll(h.kids + [Renamed(s, name)]) == ListAll(h.kids) + (s.all - BlockSet(s.data.name)) + BlockSet(name)
      && Total(Holding(h.kids + [Renamed(s, name)], h.loose - {n})) == Total(h) - BlockSet(s.data.name) + BlockSet(name)
  {
    LooseTaken(h.loose, n);
    RenamedAll(h.loose[n], name);
    ListAllSnoc(h.kids, Renamed(h.loose[n], name));
  }

  /** The key is the name of the item that is added, which cJSON_AddItemToObject frees first. */
  ghost predicate OwnKey(h: Holding, e: Edit) {
    e.AddKey? && e.item != null && e.item in h.loose && e.at in BlockSet(h.loose[e.item].data.name)
  }

  method DoAddKey(heap: Heap, parent: Node, at: array<byte>, item: Node, ghost key: text, ghost h: Holding)
    returns (ghost t: Shape)
    requires Held(heap, parent, h) && item in h.loose && Holds(at, key) && at in heap.live
    requires at !in BlockSet(h.loose[item].data.name)
    modifies heap`live, parent`child, NodesOf(h.kids)`next, item`prev, item`name
    ensures t.data.name.Block? && t.data.name.chars == key && t == Renamed(h.loose[item], t.data.name)
    ensures BlockSet(t.data.name) !! old(heap.live) && fresh(BlockSet(t.data.name))
    ensures Children(parent, h.kids + [t]) && OthersHeld(h, item)
    ensures heap.live == old(heap.live) - BlockSet(h.loose[item].data.name) + BlockSet(t.data.name)
  {
    OneGiven(heap, parent, h, item);
    LooseAway(heap, parent, h);
    label Before:
    var defined;
    defined, t := AddItemToObject(heap, parent, at, item, h.kids, h.loose[item], key);
    OthersKept@Before((h, item));
  }

  method StepAddKey(heap: Heap, parent: Node, e: Edit, ghost h: Holding) returns (ghost t: Shape, ghost after: Holding)
    requires Held(heap, parent, h) && e.AddKey? && KeyHeld(heap, e) && e.item != null && e.item in h.loose
    requires !OwnKey(h, e)
    modifies heap`live, parent`child, NodesOf(h.kids)`next, NodeSet(e.item)`prev, NodeSet(e.item)`name
    ensures t.data.name.Block? && t.data.name.chars == e.key && t == Renamed(h.loose[e.item], t.data.name)
    ensures BlockSet(t.data.name) !! old(heap.live) && fresh(BlockSet(t.data.name))
    ensures after == Holding(h.kids + [t], h.loose - {e.item})
    ensures Held(heap, parent, after)
    ensures heap.live == old(heap.live) - BlockSet(h.loose[e.item].data.name) + BlockSet(t.data.name)
  {
    LooseAway(heap, parent, h);
    t := DoAddKey(heap, parent, e.at, e.item, e.key, h);
    after := Holding(h.kids + [t], h.loose - {e.item});
    NamedTotal(parent, h, e.item, t.data.name);
    TakenHeld(heap, parent, h, e.item, h.kids + [t], BlockSet(t.data.name));
  }

  /** The holding after a child has been detached. */
  lemma DetachedHeld(heap: Heap, parent: Node, h: Holding, w: nat)
    requires Clean(parent, h) && w < |h.kids|
    requires Children(parent, Without(h.kids, w)) && Loose(h.kids[w].node, h.kids[w], parent, Without(h.kids, w))
    requires forall k: Node :: k in h.loose ==> Detached(k, h.loose[k])
    requires heap !in heap.live && Total(h) <= heap.live && parent in heap.live
    ensures var after := Holding(Without(h.kids, w), h.loose[h.kids[w].node := h.kids[w]]);
      Held(heap, parent, after) && Total(after) == Total(h)
  {
    var s := h.kids[w];
    AllWithout(h.kids, w);
    TopApart(s);
    forall k: Node | k in h.loose
      ensures h.loose[k].all !! s.all && k != s.node && parent !in h.loose[k].all
      ensures h.loose[k].all !! ListAll(Without(h.kids, w))
    {
      TopApart(h.loose[k]);
      OneInside(h.loose, k);
    }
    LoosePut(h.loose, s);
  }

  method DetachEither(ghost heap: Heap, parent: Node, e: Edit, ghost kids: seq<Shape>)
    requires Children(parent, kids) && (e.DetachAt? || e.DetachKey?) && KeyHeld(heap, e)
    modifies parent`child, NodesOf(kids)`prev, NodesOf(kids)`next
    ensures var w := TargetOf(kids, e);
      if w < |kids| then
        Children(parent, Without(kids, w)) && Loose(kids[w].node, kids[w], parent, Without(kids, w))
      else Children(parent, kids)
  {
    var c;
    if e.DetachAt? {
      c := DetachItemFromArray(parent, e.which, kids);
    } else {
      c := DetachItemFromObject(heap, parent, e.at, kids, e.key);
    }
  }

  method DoDetach(heap: Heap, parent: Node, e: Edit, ghost h: Holding)
    requires Held(heap, parent, h) && (e.DetachAt? || e.DetachKey?) && KeyHeld(heap, e)
    modifies parent`child, NodesOf(h.kids)`prev, NodesOf(h.kids)`next
    ensures var w := TargetOf(h.kids, e);
      if w < |h.kids| then
        Children(parent, Without(h.kids, w)) && Loose(h.kids[w].node, h.kids[w], parent, Without(h.kids, w))
      else Children(parent, h.kids)
    ensures forall k: Node :: k in h.loose ==> Detached(k, h.loose[k])
  {
    LooseAway(heap, parent, h);
    label Before:
    DetachEither(heap, parent, e, h.kids);
    LooseKept@Before(h.loose);
  }

  method StepDetach(heap: Heap, parent: Node, e: Edit, ghost h: Holding) returns (ghost after: Holding)
    requires Held(heap, parent, h) && (e.DetachAt? || e.DetachKey?) && KeyHeld(heap, e)
    modifies parent`child, NodesOf(h.kids)`prev, NodesOf(h.kids)`next
    ensures var w := TargetOf(h.kids, e);
      after == if w < |h.kids| then Holding(Without(h.kids, w), h.loose[h.kids[w].node := h.kids[w]]) else h
    ensures Held(heap, parent, after) && Total(after) == Total(h)
  {
    ghost var w := TargetOf(h.kids, e);
    LooseAway(heap, parent, h);
    DoDetach(heap, parent, e, h);
    after := h;
    if w < |h.kids| {
      DetachedHeld(heap, parent, h, w);
      after := Holding(Without(h.kids, w), h.loose[h.kids[w].node := h.kids[w]]);
    } else {
      SameHeld(heap, parent, h, parent);
    }
  }

  /** The holding after a child has been deleted. */
  lemma DeletedHeld(heap: Heap, parent: Node, h: Holding, w: nat)
    requires Clean(parent, h) && w < |h.kids| && Children(parent, Without(h.kids, w))
    requires forall k: Node :: k in h.loose ==> Detached(k, h.loose[k])
    requires heap !in heap.live && Total(h) - h.kids[w].all <= heap.live && parent in heap.live
    ensures var after := Holding(Without(h.kids, w), h.loose);
      Held(heap, parent, after) && Total(after) == Total(h) - h.kids[w].all
  {
    AllWithout(h.kids, w);
    ApartWithout(h.kids, w);
    forall k: Node | k in h.loose
      ensures h.loose[k].all !! ListAll(Without(h.kids, w)) && parent !in h.loose[k].all
    {
      OneInside(h.loose, k);
    }
  }

  method DeleteEither(heap: Heap, parent: Node, e: Edit, ghost kids: seq<Shape>)
    requires Children(parent, kids) && (e.DeleteAt? || e.DeleteKey?) && KeyHeld(heap, e)
    requires heap !in heap.live && ListAll(kids) <= heap.live && parent in heap.live
    modifies heap`live, parent`child, NodesOf(kids)`prev, NodesOf(kids)`next
    ensures var w := TargetOf(kids, e);
      if w < |kids| then Children(parent, Without(kids, w)) && heap.live == old(heap.live) - kids[w].all
      else Children(parent, kids) && heap.live == old(heap.live)
  {
    if e.DeleteAt? {
      DeleteItemFromArray(heap, parent, e.which, kids);
    } else {
      DeleteItemFromObject(heap, parent, e.at, kids, e.key);
    }
  }

  method DoDelete(heap: Heap, parent: Node, e: Edit, ghost h: Holding)
    requires Held(heap, parent, h) && (e.DeleteAt? || e.DeleteKey?) && KeyHeld(heap, e)
    modifies heap`live, parent`child, NodesOf(h.kids)`prev, NodesOf(h.kids)`next
    ensures var w := TargetOf(h.kids, e);
      if w < |h.kids| then Children(parent, Without(h.kids, w)) && heap.live == old(heap.live) - h.kids[w].all
      else Children(parent, h.kids) && heap.live == old(heap.live)
    ensures forall k: Node :: k in h.loose ==> Detached(k, h.loose[k])
  {
    LooseAway(heap, parent, h);
    label Before:
    DeleteEither(heap, parent, e, h.kids);
    LooseKept@Before(h.loose);
  }

  method StepDelete(heap: Heap, parent: Node, e: Edit, ghost h: Holding) returns (ghost after: Holding)
    requires Held(heap, parent, h) && (e.DeleteAt? || e.DeleteKey?) && KeyHeld(heap, e)
    modifies heap`live, parent`child, NodesOf(h.kids)`prev, NodesOf(h.kids)`next
    ensures var w := TargetOf(h.kids, e);
      if w < |h.kids| then
        after == Holding(Without(h.kids, w), h.loose)
        && Total(after) == Total(h) - h.kids[w].all && heap.live == old(heap.live) - h.kids[w].all
      else after == h && heap.live == old(heap.live)
    ensures Held(heap, parent, after)
  {
    ghost var w := TargetOf(h.kids, e);
    LooseAway(heap, parent, h);
    DoDelete(heap, parent, e, h);
    after := h;
    if w < |h.kids| {
      after := Holding(Without(h.kids, w), h.loose);
      DeletedHeld(heap, parent, h, w);
    } else {
      SameHeld(heap, parent, h, parent);
    }
  }

  /** The objects of a holding in which a loose subtree, perhaps renamed, has replaced a child. */
  lemma ReplacedTotal(parent: Node, h: Holding, n: Node, w: nat, t: Shape, names: set<object>)
    requires Clean(parent, h) && w < |h.kids| && n in h.loose && names !! Total(h)
    requires t.all <= h.loose[n].all + names
    ensures ListAll(h.kids[w := t]) <= ListAll(h.kids) + h.loose[n].all + names
    ensures Total(Holding(h.kids[w := t], h.loose - {n})) == Total(h) - h.kids[w].all - h.loose[n].all + t.all
    ensures h.loose[n].all <= Total(h) && h.loose[n].all !! h.kids[w].all && h.kids[w].all <= Total(h)
  {
    LooseTaken(h.loose, n);
    OneInside(h.loose, n);
    AllReplaced(h.kids, w, t);
    AllWithout(h.kids, w);
    ApartWithout(h.kids, w);
  }

  /** The holding after a loose subtree, perhaps under a new name, has replaced a child. */
  lemma SwappedHeld(heap: Heap, parent: Node, h: Holding, n: Node, w: nat, t: Shape, names: set<object>,
                    live: set<object>)
    requires Clean(parent, h) && n in h.loose && w < |h.kids| && t.all <= h.loose[n].all + names
    requires Children(parent, h.kids[w := t]) && OthersHeld(h, n)
    requires Total(h) <= live && names !! live
    requires heap !in heap.live && heap.live == live + names - h.kids[w].all && parent in heap.live
    ensures Held(heap, parent, Holding(h.kids[w := t], h.loose - {n}))
  {
    ReplacedTotal(parent, h, n, w, t, names);
    StillLive(live, Total(h), h.kids[w].all, h.loose[n].all, t.all, names);
    TakenHeld(heap, parent, h, n, h.kids[w := t], names);
  }

  lemma StillLive(live: set<object>, total: set<object>, kid: set<object>, was: set<object>, now: set<object>,
                  names: set<object>)
    requires total <= live && kid <= total && was <= total && kid !! was && now <= was + names && names !! live
    ensures total - kid - was + now <= live + names - kid
  {
  }

  lemma SwappedKeyHeld(heap: Heap, parent: Node, h: Holding, n: Node, w: nat, name: Block, live: set<object>)
    requires Clean(parent, h) && n in h.loose && w < |h.kids|
    requires Children(parent, h.kids[w := Renamed(h.loose[n], name)]) && OthersHeld(h, n)
    requires Total(h) <= live && BlockSet(name) !! live
    requires heap !in heap.live && heap.live == live + BlockSet(name) - h.kids[w].all && parent in heap.live
    ensures Held(heap, parent, Holding(h.kids[w := Renamed(h.loose[n], name)], h.loose - {n}))
  {
    OneInside(h.loose, n);
    RenamedAll(h.loose[n], name);
    SwappedHeld(heap, parent, h, n, w, Renamed(h.loose[n], name), BlockSet(name), live);
  }

  method DoReplaceAt(heap: Heap, parent: Node, e: Edit, ghost h: Holding)
    requires Held(heap, parent, h) && e.ReplaceAt? && e.newitem in h.loose
    modifies heap`live, parent`child, NodesOf(h.kids)`prev, NodesOf(h.kids)`next, e.newitem`prev, e.newitem`next
    ensures var w, s := TargetOf(h.kids, e), h.loose[e.newitem];
      if w < |h.kids| then Children(parent, h.kids[w := s]) && heap.live == old(heap.live) - h.kids[w].all
      else Children(parent, h.kids) && Detached(e.newitem, s) && heap.live == old(heap.live)
    ensures OthersHeld(h, e.newitem)
  {
    OneGiven(heap, parent, h, e.newitem);
    LooseAway(heap, parent, h);
    label Before:
    ReplaceItemInArray(heap, parent, e.which, e.newitem, h.kids, h.loose[e.newitem]);
    OthersKept@Before((h, e.newitem));
  }

  lemma SameHeld(heap: Heap, parent: Node, h: Holding, n: Node)
    requires Clean(parent, h) && Children(parent, h.kids) && OthersHeld(h, n)
    requires n in h.loose ==> Detached(n, h.loose[n])
    requires heap !in heap.live && Total(h) <= heap.live && parent in heap.live
    ensures Held(heap, parent, h)
  {
    forall k: Node | k in h.loose
      ensures h.loose[k].all !! ListAll(h.kids) && parent !in h.loose[k].all
    {
      OneInside(h.loose, k);
    }
  }

  lemma ReplacedHeld(heap: Heap, parent: Node, h: Holding, e: Edit, live: set<object>)
    requires Clean(parent, h) && e.ReplaceAt? && e.newitem in h.loose && OthersHeld(h, e.newitem)
    requires Total(h) <= live && heap !in heap.live && parent in heap.live
    requires var w, s := TargetOf(h.kids, e), h.loose[e.newitem];
      if w < |h.kids| then Children(parent, h.kids[w := s]) && heap.live == live - h.kids[w].all
      else Children(parent, h.kids) && Detached(e.newitem, s) && heap.live == live
    ensures Held(heap, parent, Swapped(h, e, h.loose[e.newitem]))
  {
    var w := TargetOf(h.kids, e);
    if w < |h.kids| {
      SwappedHeld(heap, parent, h, e.newitem, w, h.loose[e.newitem], {}, live);
    } else {
      SameHeld(heap, parent, h, e.newitem);
    }
  }

  method StepReplaceAt(heap: Heap, parent: Node, e: Edit, ghost h: Holding)
    requires Held(heap, parent, h) && e.ReplaceAt? && e.newitem in h.loose
    modifies heap`live, parent`child, NodesOf(h.kids)`prev, NodesOf(h.kids)`next, e.newitem`prev, e.newitem`next
    ensures var w := TargetOf(h.kids, e);
      heap.live == if w < |h.kids| then old(heap.live) - h.kids[w].all else old(heap.live)
    ensures Held(heap, parent, Swapped(h, e, h.loose[e.newitem]))
  {
    ghost var live := heap.live;
    LooseAway(heap, parent, h);
    DoReplaceAt(heap, parent, e, h);
    LiveParent(parent, live, h, e);
    ReplacedHeld(heap, parent, h, e, live);
  }

  /** The objects of a holding in which a loose subtree under a new name has replaced a child. */
  lemma NamedReplaced(parent: Node, h: Holding, n: Node, w: nat, name: Block)
    requires Clean(parent, h) && w < |h.kids| && n in h.loose && BlockSet(name) !! Total(h)
    ensures var s, t := h.loose[n], Renamed(h.loose[n], name);
      && ListAll(h.kids[w := t]) <= ListAll(h.kids) + s.all + BlockSet(name)
      && Total(Holding(h.kids[w := t], h.loose - {n})) ==
         Total(h) - h.kids[w].all - BlockSet(s.data.name) + BlockSet(name)
      && BlockSet(s.data.name) <= Total(h) && BlockSet(s.data.name) !! h.kids[w].all
  {
    var s, t := h.loose[n], Renamed(h.loose[n], name);
    OneInside(h.loose, n);
    RenamedAll(s, name);
    ReplacedTotal(parent, h, n, w, t, BlockSet(name));
    SwapSets(Total(h), h.kids[w].all, s.all, BlockSet(s.data.name), BlockSet(name));
  }

  lemma SwapSets(total: set<object>, kid: set<object>, s: set<object>, was: set<object>, now: set<object>)
    requires s <= total && kid <= total && s !! kid && was <= s && now !! total
    ensures total - kid - s + (s - was + now) == total - kid - was + now
    ensures was <= total && was !! kid && s - was + now <= s + now
  {
  }

  method DoReplaceKey(heap: Heap, parent: Node, e: Edit, ghost h: Holding) returns (ghost t: Shape)
    requires Held(heap, parent, h) && e.ReplaceKey? && KeyHeld(heap, e) && e.newitem in h.loose
    modifies heap`live, parent`child, NodesOf(h.kids)`prev, NodesOf(h.kids)`next
    modifies e.newitem`prev, e.newitem`next, e.newitem`name
    ensures var w, s := TargetOf(h.kids, e), h.loose[e.newitem];
      if w < |h.kids| then
        && t.data.name.Block? && t.data.name.chars == e.key && t == Renamed(s, t.data.name)
        && BlockSet(t.data.name) !! old(heap.live) && fresh(BlockSet(t.data.name))
        && Children(parent, h.kids[w := t]) && heap.live == old(heap.live) + BlockSet(t.data.name) - h.kids[w].all
      else Children(parent, h.kids) && Detached(e.newitem, s) && heap.live == old(heap.live)
    ensures OthersHeld(h, e.newitem)
  {
    OneGiven(heap, parent, h, e.newitem);
    LooseAway(heap, parent, h);
    label Before:
    t := ReplaceItemInObject(heap, parent, e.at, e.newitem, h.kids, h.loose[e.newitem], e.key);
    OthersKept@Before((h, e.newitem));
  }

  /** The holding after a replacement; `t` is the new subtree as it is in the list. */
  ghost function Swapped(h: Holding, e: Edit, t: Shape): Holding
    requires IsReplace(e)
  {
    var w := TargetOf(h.kids, e);
    if w < |h.kids| then Holding(h.kids[w := t], h.loose - {e.newitem}) else h
  }

  lemma ReplacedKeyHeld(heap: Heap, parent: Node, h: Holding, e: Edit, t: Shape, live: set<object>)
    requires Clean(parent, h) && e.ReplaceKey? && e.newitem in h.loose && OthersHeld(h, e.newitem)
    requires Total(h) <= live && heap !in heap.live && parent in heap.live
    requires var w, s := TargetOf(h.kids, e), h.loose[e.newitem];
      if w < |h.kids| then
        && t == Renamed(s, t.data.name) && BlockSet(t.data.name) !! live
        && Children(parent, h.kids[w := t]) && heap.live == live + BlockSet(t.data.name) - h.kids[w].all
      else Children(parent, h.kids) && Detached(e.newitem, s) && heap.live == live
    ensures Held(heap, parent, Swapped(h, e, t))
  {
    var w := TargetOf(h.kids, e);
    if w < |h.kids| {
      SwappedKeyHeld(heap, parent, h, e.newitem, w, t.data.name, live);
    } else {
      SameHeld(heap, parent, h, e.newitem);
    }
  }

  method StepReplaceKey(heap: Heap, parent: Node, e: Edit, ghost h: Holding) returns (ghost t: Shape)
    requires Held(heap, parent, h) && e.ReplaceKey? && KeyHeld(heap, e) && e.newitem in h.loose
    modifies heap`live, parent`child, NodesOf(h.kids)`prev, NodesOf(h.kids)`next
    modifies e.newitem`prev, e.newitem`next, e.newitem`name
    ensures var w := TargetOf(h.kids, e);
      if w < |h.kids| then
        && t.data.name.Block? && t.data.name.chars == e.key && t == Renamed(h.loose[e.newitem], t.data.name)
        && BlockSet(t.data.name) !! old(heap.live) && fresh(BlockSet(t.data.name))
        && heap.live == old(heap.live) + BlockSet(t.data.name) - h.kids[w].all
      else heap.live == old(heap.live)
    ensures Held(heap, parent, Swapped(h, e, t))
  {
    ghost var live := heap.live;
    LooseAway(heap, parent, h);
    t := DoReplaceKey(heap, parent, e, h);
    LiveParent(parent, live, h, e);
    ReplacedKeyHeld(heap, parent, h, e, t, live);
  }

  lemma LiveParent(parent: Node, live: set<object>, h: Holding, e: Edit)
    requires Clean(parent, h) && IsReplace(e) && parent in live
    ensures TargetOf(h.kids, e) < |h.kids| ==> parent in live - h.kids[TargetOf(h.kids, e)].all
  {
    if TargetOf(h.kids, e) < |h.kids| {
      KidInside(h, TargetOf(h.kids, e));
    }
  }

  // ---------------------------------------------------------------- one edit as a value

  ghost function LooseItems(loose: map<Node, Shape>, had: set<object>): map<Node, Item> {
    map n | n in loose :: ItemOf(loose[n], had)
  }

  lemma LooseItemsTaken(loose: map<Node, Shape>, n: Node, had: set<object>)
    ensures LooseItems(loose - {n}, had) == LooseItems(loose, had) - {n}
  {
  }

  lemma LooseItemsPut(loose: map<Node, Shape>, s: Shape, had: set<object>)
    ensures LooseItems(loose[s.node := s], had) == LooseItems(loose, had)[s.node := ItemOf(s, had)]
  {
  }

  lemma TargetIs(h: Holding, e: Edit, had: set<object>)
    requires !IsAdd(e)
    ensures Target(ViewOf(h, had).kids, e) == TargetOf(h.kids, e)
  {
    if HasKey(e) {
      SameFirst(h.kids, e.key, had);
    }
  }

  /** The view after an addition; `t` is the subtree as it is in the list. */
  lemma AddedView(h: Holding, e: Edit, t: Shape, after: Holding, had: set<object>)
    requires IsAdd(e) && e.item != null && e.item in h.loose && h.loose[e.item].node == e.item
    requires ItemOf(t, had) == Brought(ViewOf(h, had), e, e.item)
    requires after == Holding(if e.AddHead? then [t] + h.kids else h.kids + [t], h.loose - {e.item})
    ensures ViewOf(after, had) == Apply(ViewOf(h, had), e)
    ensures Tops(after) <= Tops(h)
  {
    LooseItemsTaken(h.loose, e.item, had);
    ItemsSnoc(h.kids, t, had);
    ItemsCons(t, h.kids, had);
    assert t.node == e.item;
    assert forall n: Node :: n in NodesOf(after.kids) ==> n in NodesOf(h.kids) || n == e.item;
  }

  /** The view after a child has gone from the list. */
  lemma CutView(h: Holding, e: Edit, after: Holding, had: set<object>)
    requires !IsAdd(e) && !IsReplace(e)
    requires var w := TargetOf(h.kids, e);
      if w >= |h.kids| then after == h
      else after == Holding(Without(h.kids, w),
        if e.DeleteAt? || e.DeleteKey? then h.loose else h.loose[h.kids[w].node := h.kids[w]])
    ensures ViewOf(after, had) == Apply(ViewOf(h, had), e)
    ensures Tops(after) <= Tops(h)
  {
    var w := TargetOf(h.kids, e);
    TargetIs(h, e, had);
    if w < |h.kids| {
      ItemsWithout(h.kids, w, had);
      LooseItemsPut(h.loose, h.kids[w], had);
      forall n: Node | n in NodesOf(Without(h.kids, w))
        ensures n in NodesOf(h.kids)
      {
        var i :| 0 <= i < |Without(h.kids, w)| && Without(h.kids, w)[i].node == n;
        WithoutAt(h.kids, w, i);
      }
      assert h.kids[w].node in NodesOf(h.kids);
    }
  }

  /** The view after a replacement; `t` is the new subtree as it is in the list. */
  lemma ReplacedView(h: Holding, e: Edit, t: Shape, after: Holding, had: set<object>)
    requires IsReplace(e) && e.newitem in h.loose && h.loose[e.newitem].node == e.newitem
    requires var w := TargetOf(h.kids, e);
      if w >= |h.kids| then after == h
      else
        && ItemOf(t, had) == Brought(ViewOf(h, had), e, e.newitem)
        && after == Holding(h.kids[w := t], h.loose - {e.newitem})
    ensures ViewOf(after, had) == Apply(ViewOf(h, had), e)
    ensures Tops(after) <= Tops(h)
  {
    var w := TargetOf(h.kids, e);
    TargetIs(h, e, had);
    LooseItemsTaken(h.loose, e.newitem, had);
    if w < |h.kids| {
      ItemsReplaced(h.kids, w, t, had);
      forall n: Node | n in NodesOf(h.kids[w := t])
        ensures n in NodesOf(h.kids) || n == e.newitem
      {
        var i :| 0 <= i < |h.kids| && h.kids[w := t][i].node == n;
        assert i == w || h.kids[w := t][i] == h.kids[i];
      }
    }
  }

  lemma BooksNamed(live: set<object>, total: set<object>, was: set<object>, name: set<object>)
    requires was <= total <= live && name !! live
    ensures Books(live, total, live - was + name, total - was + name, {})
  {
  }

  lemma BooksCut(live: set<object>, total: set<object>, kid: set<object>)
    requires kid <= total <= live
    ensures Books(live, total, live - kid, total - kid, {})
    ensures Books(live, total, live, total, {})
  {
  }

  lemma BooksSwapped(live: set<object>, total: set<object>, kid: set<object>, was: set<object>, name: set<object>)
    requires kid <= total <= live && was <= total && was !! kid && name !! live
    ensures Books(live, total, live + name - kid, total - kid - was + name, was)
  {
  }

  lemma InKeyBooks(parent: Node, h: Holding, e: Edit, t: Shape, live: set<object>, now: set<object>, had: set<object>)
    requires Clean(parent, h) && e.AddKey? && e.item != null && e.item in h.loose && Total(h) <= live
    requires t.data.name.Block? && t.data.name.chars == e.key && t == Renamed(h.loose[e.item], t.data.name)
    requires BlockSet(t.data.name) !! had && BlockSet(t.data.name) !! live
    requires now == live - BlockSet(h.loose[e.item].data.name) + BlockSet(t.data.name)
    ensures var after := Holding(h.kids + [t], h.loose - {e.item});
      && ViewOf(after, had) == Apply(ViewOf(h, had), e) && Tops(after) <= Tops(h)
      && Books(live, Total(h), now, Total(after), {})
  {
    var s := h.loose[e.item];
    NamedTotal(parent, h, e.item, t.data.name);
    RenamedItem(s, t.data.name, had);
    BooksNamed(live, Total(h), BlockSet(s.data.name), BlockSet(t.data.name));
    AddedView(h, e, t, Holding(h.kids + [t], h.loose - {e.item}), had);
  }

  method StepInKey(heap: Heap, parent: Node, e: Edit, ghost h: Holding, ghost had: set<object>)
    returns (ghost after: Holding)
    requires Held(heap, parent, h) && KeyHeld(heap, e) && e.AddKey? && e.item != null && e.item in h.loose
    requires !OwnKey(h, e)
    modifies heap`live, parent`child, Tops(h)`prev, Tops(h)`next, Tops(h)`name
    ensures Held(heap, parent, after) && ViewOf(after, had) == Apply(ViewOf(h, had), e)
    ensures Books(old(heap.live), Total(h), heap.live, Total(after), {}) && Tops(after) <= Tops(h)
  {
    ghost var live, t := heap.live, h.loose[e.item];
    LooseAway(heap, parent, h);
    t, after := StepAddKey(heap, parent, e, h);
    InKeyBooks(parent, h, e, t, live, heap.live, had);
  }

  method StepInEnd(heap: Heap, parent: Node, e: Edit, ghost h: Holding, ghost had: set<object>)
    returns (ghost after: Holding)
    requires Held(heap, parent, h) && (e.AddTail? || e.AddHead?) && e.item != null && e.item in h.loose
    modifies heap`live, parent`child, Tops(h)`prev, Tops(h)`next, Tops(h)`name
    ensures Held(heap, parent, after) && ViewOf(after, had) == Apply(ViewOf(h, had), e)
    ensures heap.live == old(heap.live) && Total(after) == Total(h) && Tops(after) <= Tops(h)
  {
    LooseAway(heap, parent, h);
    if e.AddTail? {
      after := StepTail(heap, parent, e.item, h);
    } else {
      after := StepHead(heap, parent, e.item, h);
    }
    AddedView(h, e, h.loose[e.item], after, had);
  }

  method StepIn(heap: Heap, parent: Node, e: Edit, ghost h: Holding, ghost had: set<object>)
    returns (ghost after: Holding)
    requires Held(heap, parent, h) && KeyHeld(heap, e) && IsAdd(e) && Fits(ViewOf(h, had), e) && !OwnKey(h, e)
    modifies heap`live, parent`child, Tops(h)`prev, Tops(h)`next, Tops(h)`name
    ensures Held(heap, parent, after) && ViewOf(after, had) == Apply(ViewOf(h, had), e)
    ensures Books(old(heap.live), Total(h), heap.live, Total(after), {}) && Tops(after) <= Tops(h)
  {
    BooksCut(heap.live, Total(h), {});
    if e.item == null {
      after := h;
    } else if e.AddKey? {
      after := StepInKey(heap, parent, e, h, had);
    } else {
      after := StepInEnd(heap, parent, e, h, had);
    }
  }

  method StepOut(heap: Heap, parent: Node, e: Edit, ghost h: Holding, ghost had: set<object>)
    returns (ghost after: Holding)
    requires Held(heap, parent, h) && KeyHeld(heap, e) && !IsAdd(e) && !IsReplace(e)
    modifies heap`live, parent`child, Tops(h)`prev, Tops(h)`next, Tops(h)`name
    ensures Held(heap, parent, after) && Books(old(heap.live), Total(h), heap.live, Total(after), {})
    ensures Tops(after) <= Tops(h)
    ensures ViewOf(after, had) == Apply(ViewOf(h, had), e)
  {
    ghost var live, w := heap.live, TargetOf(h.kids, e);
    BooksCut(live, Total(h), {});
    if e.DeleteAt? || e.DeleteKey? {
      if w < |h.kids| {
        KidInside(h, w);
        BooksCut(live, Total(h), h.kids[w].all);
      }
      after := StepDelete(heap, parent, e, h);
    } else {
      after := StepDetach(heap, parent, e, h);
    }
    CutView(h, e, after, had);
  }

  lemma SwapAtBooks(parent: Node, h: Holding, e: Edit, live: set<object>)
    requires Clean(parent, h) && e.ReplaceAt? && e.newitem in h.loose && Total(h) <= live
    ensures var w, after := TargetOf(h.kids, e), Swapped(h, e, h.loose[e.newitem]);
      Books(live, Total(h), if w < |h.kids| then live - h.kids[w].all else live, Total(after), {})
  {
    var w := TargetOf(h.kids, e);
    if w < |h.kids| {
      ReplacedTotal(parent, h, e.newitem, w, h.loose[e.newitem], {});
      BooksCut(live, Total(h), h.kids[w].all);
    } else {
      BooksCut(live, Total(h), {});
    }
  }

  method StepSwapAt(heap: Heap, parent: Node, e: Edit, ghost h: Holding, ghost had: set<object>)
    returns (ghost after: Holding)
    requires Held(heap, parent, h) && e.ReplaceAt? && Fits(ViewOf(h, had), e)
    modifies heap`live, parent`child, Tops(h)`prev, Tops(h)`next, Tops(h)`name
    ensures Held(heap, parent, after) && ViewOf(after, had) == Apply(ViewOf(h, had), e)
    ensures Books(old(heap.live), Total(h), heap.live, Total(after), {}) && Tops(after) <= Tops(h)
  {
    LooseAway(heap, parent, h);
    SwapAtBooks(parent, h, e, heap.live);
    StepReplaceAt(heap, parent, e, h);
    after := Swapped(h, e, h.loose[e.newitem]);
    ReplacedView(h, e, h.loose[e.newitem], after, had);
  }

  lemma SwapKeyView(h: Holding, e: Edit, t: Shape, had: set<object>)
    requires e.ReplaceKey? && e.newitem in h.loose && h.loose[e.newitem].node == e.newitem
    requires TargetOf(h.kids, e) < |h.kids| ==>
      && t.data.name.Block? && t.data.name.chars == e.key && t == Renamed(h.loose[e.newitem], t.data.name)
      && BlockSet(t.data.name) !! had
    ensures ViewOf(Swapped(h, e, t), had) == Apply(ViewOf(h, had), e) && Tops(Swapped(h, e, t)) <= Tops(h)
  {
    if TargetOf(h.kids, e) < |h.kids| {
      RenamedItem(h.loose[e.newitem], t.data.name, had);
    }
    ReplacedView(h, e, t, Swapped(h, e, t), had);
  }

  /** The name that a replacement by key leaves allocated. */
  ghost function Lost(h: Holding, e: Edit): set<object>
    requires e.ReplaceKey? && e.newitem in h.loose
  {
    if TargetOf(h.kids, e) < |h.kids| then BlockSet(h.loose[e.newitem].data.name) else {}
  }

  lemma SwapKeyBooks(parent: Node, h: Holding, e: Edit, t: Shape, live: set<object>, now: set<object>)
    requires Clean(parent, h) && e.ReplaceKey? && e.newitem in h.loose && Total(h) <= live
    requires var w, name := TargetOf(h.kids, e), t.data.name;
      if w < |h.kids| then
        && t == Renamed(h.loose[e.newitem], name) && BlockSet(name) !! live
        && now == live + BlockSet(name) - h.kids[w].all
      else now == live
    ensures Books(live, Total(h), now, Total(Swapped(h, e, t)), Lost(h, e))
  {
    var w, n, name := TargetOf(h.kids, e), e.newitem, t.data.name;
    if w < |h.kids| {
      KidInside(h, w);
      NamedReplaced(parent, h, n, w, name);
      BooksSwapped(live, Total(h), h.kids[w].all, BlockSet(h.loose[n].data.name), BlockSet(name));
    } else {
      BooksCut(live, Total(h), {});
    }
  }

  lemma NameCount(b: Block)
    ensures |BlockSet(b)| == if KeyOf(b).Keyed? then 1 else 0
  {
  }

  lemma LostInside(parent: Node, h: Holding, e: Edit)
    requires Clean(parent, h) && e.ReplaceKey? && e.newitem in h.loose
    ensures Lost(h, e) <= Total(h)
  {
    OneInside(h.loose, e.newitem);
    assert BlockSet(h.loose[e.newitem].data.name) <= h.loose[e.newitem].all;
  }

  lemma LostIsLeaked(h: Holding, e: Edit, had: set<object>)
    requires e.ReplaceKey? && e.newitem in h.loose
    ensures |Lost(h, e)| == Leaks(ViewOf(h, had), e) && Lost(h, e) * had == LeakedBy(ViewOf(h, had), e)
  {
    TargetIs(h, e, had);
    NameCount(h.loose[e.newitem].data.name);
    assert LooseItems(h.loose, had)[e.newitem].name == KeyOf(h.loose[e.newitem].data.name);
  }

  method StepSwapKey(heap: Heap, parent: Node, e: Edit, ghost h: Holding, ghost had: set<object>)
    returns (ghost after: Holding, ghost lost: set<object>)
    requires Held(heap, parent, h) && KeyHeld(heap, e) && e.ReplaceKey? && Fits(ViewOf(h, had), e)
    modifies heap`live, parent`child, Tops(h)`prev, Tops(h)`next, Tops(h)`name
    ensures Held(heap, parent, after) && ViewOf(after, had) == Apply(ViewOf(h, had), e)
    ensures Books(old(heap.live), Total(h), heap.live, Total(after), lost) && Tops(after) <= Tops(h)
    ensures lost <= Total(h) && |lost| == Leaks(ViewOf(h, had), e) && lost * had == LeakedBy(ViewOf(h, had), e)
  {
    ghost var live, t := heap.live, h.loose[e.newitem];
    LooseAway(heap, parent, h);
    LostInside(parent, h, e);
    LostIsLeaked(h, e, had);
    t := StepReplaceKey(heap, parent, e, h);
    after, lost := Swapped(h, e, t), Lost(h, e);
    SwapKeyView(h, e, t, had);
    SwapKeyBooks(parent, h, e, t, live, heap.live);
  }

  lemma KidInside(h: Holding, w: nat)
    requires w < |h.kids|
    ensures h.kids[w].all <= Total(h)
  {
  }

  method StepDefined(heap: Heap, parent: Node, e: Edit, ghost h: Holding, ghost had: set<object>)
    returns (ghost after: Holding, ghost lost: set<object>)
    requires Held(heap, parent, h) && KeyHeld(heap, e) && Fits(ViewOf(h, had), e) && !OwnKey(h, e)
    modifies heap`live, parent`child, Tops(h)`prev, Tops(h)`next, Tops(h)`name
    ensures Held(heap, parent, after) && Books(old(heap.live), Total(h), heap.live, Total(after), lost)
    ensures lost <= Total(h) && |lost| == Leaks(ViewOf(h, had), e) && lost * had == LeakedBy(ViewOf(h, had), e)
    ensures ViewOf(after, had) == Apply(ViewOf(h, had), e) && Tops(after) <= Tops(h)
  {
    lost := {};
    if IsAdd(e) {
      after := StepIn(heap, parent, e, h, had);
    } else if IsReplace(e) {
      if e.ReplaceAt? {
        after := StepSwapAt(heap, parent, e, h, had);
      } else {
        after, lost := StepSwapKey(heap, parent, e, h, had);
      }
    } else {
      after := StepOut(heap, parent, e, h, had);
    }
  }

  /** Adding an item under its own name reads the name after freeing it. */
  method StepOwnKey(heap: Heap, parent: Node, e: Edit, ghost h: Holding) returns (defined: bool)
    requires Held(heap, parent, h) && KeyHeld(heap, e) && OwnKey(h, e)
    modifies heap`live, parent`child, Tops(h)`prev, Tops(h)`next, Tops(h)`name
    ensures !defined && e.at !in heap.live
  {
    ghost var t;
    OneGiven(heap, parent, h, e.item);
    defined, t := AddItemToObject(heap, parent, e.at, e.item, h.kids, h.loose[e.item], e.key);
  }

  /** The test of a pointer decides the case. */
  lemma OwnKeyIs(heap: Heap, parent: Node, h: Holding, e: Edit)
    requires Held(heap, parent, h) && e.AddKey? && e.item != null && e.item in h.loose
    ensures OwnKey(h, e) <==> e.item.name == e.at
  {
    assert Loose(e.item, h.loose[e.item], parent, h.kids);
  }

  /** One edit: the list and the loose subtrees become the edited view, and every object is accounted
      for, iff the edit does not add an item under its own name; in that case a freed key is read. */
  method Step(heap: Heap, parent: Node, e: Edit, ghost h: Holding, ghost had: set<object>)
    returns (defined: bool, ghost after: Holding, ghost lost: set<object>)
    requires Held(heap, parent, h) && KeyHeld(heap, e) && Fits(ViewOf(h, had), e)
    modifies heap`live, parent`child, Tops(h)`prev, Tops(h)`next, Tops(h)`name
    ensures defined <==> !OwnKey(h, e)
    ensures !defined ==> e.at !in heap.live
    ensures defined ==>
      && Held(heap, parent, after) && Books(old(heap.live), Total(h), heap.live, Total(after), lost)
      && lost <= Total(h) && |lost| == Leaks(ViewOf(h, had), e) && lost * had == LeakedBy(ViewOf(h, had), e)
      && ViewOf(after, had) == Apply(ViewOf(h, had), e) && Tops(after) <= Tops(h)
  {
    defined, after, lost := true, h, {};
    if e.AddKey? && e.item != null {
      OwnKeyIs(heap, parent, h, e);
      if e.item.name == e.at {
        defined := StepOwnKey(heap, parent, e, h);
        return;
      }
    }
    after, lost := StepDefined(heap, parent, e, h, had);
  }

  // ---------------------------------------------------------------- what keys may be read

  ghost function Objects(i: Item): set<object> {
    {i.node as object} + i.own + BlockSet(i.data.text) + ListAll(i.below)
  }

  /** What a view owns of the objects that were allocated when the run began. */
  ghost function ViewObjects(v: View): set<object> {
    (set k, o | 0 <= k < |v.kids| && o in Objects(v.kids[k]) :: o)
    + (set n, o | n in v.loose && o in Objects(v.loose[n]) :: o)
  }

  /** The key of an edit is allocated: of what was there when the run began, exactly what is beside the view
      or owned by it still is (see Accounted). And it is not the name that the edit frees. */
  ghost predicate Readable(v: View, beside: set<object>, e: Edit)
    requires Fits(v, e)
  {
    && (HasKey(e) ==> e.at in beside + ViewObjects(v))
    && (e.AddKey? && e.item != null ==> e.at !in v.loose[e.item].own)
  }

  ghost predicate ReadableAll(v: View, beside: set<object>, edits: seq<Edit>)
    requires FitsAll(v, edits)
    decreases |edits|
  {
    |edits| > 0 ==>
      Readable(v, beside, edits[0]) && ReadableAll(Apply(v, edits[0]), beside + LeakedBy(v, edits[0]), edits[1..])
  }

  /** What stays allocated beside the view: names that are leaked join it. */
  ghost function BesideAll(v: View, beside: set<object>, edits: seq<Edit>): set<object>
    requires FitsAll(v, edits)
    decreases |edits|
  {
    if |edits| == 0 then beside
    else BesideAll(Apply(v, edits[0]), beside + LeakedBy(v, edits[0]), edits[1..])
  }

  lemma KidIn(v: View, i: Item)
    requires i in v.kids
    ensures Objects(i) <= ViewObjects(v)
  {
    var k :| 0 <= k < |v.kids| && v.kids[k] == i;
    assert forall o :: o in Objects(i) ==> o in Objects(v.kids[k]);
  }

  lemma LooseIn(v: View, n: Node)
    requires n in v.loose
    ensures Objects(v.loose[n]) <= ViewObjects(v)
  {
  }

  /** An item after an edit was there before, or is the one that the edit brings. */
  lemma KidsAfter(v: View, e: Edit, i: Item)
    requires Fits(v, e) && i in Apply(v, e).kids
    ensures || i in v.kids
            || (IsAdd(e) && e.item != null && i == Brought(v, e, e.item))
            || (IsReplace(e) && i == Brought(v, e, e.newitem))
  {
  }

  /** No edit brings objects into a view that it did not own. */
  lemma ViewObjectsShrink(v: View, e: Edit)
    requires Fits(v, e)
    ensures ViewObjects(Apply(v, e)) <= ViewObjects(v)
  {
    var u := Apply(v, e);
    forall k | 0 <= k < |u.kids|
      ensures Objects(u.kids[k]) <= ViewObjects(v)
    {
      KidsAfter(v, e, u.kids[k]);
      if u.kids[k] in v.kids {
        KidIn(v, u.kids[k]);
      } else {
        LooseIn(v, if IsAdd(e) then e.item else e.newitem);
      }
    }
    forall n: Node | n in u.loose
      ensures Objects(u.loose[n]) <= ViewObjects(v)
    {
      if n in v.loose && u.loose[n] == v.loose[n] {
        LooseIn(v, n);
      } else {
        KidIn(v, u.loose[n]);
      }
    }
  }

  /** Keys that belong to no item can be read throughout a run. */
  lemma {:induction false} OutsideKeysAreReadable(v: View, beside: set<object>, edits: seq<Edit>)
    requires FitsAll(v, edits)
    requires forall k :: 0 <= k < |edits| && HasKey(edits[k]) ==>
      edits[k].at in beside && edits[k].at !in ViewObjects(v)
    ensures ReadableAll(v, beside, edits)
    decreases |edits|
  {
    if |edits| > 0 {
      var e := edits[0];
      ViewObjectsShrink(v, e);
      if e.AddKey? && e.item != null {
        assert e.at !in Objects(v.loose[e.item]);
      }
      OutsideKeysAreReadable(Apply(v, e), beside + LeakedBy(v, e), edits[1..]);
    }
  }

  // ---------------------------------------------------------------- runs

  /** The books of two steps in a row add up. */
  lemma TwoSteps(live: set<object>, a: set<object>, b: set<object>, c: set<object>, lost: set<object>,
                 more: set<object>, mid: set<object>, end: set<object>)
    requires a <= live && Books(live, a, mid, b, lost) && lost <= a && Books(mid, b, end, c, more)
    ensures Books(live, a, end, c, lost + more) && |lost + more| == |lost| + |more|
  {
  }

  /** A detached child can be added back in the same run: the two edits move it to the end. */
  lemma MoveToEnd(v: View, w: nat)
    requires w < |v.kids| && v.kids[w].node !in v.loose
    ensures var edits := [DetachAt(w), AddTail(v.kids[w].node)];
      FitsAll(v, edits) && ApplyAll(v, edits) == View(Cut(v.kids, w) + [v.kids[w]], v.loose)
  {
    var kid := v.kids[w];
    var edits := [DetachAt(w), AddTail(kid.node)];
    var mid := Apply(v, edits[0]);
    assert edits[1..] == [edits[1]] && edits[1..][1..] == [];
    assert mid.loose - {kid.node} == v.loose;
    assert FitsAll(mid, edits[1..]);
    assert ApplyAll(mid, edits[1..]) == ApplyAll(Apply(mid, edits[1]), edits[1..][1..]);
  }

  /** What was allocated when the run began and still is, is beside the view or in it. */
  ghost predicate Accounted(live: set<object>, had: set<object>, beside: set<object>, v: View) {
    live * had == beside + ViewObjects(v) && ViewObjects(v) <= had
  }

  lemma ItemInside(s: Shape, had: set<object>)
    requires Distinct(s)
    ensures Objects(ItemOf(s, had)) <= s.all && s.all * had <= Objects(ItemOf(s, had))
  {
  }

  lemma ViewInside(parent: Node, h: Holding, had: set<object>)
    requires Clean(parent, h)
    ensures ViewObjects(ViewOf(h, had)) <= Total(h)
    ensures Total(h) * had <= ViewObjects(ViewOf(h, had))
  {
    var v := ViewOf(h, had);
    forall k | 0 <= k < |h.kids|
      ensures Objects(v.kids[k]) <= h.kids[k].all && h.kids[k].all * had <= Objects(v.kids[k])
    {
      ItemInside(h.kids[k], had);
    }
    forall n: Node | n in h.loose
      ensures Objects(v.loose[n]) <= h.loose[n].all && h.loose[n].all * had <= Objects(v.loose[n])
    {
      ItemInside(h.loose[n], had);
    }
    KidsInside(h, v, had);
    LooseInside(h, v, had);
  }

  lemma KidsInside(h: Holding, v: View, had: set<object>)
    requires |v.kids| == |h.kids|
    requires forall k :: 0 <= k < |h.kids| ==>
      Objects(v.kids[k]) <= h.kids[k].all && h.kids[k].all * had <= Objects(v.kids[k])
    ensures (set k, o | 0 <= k < |v.kids| && o in Objects(v.kids[k]) :: o) <= ListAll(h.kids)
    ensures ListAll(h.kids) * had <= ViewObjects(v)
  {
    forall o | o in ListAll(h.kids) * had
      ensures o in ViewObjects(v)
    {
      var k :| 0 <= k < |h.kids| && o in h.kids[k].all;
      assert o in h.kids[k].all * had;
      assert o in Objects(v.kids[k]);
    }
  }

  lemma LooseInside(h: Holding, v: View, had: set<object>)
    requires v.loose.Keys == h.loose.Keys
    requires forall n: Node :: n in h.loose ==>
      Objects(v.loose[n]) <= h.loose[n].all && h.loose[n].all * had <= Objects(v.loose[n])
    ensures (set n, o | n in v.loose && o in Objects(v.loose[n]) :: o) <= LooseAll(h.loose)
    ensures LooseAll(h.loose) * had <= ViewObjects(v)
  {
    forall o | o in LooseAll(h.loose) * had
      ensures o in ViewObjects(v)
    {
      var n: Node :| n in h.loose && o in h.loose[n].all;
      assert o in h.loose[n].all * had;
      assert n in v.loose && o in Objects(v.loose[n]);
    }
  }

  lemma StepAccounted(parent: Node, h: Holding, after: Holding, e: Edit, had: set<object>, beside: set<object>,
                      live: set<object>, now: set<object>, lost: set<object>)
    requires Clean(parent, h) && Clean(parent, after) && Fits(ViewOf(h, had), e)
    requires ViewOf(after, had) == Apply(ViewOf(h, had), e)
    requires Books(live, Total(h), now, Total(after), lost) && lost * had == LeakedBy(ViewOf(h, had), e)
    requires Accounted(live, had, beside, ViewOf(h, had)) && beside !! Total(h) && Total(h) <= live
    ensures Accounted(now, had, beside + LeakedBy(ViewOf(h, had), e), ViewOf(after, had))
    ensures beside + LeakedBy(ViewOf(h, had), e) !! Total(after)
  {
    ViewObjectsShrink(ViewOf(h, had), e);
    ViewExact(parent, h, had);
    ViewExact(parent, after, had);
    BooksAccounted(live, Total(h), now, Total(after), lost, had, beside);
  }

  lemma ViewExact(parent: Node, h: Holding, had: set<object>)
    requires Clean(parent, h) && ViewObjects(ViewOf(h, had)) <= had
    ensures ViewObjects(ViewOf(h, had)) == Total(h) * had
  {
    ViewInside(parent, h, had);
  }

  lemma BooksAccounted(live: set<object>, was: set<object>, now: set<object>, total: set<object>, lost: set<object>,
                       had: set<object>, beside: set<object>)
    requires Books(live, was, now, total, lost) && was <= live
    requires live * had == beside + was * had && beside !! was
    ensures now * had == beside + lost * had + total * had && beside + lost * had !! total
  {
  }

  /** An edit of a run, and what the rest of the run needs. */
  method RunStep(heap: Heap, parent: Node, e: Edit, ghost h: Holding, ghost had: set<object>,
                 ghost beside: set<object>)
    returns (ghost after: Holding, ghost lost: set<object>)
    requires Held(heap, parent, h) && Fits(ViewOf(h, had), e) && (HasKey(e) ==> Holds(e.at, e.key))
    requires Readable(ViewOf(h, had), beside, e)
    requires Accounted(heap.live, had, beside, ViewOf(h, had)) && beside !! Total(h)
    modifies heap`live, parent`child, Tops(h)`prev, Tops(h)`next, Tops(h)`name
    ensures Held(heap, parent, after) && Books(old(heap.live), Total(h), heap.live, Total(after), lost)
    ensures lost <= Total(h) && |lost| == Leaks(ViewOf(h, had), e)
    ensures ViewOf(after, had) == Apply(ViewOf(h, had), e) && Tops(after) <= Tops(h)
    ensures Accounted(heap.live, had, beside + LeakedBy(ViewOf(h, had), e), ViewOf(after, had))
    ensures beside + LeakedBy(ViewOf(h, had), e) !! Total(after)
  {
    ghost var live := heap.live;
    LooseAway(heap, parent, h);
    ReadableKey(parent, h, e, had, beside, heap.live);
    var defined;
    defined, after, lost := Step(heap, parent, e, h, had);
    HeldAccounted(heap, parent, h, after, e, had, beside, live, lost);
  }

  lemma HeldAccounted(heap: Heap, parent: Node, h: Holding, after: Holding, e: Edit, had: set<object>,
                      beside: set<object>, live: set<object>, lost: set<object>)
    requires Clean(parent, h) && Held(heap, parent, after) && Fits(ViewOf(h, had), e)
    requires ViewOf(after, had) == Apply(ViewOf(h, had), e)
    requires Books(live, Total(h), heap.live, Total(after), lost) && lost * had == LeakedBy(ViewOf(h, had), e)
    requires Accounted(live, had, beside, ViewOf(h, had)) && beside !! Total(h) && Total(h) <= live
    ensures Accounted(heap.live, had, beside + LeakedBy(ViewOf(h, had), e), ViewOf(after, had))
    ensures beside + LeakedBy(ViewOf(h, had), e) !! Total(after)
  {
    LooseAway(heap, parent, after);
    StepAccounted(parent, h, after, e, had, beside, live, heap.live, lost);
  }

  /** The objects of the state before a run, and of the state after it. */
  datatype Change = Change(live: set<object>, was: set<object>, now: set<object>, total: set<object>, lost: set<object>)

  /** What a run does to a view and to what is allocated. */
  ghost predicate Ran(v: View, beside: set<object>, had: set<object>, edits: seq<Edit>, w: View, c: Change)
    requires FitsAll(v, edits)
  {
    && w == ApplyAll(v, edits) && |c.lost| == LeaksAll(v, edits)
    && Books(c.live, c.was, c.now, c.total, c.lost)
    && Accounted(c.now, had, BesideAll(v, beside, edits), w)
  }

  lemma RanOn(v: View, beside: set<object>, had: set<object>, edits: seq<Edit>, w: View, one: Change, rest: Change)
    requires FitsAll(v, edits) && |edits| > 0
    requires one.was <= one.live && Books(one.live, one.was, one.now, one.total, one.lost)
    requires one.lost <= one.was && |one.lost| == Leaks(v, edits[0])
    requires rest.live == one.now && rest.was == one.total
    requires Ran(Apply(v, edits[0]), beside + LeakedBy(v, edits[0]), had, edits[1..], w, rest)
    ensures Ran(v, beside, had, edits, w, Change(one.live, one.was, rest.now, rest.total, one.lost + rest.lost))
  {
    TwoSteps(one.live, one.was, one.total, rest.total, one.lost, rest.lost, one.now, rest.now);
  }

  lemma LaterKeysHeld(edits: seq<Edit>)
    requires |edits| > 0 && KeysHeld(edits)
    ensures KeysHeld(edits[1..])
  {
    assert forall k :: 0 <= k < |edits| - 1 ==> edits[1..][k] == edits[k + 1];
  }

  /** A step that leaves the keys of the later edits alone. */
  method RunFirst(heap: Heap, parent: Node, e: Edit, ghost later: seq<Edit>, ghost h: Holding,
                  ghost had: set<object>, ghost beside: set<object>)
    returns (ghost after: Holding, ghost lost: set<object>)
    requires Held(heap, parent, h) && Fits(ViewOf(h, had), e) && (HasKey(e) ==> Holds(e.at, e.key))
    requires KeysHeld(later) && Readable(ViewOf(h, had), beside, e)
    requires Accounted(heap.live, had, beside, ViewOf(h, had)) && beside !! Total(h)
    modifies heap`live, parent`child, Tops(h)`prev, Tops(h)`next, Tops(h)`name
    ensures Held(heap, parent, after) && KeysHeld(later)
    ensures Books(old(heap.live), Total(h), heap.live, Total(after), lost)
    ensures lost <= Total(h) && |lost| == Leaks(ViewOf(h, had), e)
    ensures ViewOf(after, had) == Apply(ViewOf(h, had), e) && Tops(after) <= Tops(h)
    ensures Accounted(heap.live, had, beside + LeakedBy(ViewOf(h, had), e), ViewOf(after, had))
    ensures beside + LeakedBy(ViewOf(h, had), e) !! Total(after)
  {
    after, lost := RunStep(heap, parent, e, h, had, beside);
    forall k | 0 <= k < |later| && HasKey(later[k])
      ensures Holds(later[k].at, later[k].key)
    {
      var at: object := later[k].at;
      assert at != heap && at != parent && at !in Tops(h);
    }
  }

  method RunFrom(heap: Heap, parent: Node, edits: seq<Edit>, ghost h: Holding, ghost had: set<object>,
                 ghost beside: set<object>)
    returns (ghost after: Holding, ghost lost: set<object>)
    requires Held(heap, parent, h) && FitsAll(ViewOf(h, had), edits)
    requires KeysHeld(edits) && ReadableAll(ViewOf(h, had), beside, edits)
    requires Accounted(heap.live, had, beside, ViewOf(h, had)) && beside !! Total(h)
    modifies heap`live, parent`child, Tops(h)`prev, Tops(h)`next, Tops(h)`name
    ensures Held(heap, parent, after) && Tops(after) <= Tops(h)
    ensures Ran(ViewOf(h, had), beside, had, edits, ViewOf(after, had),
                Change(old(heap.live), Total(h), heap.live, Total(after), lost))
    decreases |edits|
  {
    ghost var live := heap.live;
    after, lost := h, {};
    BooksCut(live, Total(h), {});
    if |edits| > 0 {
      ghost var v := ViewOf(h, had);
      ghost var next, more;
      LaterKeysHeld(edits);
      next, lost := RunFirst(heap, parent, edits[0], edits[1..], h, had, beside);
      ghost var one := Change(live, Total(h), heap.live, Total(next), lost);
      after, more := RunFrom(heap, parent, edits[1..], next, had, beside + LeakedBy(v, edits[0]));
      ghost var rest := Change(one.now, Total(next), heap.live, Total(after), more);
      RanOn(v, beside, had, edits, ViewOf(after, had), one, rest);
      lost := lost + more;
    }
  }

  lemma ReadableKey(parent: Node, h: Holding, e: Edit, had: set<object>, beside: set<object>, live: set<object>)
    requires Clean(parent, h) && Fits(ViewOf(h, had), e) && Readable(ViewOf(h, had), beside, e)
    requires Accounted(live, had, beside, ViewOf(h, had))
    ensures HasKey(e) ==> e.at in live
    ensures !OwnKey(h, e)
  {
    if e.AddKey? && e.item != null {
      assert ViewOf(h, had).loose[e.item].own == BlockSet(h.loose[e.item].data.name) * had;
    }
  }

  /** Any run of edits, by index or by key, leaves a well-linked chain and loose subtrees that are
      exactly the edited view. What is allocated is what was, without the subtrees that were deleted
      or replaced: the list, the loose subtrees, and one name for each replacement by key of a named
      item. Every key has to be allocated when it is read; it may well be a name in the list. */
  method Run(heap: Heap, parent: Node, edits: seq<Edit>, ghost h: Holding)
    returns (ghost after: Holding, ghost lost: set<object>)
    requires Held(heap, parent, h) && FitsAll(ViewOf(h, heap.live), edits)
    requires KeysHeld(edits) && ReadableAll(ViewOf(h, heap.live), heap.live - Total(h), edits)
    modifies heap`live, parent`child, Tops(h)`prev, Tops(h)`next, Tops(h)`name
    ensures Held(heap, parent, after)
    ensures ViewOf(after, old(heap.live)) == ApplyAll(ViewOf(h, old(heap.live)), edits)
    ensures Books(old(heap.live), Total(h), heap.live, Total(after), lost)
    ensures |lost| == LeaksAll(ViewOf(h, old(heap.live)), edits) && Tops(after) <= Tops(h)
    ensures heap.live * old(heap.live) ==
      BesideAll(ViewOf(h, old(heap.live)), old(heap.live) - Total(h), edits) +
          ViewObjects(ViewOf(after, old(heap.live)))
  {
    LooseAway(heap, parent, h);
    ViewInside(parent, h, heap.live);
    after, lost := RunFrom(heap, parent, edits, h, heap.live, heap.live - Total(h));
  }
}
