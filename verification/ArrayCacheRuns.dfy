/** Runs of the wrapper's array operations, and exactly when the index agrees with the list after
    them. */
module ArrayCacheRuns {
  import opened JsonText
  import opened JsonNodes
  import opened ChildList
  import opened Wrapper
  import opened ArrayCache

  datatype Op =
    | Look(k: u32)
    | Put(front: bool, v: Value)
    | PutAt(which: i32, v: Value)
    | Remove(which: i32)

  predicate OpOk(op: Op) {
    op.Put? || op.PutAt? ==> Given(op.v)
  }

  predicate AllOk(ops: seq<Op>) {
    forall k :: 0 <= k < |ops| ==> OpOk(ops[k])
  }

  datatype Focus = NoFocus | ArrayFocus | OtherFocus

  /** What a wrapper shows: what it stands for, the elements, and the keys of its index. */
  datatype View = View(focus: Focus, items: seq<Json>, keys: set<u32>)

  function Below(keys: set<u32>, bound: nat): set<u32> {
    set k | k in keys && k < bound
  }

  /** The view after an operation. */
  function After(v: View, op: Op): View {
    match op
    case Look(k) => v.(keys := v.keys + {k})
    case Put(front, value) =>
      if v.focus.OtherFocus? then v
      else
        View(ArrayFocus, Inserted(front, v.items, value),
             if value.Parsed? && Makes(value) then Below(v.keys, if front then 0 else |v.items|) else v.keys)
    case PutAt(which, value) =>
      if Position(which) < |v.items| && Makes(value) then
        v.(items := v.items[Position(which) := ValueTree(value)],
           keys := if value.Parsed? then v.keys - {AsKey(which)} else v.keys)
      else v
    case Remove(which) =>
      if v.focus.ArrayFocus? then
        v.(items := Shorter(v.items, Position(which)), keys := Below(v.keys, AsKey(which)))
      else v
  }

  /** Whether the operation leaves the index right. The view before it decides. */
  predicate Safe(v: View, op: Op) {
    match op
    case Look(_) => true
    case Put(front, value) =>
      !v.focus.OtherFocus? && Makes(value) ==> InsertSafe(front, After(v, op).keys, |v.items|)
    case PutAt(which, value) =>
      Position(which) < |v.items| && Makes(value) ==> ReplaceSafe(After(v, op).keys, Position(which))
    case Remove(which) =>
      v.focus.ArrayFocus? ==> DeleteSafe(After(v, op).keys, Position(which), |v.items|)
  }

  function AfterAll(v: View, ops: seq<Op>): View
    decreases |ops|
  {
    if |ops| == 0 then v else AfterAll(After(v, ops[0]), ops[1..])
  }

  predicate SafeAll(v: View, ops: seq<Op>)
    decreases |ops|
  {
    |ops| > 0 ==> Safe(v, ops[0]) && SafeAll(After(v, ops[0]), ops[1..])
  }

  // ---------------------------------------------------------------- on the heap

  function FocusOf(c: Content): Focus {
    if c.Nothing? then NoFocus else if c.shape.data.kind == ArrayKind then ArrayFocus else OtherFocus
  }

  ghost function ViewOf(o: CJsonObject, c: Content): View
    reads o`cache
  {
    View(FocusOf(c), Trees(Elements(c)), o.cache.Keys)
  }

  lemma NodesOwned(c: Content)
    requires c.Some? ==> Distinct(c.shape)
    ensures forall n :: n in TopOf(c) ==> n as object in Footprint(c)
    ensures forall n :: n in NodesOf(Elements(c)) ==> n as object in Footprint(c)
  {
    if c.Some? {
      ListAllOf(c.shape);
      NodesInside(c.shape.kids);
    }
  }

  /** What holds between operations, whether the index is right or not. */
  ghost predicate Ready(heap: Heap, o: CJsonObject, c: Content)
    reads heap`live, o`data, o`extern
    reads if c.Some? then {c.shape.node as object} + BlockSet(c.shape.data.text) + BlockSet(c.shape.data.name)
            + ListAll(c.shape.kids)
          else {}
  {
    o.Has(c) && heap !in heap.live && Footprint(c) <= heap.live && o !in heap.live
  }

  lemma KeysBelow(cache: map<u32, CJsonObject>, bound: nat)
    ensures Restricted(cache, bound).Keys == Below(cache.Keys, bound)
  {
  }

  lemma PutSeen(v: View, w: View, front: bool, value: Value, coherent: bool)
    requires var ok := !v.focus.OtherFocus? && Makes(value);
      && w.focus == (if v.focus.OtherFocus? then OtherFocus else ArrayFocus)
      && w.items == (if ok then Inserted(front, v.items, value) else v.items)
      && w.keys == (if ok && value.Parsed? then Below(v.keys, if front then 0 else |v.items|) else v.keys)
      && (coherent <==> !ok || InsertSafe(front, w.keys, |v.items|))
    ensures w == After(v, Put(front, value)) && (coherent <==> Safe(v, Put(front, value)))
  {
  }

  lemma PutAtSeen(v: View, w: View, which: i32, value: Value, coherent: bool)
    requires var ok := Position(which) < |v.items| && Makes(value);
      && w.focus == v.focus
      && w.items == (if ok then v.items[Position(which) := ValueTree(value)] else v.items)
      && w.keys == (if ok && value.Parsed? then v.keys - {AsKey(which)} else v.keys)
      && (coherent <==> !ok || ReplaceSafe(w.keys, Position(which)))
    ensures w == After(v, PutAt(which, value)) && (coherent <==> Safe(v, PutAt(which, value)))
  {
  }

  lemma RemoveSeen(v: View, w: View, which: i32, coherent: bool)
    requires v.focus.ArrayFocus? || v.items == []
    requires w.focus == v.focus && w.items == Shorter(v.items, Position(which))
    requires w.keys == if v.focus.ArrayFocus? then Below(v.keys, AsKey(which)) else v.keys
    requires coherent <==> !v.focus.ArrayFocus? || DeleteSafe(w.keys, Position(which), |v.items|)
    ensures w == After(v, Remove(which)) && (coherent <==> Safe(v, Remove(which)))
  {
  }

  method DoPut(heap: Heap, o: CJsonObject, front: bool, v: Value, ghost c: Content) returns (ghost r: Content)
    requires Ready(heap, o, c) && Coherent(o, Elements(c)) && Given(v)
    modifies heap`live, o`data, o`cache, TopOf(c)`child, NodesOf(Elements(c))`next, NodesOf(Elements(c))`prev
    ensures Ready(heap, o, r) && fresh(Footprint(r) - Footprint(c))
    ensures ViewOf(o, r) == After(old(ViewOf(o, c)), Put(front, v))
    ensures Coherent(o, Elements(r)) <==> Safe(old(ViewOf(o, c)), Put(front, v))
  {
    KeysBelow(o.cache, if front then 0 else |Elements(c)|);
    ghost var view := ViewOf(o, c);
    var ok;
    if front {
      ok, r := AddAsFirst(heap, o, v, c);
    } else {
      ok, r := Add(heap, o, v, c);
    }
    PutSeen(view, ViewOf(o, r), front, v, Coherent(o, Elements(r)));
  }

  method DoPutAt(heap: Heap, o: CJsonObject, which: i32, v: Value, ghost c: Content) returns (ghost r: Content)
    requires Ready(heap, o, c) && Coherent(o, Elements(c)) && Given(v)
    modifies heap`live, o`cache, TopOf(c)`child, NodesOf(Elements(c))`next, NodesOf(Elements(c))`prev
    ensures Ready(heap, o, r) && fresh(Footprint(r) - Footprint(c))
    ensures ViewOf(o, r) == After(old(ViewOf(o, c)), PutAt(which, v))
    ensures Coherent(o, Elements(r)) <==> Safe(old(ViewOf(o, c)), PutAt(which, v))
  {
    ghost var view := ViewOf(o, c);
    var ok;
    ghost var leaked;
    ok, r, leaked := ReplaceAt(heap, o, which, v, c);
    PutAtSeen(view, ViewOf(o, r), which, v, Coherent(o, Elements(r)));
  }

  method DoRemove(heap: Heap, o: CJsonObject, which: i32, ghost c: Content) returns (ghost r: Content)
    requires Ready(heap, o, c) && Coherent(o, Elements(c))
    modifies heap`live, o`cache, TopOf(c)`child, NodesOf(Elements(c))`next, NodesOf(Elements(c))`prev
    ensures Ready(heap, o, r) && fresh(Footprint(r) - Footprint(c))
    ensures ViewOf(o, r) == After(old(ViewOf(o, c)), Remove(which))
    ensures Coherent(o, Elements(r)) <==> Safe(old(ViewOf(o, c)), Remove(which))
  {
    KeysBelow(o.cache, AsKey(which));
    ghost var v := ViewOf(o, c);
    var ok;
    ok, r := DeleteAt(heap, o, which, c);
    RemoveSeen(v, ViewOf(o, r), which, Coherent(o, Elements(r)));
  }

  /** One operation on a right index: the view changes as specified, and the index is right
      afterwards iff the operation is safe. */
  method Do(heap: Heap, o: CJsonObject, op: Op, ghost c: Content) returns (ghost r: Content)
    requires Ready(heap, o, c) && Coherent(o, Elements(c)) && OpOk(op)
    modifies heap`live, o`data, o`cache, Footprint(c)
    ensures Ready(heap, o, r) && fresh(Footprint(r) - Footprint(c))
    ensures ViewOf(o, r) == After(old(ViewOf(o, c)), op)
    ensures Coherent(o, Elements(r)) <==> Safe(old(ViewOf(o, c)), op)
  {
    NodesOwned(c);
    match op
    case Look(k) =>
      var w := Index(o, k, c);
      r := c;
    case Put(front, v) => r := DoPut(heap, o, front, v, c);
    case PutAt(which, v) => r := DoPutAt(heap, o, which, v, c);
    case Remove(which) => r := DoRemove(heap, o, which, c);
  }

  /** After any run of safe operations, the elements are the edited sequence and every cached wrapper
      refers to the node now at its position, or to none past the end. */
  method Run(heap: Heap, o: CJsonObject, ops: seq<Op>, ghost c: Content) returns (ghost r: Content)
    requires Ready(heap, o, c) && Coherent(o, Elements(c)) && AllOk(ops)
    requires SafeAll(ViewOf(o, c), ops)
    modifies heap`live, o`data, o`cache, Footprint(c)
    ensures Ready(heap, o, r) && Coherent(o, Elements(r)) && fresh(Footprint(r) - Footprint(c))
    ensures ViewOf(o, r) == AfterAll(old(ViewOf(o, c)), ops)
    decreases |ops|
  {
    r := c;
    if |ops| > 0 {
      r := Do(heap, o, ops[0], c);
      r := Run(heap, o, ops[1..], r);
    }
  }

  // ---------------------------------------------------------------- which runs are safe

  /** Keys and indices that fit a natural `int`. */
  predicate Natural(op: Op) {
    match op
    case Look(k) => k < 0x8000_0000
    case Put(_, v) => v.Parsed?
    case PutAt(which, v) => which >= 0 && v.Parsed?
    case Remove(which) => which >= 0
  }

  lemma NaturalIsSafe(v: View, op: Op)
    requires Natural(op) && forall k :: k in v.keys ==> k < 0x8000_0000
    ensures Safe(v, op) && forall k :: k in After(v, op).keys ==> k < 0x8000_0000
  {
  }

  /** With natural indices, runs of the overloads that take objects are always safe. */
  lemma {:induction false} NaturalRunsAreSafe(v: View, ops: seq<Op>)
    requires forall k :: 0 <= k < |ops| ==> Natural(ops[k])
    requires forall k :: k in v.keys ==> k < 0x8000_0000
    ensures SafeAll(v, ops)
    decreases |ops|
  {
    if |ops| > 0 {
      NaturalIsSafe(v, ops[0]);
      NaturalRunsAreSafe(After(v, ops[0]), ops[1..]);
    }
  }

  /** After looking at the first of two elements, each of these leaves a wrong index: deleting at a
      negative index, putting a scalar in front, and replacing the first element by a scalar or at a
      negative index. */
  lemma UnsafeExamples(x: Json, y: Json, v: Value)
    requires Makes(v)
    ensures var looked := After(View(ArrayFocus, [x, y], {}), Look(0));
      && !Safe(looked, Remove(-1)) && !Safe(looked, Put(true, Flag(true)))
      && !Safe(looked, PutAt(0, Flag(true))) && !Safe(looked, PutAt(-1, v))
  {
    var looked := After(View(ArrayFocus, [x, y], {}), Look(0));
    assert 0 in looked.keys && Slot(0) == 0 && Position(-1) == 0;
    assert 0 in After(looked, Remove(-1)).keys && 0 in After(looked, PutAt(-1, v)).keys;
    assert 0 in After(looked, Put(true, Flag(true))).keys && 0 in After(looked, PutAt(0, Flag(true))).keys;
  }

  /** An array of one element, and its entry in the index. */
  method OneElement(heap: Heap) returns (o: CJsonObject, w: CJsonObject, ghost c: Content)
    requires heap !in heap.live
    modifies heap`live
    ensures fresh(o) && Ready(heap, o, c) && Coherent(o, Elements(c)) && fresh(Footprint(c))
    ensures |Elements(c)| == 1 && 0 in o.cache && o.cache[0] == w && w.extern == Elements(c)[0].node
  {
    o := new CJsonObject();
    var ok;
    ok, c := Add(heap, o, Flag(true), Nothing);
    NodesOwned(c);
    w := Index(o, 0, c);
  }

  lemma FirstInGone(c: Content)
    requires c.Some? && Distinct(c.shape) && |Elements(c)| > 0
    ensures Elements(c)[0].node in Gone(Elements(c), 0)
  {
    assert DistinctList(c.shape.kids);
    NodeInAll(c.shape.kids[0]);
  }

  /** A run from an empty wrapper: add, look, and delete at -1. The cached wrapper of the only element
      then refers to a node that is no longer allocated. */
  method StaleEntry(heap: Heap) returns (o: CJsonObject, w: CJsonObject)
    requires heap !in heap.live
    modifies heap`live
    ensures 0 in o.cache && o.cache[0] == w && w.extern != null && w.extern !in heap.live
  {
    var ok;
    ghost var c;
    o, w, c := OneElement(heap);
    NodesOwned(c);
    FirstInGone(c);
    ok, c := DeleteAt(heap, o, -1, c);
  }

  /** Replacing out of range, from an empty wrapper: the new node is allocated and in no list. */
  method LeakedItem(heap: Heap) returns (o: CJsonObject, ghost c: Content, ghost leaked: set<object>)
    requires heap !in heap.live
    modifies heap`live
    ensures o.Has(c) && |Elements(c)| == 1 && leaked != {} && fresh(leaked)
    ensures heap.live == old(heap.live) + Footprint(c) + leaked && leaked !! Footprint(c)
  {
    o := new CJsonObject();
    var ok;
    ok, c := Add(heap, o, Flag(true), Nothing);
    NodesOwned(c);
    ok, c, leaked := ReplaceAt(heap, o, 1, Flag(false), c);
  }
}
