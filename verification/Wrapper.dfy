/** The C++ wrapper: objects are copied, compared and extracted by printing and parsing again. */
module Wrapper {
  import opened Bytes
  import opened JsonText
  import opened JsonRoundTrip
  import opened JsonEquality
  import opened JsonBuffers
  import opened JsonNodes
  import opened NodeLists
  import opened JsonNodeParser
  import opened JsonNodePrinter
  import opened ChildList
  import opened KeyedChildren

  /** What a wrapper stands for. */
  datatype Content = Nothing | Some(shape: Shape)

  /** `unsigned int` and `int`. */
  type u32 = k: int | 0 <= k < 0x1_0000_0000

  type i32 = k: int | -0x8000_0000 <= k < 0x8000_0000

  /** The nodes hold the subtree. */
  ghost predicate Sound(s: Shape)
    reads s.node, BlockSet(s.data.text), BlockSet(s.data.name), ListAll(s.kids)
  {
    Distinct(s) && Rep(s)
  }

  /** The subtree can be printed and read back. */
  ghost predicate Shown(s: Shape) {
    Whole(s) && Printable(Tree(s))
  }

  function Text(c: Content): text
    requires c.Some? ==> NoDoubles(Tree(c.shape))
  {
    if c.Some? then Print(Tree(c.shape), 0, false) else []
  }

  ghost function Footprint(c: Content): set<object> {
    if c.Some? then c.shape.all else {}
  }

  class CJsonObject {
    var data: Node?
    var extern: Node?
    var cache: map<u32, CJsonObject>

    constructor ()
      ensures data == null && extern == null && cache == map[]
    {
      data, extern, cache := null, null, map[];
    }

    /** A wrapper of a node that belongs to another tree. */
    constructor OfNode(n: Node?)
      ensures data == null && extern == n && cache == map[]
    {
      data, extern, cache := null, n, map[];
    }

    function Focus(): Node?
      reads this`data, this`extern
    {
      if data != null then data else extern
    }

    /** The wrapper stands for `c`. */
    ghost predicate Has(c: Content)
      reads this`data, this`extern
      reads if c.Some? then {c.shape.node as object} + BlockSet(c.shape.data.text) + BlockSet(c.shape.data.name)
              + ListAll(c.shape.kids)
            else {}
    {
      match c
      case Nothing => Focus() == null
      case Some(s) => Focus() == s.node && Sound(s)
    }

    /** The wrapper owns the tree `c`, and nothing else refers to its root. */
    ghost predicate Owns(c: Content)
      reads this`data
      reads if c.Some? then {c.shape.node as object} + c.shape.all else {}
    {
      match c
      case Nothing => data == null
      case Some(s) => data == s.node && Detached(s.node, s)
    }

    method ToString(ghost c: Content) returns (s: text)
      requires Has(c) && (c.Some? ==> Shown(c.shape))
      ensures s == Text(c)
    {
      s := [];
      var item := Focus();
      if item != null {
        var out := PrintValue(item, 0, false, c.shape);
        var len := StrLen(out, Text(c));
        HoldsSlice(out, Text(c));
        s := out[..len];
      }
    }

    /** Equality of texts decides whether two wrappers stand for the same tree, up to the sign tags
        that printing does not show. */
    method Equals(other: CJsonObject, ghost c: Content, ghost d: Content) returns (equal: bool)
      requires Has(c) && other.Has(d) && (c.Some? ==> Shown(c.shape)) && (d.Some? ==> Shown(d.shape))
      ensures equal <==> (c.Nothing? && d.Nothing?) || (c.Some? && d.Some? && Agree(Tree(c.shape), Tree(d.shape)))
    {
      var mine := ToString(c);
      var theirs := other.ToString(d);
      equal := mine == theirs;
      if c.Some? {
        PrintStarts(Tree(c.shape), 0, false);
      }
      if d.Some? {
        PrintStarts(Tree(d.shape), 0, false);
      }
      if c.Some? && d.Some? {
        PrintDecidesEquality(Tree(c.shape), Tree(d.shape), 0, false);
      }
    }

    method Clear(heap: Heap, ghost mine: Content)
      requires Owns(mine) && heap !in heap.live && Footprint(mine) <= heap.live && this !in heap.live
      modifies heap`live, this
      ensures data == null && extern == null && cache == map[]
      ensures heap.live == old(heap.live) - Footprint(mine)
    {
      extern := null;
      if data != null {
        SingleList([mine.shape]);
        Delete(heap, data, [mine.shape]);
        data := null;
      }
      cache := map[];
    }

    method Parse(heap: Heap, s: text, ghost mine: Content) returns (ok: bool, ghost c: Content)
      requires Owns(mine) && heap !in heap.live && Footprint(mine) <= heap.live && this !in heap.live
      requires !JsonText.Parse(s).Undefined?
      modifies heap`live, this
      ensures extern == null && cache == map[]
      ensures Owns(c) && heap.live == old(heap.live) - Footprint(mine) + Footprint(c) && fresh(Footprint(c))
      ensures heap !in heap.live
      ensures ok <==> JsonText.Parse(s).Ok?
      ensures ok <==> c.Some?
      ensures ok ==> Tree(c.shape) == JsonText.Parse(s).value && Whole(c.shape)
    {
      Clear(heap, mine);
      ghost var list;
      data, list := ParseTree(heap, s);
      c := if data == null then Nothing else Some(list[0]);
      ok := data != null;
      if ok {
        LinksOf(list);
      }
    }

    /** Parsing what was printed yields an equal tree. */
    lemma Reparse(s: Shape, depth: nat, fmt: bool)
      requires Printable(Tree(s))
      ensures JsonText.Parse(Print(Tree(s), depth, fmt)) == Ok(Norm(Tree(s)), [])
      ensures Printable(Norm(Tree(s))) && Agree(Tree(s), Norm(Tree(s)))
    {
      ReparseAgrees(Tree(s), depth, fmt);
    }

    /** Assignment and copy construction: the copy owns a tree of its own, equal to the source. */
    method Assign(heap: Heap, other: CJsonObject, ghost c: Content, ghost mine: Content) returns (ghost r: Content)
      requires other.Has(c) && (c.Some? ==> Shown(c.shape))
      requires Owns(mine) && heap !in heap.live && Footprint(mine) <= heap.live && this !in heap.live
      modifies heap`live, this
      ensures Owns(r) && Has(r) && fresh(Footprint(r))
      ensures heap !in heap.live && heap.live == old(heap.live) - Footprint(mine) + Footprint(r)
      ensures r.Some? <==> c.Some?
      ensures c.Some? ==> Tree(r.shape) == Norm(Tree(c.shape)) && Agree(Tree(c.shape), Tree(r.shape)) && Shown(r.shape)
    {
      var s := other.ToString(c);
      if c.Some? {
        Reparse(c.shape, 0, false);
      }
      var ok;
      ok, r := Parse(heap, s, mine);
    }

    /** The node of the first member whose name matches, if the wrapper stands for an object that has
        one. */
    method Member(ghost heap: Heap, key: array<byte>, ghost c: Content, ghost k: text) returns (n: Node?)
      requires Has(c) && Holds(key, k) && key in heap.live
      ensures n == NodeAt(Members(c), FirstMatch(Members(c), k))
    {
      n := null;
      var focus := Focus();
      if focus != null && focus.kind == ObjectKind {
        var i;
        n, i := FindKey(heap, focus, key, c.shape.kids, k);
      }
    }

    /** Print a node, formatted, and parse the text into this wrapper. */
    method CopyNode(heap: Heap, n: Node, ghost kid: Shape, ghost mine: Content) returns (ok: bool, ghost r: Content)
      requires n == kid.node && Sound(kid) && Shown(kid)
      requires Owns(mine) && heap !in heap.live && Footprint(mine) <= heap.live && this !in heap.live
      modifies heap`live, this
      ensures ok && r.Some? && Owns(r) && Has(r) && fresh(Footprint(r))
      ensures heap.live == old(heap.live) - Footprint(mine) + Footprint(r)
      ensures Tree(r.shape) == Norm(Tree(kid)) && Agree(Tree(kid), Tree(r.shape)) && Shown(r.shape)
    {
      Reparse(kid, 0, true);
      var out := PrintValue(n, 0, true, kid);
      var len := StrLen(out, Print(Tree(kid), 0, true));
      HoldsSlice(out, Print(Tree(kid), 0, true));
      ok, r := Parse(heap, out[..len], mine);
    }

    /** Get(key, object): a copy of the first member whose name matches. */
    method GetMember(heap: Heap, key: array<byte>, dest: CJsonObject, ghost c: Content, ghost k: text,
                     ghost mine: Content)
      returns (ok: bool, ghost r: Content)
      requires Has(c) && Holds(key, k) && key in heap.live
      requires FirstMatch(Members(c), k) < |Members(c)| ==> Shown(Members(c)[FirstMatch(Members(c), k)])
      requires dest.Owns(mine) && heap !in heap.live && Footprint(mine) <= heap.live && dest !in heap.live
      modifies heap`live, dest
      ensures ok <==> FirstMatch(Members(c), k) < |Members(c)|
      ensures !ok ==> r == mine && dest.Owns(mine) && heap.live == old(heap.live)
      ensures ok ==>
        && r.Some? && dest.Owns(r) && dest.Has(r) && fresh(Footprint(r))
        && heap.live == old(heap.live) - Footprint(mine) + Footprint(r)
        && Agree(Tree(Members(c)[FirstMatch(Members(c), k)]), Tree(r.shape))
    {
      var n := Member(heap, key, c, k);
      ok, r := false, mine;
      if n != null {
        ghost var i := FirstMatch(Members(c), k);
        KidSound(c.shape, i);
        ok, r := dest.CopyNode(heap, n, Members(c)[i], mine);
      }
    }

    /** The node at an index, if the wrapper stands for an array that is long enough. */
    method Element(which: int, ghost c: Content) returns (n: Node?)
      requires Has(c)
      ensures n == NodeAt(Elements(c), Position(which))
    {
      n := null;
      var focus := Focus();
      if focus != null && focus.kind == ArrayKind {
        n := ItemAt(focus, which, c.shape.kids);
      }
    }

    /** Get(index, object): a copy of the element; a negative index stands for the first one. */
    method GetElement(heap: Heap, which: int, dest: CJsonObject, ghost c: Content, ghost mine: Content)
      returns (ok: bool, ghost r: Content)
      requires Has(c)
      requires Position(which) < |Elements(c)| ==> Shown(Elements(c)[Position(which)])
      requires dest.Owns(mine) && heap !in heap.live && Footprint(mine) <= heap.live && dest !in heap.live
      modifies heap`live, dest
      ensures ok <==> Position(which) < |Elements(c)|
      ensures !ok ==> r == mine && dest.Owns(mine) && heap.live == old(heap.live)
      ensures ok ==>
        && r.Some? && dest.Owns(r) && dest.Has(r) && fresh(Footprint(r))
        && heap.live == old(heap.live) - Footprint(mine) + Footprint(r)
        && Agree(Tree(Elements(c)[Position(which)]), Tree(r.shape))
    {
      var n := Element(which, c);
      ok, r := false, mine;
      if n != null {
        KidSound(c.shape, Position(which));
        ok, r := dest.CopyNode(heap, n, Elements(c)[Position(which)], mine);
      }
    }
  }

  /** The children of an object, and of an array. */
  function Members(c: Content): seq<Shape> {
    if c.Some? && c.shape.data.kind == ObjectKind then c.shape.kids else []
  }

  function Elements(c: Content): seq<Shape> {
    if c.Some? && c.shape.data.kind == ArrayKind then c.shape.kids else []
  }

  lemma KidSound(s: Shape, i: nat)
    requires Sound(s) && i < |s.kids|
    ensures Sound(s.kids[i])
  {
    assert DistinctList(s.kids) && ListRep(s.kids);
    assert Rep(s.kids[i]);
  }
}
