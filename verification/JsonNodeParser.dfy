/** The recursive-descent parser as it runs: it fills nodes in place, links children as it meets
    them, and on failure leaves a partial subtree that cJSON_Parse deletes.
 */
module JsonNodeParser {
  import opened Bytes
  import opened JsonInt
  import opened JsonString
  import opened JsonText
  import opened JsonBuffers
  import opened JsonNodes
  import opened NodeLists

  /** What parse_array and parse_object still have to read behind an element. */
  function ContinueItems(done: seq<Json>, s: text): Parsed<seq<Json>> {
    if At(s) == COMMA then
      match ParseItems(s[1..])
      case Ok(others, rest) => Ok(done + others, rest)
      case Fail => Fail
      case Undefined => Undefined
    else if At(s) == RBRACKET then Ok(done, s[1..])
    else Fail
  }

  lemma ItemsUnfold(s: text)
    ensures match ParseValue(Skip(s))
            case Ok(t, tail) => ParseItems(s) == ContinueItems([t], Skip(tail))
            case Fail => ParseItems(s) == Fail
            case Undefined => ParseItems(s) == Undefined
  {
  }

  lemma ContinueItemsStep(done: seq<Json>, s: text)
    requires At(s) == COMMA
    ensures match ParseValue(Skip(s[1..]))
            case Ok(t, tail) => ContinueItems(done, s) == ContinueItems(done + [t], Skip(tail))
            case Fail => ContinueItems(done, s) == Fail
            case Undefined => ContinueItems(done, s) == Undefined
  {
    ItemsUnfold(s[1..]);
    if ParseValue(Skip(s[1..])).Ok? {
      var t, next := ParseValue(Skip(s[1..])).value, Skip(ParseValue(Skip(s[1..])).rest);
      if At(next) == COMMA && ParseItems(next[1..]).Ok? {
        var others := ParseItems(next[1..]).value;
        assert done + ([t] + others) == done + [t] + others;
      }
    }
  }

  /** Where a loop over the elements of `body` stands, having read `done`. */
  ghost predicate ItemsSoFar(body: text, ok: bool, rest: text, done: seq<Json>) {
    if ok then |rest| < |body| && ParseItems(body) == ContinueItems(done, Skip(rest))
    else ParseItems(body) == Fail
  }

  ghost predicate ReadValue(s: text, ok: bool, rest: text, t: Json) {
    match ParseValue(Skip(s))
    case Ok(value, tail) => ok && rest == tail && t == value
    case Fail => !ok
    case Undefined => false
  }

  lemma FirstItem(body: text, ok: bool, rest: text, t: Json)
    requires ReadValue(body, ok, rest, t)
    ensures ItemsSoFar(body, ok, rest, [t])
  {
  }

  lemma NextItemDefined(body: text, rest: text, done: seq<Json>)
    requires ItemsSoFar(body, true, rest, done) && At(Skip(rest)) == COMMA
    requires !ParseItems(body).Undefined?
    ensures !ParseValue(Skip(Skip(rest)[1..])).Undefined?
  {
  }

  lemma NextItem(body: text, rest: text, done: seq<Json>, ok: bool, tail: text, t: Json)
    requires ItemsSoFar(body, true, rest, done) && At(Skip(rest)) == COMMA
    requires ReadValue(Skip(rest)[1..], ok, tail, t)
    ensures ItemsSoFar(body, ok, tail, done + [t])
  {
    ContinueItemsStep(done, Skip(rest));
  }

  function ContinueMembers(done: seq<Member>, s: text): Parsed<seq<Member>> {
    if At(s) == COMMA then
      match ParseMembers(s[1..])
      case Ok(others, rest) => Ok(done + others, rest)
      case Fail => Fail
      case Undefined => Undefined
    else if At(s) == RBRACE then Ok(done, s[1..])
    else Fail
  }

  lemma MembersUnfold(s: text)
    ensures match ParseMember(s)
            case Ok(m, tail) => ParseMembers(s) == ContinueMembers([m], Skip(tail))
            case Fail => ParseMembers(s) == Fail
            case Undefined => ParseMembers(s) == Undefined
  {
  }

  lemma ContinueMembersStep(done: seq<Member>, s: text)
    requires At(s) == COMMA
    ensures match ParseMember(s[1..])
            case Ok(m, tail) => ContinueMembers(done, s) == ContinueMembers(done + [m], Skip(tail))
            case Fail => ContinueMembers(done, s) == Fail
            case Undefined => ContinueMembers(done, s) == Undefined
  {
    MembersUnfold(s[1..]);
    if ParseMember(s[1..]).Ok? {
      var m, next := ParseMember(s[1..]).value, Skip(ParseMember(s[1..]).rest);
      if At(next) == COMMA && ParseMembers(next[1..]).Ok? {
        var others := ParseMembers(next[1..]).value;
        assert done + ([m] + others) == done + [m] + others;
      }
    }
  }

  /** Where a loop over the members of `body` stands, having read `done`. */
  ghost predicate MembersSoFar(body: text, ok: bool, rest: text, done: seq<Member>) {
    if ok then |rest| < |body| && ParseMembers(body) == ContinueMembers(done, Skip(rest))
    else ParseMembers(body) == Fail
  }

  ghost predicate ReadMember(s: text, ok: bool, rest: text, m: Member) {
    match ParseMember(s)
    case Ok(value, tail) => ok && rest == tail && m == value
    case Fail => !ok
    case Undefined => false
  }

  lemma FirstMember(body: text, ok: bool, rest: text, m: Member)
    requires ReadMember(body, ok, rest, m)
    ensures MembersSoFar(body, ok, rest, [m])
  {
  }

  lemma NextMemberDefined(body: text, rest: text, done: seq<Member>)
    requires MembersSoFar(body, true, rest, done) && At(Skip(rest)) == COMMA
    requires !ParseMembers(body).Undefined?
    ensures !ParseMember(Skip(rest)[1..]).Undefined?
  {
  }

  lemma NextMember(body: text, rest: text, done: seq<Member>, ok: bool, tail: text, m: Member)
    requires MembersSoFar(body, true, rest, done) && At(Skip(rest)) == COMMA
    requires ReadMember(Skip(rest)[1..], ok, tail, m)
    ensures MembersSoFar(body, ok, tail, done + [m])
  {
    ContinueMembersStep(done, Skip(rest));
  }

  // ---------------------------------------------------------------- children under construction

  /** An item that is ready to receive a value; only its name is set. */
  ghost predicate Blank(heap: Heap, item: Node, name: Block)
    reads heap`live, item, BlockSet(name)
  {
    && heap !in heap.live && item in heap.live && BlockSet(name) <= heap.live
    && item !in BlockSet(name)
    && item.child == null && item.valuestring == null && BlockOk(name, item.name)
  }

  /** Allocate a node and link it behind the last child. */
  method NewChild(heap: Heap, item: Node, last: Node?, ghost kids: seq<Shape>) returns (n: Node)
    requires Hangs(item, last, kids)
    requires heap !in heap.live && ListAll(kids) <= heap.live && item in heap.live
    modifies heap`live, item`child, NodesOf(kids)`next
    ensures fresh(n) && heap.live == old(heap.live) + {n}
    ensures Blank(heap, n, NoBlock) && Pending(item, kids, n)
  {
    n := NewItem(heap);
    assert Hangs(item, last, kids);
    Link(item, last, n, kids);
  }

  // ---------------------------------------------------------------- leaves

  /** What parsing a value into `item` leaves behind, whether it succeeded or not: a subtree that
      owns exactly what was allocated for it. */
  twostate predicate Filled(heap: Heap, item: Node, name: Block, new sh: Shape)
    reads heap`live, item, sh.all
  {
    && Distinct(sh) && Rep(sh) && sh.node == item && sh.data.name == name
    && heap !in heap.live && heap.live == old(heap.live) + sh.all
    && fresh(sh.all - {item as object} - BlockSet(name))
  }

  ghost function DataOf(item: Node, text: Block, name: Block): Data
    reads item
  {
    Data(item.kind, item.valueint, item.sign, item.mantissa, item.exponent, text, name)
  }

  /** A node without children. */
  ghost function LeafOf(item: Node, text: Block, name: Block): Shape
    reads item
  {
    Shape(item, DataOf(item, text, name), [], Own(item, DataOf(item, text, name)))
  }

  lemma LeafOk(item: Node, text: Block, name: Block)
    requires item.child == null && BlockOk(text, item.valuestring) && BlockOk(name, item.name)
    requires BlockSet(text) !! BlockSet(name) !! {item as object}
    ensures Distinct(LeafOf(item, text, name)) && Rep(LeafOf(item, text, name))
    ensures LeafOf(item, text, name).all == {item as object} + BlockSet(text) + BlockSet(name)
  {
  }

  // ---------------------------------------------------------------- the mutually recursive parser

  /** parse_value into a blank item. */
  method ParseInto(heap: Heap, item: Node, s: text, ghost name: Block)
    returns (ok: bool, rest: text, ghost sh: Shape)
    requires Blank(heap, item, name)
    requires !ParseValue(s).Undefined?
    modifies heap`live, item`kind, item`child, item`valuestring, item`valueint, item`sign, item`mantissa, item`exponent
    ensures Filled(heap, item, name, sh)
    ensures ok <==> ParseValue(s).Ok?
    ensures ok ==> rest == ParseValue(s).rest && Tree(sh) == ParseValue(s).value && Whole(sh)
    decreases |s|, 2
  {
    if NULL_TEXT <= s || FALSE_TEXT <= s || TRUE_TEXT <= s {
      ok, rest, sh := ParseWordInto(heap, item, s, name);
    } else if At(s) == QUOTE {
      ok, rest, sh := ParseStringInto(heap, item, s, name);
    } else if At(s) == MINUS || IsDigit(At(s)) {
      ok, rest, sh := ParseNumberInto(heap, item, s, name);
    } else if At(s) == LBRACKET {
      ok, rest, sh := ParseArrayInto(heap, item, s, name);
    } else if At(s) == LBRACE {
      ok, rest, sh := ParseObjectInto(heap, item, s, name);
    } else {
      ok, rest, sh := false, s, LeafOf(item, NoBlock, name);
      LeafOk(item, NoBlock, name);
    }
  }

  method ParseWordInto(heap: Heap, item: Node, s: text, ghost name: Block)
    returns (ok: bool, rest: text, ghost sh: Shape)
    requires Blank(heap, item, name)
    requires NULL_TEXT <= s || FALSE_TEXT <= s || TRUE_TEXT <= s
    modifies item`kind, item`valueint
    ensures Filled(heap, item, name, sh)
    ensures ok && ParseValue(s) == Ok(Tree(sh), rest) && Whole(sh)
  {
    ok := true;
    if NULL_TEXT <= s {
      item.kind := NullKind;
      rest := s[4..];
    } else if FALSE_TEXT <= s {
      item.kind := FalseKind;
      rest := s[5..];
    } else {
      item.kind := TrueKind;
      item.valueint := 1;
      rest := s[4..];
    }
    sh := LeafOf(item, NoBlock, name);
    LeafOk(item, NoBlock, name);
  }

  method ParseNumberInto(heap: Heap, item: Node, s: text, ghost name: Block)
    returns (ok: bool, rest: text, ghost sh: Shape)
    requires Blank(heap, item, name)
    modifies item`kind, item`valueint, item`sign, item`mantissa, item`exponent
    ensures Filled(heap, item, name, sh)
    ensures ok && rest == ParseNumber(s).1 && Tree(sh) == FromNumber(ParseNumber(s).0) && Whole(sh)
  {
    var n, tail := RunParseNumber(s);
    ok, rest := true, tail;
    match n {
      case IntNum(value, sign) =>
        item.kind, item.valueint, item.sign := IntKind, value, sign;
      case DblNum(sign, mantissa, exponent) =>
        item.kind, item.sign, item.mantissa, item.exponent := DoubleKind, sign, mantissa, exponent;
    }
    sh := LeafOf(item, NoBlock, name);
    LeafOk(item, NoBlock, name);
  }

  /** parse_string: the buffer becomes the item's value. */
  method ParseStringInto(heap: Heap, item: Node, s: text, ghost name: Block)
    returns (ok: bool, rest: text, ghost sh: Shape)
    requires Blank(heap, item, name)
    requires !ParseString(s).BadString?
    modifies heap`live, item`kind, item`valuestring
    ensures Filled(heap, item, name, sh) && sh.kids == []
    ensures ok <==> ParseString(s).GotString?
    ensures ok ==>
      rest == ParseString(s).rest && sh.data.kind == StringKind && Chars(sh.data.text) == ParseString(s).value &&
          sh.data.text.Block?
    ensures !ok ==> sh.data.text == NoBlock && item.kind == old(item.kind) && heap.live == old(heap.live)
  {
    var out, tail := RunParseString(s);
    ok, rest := out != null, tail;
    ghost var text := NoBlock;
    if out != null {
      heap.Allocated(out);
      item.valuestring := out;
      item.kind := StringKind;
      text := Block(out, ParseString(s).value);
    }
    sh := LeafOf(item, text, name);
    LeafOk(item, text, name);
  }

  /** A node with the children that hang from it. */
  ghost function TreeOf(item: Node, name: Block, kids: seq<Shape>): Shape
    reads item
  {
    Shape(item, DataOf(item, NoBlock, name), kids, Own(item, DataOf(item, NoBlock, name)) + ListAll(kids))
  }

  /** A container while its children are parsed: of the objects allocated since `before`, all hang
      from it. */
  ghost predicate Growing(heap: Heap, item: Node, name: Block, before: set<object>, last: Node?, kids: seq<Shape>)
    reads heap`live, item, BlockSet(name), ListAll(kids)
  {
    && Hangs(item, last, kids)
    && heap !in heap.live && heap.live == before + ListAll(kids) && before !! ListAll(kids)
    && item in before && BlockSet(name) <= before && item !in BlockSet(name)
    && item.valuestring == null && BlockOk(name, item.name)
  }

  lemma GrownOk(heap: Heap, item: Node, name: Block, before: set<object>, last: Node?, kids: seq<Shape>)
    requires Growing(heap, item, name, before, last, kids)
    ensures Distinct(TreeOf(item, name, kids)) && Rep(TreeOf(item, name, kids))
    ensures heap.live == before + TreeOf(item, name, kids).all
  {
  }

  lemma Grow(heap: Heap, item: Node, name: Block, before: set<object>, kids: seq<Shape>, n: Node, t: Shape)
    requires Hangs(item, n, kids + [t])
    requires heap !in heap.live && heap.live == before + ListAll(kids) + t.all
    requires before !! ListAll(kids) && before !! t.all
    requires item in before && BlockSet(name) <= before && item !in BlockSet(name)
    requires item.valuestring == null && BlockOk(name, item.name)
    ensures Growing(heap, item, name, before, n, kids + [t])
  {
    ListAllSnoc(kids, t);
  }

  lemma TreesSnoc(kids: seq<Shape>, t: Shape)
    ensures Trees(kids + [t]) == Trees(kids) + [Tree(t)]
    ensures MembersOf(kids + [t]) == MembersOf(kids) + [Member(KeyOf(t.data.name), Tree(t))]
  {
  }

  /** A new child has been parsed, or given up half-way, and owns what was allocated for it. */
  twostate predicate Settled(heap: Heap, n: Node, new t: Shape)
    reads heap`live, n, t.all
  {
    && Distinct(t) && Rep(t) && t.node == n
    && heap !in heap.live && heap.live == old(heap.live) + t.all
    && fresh(t.all - {n as object})
  }

  method ParseElement(heap: Heap, n: Node, s: text) returns (ok: bool, rest: text, ghost t: Shape)
    requires Blank(heap, n, NoBlock)
    requires !ParseValue(Skip(s)).Undefined?
    modifies heap`live, n`kind, n`child, n`valuestring, n`valueint, n`sign, n`mantissa, n`exponent
    ensures Settled(heap, n, t)
    ensures ReadValue(s, ok, rest, Tree(t)) && (ok ==> Whole(t))
    decreases |s|, 3
  {
    ok, rest, t := ParseInto(heap, n, Skip(s), NoBlock);
  }

  /** One array element: a new last child, and the value parsed into it. */
  method ParseItemInto(heap: Heap, item: Node, last: Node?, s: text, ghost kids: seq<Shape>)
    returns (ok: bool, rest: text, n: Node, ghost t: Shape)
    requires Hangs(item, last, kids)
    requires heap !in heap.live && ListAll(kids) <= heap.live && item in heap.live
    requires !ParseValue(Skip(s)).Undefined?
    modifies heap`live, item`child, NodesOf(kids)`next
    ensures Hangs(item, n, kids + [t])
    ensures fresh(t.all) && heap !in heap.live && heap.live == old(heap.live) + t.all
    ensures ReadValue(s, ok, rest, Tree(t)) && (ok ==> Whole(t))
    decreases |s|, 4
  {
    n := NewChild(heap, item, last, kids);
    label Linked:
    ok, rest, t := ParseElement(heap, n, s);
    PendingKept@Linked((item, kids, n));
    assert t.all !! old(heap.live);
    HangsSnoc(item, kids, t);
  }

  /** One round of the loop. */
  method NextItemInto(heap: Heap, item: Node, last: Node?, body: text, s: text, ghost kids: seq<Shape>,
                      ghost name: Block, ghost before: set<object>)
    returns (ok: bool, rest: text, n: Node, ghost longer: seq<Shape>)
    requires Growing(heap, item, name, before, last, kids) && AllWhole(kids)
    requires ItemsSoFar(body, true, s, Trees(kids)) && At(Skip(s)) == COMMA
    requires !ParseItems(body).Undefined?
    modifies heap`live, item`child, NodesOf(kids)`next
    ensures Growing(heap, item, name, before, n, longer) && fresh(ListAll(longer) - ListAll(kids))
    ensures ItemsSoFar(body, ok, rest, Trees(longer)) && (ok ==> AllWhole(longer) && |rest| < |s|)
    decreases |body|, 5
  {
    NextItemDefined(body, s, Trees(kids));
    ghost var t;
    ok, rest, n, t := ParseItemInto(heap, item, last, Skip(s)[1..], kids);
    NextItem(body, s, Trees(kids), ok, rest, Tree(t));
    TreesSnoc(kids, t);
    ListAllSnoc(kids, t);
    longer := kids + [t];
    Grow(heap, item, name, before, kids, n, t);
  }

  method FirstItemInto(heap: Heap, item: Node, body: text, ghost name: Block)
    returns (ok: bool, rest: text, n: Node, ghost kids: seq<Shape>)
    requires Blank(heap, item, name)
    requires !ParseItems(body).Undefined?
    modifies heap`live, item`child
    ensures Growing(heap, item, name, old(heap.live), n, kids) && fresh(ListAll(kids))
    ensures ItemsSoFar(body, ok, rest, Trees(kids)) && (ok ==> AllWhole(kids))
    decreases |body|, 5
  {
    ghost var t;
    ItemsUnfold(body);
    ok, rest, n, t := ParseItemInto(heap, item, null, body, []);
    kids := [] + [t];
    Grow(heap, item, name, old(heap.live), [], n, t);
    FirstItem(body, ok, rest, Tree(t));
    assert Trees(kids) == [Tree(t)];
  }

  /** The elements of a non-empty array, each linked behind the one before. */
  method ParseItemsInto(heap: Heap, item: Node, body: text, ghost name: Block)
    returns (ok: bool, rest: text, ghost last: Node?, ghost kids: seq<Shape>)
    requires Blank(heap, item, name)
    requires !ParseItems(body).Undefined?
    modifies heap`live, item`child
    ensures Growing(heap, item, name, old(heap.live), last, kids) && fresh(ListAll(kids))
    ensures ItemsSoFar(body, ok, rest, Trees(kids)) && (ok ==> AllWhole(kids))
    ensures ok ==> At(Skip(rest)) != COMMA
    decreases |body|, 6
  {
    var child;
    ok, rest, child, kids := FirstItemInto(heap, item, body, name);
    while ok && At(Skip(rest)) == COMMA
      invariant Growing(heap, item, name, old(heap.live), child, kids) && fresh(ListAll(kids))
      invariant ItemsSoFar(body, ok, rest, Trees(kids)) && (ok ==> AllWhole(kids))
      decreases ok, |rest|
    {
      NodesInside(kids);
      ok, rest, child, kids := NextItemInto(heap, item, child, body, rest, kids, name, old(heap.live));
    }
    last := child;
  }

  method ParseArrayInto(heap: Heap, item: Node, s: text, ghost name: Block)
    returns (ok: bool, rest: text, ghost sh: Shape)
    requires Blank(heap, item, name)
    requires !ParseValue(s).Undefined? && At(s) == LBRACKET
    modifies heap`live, item`kind, item`child
    ensures Filled(heap, item, name, sh)
    ensures ok <==> ParseValue(s).Ok?
    ensures ok ==> rest == ParseValue(s).rest && Tree(sh) == ParseValue(s).value && Whole(sh)
    decreases |s|, 1
  {
    item.kind := ArrayKind;
    var body := Skip(s[1..]);
    ghost var kids, last := [], null;
    if At(body) == RBRACKET {
      ok, rest := true, body[1..];
    } else {
      ok, rest, last, kids := ParseItemsInto(heap, item, body, name);
      if ok && At(Skip(rest)) == RBRACKET {
        rest := Skip(rest)[1..];
      } else {
        ok := false;
      }
    }
    GrownOk(heap, item, name, old(heap.live), last, kids);
    sh := TreeOf(item, name, kids);
  }

  function MemberOf(t: Shape): Member {
    Member(KeyOf(t.data.name), Tree(t))
  }

  /** The name of a member: parsed as a string value, and then moved to the node's name. */
  method ParseNameInto(heap: Heap, n: Node, s: text) returns (ok: bool, rest: text, ghost name: Block)
    requires Blank(heap, n, NoBlock)
    requires !ParseText(Skip(s)).Undefined?
    modifies heap`live, n`kind, n`valuestring, n`name
    ensures Blank(heap, n, name) && fresh(BlockSet(name)) && heap.live == old(heap.live) + BlockSet(name)
    ensures ok <==> ParseText(Skip(s)).Ok?
    ensures ok ==> KeyOf(name) == Keyed(ParseText(Skip(s)).value) && rest == ParseText(Skip(s)).rest
  {
    ghost var sh;
    ok, rest, sh := ParseStringInto(heap, n, Skip(s), NoBlock);
    name := sh.data.text;
    if ok {
      n.name := n.valuestring;
      n.valuestring := null;
    }
  }

  /** A member: its name, a colon and its value. */
  method ParseMemberBody(heap: Heap, n: Node, s: text) returns (ok: bool, rest: text, ghost t: Shape)
    requires Blank(heap, n, NoBlock)
    requires !ParseMember(s).Undefined?
    modifies heap`live, n`kind, n`child, n`valuestring, n`valueint, n`sign, n`mantissa, n`exponent, n`name
    ensures Settled(heap, n, t)
    ensures ReadMember(s, ok, rest, MemberOf(t)) && (ok ==> Whole(t))
    decreases |s|, 3
  {
    ghost var name;
    ok, rest, name := ParseNameInto(heap, n, s);
    if ok && At(Skip(rest)) == COLON {
      ok, rest, t := ParseInto(heap, n, Skip(Skip(rest)[1..]), name);
    } else {
      ok := false;
      t := LeafOf(n, NoBlock, name);
      LeafOk(n, NoBlock, name);
    }
  }

  /** One object member: a new last child, and the member parsed into it. */
  method ParseMemberInto(heap: Heap, item: Node, last: Node?, s: text, ghost kids: seq<Shape>)
    returns (ok: bool, rest: text, n: Node, ghost t: Shape)
    requires Hangs(item, last, kids)
    requires heap !in heap.live && ListAll(kids) <= heap.live && item in heap.live
    requires !ParseMember(s).Undefined?
    modifies heap`live, item`child, NodesOf(kids)`next
    ensures Hangs(item, n, kids + [t])
    ensures fresh(t.all) && heap !in heap.live && heap.live == old(heap.live) + t.all
    ensures ReadMember(s, ok, rest, MemberOf(t)) && (ok ==> Whole(t))
    decreases |s|, 4
  {
    n := NewChild(heap, item, last, kids);
    label Linked:
    ok, rest, t := ParseMemberBody(heap, n, s);
    PendingKept@Linked((item, kids, n));
    assert t.all !! old(heap.live);
    HangsSnoc(item, kids, t);
  }

  /** One round of the loop. */
  method NextMemberInto(heap: Heap, item: Node, last: Node?, body: text, s: text, ghost kids: seq<Shape>,
                        ghost name: Block, ghost before: set<object>)
    returns (ok: bool, rest: text, n: Node, ghost longer: seq<Shape>)
    requires Growing(heap, item, name, before, last, kids) && AllWhole(kids)
    requires MembersSoFar(body, true, s, MembersOf(kids)) && At(Skip(s)) == COMMA
    requires !ParseMembers(body).Undefined?
    modifies heap`live, item`child, NodesOf(kids)`next
    ensures Growing(heap, item, name, before, n, longer) && fresh(ListAll(longer) - ListAll(kids))
    ensures MembersSoFar(body, ok, rest, MembersOf(longer)) && (ok ==> AllWhole(longer) && |rest| < |s|)
    decreases |body|, 5
  {
    NextMemberDefined(body, s, MembersOf(kids));
    ghost var t;
    ok, rest, n, t := ParseMemberInto(heap, item, last, Skip(s)[1..], kids);
    NextMember(body, s, MembersOf(kids), ok, rest, MemberOf(t));
    TreesSnoc(kids, t);
    ListAllSnoc(kids, t);
    longer := kids + [t];
    Grow(heap, item, name, before, kids, n, t);
  }

  method FirstMemberInto(heap: Heap, item: Node, body: text, ghost name: Block)
    returns (ok: bool, rest: text, n: Node, ghost kids: seq<Shape>)
    requires Blank(heap, item, name)
    requires !ParseMembers(body).Undefined?
    modifies heap`live, item`child
    ensures Growing(heap, item, name, old(heap.live), n, kids) && fresh(ListAll(kids))
    ensures MembersSoFar(body, ok, rest, MembersOf(kids)) && (ok ==> AllWhole(kids))
    decreases |body|, 5
  {
    ghost var t;
    MembersUnfold(body);
    ok, rest, n, t := ParseMemberInto(heap, item, null, body, []);
    kids := [] + [t];
    Grow(heap, item, name, old(heap.live), [], n, t);
    FirstMember(body, ok, rest, MemberOf(t));
    assert MembersOf(kids) == [MemberOf(t)];
  }

  /** The members of a non-empty object, each linked behind the one before. */
  method ParseMembersInto(heap: Heap, item: Node, body: text, ghost name: Block)
    returns (ok: bool, rest: text, ghost last: Node?, ghost kids: seq<Shape>)
    requires Blank(heap, item, name)
    requires !ParseMembers(body).Undefined?
    modifies heap`live, item`child
    ensures Growing(heap, item, name, old(heap.live), last, kids) && fresh(ListAll(kids))
    ensures MembersSoFar(body, ok, rest, MembersOf(kids)) && (ok ==> AllWhole(kids))
    ensures ok ==> At(Skip(rest)) != COMMA
    decreases |body|, 6
  {
    var child;
    ok, rest, child, kids := FirstMemberInto(heap, item, body, name);
    while ok && At(Skip(rest)) == COMMA
      invariant Growing(heap, item, name, old(heap.live), child, kids) && fresh(ListAll(kids))
      invariant MembersSoFar(body, ok, rest, MembersOf(kids)) && (ok ==> AllWhole(kids))
      decreases ok, |rest|
    {
      NodesInside(kids);
      ok, rest, child, kids := NextMemberInto(heap, item, child, body, rest, kids, name, old(heap.live));
    }
    last := child;
  }

  method ParseObjectInto(heap: Heap, item: Node, s: text, ghost name: Block)
    returns (ok: bool, rest: text, ghost sh: Shape)
    requires Blank(heap, item, name)
    requires !ParseValue(s).Undefined? && At(s) == LBRACE
    modifies heap`live, item`kind, item`child
    ensures Filled(heap, item, name, sh)
    ensures ok <==> ParseValue(s).Ok?
    ensures ok ==> rest == ParseValue(s).rest && Tree(sh) == ParseValue(s).value && Whole(sh)
    decreases |s|, 1
  {
    item.kind := ObjectKind;
    var body := Skip(s[1..]);
    ghost var kids, last := [], null;
    if At(body) == RBRACE {
      ok, rest := true, body[1..];
    } else {
      ok, rest, last, kids := ParseMembersInto(heap, item, body, name);
      if ok && At(Skip(rest)) == RBRACE {
        rest := Skip(rest)[1..];
      } else {
        ok := false;
      }
    }
    GrownOk(heap, item, name, old(heap.live), last, kids);
    sh := TreeOf(item, name, kids);
  }

  // ---------------------------------------------------------------- entry points

  lemma Alone(t: Shape)
    requires Distinct(t) && Rep(t) && t.node.next == null && t.node.prev == null
    ensures DistinctList([t]) && ListRep([t]) && ListAll([t]) == t.all
  {
    assert [] + [t] == [t];
    ListAllSnoc([], t);
  }

  /** cJSON_Parse: on success the new tree owns exactly what was allocated; on failure nothing is
      left allocated. */
  method ParseTree(heap: Heap, s: text) returns (root: Node?, ghost sh: seq<Shape>)
    requires heap !in heap.live
    requires !Parse(s).Undefined?
    modifies heap`live
    ensures root != null <==> Parse(s).Ok?
    ensures root == null ==> heap.live == old(heap.live)
    ensures root != null ==>
      && |sh| == 1 && DistinctList(sh) && ListRep(sh) && sh[0].node == root
      && fresh(sh[0].all) && heap.live == old(heap.live) + sh[0].all
      && Tree(sh[0]) == Parse(s).value && Whole(sh[0])
  {
    var item := NewItem(heap);
    var ok, rest;
    ghost var t;
    ok, rest, t := ParseInto(heap, item, Skip(s), NoBlock);
    sh := [t];
    root := item;
    Alone(t);
    if !ok {
      Delete(heap, item, sh);
      root := null;
    }
  }

  /** Parsing and then deleting leaves the allocated objects as they were, whatever the text. */
  method ParseThenDelete(heap: Heap, s: text)
    requires heap !in heap.live
    requires !Parse(s).Undefined?
    modifies heap`live
    ensures heap.live == old(heap.live)
  {
    var root;
    ghost var sh;
    root, sh := ParseTree(heap, s);
    if root != null {
      assert sh == [sh[0]] && Linked(sh);
      Alone(sh[0]);
      Delete(heap, root, sh);
    }
  }
}
