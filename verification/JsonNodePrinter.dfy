/** The printer as it runs: every value is printed into a buffer of its own, the sizes are added
    up, and the container's text is composed in a buffer of the computed size. */
module JsonNodePrinter {
  import opened Bytes
  import opened JsonInt
  import opened JsonString
  import opened JsonText
  import opened JsonBuffers
  import opened JsonNodes

  // ---------------------------------------------------------------- containers out of printed parts

  function Spare(fmt: bool, n: nat): nat {
    if fmt then n else 0
  }

  /** The elements of an array, given the text of each. */
  function Join(texts: seq<text>, fmt: bool): text {
    if |texts| == 0 then []
    else texts[0] + (if |texts| == 1 then [] else ItemGap(fmt)) + Join(texts[1..], fmt)
  }

  function MemberText(name: text, value: text, depth: nat, fmt: bool): text {
    Tabs(depth, fmt) + name + [COLON] + Tabs(1, fmt) + value
  }

  /** The members of an object, given the texts of their names and values. */
  function JoinMembers(names: seq<text>, texts: seq<text>, depth: nat, fmt: bool): text
    requires |names| == |texts|
  {
    if |texts| == 0 then []
    else
      MemberText(names[0], texts[0], depth, fmt) + MemberGap(|texts| == 1, fmt)
      + JoinMembers(names[1..], texts[1..], depth, fmt)
  }

  function Texts(items: seq<Json>, depth: nat, fmt: bool): (r: seq<text>)
    requires forall i :: 0 <= i < |items| ==> NoDoubles(items[i])
    ensures |r| == |items|
  {
    seq(|items|, i requires 0 <= i < |items| => Print(items[i], depth, fmt))
  }

  function Names(members: seq<Member>): (r: seq<text>)
    ensures |r| == |members|
  {
    seq(|members|, i requires 0 <= i < |members| => PrintKey(members[i].key))
  }

  function Values(members: seq<Member>): (r: seq<Json>)
    ensures |r| == |members|
  {
    seq(|members|, i requires 0 <= i < |members| => members[i].value)
  }

  lemma {:induction false} PrintItemsIsJoin(items: seq<Json>, depth: nat, fmt: bool)
    requires forall i :: 0 <= i < |items| ==> NoDoubles(items[i])
    ensures PrintItems(items, depth, fmt) == Join(Texts(items, depth, fmt), fmt)
  {
    if |items| > 0 {
      assert Texts(items, depth, fmt)[1..] == Texts(items[1..], depth, fmt);
      PrintItemsIsJoin(items[1..], depth, fmt);
    }
  }

  lemma {:induction false} PrintMembersIsJoin(members: seq<Member>, depth: nat, fmt: bool)
    requires forall i :: 0 <= i < |members| ==> NoDoubles(members[i].value)
    ensures PrintMembers(members, depth, fmt) ==
      JoinMembers(Names(members), Texts(Values(members), depth, fmt), depth, fmt)
  {
    if |members| > 0 {
      assert Names(members)[1..] == Names(members[1..]);
      assert Texts(Values(members), depth, fmt)[1..] == Texts(Values(members[1..]), depth, fmt);
      PrintMembersIsJoin(members[1..], depth, fmt);
    }
  }

  // ---------------------------------------------------------------- the computed sizes

  /** What print_array adds to its size for the elements. */
  function ItemsRoom(texts: seq<text>, fmt: bool): nat {
    if |texts| == 0 then 0 else |texts[0]| + 2 + Spare(fmt, 1) + ItemsRoom(texts[1..], fmt)
  }

  /** What print_object adds to its size for the members. */
  function MembersRoom(names: seq<text>, texts: seq<text>, depth: nat, fmt: bool): nat
    requires |names| == |texts|
  {
    if |texts| == 0 then 0
    else |texts[0]| + |names[0]| + 2 + Spare(fmt, 2 + depth) + MembersRoom(names[1..], texts[1..], depth, fmt)
  }

  /** The text of an array, and the terminator, fit the size computed for it. */
  lemma {:induction false} ArrayFits(texts: seq<text>, fmt: bool)
    ensures |[LBRACKET] + Join(texts, fmt) + [RBRACKET]| + 1 <= 5 + ItemsRoom(texts, fmt)
  {
    if |texts| > 0 {
      ArrayFits(texts[1..], fmt);
    }
  }

  lemma {:induction false} MembersFit(names: seq<text>, texts: seq<text>, depth: nat, fmt: bool)
    requires |names| == |texts|
    ensures |JoinMembers(names, texts, depth, fmt)| <= MembersRoom(names, texts, depth, fmt)
  {
    if |texts| > 0 {
      MembersFit(names[1..], texts[1..], depth, fmt);
    }
  }

  /** The text of an object, tabs included, and the terminator fit the size computed for it. */
  lemma ObjectFits(names: seq<text>, texts: seq<text>, depth: nat, fmt: bool)
    requires |names| == |texts|
    ensures |[LBRACE] + Newline(fmt) + JoinMembers(names, texts, depth + 1, fmt) + Tabs(depth, fmt) + [RBRACE]| + 1
            <= 7 + Spare(fmt, depth + 1) + MembersRoom(names, texts, depth + 1, fmt)
  {
    MembersFit(names, texts, depth + 1, fmt);
  }

  /** What is still to be written, element by element. */
  lemma ItemsNext(texts: seq<text>, i: nat, fmt: bool)
    requires i < |texts|
    ensures Join(texts[i..], fmt) ==
      texts[i] + (if i == |texts| - 1 then [] else ItemGap(fmt)) + Join(texts[i + 1..], fmt)
  {
  }

  lemma ItemsRoomNext(texts: seq<text>, i: nat, fmt: bool)
    requires i < |texts|
    ensures ItemsRoom(texts[i..], fmt) == |texts[i]| + 2 + Spare(fmt, 1) + ItemsRoom(texts[i + 1..], fmt)
  {
  }

  lemma MembersRoomNext(names: seq<text>, texts: seq<text>, i: nat, depth: nat, fmt: bool)
    requires |names| == |texts| && i < |texts|
    ensures MembersRoom(names[i..], texts[i..], depth, fmt) ==
            |texts[i]| + |names[i]| + 2 + Spare(fmt, 2 + depth) +
                MembersRoom(names[i + 1..], texts[i + 1..], depth, fmt)
  {
  }

  /** The room of the first elements, as the loop adds it up. */
  function ItemsRoomTo(texts: seq<text>, n: nat, fmt: bool): nat
    requires n <= |texts|
  {
    if n == 0 then 0 else ItemsRoomTo(texts, n - 1, fmt) + |texts[n - 1]| + 2 + Spare(fmt, 1)
  }

  lemma {:induction false} ItemsRoomSum(texts: seq<text>, n: nat, fmt: bool)
    requires n <= |texts|
    ensures ItemsRoomTo(texts, n, fmt) + ItemsRoom(texts[n..], fmt) == ItemsRoom(texts, fmt)
  {
    if n == 0 {
      assert texts[0..] == texts;
    } else {
      ItemsRoomSum(texts, n - 1, fmt);
      ItemsRoomNext(texts, n - 1, fmt);
    }
  }

  /** The room of the first members, as the loop adds it up. */
  function MembersRoomTo(names: seq<text>, texts: seq<text>, n: nat, depth: nat, fmt: bool): nat
    requires n <= |names| == |texts|
  {
    if n == 0 then 0
    else MembersRoomTo(names, texts, n - 1, depth, fmt) + |texts[n - 1]| + |names[n - 1]| + 2 + Spare(fmt, 2 + depth)
  }

  lemma {:induction false} MembersRoomSum(names: seq<text>, texts: seq<text>, n: nat, depth: nat, fmt: bool)
    requires n <= |names| == |texts|
    ensures MembersRoomTo(names, texts, n, depth, fmt) + MembersRoom(names[n..], texts[n..], depth, fmt) ==
            MembersRoom(names, texts, depth, fmt)
  {
    if n == 0 {
      assert names[0..] == names && texts[0..] == texts;
    } else {
      MembersRoomSum(names, texts, n - 1, depth, fmt);
      MembersRoomNext(names, texts, n - 1, depth, fmt);
    }
  }

  lemma {:induction false} JoinNulFree(texts: seq<text>, fmt: bool)
    requires forall k :: 0 <= k < |texts| ==> NulFree(texts[k])
    ensures NulFree(Join(texts, fmt))
  {
    if |texts| > 0 {
      JoinNulFree(texts[1..], fmt);
    }
  }

  lemma {:induction false} JoinMembersNulFree(names: seq<text>, texts: seq<text>, depth: nat, fmt: bool)
    requires |names| == |texts|
    requires forall k :: 0 <= k < |texts| ==> NulFree(names[k]) && NulFree(texts[k])
    ensures NulFree(JoinMembers(names, texts, depth, fmt))
  {
    if |texts| > 0 {
      JoinMembersNulFree(names[1..], texts[1..], depth, fmt);
    }
  }

  lemma Pow10Values()
    ensures Pow10(10) == 10_000_000_000
    ensures Pow10(19) == 10_000_000_000_000_000_000 && Pow10(20) == 100_000_000_000_000_000_000
  {
  }

  /** At most 20 characters, so the 22 bytes of print_int suffice. */
  lemma IntFits(v: u64, sign: int)
    ensures |PrintInt(v, sign)| <= 20
  {
    Pow10Values();
    DecLength(v, 20, 100_000_000_000_000_000_000);
    DecLength(v % TWO_32, 10, 10_000_000_000);
    if sign == -1 {
      var magnitude := if Signed64(v) < 0 then -Signed64(v) else Signed64(v);
      DecLength(magnitude, 19, 10_000_000_000_000_000_000);
    }
  }

  lemma {:induction false} DecLength(n: nat, k: nat, bound: nat)
    requires k >= 1 && bound == Pow10(k) && n < bound
    ensures |Dec(n)| <= k
  {
    if n >= 10 {
      DecLength(n / 10, k - 1, Pow10(k - 1));
    }
  }

  function Pow10(k: nat): nat {
    if k == 0 then 1 else 10 * Pow10(k - 1)
  }

  lemma {:induction false} EscapeNulFree(s: text)
    requires NulFree(s)
    ensures NulFree(Escape(s))
  {
    if |s| > 0 {
      EscapeNulFree(s[1..]);
    }
  }

  method PrintStringPtr(a: array<byte>, ghost s: text) returns (out: array<byte>)
    requires Holds(a, s)
    ensures fresh(out) && Holds(out, PrintString(s))
  {
    var len := StrLen(a, s);
    HoldsSlice(a, s);
    out := RunPrintString(a[..len]);
    EscapeNulFree(s);
    ghost var whole := PrintString(s) + [NUL];
    assert forall i :: 0 <= i < |whole| ==> out[i] == out[..][i];
  }

  method PrintIntNode(item: Node) returns (out: array<byte>)
    ensures fresh(out) && out.Length == 22 && Holds(out, PrintInt(item.valueint, item.sign))
  {
    out := new byte[22];
    IntFits(item.valueint, item.sign);
    Store(out, PrintInt(item.valueint, item.sign));
  }

  // ---------------------------------------------------------------- the mutually recursive printer

  ghost predicate Ready(item: Node, s: Shape)
    requires Distinct(s)
    reads s.node, BlockSet(s.data.text), BlockSet(s.data.name), ListAll(s.kids)
  {
    item == s.node && Rep(s) && Whole(s) && NoDoubles(Tree(s))
  }

  lemma KidReady(item: Node, s: Shape, i: nat)
    requires Distinct(s) && Ready(item, s) && i < |s.kids|
    requires s.data.kind in {ArrayKind, ObjectKind}
    ensures Distinct(s.kids[i]) && Ready(s.kids[i].node, s.kids[i])
    ensures s.kids[i].node.next == NodeAt(s.kids, i + 1)
    ensures BlockOk(s.kids[i].data.name, s.kids[i].node.name)
  {
    assert ListRep(s.kids) && Linked(s.kids);
    if s.data.kind == ArrayKind {
      assert Trees(s.kids)[i] == Tree(s.kids[i]);
    } else {
      assert MembersOf(s.kids)[i].value == Tree(s.kids[i]);
    }
  }

  lemma KidTexts(s: Shape, i: nat, depth: nat, fmt: bool)
    requires s.data.kind == ObjectKind && NoDoubles(Tree(s)) && i < |s.kids|
    ensures NoDoubles(Tree(s.kids[i]))
    ensures Names(MembersOf(s.kids))[i] == PrintKey(KeyOf(s.kids[i].data.name))
    ensures Texts(Values(MembersOf(s.kids)), depth, fmt)[i] == Print(Tree(s.kids[i]), depth, fmt)
  {
    assert MembersOf(s.kids)[i].value == Tree(s.kids[i]);
  }

  method PrintValue(item: Node, depth: nat, fmt: bool, ghost s: Shape) returns (out: array<byte>)
    requires Distinct(s) && Ready(item, s)
    ensures fresh(out) && Holds(out, Print(Tree(s), depth, fmt))
    decreases s, 3
  {
    match item.kind
    case NullKind => out := StrDup(NULL_TEXT);
    case FalseKind => out := StrDup(FALSE_TEXT);
    case TrueKind => out := StrDup(TRUE_TEXT);
    case IntKind => out := PrintIntNode(item);
    case StringKind => out := PrintStringPtr(item.valuestring, s.data.text.chars);
    case ArrayKind => out := PrintArray(item, depth, fmt, s);
    case ObjectKind => out := PrintObject(item, depth, fmt, s);
  }

  method PrintArray(item: Node, depth: nat, fmt: bool, ghost s: Shape) returns (out: array<byte>)
    requires Distinct(s) && Ready(item, s) && item.kind == ArrayKind
    ensures fresh(out) && Holds(out, Print(Tree(s), depth, fmt))
    decreases s, 2
  {
    ghost var texts := Texts(Trees(s.kids), depth + 1, fmt);
    var entries, len := CollectItems(item, depth + 1, fmt, s, texts);
    out := ComposeArray(entries, len, texts, fmt);
    PrintItemsIsJoin(Trees(s.kids), depth + 1, fmt);
  }

  /** The buffers hold the first texts of a list. */
  ghost predicate AllHold(entries: seq<array<byte>>, texts: seq<text>)
    reads set k | 0 <= k < |entries| :: entries[k]
  {
    |entries| <= |texts| && forall k :: 0 <= k < |entries| ==> Holds(entries[k], texts[k])
  }

  lemma AllHoldSnoc(entries: seq<array<byte>>, texts: seq<text>, ret: array<byte>)
    requires AllHold(entries, texts) && |entries| < |texts| && Holds(ret, texts[|entries|])
    ensures AllHold(entries + [ret], texts)
  {
  }

  /** Print one element, and go on to the next. */
  method CollectItem(child: Node, entries: seq<array<byte>>, depth: nat, fmt: bool, ghost s: Shape,
                     ghost texts: seq<text>)
    returns (longer: seq<array<byte>>, n: nat, next: Node?)
    requires Distinct(s) && Ready(s.node, s) && s.data.kind == ArrayKind && texts == Texts(Trees(s.kids), depth, fmt)
    requires |entries| < |s.kids| && child == s.kids[|entries|].node && AllHold(entries, texts)
    ensures |longer| == |entries| + 1 && AllHold(longer, texts) && n == |texts[|entries|]|
    ensures next == NodeAt(s.kids, |entries| + 1)
    decreases s, 0
  {
    ghost var i := |entries|;
    KidReady(s.node, s, i);
    var ret := PrintValue(child, depth, fmt, s.kids[i]);
    n := StrLen(ret, texts[i]);
    AllHoldSnoc(entries, texts, ret);
    longer, next := entries + [ret], child.next;
  }

  method CollectItems(item: Node, depth: nat, fmt: bool, ghost s: Shape, ghost texts: seq<text>)
    returns (entries: seq<array<byte>>, len: nat)
    requires Distinct(s) && Ready(item, s) && s.data.kind == ArrayKind && texts == Texts(Trees(s.kids), depth, fmt)
    ensures |entries| == |s.kids| && AllHold(entries, texts)
    ensures len == 5 + ItemsRoom(texts, fmt)
    decreases s, 1
  {
    ghost var i := 0;
    var child := item.child;
    entries, len := [], 5;
    while child != null
      invariant Ready(item, s)
      invariant |entries| == i <= |s.kids| && child == NodeAt(s.kids, i)
      invariant AllHold(entries, texts)
      invariant len == 5 + ItemsRoomTo(texts, i, fmt)
      decreases |s.kids| - i
    {
      var n;
      entries, n, child := CollectItem(child, entries, depth, fmt, s, texts);
      len := len + n + 2 + Spare(fmt, 1);
      i := i + 1;
    }
    ItemsRoomSum(texts, i, fmt);
  }

  /** The composing pass of print_array. */
  method ComposeArray(entries: seq<array<byte>>, len: nat, ghost texts: seq<text>, fmt: bool)
    returns (out: array<byte>)
    requires |entries| == |texts| && AllHold(entries, texts)
    requires len == 5 + ItemsRoom(texts, fmt)
    ensures fresh(out) && out.Length == len && Holds(out, [LBRACKET] + Join(texts, fmt) + [RBRACKET])
  {
    ghost var whole := [LBRACKET] + Join(texts, fmt);
    ArrayFits(texts, fmt);
    JoinNulFree(texts, fmt);
    out := new byte[len];
    out[0] := LBRACKET;
    var ptr, i := 1, 0;
    while i < |entries|
      invariant 0 <= i <= |entries| && 1 <= ptr < len
      invariant AllHold(entries, texts)
      invariant out[..ptr] + Join(texts[i..], fmt) == whole
    {
      ItemsNext(texts, i, fmt);
      ghost var gap := if i == |texts| - 1 then [] else ItemGap(fmt);
      RegroupItem(out[..ptr], texts[i], gap, Join(texts[i + 1..], fmt));
      ptr := StoreItem(out, ptr, entries[i], i == |entries| - 1, texts[i], fmt);
      i := i + 1;
    }
    StoreLast(out, ptr, whole, RBRACKET);
  }

  /** Everything written for one element. */
  method StoreItem(out: array<byte>, at: nat, entry: array<byte>, last: bool, ghost value: text, fmt: bool)
    returns (ptr: nat)
    requires entry != out && Holds(entry, value)
    requires at + |value| + (if last then 0 else |ItemGap(fmt)|) < out.Length
    modifies out
    ensures ptr == at + |value| + (if last then 0 else |ItemGap(fmt)|)
    ensures out[..ptr] == old(out[..at]) + value + (if last then [] else ItemGap(fmt))
  {
    ptr := StrCopy(out, at, entry, value);
    if !last {
      ptr := StoreGap(out, ptr, fmt);
    }
  }

  /** The closing bracket and the terminator. */
  method StoreLast(out: array<byte>, ptr: nat, ghost before: text, b: byte)
    requires ptr + 1 < out.Length && out[..ptr] + [] == before && NulFree(before) && b != NUL
    modifies out
    ensures Holds(out, before + [b])
  {
    assert out[..ptr] == before;
    out[ptr] := b;
    out[ptr + 1] := NUL;
  }

  lemma RegroupItem(a: text, b: text, c: text, d: text)
    ensures a + (b + c + d) == a + b + c + d
  {
  }

  method StoreGap(out: array<byte>, at: nat, fmt: bool) returns (ptr: nat)
    requires at + |ItemGap(fmt)| < out.Length
    modifies out
    ensures ptr == at + |ItemGap(fmt)|
    ensures out[..ptr] == old(out[..at]) + ItemGap(fmt)
  {
    ptr := at;
    out[ptr] := COMMA;
    ptr := ptr + 1;
    if fmt {
      out[ptr] := SPACE;
      ptr := ptr + 1;
    }
    out[ptr] := NUL;
  }

  method PrintObject(item: Node, depth: nat, fmt: bool, ghost s: Shape) returns (out: array<byte>)
    requires Distinct(s) && Ready(item, s) && item.kind == ObjectKind
    ensures fresh(out) && Holds(out, Print(Tree(s), depth, fmt))
    decreases s, 2
  {
    ghost var members := MembersOf(s.kids);
    ghost var keys, texts := Names(members), Texts(Values(members), depth + 1, fmt);
    var names, entries, len := CollectMembers(item, depth + 1, fmt, s, keys, texts);
    out := ComposeObject(names, entries, len, keys, texts, depth, fmt);
    PrintMembersIsJoin(members, depth + 1, fmt);
  }

  /** print_string_ptr on a member's name, which may be missing. */
  method PrintName(name: array?<byte>, ghost b: Block) returns (out: array<byte>)
    requires BlockOk(b, name)
    ensures fresh(out) && Holds(out, PrintKey(KeyOf(b)))
  {
    if name == null {
      out := StrDup([]);
    } else {
      out := PrintStringPtr(name, b.chars);
    }
  }

  /** The texts of a member's name and value, and their length together. */
  method PrintNamed(child: Node, depth: nat, fmt: bool, ghost kid: Shape, ghost key: text, ghost value: text)
    returns (str: array<byte>, ret: array<byte>, n: nat)
    requires Distinct(kid) && Ready(child, kid) && BlockOk(kid.data.name, child.name)
    requires key == PrintKey(KeyOf(kid.data.name)) && value == Print(Tree(kid), depth, fmt)
    ensures fresh(str) && fresh(ret) && Holds(str, key) && Holds(ret, value) && n == |value| + |key|
    decreases kid, 4
  {
    str := PrintName(child.name, kid.data.name);
    ret := PrintValue(child, depth, fmt, kid);
    var valueLength := StrLen(ret, value);
    var nameLength := StrLen(str, key);
    n := valueLength + nameLength;
  }

  /** What has been collected for the first members. */
  ghost predicate Collected(names: seq<array<byte>>, entries: seq<array<byte>>, keys: seq<text>, texts: seq<text>)
    reads set k | 0 <= k < |names| :: names[k]
    reads set k | 0 <= k < |entries| :: entries[k]
  {
    |names| == |entries| <= |keys| == |texts| && AllHold(names, keys) && AllHold(entries, texts)
  }

  lemma CollectedSnoc(names: seq<array<byte>>, entries: seq<array<byte>>, keys: seq<text>, texts: seq<text>,
                      str: array<byte>, ret: array<byte>)
    requires Collected(names, entries, keys, texts) && |names| < |keys|
    requires Holds(str, keys[|names|]) && Holds(ret, texts[|names|])
    ensures Collected(names + [str], entries + [ret], keys, texts)
  {
  }

  /** Print one member, and go on to the next. */
  method CollectMember(child: Node, names: seq<array<byte>>, entries: seq<array<byte>>, depth: nat, fmt: bool,
                       ghost s: Shape, ghost keys: seq<text>, ghost texts: seq<text>)
    returns (names': seq<array<byte>>, entries': seq<array<byte>>, n: nat, next: Node?)
    requires Distinct(s) && Ready(s.node, s) && s.data.kind == ObjectKind
    requires keys == Names(MembersOf(s.kids)) && texts == Texts(Values(MembersOf(s.kids)), depth, fmt)
    requires |names| <= |s.kids| && child == NodeAt(s.kids, |names|) && Collected(names, entries, keys, texts)
    ensures |names'| == |names| + 1 <= |s.kids| && Collected(names', entries', keys, texts)
    ensures MembersRoomTo(keys, texts, |names| + 1, depth, fmt) ==
            MembersRoomTo(keys, texts, |names|, depth, fmt) + n + 2 + Spare(fmt, 2 + depth)
    ensures next == NodeAt(s.kids, |names| + 1)
    decreases s, 0
  {
    ghost var i := |names|;
    KidReady(s.node, s, i);
    KidTexts(s, i, depth, fmt);
    var str, ret;
    str, ret, n := PrintNamed(child, depth, fmt, s.kids[i], keys[i], texts[i]);
    CollectedSnoc(names, entries, keys, texts, str, ret);
    names', entries', next := names + [str], entries + [ret], child.next;
  }

  method CollectMembers(item: Node, depth: nat, fmt: bool, ghost s: Shape, ghost keys: seq<text>,
                        ghost texts: seq<text>)
    returns (names: seq<array<byte>>, entries: seq<array<byte>>, len: nat)
    requires Distinct(s) && Ready(item, s) && s.data.kind == ObjectKind
    requires keys == Names(MembersOf(s.kids)) && texts == Texts(Values(MembersOf(s.kids)), depth, fmt)
    ensures |names| == |s.kids| && Collected(names, entries, keys, texts)
    ensures len == 7 + Spare(fmt, depth) + MembersRoom(keys, texts, depth, fmt)
    decreases s, 1
  {
    ghost var i := 0;
    var child := item.child;
    names, entries, len := [], [], 7 + Spare(fmt, depth);
    while child != null
      invariant Ready(item, s)
      invariant |names| == i <= |s.kids| && child == NodeAt(s.kids, i)
      invariant Collected(names, entries, keys, texts)
      invariant len == 7 + Spare(fmt, depth) + MembersRoomTo(keys, texts, i, depth, fmt)
      decreases |s.kids| - i
    {
      var n;
      names, entries, n, child := CollectMember(child, names, entries, depth, fmt, s, keys, texts);
      len := len + n + 2 + Spare(fmt, 2 + depth);
      i := i + 1;
    }
    MembersRoomSum(keys, texts, i, depth, fmt);
  }

  method StoreTabs(out: array<byte>, at: nat, n: nat, fmt: bool) returns (ptr: nat)
    requires at + |Tabs(n, fmt)| <= out.Length
    modifies out
    ensures ptr == at + |Tabs(n, fmt)| && out[..ptr] == old(out[..at]) + Tabs(n, fmt)
  {
    ptr := at;
    if !fmt {
      return;
    }
    var j := 0;
    while j < n
      invariant 0 <= j <= n && ptr == at + j
      invariant out[..at] == old(out[..at])
      invariant forall k :: at <= k < ptr ==> out[k] == TAB
    {
      out[ptr] := TAB;
      ptr, j := ptr + 1, j + 1;
    }
  }

  /** `*ptr++ = b` when `on`. */
  method StoreIf(out: array<byte>, at: nat, on: bool, b: byte) returns (ptr: nat)
    requires on ==> at < out.Length
    requires at <= out.Length
    modifies out
    ensures ptr == at + (if on then 1 else 0)
    ensures out[..ptr] == old(out[..at]) + (if on then [b] else [])
  {
    ptr := at;
    if on {
      out[ptr] := b;
      ptr := ptr + 1;
    }
  }

  /** Everything written for one member. */
  method StoreMember(out: array<byte>, at: nat, name: array<byte>, entry: array<byte>, last: bool,
                     ghost key: text, ghost value: text, depth: nat, fmt: bool) returns (ptr: nat)
    requires name != out && entry != out
    requires Holds(name, key) && Holds(entry, value)
    requires at + |MemberText(key, value, depth, fmt)| + |MemberGap(last, fmt)| < out.Length
    modifies out
    ensures ptr == at + |MemberText(key, value, depth, fmt)| + |MemberGap(last, fmt)|
    ensures out[..ptr] == old(out[..at]) + (MemberText(key, value, depth, fmt) + MemberGap(last, fmt))
  {
    ptr := StoreTabs(out, at, depth, fmt);
    ptr := StrCopy(out, ptr, name, key);
    ptr := StoreIf(out, ptr, true, COLON);
    ptr := StoreIf(out, ptr, fmt, TAB);
    ptr := StrCopy(out, ptr, entry, value);
    ptr := StoreIf(out, ptr, !last, COMMA);
    ptr := StoreIf(out, ptr, fmt, NEWLINE);
    MemberRegroup(old(out[..at]), key, value, last, depth, fmt);
    ghost var written := out[..ptr];
    out[ptr] := NUL;
    assert out[..ptr] == written;
  }

  lemma MemberRegroup(before: text, key: text, value: text, last: bool, depth: nat, fmt: bool)
    ensures before + Tabs(depth, fmt) + key + [COLON] + (if fmt then [TAB] else []) + value
            + (if !last then [COMMA] else []) + (if fmt then [NEWLINE] else [])
            == before + (MemberText(key, value, depth, fmt) + MemberGap(last, fmt))
  {
  }

  lemma MembersStep(before: text, keys: seq<text>, texts: seq<text>, i: nat, depth: nat, fmt: bool)
    requires |keys| == |texts| && i < |texts|
    ensures before + JoinMembers(keys[i..], texts[i..], depth, fmt) ==
            before + (MemberText(keys[i], texts[i], depth, fmt) + MemberGap(i == |texts| - 1, fmt))
            + JoinMembers(keys[i + 1..], texts[i + 1..], depth, fmt)
  {
  }

  method StoreMembers(out: array<byte>, at: nat, names: seq<array<byte>>, entries: seq<array<byte>>,
                      ghost keys: seq<text>, ghost texts: seq<text>, depth: nat, fmt: bool) returns (ptr: nat)
    requires |names| == |entries| == |keys| == |texts| && out !in names && out !in entries
    requires AllHold(names, keys) && AllHold(entries, texts)
    requires at + |JoinMembers(keys, texts, depth, fmt)| < out.Length
    modifies out
    ensures ptr == at + |JoinMembers(keys, texts, depth, fmt)|
    ensures out[..ptr] == old(out[..at]) + JoinMembers(keys, texts, depth, fmt)
  {
    ghost var whole := out[..at] + JoinMembers(keys, texts, depth, fmt);
    ptr := at;
    var i := 0;
    while i < |entries|
      invariant 0 <= i <= |entries| && at <= ptr < out.Length
      invariant AllHold(names, keys) && AllHold(entries, texts)
      invariant out[..ptr] + JoinMembers(keys[i..], texts[i..], depth, fmt) == whole
    {
      MembersStep(out[..ptr], keys, texts, i, depth, fmt);
      ptr := StoreMember(out, ptr, names[i], entries[i], i == |entries| - 1, keys[i], texts[i], depth, fmt);
      i := i + 1;
    }
    assert out[..ptr] + [] == whole;
  }

  lemma OpenObjectNulFree(body: text, depth: nat, fmt: bool)
    requires NulFree(body)
    ensures NulFree([LBRACE] + Newline(fmt) + body + Tabs(depth, fmt))
  {
    ConcatNulFree([LBRACE], Newline(fmt));
    ConcatNulFree([LBRACE] + Newline(fmt), body);
    ConcatNulFree([LBRACE] + Newline(fmt) + body, Tabs(depth, fmt));
  }

  lemma ConcatNulFree(a: text, b: text)
    requires NulFree(a) && NulFree(b)
    ensures NulFree(a + b)
  {
  }

  /** The composing pass of print_object. */
  method ComposeObject(names: seq<array<byte>>, entries: seq<array<byte>>, len: nat,
                       ghost keys: seq<text>, ghost texts: seq<text>, depth: nat, fmt: bool)
    returns (out: array<byte>)
    requires |names| == |entries| == |keys| == |texts|
    requires AllHold(names, keys) && AllHold(entries, texts)
    requires len == 7 + Spare(fmt, depth + 1) + MembersRoom(keys, texts, depth + 1, fmt)
    ensures fresh(out) && out.Length == len
    ensures Holds(out, [LBRACE] + Newline(fmt) + JoinMembers(keys, texts, depth + 1, fmt) + Tabs(depth, fmt) + [RBRACE])
  {
    ghost var body, tabs := JoinMembers(keys, texts, depth + 1, fmt), Tabs(depth, fmt);
    ghost var opening := [LBRACE] + Newline(fmt);
    ObjectFits(keys, texts, depth, fmt);
    assert |opening| + |body| + |tabs| + 2 <= len;
    out := new byte[len];
    out[0] := LBRACE;
    var ptr := StoreIf(out, 1, fmt, NEWLINE);
    assert out[..ptr] == opening;
    ptr := StoreMembers(out, ptr, names, entries, keys, texts, depth + 1, fmt);
    assert out[..ptr] == opening + body;
    ptr := StoreTabs(out, ptr, depth, fmt);
    JoinMembersNulFree(keys, texts, depth + 1, fmt);
    OpenObjectNulFree(body, depth, fmt);
    StoreLast(out, ptr, opening + body + tabs, RBRACE);
  }
}
