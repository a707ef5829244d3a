/** Printed trees are texts of the grammar, in a fixed layout, and the parser undoes the printer. */
module JsonRoundTrip {
  import opened Bytes
  import opened JsonAcceptance
  import opened JsonGrammar
  import opened JsonInt
  import opened JsonString
  import opened JsonText
  import opened Numerals
  import opened StringTexts

  /** The tree with the sign tags that parsing would give it. */
  function Norm(t: Json): Json
    decreases t
  {
    match t
    case Int(value, sign) => Int(value, if PrintsMinus(value, sign) then -1 else 1)
    case Arr(items) => Arr(NormItems(items))
    case Obj(members) => Obj(NormMembers(members))
    case _ => t
  }

  function NormItems(items: seq<Json>): (r: seq<Json>)
    ensures |r| == |items|
    decreases items
  {
    if |items| == 0 then [] else [Norm(items[0])] + NormItems(items[1..])
  }

  function NormMembers(members: seq<Member>): (r: seq<Member>)
    ensures |r| == |members|
    decreases members
  {
    if |members| == 0 then []
    else [NormMember(members[0])] + NormMembers(members[1..])
  }

  function NormMember(m: Member): Member
    decreases m
  {
    Member(m.key, Norm(m.value))
  }

  ghost predicate ItemsPrintable(items: seq<Json>) {
    && (forall i :: 0 <= i < |items| ==> NoDoubles(items[i]))
    && (forall i :: 0 <= i < |items| ==> WellKeyed(items[i]))
  }

  ghost predicate MembersPrintable(members: seq<Member>) {
    && (forall i :: 0 <= i < |members| ==> NoDoubles(members[i].value))
    && (forall i :: 0 <= i < |members| ==> WellKeyed(members[i].value))
    && (forall i :: 0 <= i < |members| ==> KeyOk(members[i].key))
  }

  // ---------------------------------------------------------------- the layout

  /** The pieces that are written for the characters of a string. */
  function PieceFor(b: byte): Piece {
    if b == 34 || b == 92 then Short(b)
    else if b == 8 then Short(98)
    else if b == 9 then Short(116)
    else if b == 10 then Short(110)
    else if b == 12 then Short(102)
    else if b == 13 then Short(114)
    else if b < 32 then Sole([48, 48, 48 + b / 16, if b % 16 < 10 then 48 + b % 16 else 87 + b % 16])
    else Plain(b)
  }

  function Spelled(chars: text): (r: seq<Piece>)
    ensures |r| == |chars|
  {
    if |chars| == 0 then [] else [PieceFor(chars[0])] + Spelled(chars[1..])
  }

  /** The plain numeral of a 64-bit pattern: negative for a tagged one with the highest bit set. */
  function PlainNumeral(value: u64, sign: int): Numeral {
    if sign == -1 && value >= 0x8000_0000_0000_0000 then
      Numeral(true, Dec(0x1_0000_0000_0000_0000 - value), [], NoPower)
    else Numeral(false, Dec(value), [], NoPower)
  }

  function LineBreak(depth: nat, fmt: bool): text {
    if fmt then [10] + Repeat(9, depth) else []
  }

  /** The document of a tree at nesting depth `depth`. Unformatted, it has no blanks. Formatted, one blank stands
      in front of every element but the first; every key stands on a line of its own, indented by one tab more
      than its object, with one tab in front of its value; and the closing brace stands on a line of its own. */
  function Laid(t: Json, depth: nat, fmt: bool): Doc
    requires Printable(t)
    decreases t
  {
    match t
    case Null => NullDoc
    case False => FalseDoc
    case True => TrueDoc
    case Int(value, sign) => NumberDoc(PlainNumeral(value, sign))
    case Str(chars) => StringDoc(Spelled(chars), true)
    case Arr(items) => ArrayDoc(LaidItems(items, depth + 1, fmt, true), [])
    case Obj(members) => ObjectDoc(LaidMembers(members, depth, fmt), LineBreak(depth, fmt))
  }

  function LaidItems(items: seq<Json>, depth: nat, fmt: bool, first: bool): (r: seq<Slot>)
    requires forall i :: 0 <= i < |items| ==> Printable(items[i])
    ensures |r| == |items|
    decreases items
  {
    if |items| == 0 then []
    else
      [Slot(if first || !fmt then [] else [32], Laid(items[0], depth, fmt), [])]
      + LaidItems(items[1..], depth, fmt, false)
  }

  ghost predicate MemberPrintable(m: Member) {
    KeyOk(m.key) && Printable(m.value)
  }

  function LaidMember(m: Member, depth: nat, fmt: bool, last: bool): Entry
    requires MemberPrintable(m)
    decreases m
  {
    Entry(LineBreak(depth + 1, fmt), Spelled(m.key.name), [], if fmt then [9] else [], Laid(m.value, depth + 1, fmt),
          if last then LineBreak(depth, fmt) else [])
  }

  function LaidMembers(members: seq<Member>, depth: nat, fmt: bool): (r: seq<Entry>)
    requires forall i :: 0 <= i < |members| ==> MemberPrintable(members[i])
    ensures |r| == |members|
    decreases members
  {
    if |members| == 0 then []
    else [LaidMember(members[0], depth, fmt, |members| == 1)] + LaidMembers(members[1..], depth, fmt)
  }

  // ---------------------------------------------------------------- print_value writes that layout

  lemma ControlPiece(b: byte)
    requires 0 < b < 32 && b !in [8, 9, 10, 12, 13]
    ensures PieceText(PieceFor(b)) == EscapeByte(b)
    ensures PieceOk(PieceFor(b)) && StandardPiece(PieceFor(b)) && PieceBytes(PieceFor(b)) == [b]
  {
    assert CodeUnit(PieceFor(b).hex) == b;
  }

  lemma PieceForByte(b: byte)
    requires b != NUL
    ensures PieceText(PieceFor(b)) == EscapeByte(b)
    ensures PieceOk(PieceFor(b)) && StandardPiece(PieceFor(b)) && PieceBytes(PieceFor(b)) == [b]
  {
    if b < 32 && b !in [8, 9, 10, 12, 13] {
      ControlPiece(b);
    }
  }

  lemma {:induction false} SpelledIsEscape(chars: text)
    requires NulFree(chars)
    ensures forall i :: 0 <= i < |chars| ==> PieceOk(Spelled(chars)[i]) && StandardPiece(Spelled(chars)[i])
    ensures PiecesText(Spelled(chars)) == Escape(chars) && PiecesBytes(Spelled(chars)) == chars
  {
    if |chars| > 0 {
      PieceForByte(chars[0]);
      SpelledIsEscape(chars[1..]);
      ConsPieces(PieceFor(chars[0]), Spelled(chars[1..]));
      assert [chars[0]] + chars[1..] == chars;
    }
  }

  lemma StandardPiecesOk(pieces: seq<Piece>)
    requires forall i :: 0 <= i < |pieces| ==> PieceOk(pieces[i]) && StandardPiece(pieces[i])
    ensures PiecesOk(pieces) && StandardPieces(pieces)
  {
  }

  lemma SpelledString(chars: text)
    requires NulFree(chars)
    ensures PiecesOk(Spelled(chars)) && StandardPieces(Spelled(chars)) && PiecesBytes(Spelled(chars)) == chars
    ensures Quoted(Spelled(chars), true) == PrintString(chars)
  {
    SpelledIsEscape(chars);
    StandardPiecesOk(Spelled(chars));
  }

  lemma WholeAlone(n: Numeral)
    requires n.fraction == [] && n.power == NoPower
    ensures n.whole + n.fraction == n.whole
    ensures NumeralText(n) == (if n.minus then [45] else []) + n.whole
  {
    assert n.whole + (FractionText(n.fraction) + PowerText(n.power)) == n.whole;
  }

  lemma DigitsAlone(n: Numeral, m: nat, v: u64)
    requires n.fraction == [] && n.power == NoPower
    requires |n.whole| > 0 && AllDigits(n.whole) && (n.whole[0] == 48 ==> |n.whole| == 1) && Decimal(n.whole) == m
    requires (if n.minus then -(m as int) else m) % 0x1_0000_0000_0000_0000 == v
    ensures NumeralOk(n) && StandardNumeral(n) && NumeralValue(n) == Int(v, if n.minus then -1 else 1)
  {
    WholeAlone(n);
  }

  lemma WrapsBack(value: u64, sign: int)
    ensures (if PrintsMinus(value, sign) then -(Magnitude(value, sign) as int) else value)
            % 0x1_0000_0000_0000_0000 == value
  {
  }

  lemma IntegerLaid(value: u64, sign: int)
    ensures var n := PlainNumeral(value, sign);
      && NumeralOk(n) && StandardNumeral(n) && NumeralText(n) == PrintInt(value, sign)
      && NumeralValue(n) == Norm(Int(value, sign))
  {
    var m: u64 := Magnitude(value, sign);
    PrintIntShape(value, sign);
    DecimalOfDec(m);
    WrapsBack(value, sign);
    PlainNumeralIs(value, sign);
    WholeAlone(PlainNumeral(value, sign));
    DigitsAlone(PlainNumeral(value, sign), m, value);
  }

  lemma PlainNumeralIs(value: u64, sign: int)
    ensures PlainNumeral(value, sign) ==
            Numeral(PrintsMinus(value, sign), Dec(Magnitude(value, sign)), [], NoPower)
  {
  }

  /** print_value writes the document of the tree: a text of RFC 8259 that stands for it, in that layout. */
  lemma {:induction false} LaidIsPrinted(t: Json, depth: nat, fmt: bool)
    requires Printable(t)
    ensures var d := Laid(t, depth, fmt);
      DocOk(d) && Standard(d) && Text(d) == Print(t, depth, fmt) && Value(d) == Norm(t)
    decreases t
  {
    match t
    case Int(value, sign) => IntegerLaid(value, sign);
    case Str(chars) => SpelledString(chars);
    case Arr(items) =>
      assert forall i :: 0 <= i < |items| ==> Printable(items[i]);
      ArrayLaid(items, depth, fmt);
    case Obj(members) =>
      assert forall i :: 0 <= i < |members| ==> MemberPrintable(members[i]);
      ObjectLaid(members, depth, fmt);
    case _ =>
  }

  lemma NextItemText(before: text, head: text, blank: text, tail: text)
    ensures (before + (head + [])) + ([44] + (blank + tail)) == before + (head + ([44] + blank) + tail)
  {
    assert head + [] == head;
    assert [44] + (blank + tail) == ([44] + blank) + tail;
    Regroup(before, head, [44] + blank, tail);
  }

  lemma OneItemText(before: text, head: text)
    ensures (before + (head + [])) + [] == before + head
  {
    assert head + [] == head;
  }

  lemma ItemGapIs(fmt: bool)
    ensures ItemGap(fmt) == [44] + (if fmt then [32] else [])
  {
  }

  lemma {:induction false} ItemsText(first: Slot, others: seq<Slot>, items: seq<Json>, depth: nat, fmt: bool)
    requires |items| == 1 + |others| && (forall i :: 0 <= i < |items| ==> NoDoubles(items[i]))
    requires Text(first.value) == Print(items[0], depth, fmt) && first.after == []
    requires |others| > 0 ==> SlotsText(others) == (if fmt then [32] else []) + PrintItems(items[1..], depth, fmt)
    ensures SlotsText([first] + others) == first.before + PrintItems(items, depth, fmt)
  {
    assert ([first] + others)[1..] == others;
    if |others| > 0 {
      ItemGapIs(fmt);
      NextItemText(first.before, Text(first.value), if fmt then [32] else [], PrintItems(items[1..], depth, fmt));
    } else {
      OneItemText(first.before, Text(first.value));
    }
  }

  lemma {:induction false} AddItem(slot: Slot, others: seq<Slot>)
    requires SlotOk(slot) && Standard(slot.value) && forall i :: 0 <= i < |others| ==> SlotOk(others[i])
    requires forall i :: 0 <= i < |others| ==> Standard(others[i].value)
    ensures var all := [slot] + others;
      && (forall i :: 0 <= i < |all| ==> SlotOk(all[i]))
      && (forall i :: 0 <= i < |all| ==> Standard(all[i].value))
      && Values(all) == [SlotValue(slot)] + Values(others)
  {
    assert ([slot] + others)[1..] == others;
  }

  lemma {:induction false} ItemsLaid(items: seq<Json>, depth: nat, fmt: bool, first: bool)
    requires forall i :: 0 <= i < |items| ==> Printable(items[i])
    ensures var slots := LaidItems(items, depth, fmt, first);
      && (forall i :: 0 <= i < |slots| ==> SlotOk(slots[i]))
      && (forall i :: 0 <= i < |slots| ==> Standard(slots[i].value))
      && Values(slots) == NormItems(items)
      && (|items| > 0 ==>
           SlotsText(slots) == (if first || !fmt then [] else [32]) + PrintItems(items, depth, fmt))
    decreases items, 0
  {
    if |items| > 0 {
      var slots := LaidItems(items, depth, fmt, first);
      LaidIsPrinted(items[0], depth, fmt);
      ItemsLaid(items[1..], depth, fmt, false);
      assert slots == [slots[0]] + slots[1..] && slots[1..] == LaidItems(items[1..], depth, fmt, false);
      AddItem(slots[0], slots[1..]);
      ItemsText(slots[0], slots[1..], items, depth, fmt);
    }
  }

  lemma {:induction false} ArrayLaid(items: seq<Json>, depth: nat, fmt: bool)
    requires forall i :: 0 <= i < |items| ==> Printable(items[i])
    ensures var d := ArrayDoc(LaidItems(items, depth + 1, fmt, true), []);
      && DocOk(d) && Standard(d) && Value(d) == Arr(NormItems(items))
      && Text(d) == [LBRACKET] + PrintItems(items, depth + 1, fmt) + [RBRACKET]
    decreases items, 1
  {
    var slots, inner := LaidItems(items, depth + 1, fmt, true), PrintItems(items, depth + 1, fmt);
    ItemsLaid(items, depth + 1, fmt, true);
    assert [] + inner == inner;
    assert (if slots == [] then [] else SlotsText(slots)) == inner;
    assert [91] + (inner + [93]) == [91] + inner + [93];
  }

  lemma Regroup(a: text, b: text, c: text, d: text)
    ensures a + b + c + d == a + (b + (c + d))
  {
  }

  lemma Regroup5(a: text, b: text, c: text, d: text, e: text, f: text)
    ensures a + b + c + d + e + f == a + (b + (c + (d + (e + f))))
  {
    Regroup(a, b, c, d);
    Regroup(a + b, c + d, e, f);
  }

  lemma LineBreakIs(depth: nat, fmt: bool)
    ensures LineBreak(depth, fmt) == Newline(fmt) + Tabs(depth, fmt)
    ensures Tabs(1, fmt) == if fmt then [9] else []
  {
  }

  lemma LineBreakIsBlank(depth: nat, fmt: bool)
    ensures Blanks(LineBreak(depth, fmt))
  {
  }

  lemma {:induction false} MemberText(m: Member, e: Entry, depth: nat, fmt: bool)
    requires MemberPrintable(m) && e.before == LineBreak(depth, fmt) && Quoted(e.key, true) == PrintString(m.key.name)
    requires e.beforeColon == [] && e.afterColon == (if fmt then [9] else [])
    requires Text(e.value) == Print(m.value, depth, fmt)
    ensures EntryText(e) == Newline(fmt) + (PrintMember(m, depth, fmt) + e.after)
  {
    var value := Text(e.value) + e.after;
    var colon := [58] + (e.afterColon + value);
    var key := PrintString(m.key.name);
    LineBreakIs(depth, fmt);
    QuotedSplit(e.key, true, colon);
    assert e.beforeColon + colon == colon;
    assert EntryText(e) == LineBreak(depth, fmt) + (key + colon);
    Regroup5(Tabs(depth, fmt), key, [COLON], Tabs(1, fmt), Print(m.value, depth, fmt), e.after);
    Nest(Newline(fmt), Tabs(depth, fmt), key + colon, Tabs(depth, fmt) + (key + colon));
  }

  lemma {:induction false} MemberLaid(m: Member, depth: nat, fmt: bool, last: bool)
    requires MemberPrintable(m)
    ensures var e := LaidMember(m, depth, fmt, last);
      && EntryOk(e) && Standard(e.value) && StandardPieces(e.key) && EntryMember(e) == NormMember(m)
      && EntryText(e) == Newline(fmt) + (PrintMember(m, depth + 1, fmt) + (if last then LineBreak(depth, fmt) else []))
    decreases m
  {
    SpelledString(m.key.name);
    LaidIsPrinted(m.value, depth + 1, fmt);
    LineBreakIsBlank(depth, fmt);
    LineBreakIsBlank(depth + 1, fmt);
    MemberText(m, LaidMember(m, depth, fmt, last), depth + 1, fmt);
  }

  /** The text of the last member and of what follows it. */
  lemma LastText(nl: text, member: text, tabs: text)
    ensures nl + (member + (nl + tabs)) == nl + (member + ([] + nl) + [] + tabs)
  {
    assert [] + nl == nl;
    Regroup(member, nl, [], tabs);
    assert [] + tabs == tabs;
  }

  lemma NextText(nl: text, member: text, others: text, tabs: text)
    ensures nl + (member + []) + ([44] + (nl + (others + tabs))) == nl + (member + ([44] + nl) + others + tabs)
  {
    assert member + [] == member;
    Regroup(member, [44] + nl, others, tabs);
    assert ([44] + nl) + (others + tabs) == [44] + (nl + (others + tabs));
  }

  lemma OneEntryText(e: Entry)
    ensures EntriesText([e]) == EntryText(e)
  {
    assert EntryText(e) + [] == EntryText(e);
  }

  lemma OneMemberText(m: Member, depth: nat, fmt: bool)
    requires NoDoubles(m.value)
    ensures PrintMembers([m], depth, fmt) == PrintMember(m, depth, fmt) + ([] + Newline(fmt)) + []
  {
    assert [m][1..] == [];
  }

  lemma NextEntryText(e: Entry, others: seq<Entry>)
    requires |others| > 0
    ensures EntriesText([e] + others) == EntryText(e) + ([44] + EntriesText(others))
  {
    assert ([e] + others)[1..] == others;
  }

  lemma {:induction false} AddMember(e: Entry, others: seq<Entry>)
    requires EntryOk(e) && Standard(e.value) && StandardPieces(e.key)
    requires forall i :: 0 <= i < |others| ==> EntryOk(others[i])
    requires forall i :: 0 <= i < |others| ==> Standard(others[i].value) && StandardPieces(others[i].key)
    ensures var all := [e] + others;
      && (forall i :: 0 <= i < |all| ==> EntryOk(all[i]))
      && (forall i :: 0 <= i < |all| ==> Standard(all[i].value) && StandardPieces(all[i].key))
      && Members(all) == [EntryMember(e)] + Members(others)
  {
    assert ([e] + others)[1..] == others;
  }

  /** The first member in front of the text of the others. */
  lemma {:induction false} MembersText(members: seq<Member>, e: Entry, others: seq<Entry>, depth: nat, fmt: bool)
    requires |members| == 1 + |others| && forall i :: 0 <= i < |members| ==> NoDoubles(members[i].value)
    ensures var nl, tabs, first := Newline(fmt), Tabs(depth, fmt), PrintMember(members[0], depth + 1, fmt);
      var all := nl + (PrintMembers(members, depth + 1, fmt) + tabs);
      && (|others| == 0 && EntryText(e) == nl + (first + (nl + tabs)) ==> EntriesText([e] + others) == all)
      && (|others| > 0 && EntryText(e) == nl + (first + [])
          && EntriesText(others) == nl + (PrintMembers(members[1..], depth + 1, fmt) + tabs) ==>
            EntriesText([e] + others) == all)
  {
    var nl, tabs, first := Newline(fmt), Tabs(depth, fmt), PrintMember(members[0], depth + 1, fmt);
    if |others| == 0 {
      assert members == [members[0]] && [e] + others == [e];
      OneEntryText(e);
      OneMemberText(members[0], depth + 1, fmt);
      LastText(nl, first, tabs);
    } else {
      NextEntryText(e, others);
      NextText(nl, first, PrintMembers(members[1..], depth + 1, fmt), tabs);
    }
  }

  lemma {:induction false} MembersLaid(members: seq<Member>, depth: nat, fmt: bool)
    requires forall i :: 0 <= i < |members| ==> MemberPrintable(members[i])
    ensures var entries := LaidMembers(members, depth, fmt);
      && (forall i :: 0 <= i < |entries| ==> EntryOk(entries[i]))
      && (forall i :: 0 <= i < |entries| ==> Standard(entries[i].value) && StandardPieces(entries[i].key))
      && Members(entries) == NormMembers(members)
      && (|members| > 0 ==>
           EntriesText(entries) == Newline(fmt) + (PrintMembers(members, depth + 1, fmt) + Tabs(depth, fmt)))
    decreases members, 0
  {
    if |members| > 0 {
      var entries := LaidMembers(members, depth, fmt);
      MemberLaid(members[0], depth, fmt, |members| == 1);
      MembersLaid(members[1..], depth, fmt);
      assert entries == [entries[0]] + entries[1..] && entries[1..] == LaidMembers(members[1..], depth, fmt);
      AddMember(entries[0], entries[1..]);
      LineBreakIs(depth, fmt);
      MembersText(members, entries[0], entries[1..], depth, fmt);
    }
  }

  lemma ObjectText(inner: text, nl: text, members: text, tabs: text)
    requires inner == nl + (members + tabs)
    ensures [123] + (inner + [125]) == [LBRACE] + nl + members + tabs + [RBRACE]
  {
    Regroup5([LBRACE], nl, members, tabs, [RBRACE], []);
    assert inner + [125] == nl + (members + (tabs + [125]));
    assert [RBRACE] + [] == [RBRACE];
    var whole := [LBRACE] + nl + members + tabs + [RBRACE];
    assert whole + [] == whole;
  }

  lemma {:induction false} ObjectLaid(members: seq<Member>, depth: nat, fmt: bool)
    requires forall i :: 0 <= i < |members| ==> MemberPrintable(members[i])
    ensures var d := ObjectDoc(LaidMembers(members, depth, fmt), LineBreak(depth, fmt));
      && DocOk(d) && Standard(d) && Value(d) == Obj(NormMembers(members))
      && Text(d) == [LBRACE] + Newline(fmt) + PrintMembers(members, depth + 1, fmt) + Tabs(depth, fmt) + [RBRACE]
    decreases members, 1
  {
    var entries := LaidMembers(members, depth, fmt);
    MembersLaid(members, depth, fmt);
    LineBreakIs(depth, fmt);
    assert |members| == 0 ==> PrintMembers(members, depth + 1, fmt) + Tabs(depth, fmt) == Tabs(depth, fmt);
    ObjectText(if entries == [] then LineBreak(depth, fmt) else EntriesText(entries), Newline(fmt),
               PrintMembers(members, depth + 1, fmt), Tabs(depth, fmt));
  }

  // ---------------------------------------------------------------- first bytes

  /** A printed value starts with a byte that is neither white space nor a closing bracket. */
  lemma PrintStarts(t: Json, depth: nat, fmt: bool)
    requires NoDoubles(t)
    ensures var s := Print(t, depth, fmt);
            |s| > 0 && !IsBlank(s[0]) && s[0] != RBRACKET && s[0] != RBRACE
  {
    match t
    case Int(value, sign) => PrintIntShape(value, sign);
    case _ =>
  }

  lemma SkipPrinted(t: Json, depth: nat, fmt: bool, rest: text)
    requires NoDoubles(t)
    ensures Skip(Print(t, depth, fmt) + rest) == Print(t, depth, fmt) + rest
  {
    PrintStarts(t, depth, fmt);
  }

  // ---------------------------------------------------------------- round trip

  /** parse_value on a printed tree, whatever follows it, returns the tree and what follows. */
  lemma RoundTrip(t: Json, depth: nat, fmt: bool, rest: text)
    requires Printable(t)
    requires !ContinuesNumber(rest)
    ensures ParseValue(Print(t, depth, fmt) + rest) == Ok(Norm(t), rest)
  {
    LaidIsPrinted(t, depth, fmt);
    StandardStops(Laid(t, depth, fmt), rest);
    DocRead(Laid(t, depth, fmt), rest);
  }

  /** An array, with anything behind it. */
  lemma RoundTripArray(items: seq<Json>, depth: nat, fmt: bool, rest: text)
    requires ItemsPrintable(items)
    ensures ParseValue(Print(Arr(items), depth, fmt) + rest) == Ok(Arr(NormItems(items)), rest)
  {
    LaidIsPrinted(Arr(items), depth, fmt);
    DocRead(Laid(Arr(items), depth, fmt), rest);
  }

  /** An object, with anything behind it. */
  lemma RoundTripObject(members: seq<Member>, depth: nat, fmt: bool, rest: text)
    requires MembersPrintable(members)
    ensures ParseValue(Print(Obj(members), depth, fmt) + rest) == Ok(Obj(NormMembers(members)), rest)
  {
    LaidIsPrinted(Obj(members), depth, fmt);
    DocRead(Laid(Obj(members), depth, fmt), rest);
  }
}
