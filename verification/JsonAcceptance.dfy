/** parse_value accepts exactly the texts of the grammar, with their trees. */
module JsonAcceptance {
  import opened Bytes
  import opened JsonGrammar
  import opened JsonInt
  import opened JsonString
  import opened JsonText
  import opened NumberTexts
  import opened StringTexts

  // ---------------------------------------------------------------- blanks and first bytes

  lemma Nest(a: text, b: text, tail: text, c: text)
    requires b + tail == c
    ensures (a + b) + tail == a + c
  {
  }

  lemma HeadAndTail(s: text)
    requires |s| > 0
    ensures s == [s[0]] + s[1..]
  {
  }

  lemma SkipOver(blanks: text, s: text)
    requires Blanks(blanks)
    ensures Skip(blanks + s) == Skip(s)
  {
    SkipBlanks(blanks, s);
  }

  /** A text starts with no blank and no closing bracket. */
  lemma TextStarts(d: Doc)
    requires DocOk(d)
    ensures |Text(d)| > 0 && Text(d)[0] > 32 && Text(d)[0] != 93 && Text(d)[0] != 125
  {
    match d
    case NumberDoc(n) =>
      NumeralStarts(n, []);
      assert NumeralText(n) + [] == NumeralText(n);
    case _ =>
  }

  lemma SkipText(d: Doc, rest: text)
    requires DocOk(d)
    ensures Skip(Text(d) + rest) == Text(d) + rest
    ensures At(Text(d) + rest) == Text(d)[0]
  {
    TextStarts(d);
  }

  /** What may stand behind a value inside an array or an object. */
  predicate Separator(tail: text) {
    |tail| > 0 && (tail[0] == 44 || tail[0] == 93 || tail[0] == 125)
  }

  lemma SeparatorStops(d: Doc, blanks: text, tail: text)
    requires Blanks(blanks) && Separator(tail) && !Unclosed(d)
    ensures Stops(d, blanks + tail) && Skip(blanks + tail) == tail
  {
    SkipOver(blanks, tail);
    assert At(blanks + tail) == if |blanks| > 0 then blanks[0] else tail[0];
  }

  // ---------------------------------------------------------------- the texts are read

  /** A string as it is written, with or without its closing quote. */
  function Quoted(pieces: seq<Piece>, closed: bool): text {
    [34] + (PiecesText(pieces) + (if closed then [34] else []))
  }

  lemma QuotedSplit(pieces: seq<Piece>, closed: bool, rest: text)
    ensures Quoted(pieces, closed) + rest == [34] + (PiecesText(pieces) + ((if closed then [34] else []) + rest))
  {
    var closing: text := if closed then [34] else [];
    Nest(PiecesText(pieces), closing, rest, closing + rest);
    Nest([34], PiecesText(pieces) + closing, rest, PiecesText(pieces) + (closing + rest));
  }

  lemma ParseTextIs(s: text, body: text, value: text, stop: text)
    requires s == [34] + body && Decode(body) == Literal(value, stop)
    ensures ParseText(s) == Ok(value, AfterStop(stop))
  {
    assert s[1..] == body;
  }

  lemma StringRead(pieces: seq<Piece>, closed: bool, rest: text)
    requires PiecesOk(pieces) && (!closed ==> At(rest) == 0)
    ensures ParseText(Quoted(pieces, closed) + rest) == Ok(PiecesBytes(pieces), rest)
  {
    var stop := (if closed then [34] else []) + rest;
    QuotedSplit(pieces, closed, rest);
    PiecesRead(pieces, stop);
    ParseTextIs(Quoted(pieces, closed) + rest, PiecesText(pieces) + stop, PiecesBytes(pieces), stop);
    assert AfterStop(stop) == rest;
  }

  lemma ParseNumberIs(s: text)
    requires At(s) == MINUS || IsDigit(At(s))
    ensures ParseValue(s) == Ok(FromNumber(ParseNumber(s).0), ParseNumber(s).1)
  {
    assert !(NULL_TEXT <= s) && !(FALSE_TEXT <= s) && !(TRUE_TEXT <= s);
  }

  lemma NumberRead(n: Numeral, rest: text)
    requires NumeralOk(n) && NumeralStops(n, rest)
    ensures ParseValue(NumeralText(n) + rest) == Ok(NumeralValue(n), rest)
  {
    NumeralStarts(n, rest);
    ParseNumberIs(NumeralText(n) + rest);
    NumeralRead(n, rest);
  }

  lemma {:induction false} DocRead(d: Doc, rest: text)
    requires DocOk(d) && Stops(d, rest)
    ensures ParseValue(Text(d) + rest) == Ok(Value(d), rest)
    decreases d
  {
    var s := Text(d) + rest;
    match d
    case NullDoc => assert s[4..] == rest;
    case FalseDoc => assert s[0] == FALSE_TEXT[0] && s[5..] == rest;
    case TrueDoc => assert s[0] == TRUE_TEXT[0] && s[4..] == rest;
    case NumberDoc(n) => NumberRead(n, rest);
    case StringDoc(pieces, closed) => StringRead(pieces, closed, rest);
    case ArrayDoc(slots, gap) => ArrayRead(slots, gap, rest);
    case ObjectDoc(entries, gap) => ObjectRead(entries, gap, rest);
  }

  lemma ParseArray(s: text, body: text)
    requires At(s) == LBRACKET && Skip(s[1..]) == body
    ensures At(body) == RBRACKET ==> ParseValue(s) == Ok(Arr([]), body[1..])
    ensures At(body) != RBRACKET ==> (ParseValue(s).Ok? <==> ParseItems(body).Ok?)
    ensures At(body) != RBRACKET && ParseItems(body).Ok? ==>
      ParseValue(s) == Ok(Arr(ParseItems(body).value), ParseItems(body).rest)
  {
  }

  lemma ParseObject(s: text, body: text)
    requires At(s) == LBRACE && Skip(s[1..]) == body
    ensures At(body) == RBRACE ==> ParseValue(s) == Ok(Obj([]), body[1..])
    ensures At(body) != RBRACE ==> (ParseValue(s).Ok? <==> ParseMembers(body).Ok?)
    ensures At(body) != RBRACE && ParseMembers(body).Ok? ==>
      ParseValue(s) == Ok(Obj(ParseMembers(body).value), ParseMembers(body).rest)
  {
  }

  lemma ItemsSkip(s: text)
    ensures ParseItems(Skip(s)) == ParseItems(s)
  {
    assert Skip(Skip(s)) == Skip(s);
  }

  lemma MembersSkip(s: text)
    ensures ParseMembers(Skip(s)) == ParseMembers(s)
  {
    assert Skip(Skip(s)) == Skip(s);
    assert ParseMember(Skip(s)) == ParseMember(s);
  }

  lemma {:induction false} ArrayRead(slots: seq<Slot>, gap: text, rest: text)
    requires DocOk(ArrayDoc(slots, gap))
    ensures ParseValue(Text(ArrayDoc(slots, gap)) + rest) == Ok(Arr(Values(slots)), rest)
    decreases slots, 1
  {
    var inner, tail := if slots == [] then gap else SlotsText(slots), [93] + rest;
    var s := [91] + (inner + tail);
    ClosedSplit(91, inner, 93, rest);
    ParseArray(s, Skip(inner + tail));
    if slots == [] {
      SkipOver(gap, tail);
    } else {
      SlotsRead(slots, rest);
      SlotsStart(slots, tail);
      ItemsSkip(inner + tail);
    }
  }

  lemma ClosedSplit(open: byte, inner: text, close: byte, rest: text)
    ensures [open] + (inner + [close]) + rest == [open] + (inner + ([close] + rest))
    ensures ([open] + (inner + ([close] + rest)))[1..] == inner + ([close] + rest)
    ensures ([close] + rest)[1..] == rest
  {
    assert (inner + [close]) + rest == inner + ([close] + rest);
  }

  /** The first element is cut off. */
  lemma SlotsSplit(slots: seq<Slot>, tail: text)
    requires |slots| > 0
    ensures SlotsText(slots) + tail ==
            SlotText(slots[0]) + (if |slots| == 1 then tail else [44] + (SlotsText(slots[1..]) + tail))
  {
    if |slots| > 1 {
      Regroup3(SlotText(slots[0]), 44, SlotsText(slots[1..]), tail);
    } else {
      assert SlotText(slots[0]) + [] == SlotText(slots[0]);
    }
  }

  lemma Regroup3(a: text, comma: byte, b: text, c: text)
    ensures (a + ([comma] + b)) + c == a + ([comma] + (b + c))
  {
    assert ([comma] + b) + c == [comma] + (b + c);
  }

  lemma SlotSplit(slot: Slot, tail: text)
    ensures SlotText(slot) + tail == slot.before + (Text(slot.value) + (slot.after + tail))
  {
    assert (Text(slot.value) + slot.after) + tail == Text(slot.value) + (slot.after + tail);
  }

  lemma SlotsStart(slots: seq<Slot>, tail: text)
    requires |slots| > 0 && SlotOk(slots[0])
    ensures At(Skip(SlotsText(slots) + tail)) != 93
  {
    var first := slots[0];
    var others := if |slots| == 1 then tail else [44] + (SlotsText(slots[1..]) + tail);
    SlotsSplit(slots, tail);
    SlotSplit(first, others);
    SkipOver(first.before, Text(first.value) + (first.after + others));
    SkipText(first.value, first.after + others);
    TextStarts(first.value);
  }

  lemma {:induction false} SlotRead(slot: Slot, tail: text)
    requires SlotOk(slot) && Separator(tail)
    ensures ParseValue(Skip(SlotText(slot) + tail)) == Ok(SlotValue(slot), slot.after + tail)
    ensures Skip(slot.after + tail) == tail
    decreases slot
  {
    var behind := Text(slot.value) + (slot.after + tail);
    SlotSplit(slot, tail);
    SkipOver(slot.before, behind);
    SkipText(slot.value, slot.after + tail);
    SeparatorStops(slot.value, slot.after, tail);
    DocRead(slot.value, slot.after + tail);
  }

  lemma {:induction false} SlotsRead(slots: seq<Slot>, rest: text)
    requires |slots| > 0 && forall i :: 0 <= i < |slots| ==> SlotOk(slots[i])
    ensures ParseItems(SlotsText(slots) + ([93] + rest)) == Ok(Values(slots), rest)
    decreases slots, 0
  {
    var closing := [93] + rest;
    SlotsSplit(slots, closing);
    if |slots| == 1 {
      SlotRead(slots[0], closing);
      ParseItemsIs(SlotText(slots[0]) + closing, SlotValue(slots[0]), slots[0].after + closing, closing);
      assert closing[1..] == rest && Values(slots) == [SlotValue(slots[0])];
    } else {
      var others := SlotsText(slots[1..]) + closing;
      var tail := [44] + others;
      SlotRead(slots[0], tail);
      SlotsRead(slots[1..], rest);
      assert tail[1..] == others;
      ParseItemsIs(SlotText(slots[0]) + tail, SlotValue(slots[0]), slots[0].after + tail, tail);
    }
  }

  lemma ParseItemsIs(s: text, first: Json, behind: text, next: text)
    requires ParseValue(Skip(s)) == Ok(first, behind) && Skip(behind) == next
    ensures At(next) == RBRACKET ==> ParseItems(s) == Ok([first], next[1..])
    ensures At(next) == COMMA && ParseItems(next[1..]).Ok? ==>
      ParseItems(s) == Ok([first] + ParseItems(next[1..]).value, ParseItems(next[1..]).rest)
  {
  }

  lemma {:induction false} ObjectRead(entries: seq<Entry>, gap: text, rest: text)
    requires DocOk(ObjectDoc(entries, gap))
    ensures ParseValue(Text(ObjectDoc(entries, gap)) + rest) == Ok(Obj(Members(entries)), rest)
    decreases entries, 1
  {
    var inner, tail := if entries == [] then gap else EntriesText(entries), [125] + rest;
    var s := [123] + (inner + tail);
    ClosedSplit(123, inner, 125, rest);
    ParseObject(s, Skip(inner + tail));
    if entries == [] {
      SkipOver(gap, tail);
    } else {
      EntriesRead(entries, rest);
      EntriesStart(entries, tail);
      MembersSkip(inner + tail);
    }
  }

  lemma EntriesSplit(entries: seq<Entry>, tail: text)
    requires |entries| > 0
    ensures EntriesText(entries) + tail ==
            EntryText(entries[0]) + (if |entries| == 1 then tail else [44] + (EntriesText(entries[1..]) + tail))
  {
    if |entries| > 1 {
      Regroup3(EntryText(entries[0]), 44, EntriesText(entries[1..]), tail);
    } else {
      assert EntryText(entries[0]) + [] == EntryText(entries[0]);
    }
  }

  /** What stands behind the blanks in front of a key. */
  function KeyedText(e: Entry, tail: text): text {
    Quoted(e.key, true) + (e.beforeColon + ([58] + (e.afterColon + (Text(e.value) + (e.after + tail)))))
  }

  lemma EntrySplit(e: Entry, tail: text)
    ensures EntryText(e) + tail == e.before + KeyedText(e, tail)
  {
    var value, valueTail := Text(e.value) + e.after, Text(e.value) + (e.after + tail);
    var colon, colonTail := [58] + (e.afterColon + value), [58] + (e.afterColon + valueTail);
    var closing, closingTail := [34] + (e.beforeColon + colon), [34] + (e.beforeColon + colonTail);
    Nest(Text(e.value), e.after, tail, e.after + tail);
    Nest(e.afterColon, value, tail, valueTail);
    Nest([58], e.afterColon + value, tail, e.afterColon + valueTail);
    Nest(e.beforeColon, colon, tail, colonTail);
    Nest([34], e.beforeColon + colon, tail, e.beforeColon + colonTail);
    Nest(PiecesText(e.key), closing, tail, closingTail);
    Nest([34], PiecesText(e.key) + closing, tail, PiecesText(e.key) + closingTail);
    QuotedSplit(e.key, true, e.beforeColon + colonTail);
    assert KeyedText(e, tail) == Quoted(e.key, true) + (e.beforeColon + colonTail);
    assert KeyedText(e, tail) == [34] + (PiecesText(e.key) + closingTail);
    Nest(e.before, [34] + (PiecesText(e.key) + closing), tail, KeyedText(e, tail));
  }

  lemma EntriesStart(entries: seq<Entry>, tail: text)
    requires |entries| > 0 && EntryOk(entries[0])
    ensures At(Skip(EntriesText(entries) + tail)) != 125
  {
    var first := entries[0];
    var others := if |entries| == 1 then tail else [44] + (EntriesText(entries[1..]) + tail);
    EntriesSplit(entries, tail);
    EntrySplit(first, others);
    SkipOver(first.before, KeyedText(first, others));
  }

  lemma ParseMemberIs(s: text, name: text, colon: text, value: text, v: Json, rest: text)
    requires ParseText(Skip(s)) == Ok(name, colon) && At(Skip(colon)) == COLON && Skip(Skip(colon)[1..]) == value
    requires ParseValue(value) == Ok(v, rest)
    ensures ParseMember(s) == Ok(Member(Keyed(name), v), rest)
  {
  }

  lemma {:induction false} EntryRead(e: Entry, tail: text)
    requires EntryOk(e) && Separator(tail)
    ensures ParseMember(EntryText(e) + tail) == Ok(EntryMember(e), e.after + tail)
    ensures Skip(e.after + tail) == tail
    decreases e
  {
    var value := Text(e.value) + (e.after + tail);
    var colon := [58] + (e.afterColon + value);
    EntrySplit(e, tail);
    SkipOver(e.before, KeyedText(e, tail));
    StringRead(e.key, true, e.beforeColon + colon);
    SkipOver(e.beforeColon, colon);
    assert colon[1..] == e.afterColon + value;
    SkipOver(e.afterColon, value);
    SkipText(e.value, e.after + tail);
    SeparatorStops(e.value, e.after, tail);
    DocRead(e.value, e.after + tail);
    ParseMemberIs(EntryText(e) + tail, PiecesBytes(e.key), e.beforeColon + colon, value, Value(e.value),
                  e.after + tail);
  }

  lemma ParseMembersIs(s: text, first: Member, behind: text, next: text)
    requires ParseMember(s) == Ok(first, behind) && Skip(behind) == next
    ensures At(next) == RBRACE ==> ParseMembers(s) == Ok([first], next[1..])
    ensures At(next) == COMMA && ParseMembers(next[1..]).Ok? ==>
      ParseMembers(s) == Ok([first] + ParseMembers(next[1..]).value, ParseMembers(next[1..]).rest)
  {
  }

  lemma {:induction false} EntriesRead(entries: seq<Entry>, rest: text)
    requires |entries| > 0 && forall i :: 0 <= i < |entries| ==> EntryOk(entries[i])
    ensures ParseMembers(EntriesText(entries) + ([125] + rest)) == Ok(Members(entries), rest)
    decreases entries, 0
  {
    var closing := [125] + rest;
    EntriesSplit(entries, closing);
    if |entries| == 1 {
      EntryRead(entries[0], closing);
      ParseMembersIs(EntryText(entries[0]) + closing, EntryMember(entries[0]), entries[0].after + closing, closing);
      assert closing[1..] == rest && Members(entries) == [EntryMember(entries[0])];
    } else {
      var others := EntriesText(entries[1..]) + closing;
      var tail := [44] + others;
      EntryRead(entries[0], tail);
      EntriesRead(entries[1..], rest);
      assert tail[1..] == others;
      ParseMembersIs(EntryText(entries[0]) + tail, EntryMember(entries[0]), entries[0].after + tail, tail);
    }
  }

  // ---------------------------------------------------------------- nothing else is read

  lemma {:induction false} BlanksFound(s: text) returns (blanks: text)
    ensures Blanks(blanks) && s == blanks + Skip(s)
  {
    blanks := [];
    if |s| > 0 && IsBlank(s[0]) {
      blanks := BlanksFound(s[1..]);
      Nest([s[0]], blanks, Skip(s), s[1..]);
      blanks := [s[0]] + blanks;
    }
  }

  lemma StringFound(s: text) returns (pieces: seq<Piece>, closed: bool)
    requires ParseText(s).Ok?
    ensures PiecesOk(pieces) && ParseText(s).value == PiecesBytes(pieces)
    ensures s == Quoted(pieces, closed) + ParseText(s).rest
    ensures !closed ==> At(ParseText(s).rest) == 0
  {
    pieces := PiecesFound(s[1..]);
    var stop := Decode(s[1..]).stop;
    closed := At(stop) == 34;
    assert stop == (if closed then [34] else []) + AfterStop(stop);
    assert s == [34] + s[1..];
    QuotedSplit(pieces, closed, AfterStop(stop));
  }

  lemma {:induction false} ValueFound(s: text) returns (d: Doc)
    requires ParseValue(s).Ok?
    ensures Spells(d, s, ParseValue(s).value, ParseValue(s).rest)
    decreases |s|, 1
  {
    if NULL_TEXT <= s {
      d := NullDoc;
    } else if FALSE_TEXT <= s {
      d := FalseDoc;
    } else if TRUE_TEXT <= s {
      d := TrueDoc;
    } else if At(s) == QUOTE {
      var pieces, closed := StringFound(s);
      d := StringDoc(pieces, closed);
    } else if At(s) == MINUS || IsDigit(At(s)) {
      var n := NumeralFound(s);
      ParseNumberIs(s);
      d := NumberDoc(n);
    } else if At(s) == LBRACKET {
      d := ArrayFound(s);
    } else {
      d := ObjectFound(s);
    }
  }

  lemma EmptyFound(s: text, open: byte, close: byte) returns (gap: text)
    requires |s| > 0 && s[0] == open && |Skip(s[1..])| > 0 && Skip(s[1..])[0] == close
    ensures Blanks(gap) && s == [open] + (gap + [close]) + Skip(s[1..])[1..]
  {
    gap := BlanksFound(s[1..]);
    var body := Skip(s[1..]);
    assert s == [open] + s[1..] && body == [close] + body[1..];
    ClosedSplit(open, gap, close, body[1..]);
  }

  lemma {:induction false} ArrayFound(s: text) returns (d: Doc)
    requires At(s) == LBRACKET && ParseValue(s).Ok?
    ensures Spells(d, s, ParseValue(s).value, ParseValue(s).rest)
    decreases |s|, 0
  {
    ParseArray(s, Skip(s[1..]));
    if At(Skip(s[1..])) == RBRACKET {
      var gap := EmptyFound(s, 91, 93);
      d := ArrayDoc([], gap);
    } else {
      ItemsSkip(s[1..]);
      var slots := SlotsFound(s[1..]);
      d := ArrayDoc(slots, []);
      HeadAndTail(s);
      ClosedSplit(91, SlotsText(slots), 93, ParseItems(s[1..]).rest);
    }
  }

  lemma OneSlot(slot: Slot, tail: text)
    requires SlotOk(slot)
    ensures SlotsText([slot]) + tail == SlotText(slot) + tail && Values([slot]) == [SlotValue(slot)]
  {
    SlotsSplit([slot], tail);
  }

  lemma ConsSlot(slot: Slot, others: seq<Slot>, tail: text)
    requires SlotOk(slot) && |others| > 0 && forall i :: 0 <= i < |others| ==> SlotOk(others[i])
    ensures forall i :: 0 <= i < |others| + 1 ==> SlotOk(([slot] + others)[i])
    ensures SlotsText([slot] + others) + tail == SlotText(slot) + ([44] + (SlotsText(others) + tail))
    ensures Values([slot] + others) == [SlotValue(slot)] + Values(others)
  {
    assert ([slot] + others)[1..] == others;
    SlotsSplit([slot] + others, tail);
  }

  lemma {:induction false} SlotFound(s: text) returns (slot: Slot)
    requires ParseValue(Skip(s)).Ok? && At(Skip(ParseValue(Skip(s)).rest)) != 0
    ensures SlotOk(slot) && s == SlotText(slot) + Skip(ParseValue(Skip(s)).rest)
    ensures SlotValue(slot) == ParseValue(Skip(s)).value
    decreases |s|, 2
  {
    var before := BlanksFound(s);
    var d := ValueFound(Skip(s));
    var tail := ParseValue(Skip(s)).rest;
    var after := BlanksFound(tail);
    assert !Unclosed(d);
    slot := Slot(before, d, after);
    SlotSplit(slot, Skip(tail));
  }

  lemma ItemsParts(s: text)
    requires ParseItems(s).Ok?
    ensures ParseValue(Skip(s)).Ok?
    ensures var r, first, next := ParseItems(s), ParseValue(Skip(s)).value, Skip(ParseValue(Skip(s)).rest);
      && (At(next) == COMMA || At(next) == RBRACKET)
      && (At(next) == COMMA ==> ParseItems(next[1..]).Ok?)
      && r == Ok(if At(next) == COMMA then [first] + ParseItems(next[1..]).value else [first],
                 if At(next) == COMMA then ParseItems(next[1..]).rest else next[1..])
  {
  }

  lemma {:induction false} SlotsFound(s: text) returns (slots: seq<Slot>)
    requires ParseItems(s).Ok?
    ensures |slots| > 0 && forall i :: 0 <= i < |slots| ==> SlotOk(slots[i])
    ensures s == SlotsText(slots) + ([93] + ParseItems(s).rest) && Values(slots) == ParseItems(s).value
    decreases |s|, 3
  {
    ItemsParts(s);
    var next := Skip(ParseValue(Skip(s)).rest);
    var slot := SlotFound(s);
    HeadAndTail(next);
    if At(next) == COMMA {
      slots := SlotsFound(next[1..]);
      ConsSlot(slot, slots, [93] + ParseItems(s).rest);
      slots := [slot] + slots;
    } else {
      slots := [slot];
      OneSlot(slot, next);
    }
  }

  lemma {:induction false} ObjectFound(s: text) returns (d: Doc)
    requires At(s) == LBRACE && ParseValue(s).Ok?
    ensures Spells(d, s, ParseValue(s).value, ParseValue(s).rest)
    decreases |s|, 0
  {
    ParseObject(s, Skip(s[1..]));
    if At(Skip(s[1..])) == RBRACE {
      var gap := EmptyFound(s, 123, 125);
      d := ObjectDoc([], gap);
    } else {
      MembersSkip(s[1..]);
      var entries := EntriesFound(s[1..]);
      d := ObjectDoc(entries, []);
      HeadAndTail(s);
      ClosedSplit(123, EntriesText(entries), 125, ParseMembers(s[1..]).rest);
    }
  }

  /** The parts that parse_object reads of a member. */
  lemma MemberParts(s: text)
    requires ParseMember(s).Ok?
    ensures ParseText(Skip(s)).Ok?
    ensures var colon := Skip(ParseText(Skip(s)).rest);
      && At(colon) == COLON && ParseValue(Skip(colon[1..])).Ok?
      && ParseMember(s).rest == ParseValue(Skip(colon[1..])).rest
      && ParseMember(s).value == Member(Keyed(ParseText(Skip(s)).value), ParseValue(Skip(colon[1..])).value)
  {
  }

  lemma KeyFound(s: text) returns (before: text, key: seq<Piece>, beforeColon: text)
    requires ParseText(Skip(s)).Ok? && At(Skip(ParseText(Skip(s)).rest)) != 0
    ensures Blanks(before) && PiecesOk(key) && Blanks(beforeColon) && PiecesBytes(key) == ParseText(Skip(s)).value
    ensures s == before + (Quoted(key, true) + (beforeColon + Skip(ParseText(Skip(s)).rest)))
  {
    var closed;
    before := BlanksFound(s);
    key, closed := StringFound(Skip(s));
    beforeColon := BlanksFound(ParseText(Skip(s)).rest);
    assert closed;
  }

  lemma {:induction false} EntryFound(s: text) returns (e: Entry)
    requires ParseMember(s).Ok? && At(Skip(ParseMember(s).rest)) != 0
    ensures EntryOk(e) && s == EntryText(e) + Skip(ParseMember(s).rest) && EntryMember(e) == ParseMember(s).value
    decreases |s|, 4
  {
    MemberParts(s);
    var before, key, beforeColon := KeyFound(s);
    var colon := Skip(ParseText(Skip(s)).rest);
    var slot := SlotFound(colon[1..]);
    e := Entry(before, key, beforeColon, slot.before, slot.value, slot.after);
    var behind := Skip(ParseMember(s).rest);
    SlotSplit(slot, behind);
    assert colon == [58] + colon[1..];
    EntrySplit(e, behind);
  }

  lemma OneEntry(e: Entry, tail: text)
    requires EntryOk(e)
    ensures EntriesText([e]) + tail == EntryText(e) + tail && Members([e]) == [EntryMember(e)]
  {
    EntriesSplit([e], tail);
  }

  lemma ConsEntry(e: Entry, others: seq<Entry>, tail: text)
    requires EntryOk(e) && |others| > 0 && forall i :: 0 <= i < |others| ==> EntryOk(others[i])
    ensures forall i :: 0 <= i < |others| + 1 ==> EntryOk(([e] + others)[i])
    ensures EntriesText([e] + others) + tail == EntryText(e) + ([44] + (EntriesText(others) + tail))
    ensures Members([e] + others) == [EntryMember(e)] + Members(others)
  {
    assert ([e] + others)[1..] == others;
    EntriesSplit([e] + others, tail);
  }

  lemma MembersParts(s: text)
    requires ParseMembers(s).Ok?
    ensures ParseMember(s).Ok?
    ensures var r, first, next := ParseMembers(s), ParseMember(s).value, Skip(ParseMember(s).rest);
      && (At(next) == COMMA || At(next) == RBRACE)
      && (At(next) == COMMA ==> ParseMembers(next[1..]).Ok?)
      && r == Ok(if At(next) == COMMA then [first] + ParseMembers(next[1..]).value else [first],
                 if At(next) == COMMA then ParseMembers(next[1..]).rest else next[1..])
  {
  }

  lemma {:induction false} EntriesFound(s: text) returns (entries: seq<Entry>)
    requires ParseMembers(s).Ok?
    ensures |entries| > 0 && forall i :: 0 <= i < |entries| ==> EntryOk(entries[i])
    ensures s == EntriesText(entries) + ([125] + ParseMembers(s).rest) && Members(entries) == ParseMembers(s).value
    decreases |s|, 5
  {
    MembersParts(s);
    var next := Skip(ParseMember(s).rest);
    var e := EntryFound(s);
    HeadAndTail(next);
    if At(next) == COMMA {
      entries := EntriesFound(next[1..]);
      ConsEntry(e, entries, [125] + ParseMembers(s).rest);
      entries := [e] + entries;
    } else {
      entries := [e];
      OneEntry(e, next);
    }
  }

  // ---------------------------------------------------------------- the language

  /** parse_value returns `t` and stops in front of `rest` exactly if the text starts with a text of `t` and goes
      on with `rest`. */
  lemma ParseIffText(s: text, t: Json, rest: text)
    ensures ParseValue(s) == Ok(t, rest) <==> IsText(s, t, rest)
  {
    if ParseValue(s) == Ok(t, rest) {
      var d := ValueFound(s);
    }
    if IsText(s, t, rest) {
      var d :| Spells(d, s, t, rest);
      DocRead(d, rest);
    }
  }

  lemma StandardStops(d: Doc, rest: text)
    requires Standard(d) && !ContinuesNumber(rest)
    ensures Stops(d, rest)
  {
  }

  /** Every JSON text of RFC 8259 is accepted, behind any blanks, and yields its tree; the text behind it is
      left. */
  lemma StandardIsAccepted(d: Doc, blanks: text, rest: text)
    requires DocOk(d) && Standard(d) && Blanks(blanks) && !ContinuesNumber(rest)
    ensures Parse(blanks + (Text(d) + rest)) == Ok(Value(d), rest)
  {
    SkipOver(blanks, Text(d) + rest);
    SkipText(d, rest);
    StandardStops(d, rest);
    DocRead(d, rest);
  }
}
