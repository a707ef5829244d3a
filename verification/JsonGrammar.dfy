/** JSON texts with everything they leave open: the blanks, the spelling of numbers and the escapes in strings
    (RFC 8259), and beyond the standard exactly the liberties that parse_value takes. `Text` writes such a text
    down in literal bytes, and `Value` is the tree that it stands for.
 */
module JsonGrammar {
  import opened Bytes
  import opened JsonText
  import opened Numerals
  import Utf8

  // ---------------------------------------------------------------- strings

  /** A piece of a string: a plain byte, a backslash and one letter, one `\u` escape, or two in a row of which
      the first is a high surrogate. */
  datatype Piece =
    | Plain(b: byte)
    | Short(letter: byte)
    | Sole(hex: text)
    | Joined(high: text, low: text)

  predicate HexByte(b: byte) {
    48 <= b <= 57 || 65 <= b <= 70 || 97 <= b <= 102
  }

  function Nibble(b: byte): nat
    requires HexByte(b)
  {
    if b <= 57 then b - 48 else if b <= 70 then b - 55 else b - 87
  }

  predicate FourHex(hex: text) {
    |hex| == 4 && HexByte(hex[0]) && HexByte(hex[1]) && HexByte(hex[2]) && HexByte(hex[3])
  }

  function CodeUnit(hex: text): (u: nat)
    requires FourHex(hex)
    ensures u < 0x10000
  {
    4096 * Nibble(hex[0]) + 256 * Nibble(hex[1]) + 16 * Nibble(hex[2]) + Nibble(hex[3])
  }

  predicate High(u: nat) { 0xD800 <= u <= 0xDBFF }
  predicate Low(u: nat) { 0xDC00 <= u <= 0xDFFF }

  predicate PieceOk(p: Piece) {
    match p
    case Plain(b) => b != 0 && b != 34 && b != 92
    case Short(letter) => letter != 0 && letter != 117
    case Sole(hex) => FourHex(hex)
    case Joined(high, low) => FourHex(high) && FourHex(low) && High(CodeUnit(high))
  }

  function PieceText(p: Piece): (r: text)
    ensures |r| > 0
  {
    match p
    case Plain(b) => [b]
    case Short(letter) => [92, letter]
    case Sole(hex) => [92, 117] + hex
    case Joined(high, low) => [92, 117] + high + ([92, 117] + low)
  }

  /** `\b`, `\f`, `\n`, `\r` and `\t`; any other letter stands for itself. */
  function LetterByte(letter: byte): byte {
    match letter
    case 98 => 8
    case 102 => 12
    case 110 => 10
    case 114 => 13
    case 116 => 9
    case _ => letter
  }

  /** The offset of a surrogate pair from U+10000. */
  function Offset(high: nat, low: nat): nat
    requires High(high) && Low(low)
  {
    (high - 0xD800) * 1024 + (low - 0xDC00)
  }

  /** Zero and surrogates without a partner stand for nothing. Of a pair, bit 16 of the offset is lost in the
      sum with U+10000. */
  function PieceBytes(p: Piece): text
    requires PieceOk(p)
  {
    match p
    case Plain(b) => [b]
    case Short(letter) => [LetterByte(letter)]
    case Sole(hex) =>
      var u := CodeUnit(hex);
      if u == 0 || High(u) || Low(u) then [] else Utf8.Reference(u)
    case Joined(high, low) =>
      if !Low(CodeUnit(low)) then []
      else
        var o := Offset(CodeUnit(high), CodeUnit(low));
        Utf8.Reference(if o / 0x10000 % 2 == 1 then o else o + 0x10000)
  }

  predicate LoneHigh(p: Piece) {
    p.Sole? && FourHex(p.hex) && High(CodeUnit(p.hex))
  }

  /** No high surrogate stands alone in front of another `\u` escape. */
  predicate PiecesOk(pieces: seq<Piece>) {
    && (forall i :: 0 <= i < |pieces| ==> PieceOk(pieces[i]))
    && (forall i :: 0 <= i < |pieces| - 1 && LoneHigh(pieces[i]) ==> pieces[i + 1].Plain? || pieces[i + 1].Short?)
  }

  function PiecesText(pieces: seq<Piece>): text {
    if |pieces| == 0 then [] else PieceText(pieces[0]) + PiecesText(pieces[1..])
  }

  function PiecesBytes(pieces: seq<Piece>): text
    requires forall i :: 0 <= i < |pieces| ==> PieceOk(pieces[i])
  {
    if |pieces| == 0 then [] else PieceBytes(pieces[0]) + PiecesBytes(pieces[1..])
  }

  // ---------------------------------------------------------------- numbers

  datatype Power = NoPower | Power(letter: byte, sign: text, digits: text)

  /** An optional minus sign, digits, an optional fraction and an optional power of ten. */
  datatype Numeral = Numeral(minus: bool, whole: text, fraction: text, power: Power)

  predicate PowerOk(p: Power) {
    p.Power? ==>
      (p.letter == 101 || p.letter == 69) && (p.sign == [] || p.sign == [43] || p.sign == [45]) && AllDigits(p.digits)
  }

  /** Digits may be missing behind a minus sign or in a power, and one zero may stand in front. */
  predicate NumeralOk(n: Numeral) {
    && AllDigits(n.whole) && AllDigits(n.fraction) && PowerOk(n.power)
    && (n.whole == [] ==> n.minus)
    && (|n.whole| >= 2 && n.whole[0] == 48 ==> n.whole[1] != 48)
  }

  function PowerText(p: Power): text {
    match p
    case NoPower => []
    case Power(letter, sign, digits) => [letter] + (sign + digits)
  }

  function FractionText(fraction: text): text {
    if fraction == [] then [] else [46] + fraction
  }

  function NumeralText(n: Numeral): text {
    (if n.minus then [45] else []) + (n.whole + (FractionText(n.fraction) + PowerText(n.power)))
  }

  function PowerValue(p: Power): int
    requires PowerOk(p)
  {
    if p == NoPower then 0 else if p.sign == [45] then -(Decimal(p.digits) as int) else Decimal(p.digits)
  }

  /** An integer is kept as its pattern of 64 bits, and any other number as digits and a power of ten. */
  function NumeralValue(n: Numeral): Json
    requires NumeralOk(n)
  {
    var m := Decimal(n.whole + n.fraction);
    var e := PowerValue(n.power);
    if n.fraction == [] && e == 0 then
      Int((if n.minus then -(m as int) else m) % 0x1_0000_0000_0000_0000, if n.minus then -1 else 1)
    else
      Double(if n.minus then -1 else 1, m, e - |n.fraction|)
  }

  /** The numeral ends in front of `rest`: no byte there would continue it. */
  predicate NumeralStops(n: Numeral, rest: text) {
    match n.power
    case Power(_, sign, digits) =>
      NoDigitAhead(rest) && (sign == [] && digits == [] ==> At(rest) != 43 && At(rest) != 45)
    case NoPower =>
      && At(rest) != 101 && At(rest) != 69
      && (n.fraction == [] ==> !(|rest| >= 2 && rest[0] == 46 && 48 <= rest[1] <= 57))
      && (if n.fraction == [] && n.whole == [48] then !(49 <= At(rest) <= 57) else NoDigitAhead(rest))
  }

  // ---------------------------------------------------------------- values

  datatype Doc =
    | NullDoc
    | FalseDoc
    | TrueDoc
    | NumberDoc(numeral: Numeral)
    | StringDoc(pieces: seq<Piece>, closed: bool)
    | ArrayDoc(slots: seq<Slot>, gap: text)
    | ObjectDoc(entries: seq<Entry>, gap: text)

  /** An element with the blanks around it. */
  datatype Slot = Slot(before: text, value: Doc, after: text)

  /** A member with the blanks around its key and its value. */
  datatype Entry =
    Entry(before: text, key: seq<Piece>, beforeColon: text, afterColon: text, value: Doc, after: text)

  /** A string without a closing quote, which only the end of the text can follow. */
  predicate Unclosed(d: Doc) {
    d.StringDoc? && !d.closed
  }

  /** The four blanks of RFC 8259 are among these. */
  predicate Blanks(s: text) {
    forall i :: 0 <= i < |s| ==> 1 <= s[i] <= 32
  }

  ghost predicate DocOk(d: Doc)
    decreases d
  {
    match d
    case NumberDoc(n) => NumeralOk(n)
    case StringDoc(pieces, _) => PiecesOk(pieces)
    case ArrayDoc(slots, gap) => Blanks(gap) && forall i :: 0 <= i < |slots| ==> SlotOk(slots[i])
    case ObjectDoc(entries, gap) => Blanks(gap) && forall i :: 0 <= i < |entries| ==> EntryOk(entries[i])
    case _ => true
  }

  ghost predicate SlotOk(s: Slot)
    decreases s
  {
    Blanks(s.before) && Blanks(s.after) && DocOk(s.value) && !Unclosed(s.value)
  }

  ghost predicate EntryOk(e: Entry)
    decreases e
  {
    && Blanks(e.before) && Blanks(e.beforeColon) && Blanks(e.afterColon) && Blanks(e.after)
    && PiecesOk(e.key) && DocOk(e.value) && !Unclosed(e.value)
  }

  function Text(d: Doc): text
    decreases d
  {
    match d
    case NullDoc => [110, 117, 108, 108]
    case FalseDoc => [102, 97, 108, 115, 101]
    case TrueDoc => [116, 114, 117, 101]
    case NumberDoc(n) => NumeralText(n)
    case StringDoc(pieces, closed) => [34] + (PiecesText(pieces) + (if closed then [34] else []))
    case ArrayDoc(slots, gap) => [91] + ((if slots == [] then gap else SlotsText(slots)) + [93])
    case ObjectDoc(entries, gap) => [123] + ((if entries == [] then gap else EntriesText(entries)) + [125])
  }

  function SlotText(s: Slot): text
    decreases s
  {
    s.before + (Text(s.value) + s.after)
  }

  function SlotsText(slots: seq<Slot>): text
    requires |slots| > 0
    decreases slots
  {
    SlotText(slots[0]) + (if |slots| == 1 then [] else [44] + SlotsText(slots[1..]))
  }

  function EntryText(e: Entry): text
    decreases e
  {
    var value := Text(e.value) + e.after;
    e.before + ([34] + (PiecesText(e.key) + ([34] + (e.beforeColon + ([58] + (e.afterColon + value))))))
  }

  function EntriesText(entries: seq<Entry>): text
    requires |entries| > 0
    decreases entries
  {
    EntryText(entries[0]) + (if |entries| == 1 then [] else [44] + EntriesText(entries[1..]))
  }

  ghost function Value(d: Doc): Json
    requires DocOk(d)
    decreases d
  {
    match d
    case NullDoc => Null
    case FalseDoc => False
    case TrueDoc => True
    case NumberDoc(n) => NumeralValue(n)
    case StringDoc(pieces, _) => Str(PiecesBytes(pieces))
    case ArrayDoc(slots, _) => Arr(Values(slots))
    case ObjectDoc(entries, _) => Obj(Members(entries))
  }

  ghost function Values(slots: seq<Slot>): seq<Json>
    requires forall i :: 0 <= i < |slots| ==> SlotOk(slots[i])
    decreases slots
  {
    if |slots| == 0 then [] else [SlotValue(slots[0])] + Values(slots[1..])
  }

  ghost function SlotValue(s: Slot): Json
    requires SlotOk(s)
    decreases s
  {
    Value(s.value)
  }

  ghost function Members(entries: seq<Entry>): seq<Member>
    requires forall i :: 0 <= i < |entries| ==> EntryOk(entries[i])
    decreases entries
  {
    if |entries| == 0 then [] else [EntryMember(entries[0])] + Members(entries[1..])
  }

  ghost function EntryMember(e: Entry): Member
    requires EntryOk(e)
    decreases e
  {
    Member(Keyed(PiecesBytes(e.key)), Value(e.value))
  }

  /** The value ends in front of `rest`. */
  predicate Stops(d: Doc, rest: text) {
    match d
    case NumberDoc(n) => NumeralStops(n, rest)
    case StringDoc(_, closed) => !closed ==> At(rest) == 0
    case _ => true
  }

  /** `s` starts with a text of `t` and goes on with `rest`. */
  ghost predicate IsText(s: text, t: Json, rest: text) {
    exists d :: Spells(d, s, t, rest)
  }

  ghost predicate Spells(d: Doc, s: text, t: Json, rest: text) {
    DocOk(d) && s == Text(d) + rest && Value(d) == t && Stops(d, rest)
  }

  // ---------------------------------------------------------------- the standard

  /** The pieces that RFC 8259 allows and that the parser reads as it says. */
  predicate StandardPiece(p: Piece) {
    match p
    case Plain(b) => b >= 32
    case Short(letter) => letter in [34, 92, 47, 98, 102, 110, 114, 116]
    case Sole(hex) => FourHex(hex) && CodeUnit(hex) != 0 && !High(CodeUnit(hex)) && !Low(CodeUnit(hex))
    case Joined(high, low) =>
      && FourHex(high) && FourHex(low) && High(CodeUnit(high)) && Low(CodeUnit(low))
      && Offset(CodeUnit(high), CodeUnit(low)) / 0x10000 % 2 == 0
  }

  predicate StandardPieces(pieces: seq<Piece>) {
    forall i :: 0 <= i < |pieces| ==> StandardPiece(pieces[i])
  }

  predicate StandardNumeral(n: Numeral) {
    |n.whole| > 0 && (n.whole[0] == 48 ==> |n.whole| == 1) && (n.power.Power? ==> |n.power.digits| > 0)
  }

  /** The texts of RFC 8259. */
  ghost predicate Standard(d: Doc)
    decreases d
  {
    match d
    case NumberDoc(n) => StandardNumeral(n)
    case StringDoc(pieces, closed) => closed && StandardPieces(pieces)
    case ArrayDoc(slots, _) => forall i :: 0 <= i < |slots| ==> Standard(slots[i].value)
    case ObjectDoc(entries, _) =>
      && (forall i :: 0 <= i < |entries| ==> Standard(entries[i].value))
      && (forall i :: 0 <= i < |entries| ==> StandardPieces(entries[i].key))
    case _ => true
  }
}
