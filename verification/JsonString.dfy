/** String literals: the escaping writer print_string_ptr and the two-pass reader parse_string.

    Literals whose escapes are malformed (a backslash before the terminator, or `\u` without four
    hexadecimal digits; see section 7 of RFC 8259) have no meaning here.
 */
module JsonString {
  import opened Bytes
  import opened Utf8

  // ---------------------------------------------------------------- writing

  function HexDigit(d: nat): byte
    requires d < 16
  {
    if d < 10 then ZERO + d else 97 + d - 10
  }

  /** The bytes written for one character. */
  function EscapeByte(b: byte): text {
    if b > 31 && b != QUOTE && b != BACKSLASH then [b]
    else if b == BACKSLASH then [BACKSLASH, BACKSLASH]
    else if b == QUOTE then [BACKSLASH, QUOTE]
    else if b == BACKSPACE then [BACKSLASH, LOWER_B]
    else if b == FORM_FEED then [BACKSLASH, LOWER_F]
    else if b == NEWLINE then [BACKSLASH, LOWER_N]
    else if b == RETURN then [BACKSLASH, LOWER_R]
    else if b == TAB then [BACKSLASH, LOWER_T]
    else [BACKSLASH, LOWER_U, ZERO, ZERO, HexDigit(b / 16), HexDigit(b % 16)]
  }

  function Escape(s: text): text {
    if |s| == 0 then [] else EscapeByte(s[0]) + Escape(s[1..])
  }

  function PrintString(s: text): text {
    [QUOTE] + Escape(s) + [QUOTE]
  }

  /** The room the counting pass adds for one character. */
  function CountByte(b: byte): nat {
    if b in [QUOTE, BACKSLASH, BACKSPACE, FORM_FEED, NEWLINE, RETURN, TAB] then 2
    else if b < 32 then 6
    else 1
  }

  function Count(s: text): nat {
    if |s| == 0 then 0 else CountByte(s[0]) + Count(s[1..])
  }

  /** The counting pass of print_string_ptr is exact. */
  lemma {:induction false} CountIsExact(s: text)
    ensures Count(s) == |Escape(s)|
  {
    if |s| > 0 {
      assert CountByte(s[0]) == |EscapeByte(s[0])|;
      CountIsExact(s[1..]);
    }
  }

  lemma {:induction false} EscapeSnoc(s: text, b: byte)
    ensures Escape(s + [b]) == Escape(s) + EscapeByte(b)
    ensures Count(s + [b]) == Count(s) + CountByte(b)
  {
    if |s| == 0 {
      assert s + [b] == [b];
      assert Escape([b][1..]) == [];
    } else {
      assert (s + [b])[1..] == s[1..] + [b];
      EscapeSnoc(s[1..], b);
    }
  }

  // ---------------------------------------------------------------- reading

  predicate IsHex(b: byte) {
    IsDigit(b) || 97 <= b <= 102 || 65 <= b <= 70
  }

  function HexValue(b: byte): nat
    requires IsHex(b)
  {
    if IsDigit(b) then b - ZERO else if b >= 97 then b - 87 else b - 55
  }

  predicate HasHex4(s: text) {
    |s| >= 4 && IsHex(s[0]) && IsHex(s[1]) && IsHex(s[2]) && IsHex(s[3])
  }

  function Hex4(s: text): nat
    requires HasHex4(s)
  {
    ((HexValue(s[0]) * 16 + HexValue(s[1])) * 16 + HexValue(s[2])) * 16 + HexValue(s[3])
  }

  function SimpleEscape(b: byte): byte {
    if b == LOWER_B then BACKSPACE
    else if b == LOWER_F then FORM_FEED
    else if b == LOWER_N then NEWLINE
    else if b == LOWER_R then RETURN
    else if b == LOWER_T then TAB
    else b
  }

  /** One character or one escape of a literal: the bytes it stands for and the text behind it. */
  datatype Unit = Emit(out: text, rest: text) | Malformed

  predicate AtEnd(s: text) {
    At(s) == QUOTE || At(s) == NUL
  }

  function DecodeUnit(s: text): (u: Unit)
    requires !AtEnd(s)
    ensures u.Emit? ==> |u.rest| < |s|
  {
    if s[0] != BACKSLASH then Emit([s[0]], s[1..])
    else if At(s[1..]) == NUL then Malformed
    else if s[1] != LOWER_U then Emit([SimpleEscape(s[1])], s[2..])
    else if !HasHex4(s[2..]) then Malformed
    else DecodeUtf16(Hex4(s[2..]), s[6..])
  }

  /** The `\u` case; `s` is the text behind the four digits. Invalid code units are dropped. */
  function DecodeUtf16(uc: nat, s: text): (u: Unit)
    ensures u.Emit? ==> |u.rest| <= |s|
  {
    if IsLowSurrogate(uc) || uc == 0 then Emit([], s)
    else if IsHighSurrogate(uc) then
      if !(|s| >= 2 && s[0] == BACKSLASH && s[1] == LOWER_U) then Emit([], s)
      else if !HasHex4(s[2..]) then Malformed
      else if !IsLowSurrogate(Hex4(s[2..])) then Emit([], s[6..])
      else Emit(Encode(CombinePair(uc, Hex4(s[2..]))), s[6..])
    else Emit(Encode(uc), s)
  }

  /** The contents of a literal and the text at which it stops: its closing quote or, for an
      unterminated literal, the end. */
  datatype Literal = Literal(value: text, stop: text) | BadLiteral

  function Decode(s: text): (r: Literal)
    ensures r.Literal? ==> |r.stop| <= |s| && AtEnd(r.stop)
  {
    if AtEnd(s) then Literal([], s)
    else
      match DecodeUnit(s)
      case Malformed => BadLiteral
      case Emit(out, rest) =>
        match Decode(rest)
        case BadLiteral => BadLiteral
        case Literal(value, stop) => Literal(out + value, stop)
  }

  /** One round of the loop of parse_string: `done` is what has been decoded in front of `ptr`. */
  lemma DecodeStep(body: text, done: text, ptr: text)
    requires !AtEnd(ptr) && Decode(ptr).Literal?
    requires Decode(body) == Literal(done + Decode(ptr).value, Decode(ptr).stop)
    ensures DecodeUnit(ptr).Emit? && Decode(DecodeUnit(ptr).rest).Literal?
    ensures var u := DecodeUnit(ptr);
      && |Decode(ptr).value| == |u.out| + |Decode(u.rest).value|
      && Decode(body) == Literal(done + u.out + Decode(u.rest).value, Decode(u.rest).stop)
  {
    var u := DecodeUnit(ptr);
    assert Decode(ptr).value == u.out + Decode(u.rest).value;
    assert done + (u.out + Decode(u.rest).value) == done + u.out + Decode(u.rest).value;
  }

  datatype StringResult = GotString(value: text, rest: text) | NotAString | BadString

  function ParseString(s: text): (r: StringResult)
    ensures r.GotString? ==> |r.rest| < |s|
  {
    if At(s) != QUOTE then NotAString
    else
      match Decode(s[1..])
      case BadLiteral => BadString
      case Literal(value, stop) => GotString(value, AfterStop(stop))
  }

  function AfterStop(stop: text): text {
    if At(stop) == QUOTE then stop[1..] else stop
  }

  /** The first pass of parse_string: it counts units, skipping the byte behind a backslash. */
  function CountUnits(s: text): (r: (nat, text))
    ensures |r.1| <= |s|
  {
    if AtEnd(s) then (0, s)
    else
      var rest := if s[0] == BACKSLASH && |s| >= 2 then s[2..] else s[1..];
      var (n, stop) := CountUnits(rest);
      (n + 1, stop)
  }

  lemma {:induction false} CountPlain(s: text, k: nat)
    requires k <= |s|
    requires forall i :: 0 <= i < k ==> IsHex(s[i])
    ensures CountUnits(s) == (CountUnits(s[k..]).0 + k, CountUnits(s[k..]).1)
  {
    if k == 0 {
      assert s[0..] == s;
    } else {
      assert s[1..][k - 1..] == s[k..];
      CountPlain(s[1..], k - 1);
    }
  }

  lemma CountEscape(s: text)
    requires |s| >= 2 && s[0] == BACKSLASH && s[1] == LOWER_U && HasHex4(s[2..])
    ensures CountUnits(s) == (CountUnits(s[6..]).0 + 5, CountUnits(s[6..]).1)
  {
    CountBackslash(s);
    CountHex4(s[2..]);
    assert s[2..][4..] == s[6..];
  }

  lemma CountHex4(s: text)
    requires HasHex4(s)
    ensures CountUnits(s) == (CountUnits(s[4..]).0 + 4, CountUnits(s[4..]).1)
  {
    CountPlain(s, 4);
  }

  lemma CountBackslash(s: text)
    requires |s| >= 2 && s[0] == BACKSLASH
    ensures CountUnits(s) == (CountUnits(s[2..]).0 + 1, CountUnits(s[2..]).1)
  {
  }

  lemma EncodeFits(uc: nat)
    ensures |Encode(uc)| <= if uc < 0x10000 then 3 else 4
  {
  }

  lemma CountPair(s: text, uc: nat)
    requires uc < 0x10000 && DecodeUtf16(uc, s).Emit?
    ensures var u := DecodeUtf16(uc, s);
            CountUnits(s).1 == CountUnits(u.rest).1 && CountUnits(s).0 + 5 >= CountUnits(u.rest).0 + |u.out|
  {
    EncodeFits(uc);
    if |s| >= 2 && s[0] == BACKSLASH && s[1] == LOWER_U && HasHex4(s[2..]) {
      CountEscape(s);
      EncodeFits(CombinePair(uc, Hex4(s[2..])));
    }
  }

  /** Counting over one decoded unit reserves at least the bytes it emits. */
  lemma CountUnit(s: text)
    requires !AtEnd(s) && DecodeUnit(s).Emit?
    ensures var u := DecodeUnit(s);
            CountUnits(s).1 == CountUnits(u.rest).1 && CountUnits(s).0 >= CountUnits(u.rest).0 + |u.out|
  {
    if s[0] == BACKSLASH && s[1] == LOWER_U {
      CountEscape(s);
      Hex4Bound(s[2..]);
      CountPair(s[6..], Hex4(s[2..]));
    }
  }

  /** Both passes of parse_string stop at the same closing quote, and the buffer of the first
      pass holds everything the second pass writes. */
  lemma {:induction false} PassesAgree(s: text)
    requires Decode(s).Literal?
    ensures CountUnits(s).1 == Decode(s).stop
    ensures |Decode(s).value| <= CountUnits(s).0
    decreases |s|
  {
    if !AtEnd(s) {
      CountUnit(s);
      PassesAgree(DecodeUnit(s).rest);
    }
  }

  // ---------------------------------------------------------------- round trip

  lemma HexDigitValue(d: nat)
    requires d < 16
    ensures IsHex(HexDigit(d)) && HexValue(HexDigit(d)) == d
  {
  }

  lemma DecodeUEscape(digits: text, rest: text)
    requires |digits| == 4 && HasHex4(digits)
    ensures DecodeUnit([BACKSLASH, LOWER_U] + digits + rest) == DecodeUtf16(Hex4(digits), rest)
  {
    var s := [BACKSLASH, LOWER_U] + digits + rest;
    assert s[0] == BACKSLASH && s[1..][0] == LOWER_U && s[1] == LOWER_U;
    assert s[2..] == digits + rest && s[6..] == rest;
    SameHex4(digits, rest);
  }

  lemma ControlEscape(b: byte, rest: text)
    requires 0 < b < 32
    ensures DecodeUnit([BACKSLASH, LOWER_U, ZERO, ZERO, HexDigit(b / 16), HexDigit(b % 16)] + rest) == Emit([b], rest)
  {
    var digits := [ZERO, ZERO, HexDigit(b / 16), HexDigit(b % 16)];
    HexDigitValue(b / 16);
    HexDigitValue(b % 16);
    assert Hex4(digits) == b;
    DecodeUEscape(digits, rest);
    assert [BACKSLASH, LOWER_U] + digits == [BACKSLASH, LOWER_U, ZERO, ZERO, HexDigit(b / 16), HexDigit(b % 16)];
    EncodeIsUtf8(b);
  }

  lemma DecodeEscapedByte(b: byte, rest: text)
    requires b != NUL
    ensures !AtEnd(EscapeByte(b) + rest)
    ensures DecodeUnit(EscapeByte(b) + rest) == Emit([b], rest)
  {
    var s := EscapeByte(b) + rest;
    DropPrefix(EscapeByte(b), rest);
    if |EscapeByte(b)| == 6 {
      ControlEscape(b, rest);
    } else if |EscapeByte(b)| == 2 {
      assert s[1..][0] == s[1];
    }
  }

  lemma {:induction false} DecodeEscape(s: text, rest: text)
    requires NulFree(s) && AtEnd(rest)
    ensures Decode(Escape(s) + rest) == Literal(s, rest)
  {
    if |s| == 0 {
      assert Escape(s) + rest == rest;
    } else {
      var tail := Escape(s[1..]) + rest;
      assert Escape(s) + rest == EscapeByte(s[0]) + tail;
      DecodeEscapedByte(s[0], tail);
      DecodeEscape(s[1..], rest);
      assert [s[0]] + s[1..] == s;
    }
  }

  /** parse_string inverts print_string_ptr on every NUL-free byte string. */
  lemma StringRoundTrip(s: text, rest: text)
    requires NulFree(s)
    ensures ParseString(PrintString(s) + rest) == GotString(s, rest)
  {
    var closing := [QUOTE] + rest;
    assert (PrintString(s) + rest)[1..] == Escape(s) + closing;
    DecodeEscape(s, closing);
    assert closing[1..] == rest;
  }

  /** Every decoded literal is free of NUL bytes. */
  lemma EncodeNulFree(uc: nat)
    requires 0 < uc <= MAX_CODE_POINT
    ensures NulFree(Encode(uc))
  {
    EncodeIsUtf8(uc);
  }

  lemma Hex4Bound(s: text)
    requires HasHex4(s)
    ensures Hex4(s) < 0x10000
  {
  }

  lemma UnitNulFree(s: text)
    requires !AtEnd(s) && DecodeUnit(s).Emit?
    ensures NulFree(DecodeUnit(s).out)
  {
    if s[0] == BACKSLASH && s[1] == LOWER_U {
      Hex4Bound(s[2..]);
      Utf16NulFree(Hex4(s[2..]), s[6..]);
    } else if s[0] == BACKSLASH {
      assert s[1..][0] == s[1];
    }
  }

  lemma Utf16NulFree(uc: nat, s: text)
    requires uc < 0x10000 && DecodeUtf16(uc, s).Emit?
    ensures NulFree(DecodeUtf16(uc, s).out)
  {
    if IsHighSurrogate(uc) {
      if |s| >= 2 && s[0] == BACKSLASH && s[1] == LOWER_U && IsLowSurrogate(Hex4(s[2..])) {
        PairBounds(uc, Hex4(s[2..]));
        EncodeNulFree(CombinePair(uc, Hex4(s[2..])));
      }
    } else if uc > 0 && !IsLowSurrogate(uc) {
      EncodeNulFree(uc);
    }
  }

  lemma {:induction false} DecodeNulFree(s: text)
    requires Decode(s).Literal?
    ensures NulFree(Decode(s).value)
    decreases |s|
  {
    if !AtEnd(s) {
      UnitNulFree(s);
      DecodeNulFree(DecodeUnit(s).rest);
    }
  }

  // ---------------------------------------------------------------- transcoding

  /** Every non-zero code unit outside the surrogate range becomes its UTF-8 bytes. */
  lemma BasicPlaneEscape(digits: text, rest: text)
    requires |digits| == 4 && HasHex4(digits)
    requires Hex4(digits) != 0 && !IsHighSurrogate(Hex4(digits)) && !IsLowSurrogate(Hex4(digits))
    ensures Hex4(digits) <= MAX_CODE_POINT
    ensures DecodeUnit([BACKSLASH, LOWER_U] + digits + rest) == Emit(Reference(Hex4(digits)), rest)
  {
    DecodeUEscape(digits, rest);
    Hex4Bound(digits);
    EncodeIsUtf8(Hex4(digits));
  }

  lemma DecodePair(uc: nat, low: text, rest: text)
    requires IsHighSurrogate(uc)
    requires |low| == 4 && HasHex4(low) && IsLowSurrogate(Hex4(low))
    ensures DecodeUtf16(uc, [BACKSLASH, LOWER_U] + low + rest) == Emit(Encode(CombinePair(uc, Hex4(low))), rest)
  {
    var t := [BACKSLASH, LOWER_U] + low + rest;
    assert t[0] == BACKSLASH && t[1] == LOWER_U;
    assert t[6..] == rest;
    assert t[2..] == low + rest;
    SameHex4(low, rest);
  }

  lemma SameHex4(digits: text, rest: text)
    requires |digits| == 4 && HasHex4(digits)
    ensures HasHex4(digits + rest) && Hex4(digits + rest) == Hex4(digits)
  {
  }

  /** A surrogate pair becomes four bytes; they encode the pair's code point exactly when bit 16
      of its offset is clear. */
  lemma SurrogatePairEscape(high: text, low: text, rest: text)
    requires |high| == 4 && HasHex4(high) && IsHighSurrogate(Hex4(high))
    requires |low| == 4 && HasHex4(low) && IsLowSurrogate(Hex4(low))
    ensures var h, l := Hex4(high), Hex4(low);
            && PairCodePoint(h, l) <= MAX_CODE_POINT
            && 0x10000 <= CombinePair(h, l) <= MAX_CODE_POINT
            && var u := DecodeUnit([BACKSLASH, LOWER_U] + high + ([BACKSLASH, LOWER_U] + low + rest));
            && u == Emit(Reference(CombinePair(h, l)), rest)
            && (u.out == Reference(PairCodePoint(h, l)) <==> !Bit16(PairOffset(h, l)))
  {
    DecodeUEscape(high, [BACKSLASH, LOWER_U] + low + rest);
    DecodePair(Hex4(high), low, rest);
    PairIsRightIffBit16Clear(Hex4(high), Hex4(low));
  }

  // "D840" and "DC00"
  const D840: text := [68, 56, 52, 48]
  const DC00: text := [68, 67, 48, 48]

  lemma PairD840Read()
    ensures HasHex4(D840) && Hex4(D840) == 0xD840 && HasHex4(DC00) && Hex4(DC00) == 0xDC00
    ensures IsHighSurrogate(0xD840) && IsLowSurrogate(0xDC00)
  {
  }

  lemma PairD840Offset(high: nat, low: nat)
    requires high == 0xD840 && low == 0xDC00
    ensures PairOffset(high, low) == 0x10000
  {
  }

  lemma LostBit(high: nat, low: nat, o: nat)
    requires PairOffset(high, low) == o && Bit16(o)
    ensures CombinePair(high, low) == o && PairCodePoint(high, low) == 0x10000 + o
  {
    CombineCases(high, low);
  }

  /** The pair D840 DC00 stands for U+20000, and decodes to the bytes of U+10000. */
  lemma PairD840IsWrong(rest: text)
    ensures DecodeUnit([BACKSLASH, LOWER_U] + D840 + ([BACKSLASH, LOWER_U] + DC00 + rest)) ==
      Emit(Reference(0x10000), rest)
    ensures PairCodePoint(Hex4(D840), Hex4(DC00)) == 0x20000 && Reference(0x10000) != Reference(0x20000)
  {
    PairD840Read();
    PairD840Offset(Hex4(D840), Hex4(DC00));
    LostBit(Hex4(D840), Hex4(DC00), 0x10000);
    SurrogatePairEscape(D840, DC00, rest);
    NextPlaneDiffers(0x10000);
  }

  /** Code units that cannot stand alone are dropped from the value. */
  lemma InvalidUnitsDropped(digits: text, rest: text)
    requires |digits| == 4 && HasHex4(digits)
    requires || Hex4(digits) == 0
             || IsLowSurrogate(Hex4(digits))
             || (IsHighSurrogate(Hex4(digits)) && !([BACKSLASH, LOWER_U] <= rest))
    ensures DecodeUnit([BACKSLASH, LOWER_U] + digits + rest) == Emit([], rest)
  {
  }
}
