/** String literals: parse_string reads exactly the pieces of the grammar. */
module StringTexts {
  import opened Bytes
  import opened JsonGrammar
  import opened JsonString
  import Utf8

  lemma SameNibble(b: byte)
    ensures HexByte(b) <==> IsHex(b)
    ensures HexByte(b) ==> Nibble(b) == HexValue(b)
  {
  }

  lemma SameHex(hex: text)
    requires |hex| == 4
    ensures FourHex(hex) <==> HasHex4(hex)
    ensures FourHex(hex) ==> CodeUnit(hex) == Hex4(hex)
  {
    SameNibble(hex[0]);
    SameNibble(hex[1]);
    SameNibble(hex[2]);
    SameNibble(hex[3]);
  }

  lemma SameOffset(high: nat, low: nat)
    requires High(high) && Low(low)
    ensures Utf8.PairOffset(high, low) == Offset(high, low)
    ensures Offset(high, low) < 0x100000
  {
    assert high % 0x400 == high - 0xD800 && low % 0x400 == low - 0xDC00;
  }

  lemma PairBytes(high: nat, low: nat)
    requires High(high) && Low(low)
    ensures var o := Offset(high, low);
      && (if o / 0x10000 % 2 == 1 then o else o + 0x10000) <= Utf8.MAX_CODE_POINT
      && Utf8.Encode(Utf8.CombinePair(high, low)) == Utf8.Reference(if o / 0x10000 % 2 == 1 then o else o + 0x10000)
  {
    SameOffset(high, low);
    Utf8.CombineCases(high, low);
    Utf8.PairBounds(high, low);
    Utf8.EncodeIsUtf8(Utf8.CombinePair(high, low));
  }

  /** The text goes on with a `\u` escape. */
  predicate EscapeAhead(s: text) {
    |s| >= 2 && s[0] == BACKSLASH && s[1] == LOWER_U
  }

  lemma SoleRead(hex: text, rest: text)
    requires FourHex(hex) && (High(CodeUnit(hex)) ==> !EscapeAhead(rest))
    ensures DecodeUnit([92, 117] + hex + rest) == Emit(PieceBytes(Sole(hex)), rest)
  {
    SameHex(hex);
    DecodeUEscape(hex, rest);
    if CodeUnit(hex) != 0 && !High(CodeUnit(hex)) && !Low(CodeUnit(hex)) {
      Utf8.EncodeIsUtf8(CodeUnit(hex));
    }
  }

  lemma JoinedRead(high: text, low: text, rest: text)
    requires PieceOk(Joined(high, low))
    ensures DecodeUnit([92, 117] + high + ([92, 117] + low + rest)) == Emit(PieceBytes(Joined(high, low)), rest)
  {
    SameHex(high);
    SameHex(low);
    DecodeUEscape(high, [92, 117] + low + rest);
    PartnerRead(CodeUnit(high), low, rest);
    if Low(CodeUnit(low)) {
      PairBytes(CodeUnit(high), CodeUnit(low));
    }
  }

  lemma PartnerRead(uc: nat, low: text, rest: text)
    requires High(uc) && |low| == 4 && HasHex4(low)
    ensures DecodeUtf16(uc, [92, 117] + low + rest) ==
            Emit(if Low(Hex4(low)) then Utf8.Encode(Utf8.CombinePair(uc, Hex4(low))) else [], rest)
  {
    var t := [92, 117] + low + rest;
    assert t[0] == BACKSLASH && t[1] == LOWER_U;
    assert t[2..] == low + rest && t[6..] == rest;
    SameHex4(low, rest);
  }

  /** One piece is one unit of the decoder. */
  lemma PieceRead(p: Piece, rest: text)
    requires PieceOk(p) && (LoneHigh(p) ==> !EscapeAhead(rest))
    ensures !AtEnd(PieceText(p) + rest)
    ensures DecodeUnit(PieceText(p) + rest) == Emit(PieceBytes(p), rest)
  {
    var s := PieceText(p) + rest;
    DropPrefix(PieceText(p), rest);
    match p
    case Plain(b) =>
    case Short(letter) => assert s[1..][0] == s[1];
    case Sole(hex) => SoleRead(hex, rest);
    case Joined(high, low) =>
      assert s == [92, 117] + high + ([92, 117] + low + rest);
      JoinedRead(high, low, rest);
  }

  lemma PieceStarts(p: Piece, rest: text)
    requires PieceOk(p)
    ensures EscapeAhead(PieceText(p) + rest) <==> !p.Plain? && !p.Short?
  {
    DropPrefix(PieceText(p), rest);
  }

  lemma OtherPieces(pieces: seq<Piece>)
    requires |pieces| > 0 && PiecesOk(pieces)
    ensures PiecesOk(pieces[1..]) && PieceOk(pieces[0])
    ensures |pieces| > 1 && LoneHigh(pieces[0]) ==> pieces[1].Plain? || pieces[1].Short?
  {
    assert forall i :: 0 <= i < |pieces| - 1 ==> pieces[1..][i] == pieces[i + 1];
  }

  lemma FirstPiece(pieces: seq<Piece>, rest: text)
    requires |pieces| > 0
    ensures PiecesText(pieces) + rest == PieceText(pieces[0]) + (PiecesText(pieces[1..]) + rest)
  {
  }

  lemma StartOfSome(pieces: seq<Piece>, rest: text)
    requires |pieces| > 0 && PieceOk(pieces[0])
    ensures EscapeAhead(PiecesText(pieces) + rest) <==> !pieces[0].Plain? && !pieces[0].Short?
  {
    FirstPiece(pieces, rest);
    PieceStarts(pieces[0], PiecesText(pieces[1..]) + rest);
  }

  lemma StartOfPieces(pieces: seq<Piece>, rest: text)
    requires PiecesOk(pieces) && AtEnd(rest)
    ensures EscapeAhead(PiecesText(pieces) + rest) <==> |pieces| > 0 && !pieces[0].Plain? && !pieces[0].Short?
  {
    if |pieces| > 0 {
      StartOfSome(pieces, rest);
    } else {
      assert PiecesText(pieces) + rest == rest;
    }
  }

  /** The decoder reads any pieces, up to the end of the literal. */
  lemma {:induction false} PiecesRead(pieces: seq<Piece>, rest: text)
    requires PiecesOk(pieces) && AtEnd(rest)
    ensures Decode(PiecesText(pieces) + rest) == Literal(PiecesBytes(pieces), rest)
    decreases |pieces|
  {
    if |pieces| == 0 {
      assert PiecesText(pieces) + rest == rest;
    } else {
      var tail := PiecesText(pieces[1..]) + rest;
      OtherPieces(pieces);
      StartOfPieces(pieces[1..], rest);
      PieceRead(pieces[0], tail);
      FirstPiece(pieces, rest);
      PiecesRead(pieces[1..], rest);
    }
  }

  // ---------------------------------------------------------------- nothing else is read

  /** The four digits of a `\u` escape. */
  lemma CutEscape(s: text)
    requires EscapeAhead(s) && HasHex4(s[2..])
    ensures FourHex(s[2..6]) && s == [92, 117] + s[2..6] + s[6..] && CodeUnit(s[2..6]) == Hex4(s[2..])
  {
    SameHex(s[2..6]);
    SameHex4(s[2..6], s[6..]);
    assert s[2..] == s[2..6] + s[6..];
  }

  lemma EscapeFound(s: text) returns (p: Piece)
    requires EscapeAhead(s) && DecodeUnit(s).Emit?
    ensures PieceOk(p) && (p.Sole? || p.Joined?) && s == PieceText(p) + DecodeUnit(s).rest
    ensures LoneHigh(p) ==> !EscapeAhead(DecodeUnit(s).rest)
  {
    assert s[1..][0] == s[1];
    CutEscape(s);
    var behind := s[6..];
    if High(CodeUnit(s[2..6])) && EscapeAhead(behind) {
      CutEscape(behind);
      p := Joined(s[2..6], behind[2..6]);
    } else {
      p := Sole(s[2..6]);
    }
  }

  /** A decoded unit is a piece. */
  lemma UnitFound(s: text) returns (p: Piece)
    requires !AtEnd(s) && DecodeUnit(s).Emit?
    ensures PieceOk(p) && s == PieceText(p) + DecodeUnit(s).rest && DecodeUnit(s).out == PieceBytes(p)
    ensures p.Sole? || p.Joined? <==> EscapeAhead(s)
    ensures LoneHigh(p) ==> !EscapeAhead(DecodeUnit(s).rest)
  {
    if EscapeAhead(s) {
      p := EscapeFound(s);
    } else if s[0] == BACKSLASH {
      assert s[1..][0] == s[1];
      p := Short(s[1]);
      assert s == PieceText(p) + s[2..];
    } else {
      p := Plain(s[0]);
    }
    PieceRead(p, DecodeUnit(s).rest);
  }

  lemma ConsPieces(p: Piece, others: seq<Piece>)
    requires PieceOk(p) && forall i :: 0 <= i < |others| ==> PieceOk(others[i])
    ensures forall i :: 0 <= i < |others| + 1 ==> PieceOk(([p] + others)[i])
    ensures PiecesText([p] + others) == PieceText(p) + PiecesText(others)
    ensures PiecesBytes([p] + others) == PieceBytes(p) + PiecesBytes(others)
  {
    assert ([p] + others)[1..] == others;
  }

  lemma AddPiece(p: Piece, others: seq<Piece>, rest: text)
    requires PieceOk(p) && PiecesOk(others) && AtEnd(rest)
    requires LoneHigh(p) ==> !EscapeAhead(PiecesText(others) + rest)
    ensures PiecesOk([p] + others)
    ensures PiecesText([p] + others) + rest == PieceText(p) + (PiecesText(others) + rest)
    ensures PiecesBytes([p] + others) == PieceBytes(p) + PiecesBytes(others)
  {
    ConsPieces(p, others);
    StartOfPieces(others, rest);
    InFront(p, others);
    Assoc(PieceText(p), PiecesText(others), rest);
  }

  lemma Assoc(a: text, b: text, c: text)
    ensures (a + b) + c == a + (b + c)
  {
  }

  lemma InFront(p: Piece, others: seq<Piece>)
    requires PieceOk(p) && PiecesOk(others)
    requires LoneHigh(p) && |others| > 0 ==> others[0].Plain? || others[0].Short?
    ensures PiecesOk([p] + others)
  {
    var all := [p] + others;
    assert forall i :: 0 <= i < |others| ==> all[i + 1] == others[i];
    forall i | 0 <= i < |all| - 1 && LoneHigh(all[i])
      ensures all[i + 1].Plain? || all[i + 1].Short?
    {
      assert i > 0 ==> all[i] == others[i - 1] && all[i + 1] == others[i];
    }
  }

  /** Whatever the decoder reads are pieces. */
  lemma {:induction false} PiecesFound(s: text) returns (pieces: seq<Piece>)
    requires Decode(s).Literal?
    ensures PiecesOk(pieces) && s == PiecesText(pieces) + Decode(s).stop && Decode(s).value == PiecesBytes(pieces)
    decreases |s|
  {
    pieces := [];
    if !AtEnd(s) {
      var p := UnitFound(s);
      pieces := PiecesFound(DecodeUnit(s).rest);
      AddPiece(p, pieces, Decode(s).stop);
      pieces := [p] + pieces;
    }
  }
}
