/** The string routines as they run: a counting pass, an allocation, and a pass that fills the
    buffer through a moving write position. */
module JsonBuffers {
  import opened Bytes
  import opened Utf8
  import opened JsonString

  /** `a` is a NUL-terminated buffer with contents `s`. */
  ghost predicate Holds(a: array<byte>, s: text)
    reads a
  {
    |s| < a.Length && NulFree(s) && (forall i :: 0 <= i < |s| ==> a[i] == s[i]) && a[|s|] == NUL
  }

  /** The contents as a slice. */
  lemma HoldsSlice(a: array<byte>, s: text)
    requires |s| < a.Length
    ensures Holds(a, s) <==> NulFree(s) && a[..|s|] == s && a[|s|] == NUL
  {
  }

  method RunCountUnits(s: text) returns (len: nat, ptr: text)
    ensures (len, ptr) == CountUnits(s)
  {
    len, ptr := 0, s;
    while !AtEnd(ptr)
      invariant CountUnits(s) == (len + CountUnits(ptr).0, CountUnits(ptr).1)
      decreases |ptr|
    {
      len := len + 1;
      if ptr[0] == BACKSLASH && |ptr| >= 2 {
        ptr := ptr[2..];
      } else {
        ptr := ptr[1..];
      }
    }
  }

  /** Store a code point: the write position jumps behind the sequence and the bytes are stored
      from the last to the first. */
  method StoreCodePoint(out: array<byte>, at: nat, uc: nat)
    requires at + Length(uc) <= out.Length
    modifies out
    ensures out[..at] == old(out[..at])
    ensures out[at..at + Length(uc)] == Encode(uc)
  {
    var len := Length(uc);
    var rest, ptr2 := uc, at + len;
    if len == 4 {
      ptr2 := ptr2 - 1;
      out[ptr2] := ContinuationByte(rest);
      rest := rest / 64;
    }
    if len >= 3 {
      ptr2 := ptr2 - 1;
      out[ptr2] := ContinuationByte(rest);
      rest := rest / 64;
    }
    if len >= 2 {
      ptr2 := ptr2 - 1;
      out[ptr2] := ContinuationByte(rest);
      rest := rest / 64;
    }
    ptr2 := ptr2 - 1;
    out[ptr2] := LeadByte(rest, len);
  }

  /** One character or escape of the second pass. */
  method StoreUnit(out: array<byte>, at: nat, s: text) returns (ptr2: nat, ptr: text)
    requires !AtEnd(s) && DecodeUnit(s).Emit?
    requires at + |DecodeUnit(s).out| <= out.Length
    modifies out
    ensures ptr == DecodeUnit(s).rest && ptr2 == at + |DecodeUnit(s).out|
    ensures out[..ptr2] == old(out[..at]) + DecodeUnit(s).out
  {
    if s[0] != BACKSLASH {
      out[at] := s[0];
      ptr2, ptr := at + 1, s[1..];
    } else if s[1] != LOWER_U {
      out[at] := SimpleEscape(s[1]);
      ptr2, ptr := at + 1, s[2..];
    } else {
      var uc := Hex4(s[2..]);
      ptr2, ptr := StoreUtf16(out, at, uc, s[6..]);
    }
  }

  method StoreUtf16(out: array<byte>, at: nat, uc: nat, s: text) returns (ptr2: nat, ptr: text)
    requires DecodeUtf16(uc, s).Emit?
    requires at + |DecodeUtf16(uc, s).out| <= out.Length
    modifies out
    ensures ptr == DecodeUtf16(uc, s).rest && ptr2 == at + |DecodeUtf16(uc, s).out|
    ensures out[..ptr2] == old(out[..at]) + DecodeUtf16(uc, s).out
  {
    ptr2, ptr := at, s;
    if IsLowSurrogate(uc) || uc == 0 {
      return;
    }
    var code := uc;
    if IsHighSurrogate(uc) {
      if !(|s| >= 2 && s[0] == BACKSLASH && s[1] == LOWER_U) {
        return;
      }
      var low := Hex4(s[2..]);
      ptr := s[6..];
      if !IsLowSurrogate(low) {
        return;
      }
      code := CombinePair(uc, low);
    }
    StoreCodePoint(out, at, code);
    ptr2 := at + Length(code);
    assert out[..ptr2] == out[..at] + out[at..ptr2];
  }

  /** parse_string: NULL when the text is not a literal, otherwise a fresh buffer with the value
      and the text behind the literal. Every store is within the `len + 1` bytes of the buffer. */
  method RunParseString(s: text) returns (out: array?<byte>, rest: text)
    requires !ParseString(s).BadString?
    ensures out == null <==> ParseString(s).NotAString?
    ensures out != null ==> fresh(out) && out.Length == CountUnits(s[1..]).0 + 1
    ensures out != null ==> Holds(out, ParseString(s).value) && rest == ParseString(s).rest
  {
    if At(s) != QUOTE {
      return null, s;
    }
    var body := s[1..];
    var len, stop := RunCountUnits(body);
    PassesAgree(body);
    DecodeNulFree(body);
    var buffer := new byte[len + 1];
    var ptr, ptr2 := body, 0;
    while !AtEnd(ptr)
      invariant 0 <= ptr2 <= len && Decode(ptr).Literal?
      invariant ptr2 + |Decode(ptr).value| <= len
      invariant Decode(body) == Literal(buffer[..ptr2] + Decode(ptr).value, Decode(ptr).stop)
      decreases |ptr|
    {
      DecodeStep(body, buffer[..ptr2], ptr);
      ptr2, ptr := StoreUnit(buffer, ptr2, ptr);
    }
    ghost var value := buffer[..ptr2];
    assert value + [] == value;
    buffer[ptr2] := NUL;
    out := buffer;
    assert out[..ptr2] == value;
    HoldsSlice(out, value);
    rest := AfterStop(ptr);
  }

  method RunCount(s: text) returns (len: nat)
    ensures len == Count(s)
  {
    len := 0;
    var i := 0;
    while i < |s|
      invariant 0 <= i <= |s|
      invariant len == Count(s[..i])
    {
      assert s[..i + 1] == s[..i] + [s[i]];
      EscapeSnoc(s[..i], s[i]);
      len := len + CountByte(s[i]);
      i := i + 1;
    }
    assert s[..|s|] == s;
  }

  /** Store the bytes written for one character. */
  method StoreEscape(out: array<byte>, at: nat, b: byte) returns (ptr2: nat)
    requires at + |EscapeByte(b)| < out.Length
    modifies out
    ensures ptr2 == at + |EscapeByte(b)|
    ensures out[..ptr2] == old(out[..at]) + EscapeByte(b)
  {
    ptr2 := at;
    if b > 31 && b != QUOTE && b != BACKSLASH {
      out[ptr2] := b;
      ptr2 := ptr2 + 1;
      return;
    }
    out[ptr2] := BACKSLASH;
    ptr2 := ptr2 + 1;
    if |EscapeByte(b)| == 2 {
      out[ptr2] := EscapeByte(b)[1];
      ptr2 := ptr2 + 1;
    } else {
      // sprintf "u%04x", which also stores a terminator behind the five bytes
      out[ptr2], out[ptr2 + 1], out[ptr2 + 2] := LOWER_U, ZERO, ZERO;
      out[ptr2 + 3], out[ptr2 + 4] := HexDigit(b / 16), HexDigit(b % 16);
      out[ptr2 + 5] := NUL;
      ptr2 := ptr2 + 5;
    }
  }

  /** print_string_ptr fills its buffer of `len + 3` bytes exactly: the quoted text and the
      terminator. */
  method RunPrintString(s: text) returns (out: array<byte>)
    requires NulFree(s)
    ensures fresh(out) && out.Length == Count(s) + 3
    ensures out[..] == PrintString(s) + [NUL]
  {
    var len := RunCount(s);
    CountIsExact(s);
    out := new byte[len + 3];
    out[0] := QUOTE;
    var ptr2, ptr := 1, s;
    while |ptr| > 0
      invariant 1 <= ptr2 && ptr2 + |Escape(ptr)| == len + 1
      invariant out[..ptr2] + Escape(ptr) == [QUOTE] + Escape(s)
      decreases |ptr|
    {
      ghost var before, after := out[..ptr2], Escape(ptr[1..]);
      assert before + (EscapeByte(ptr[0]) + after) == before + EscapeByte(ptr[0]) + after;
      ptr2 := StoreEscape(out, ptr2, ptr[0]);
      ptr := ptr[1..];
    }
    Finish(out, ptr2, [QUOTE] + Escape(s));
  }

  method Finish(out: array<byte>, ptr2: nat, ghost before: text)
    requires ptr2 + 2 == out.Length && out[..ptr2] + [] == before
    modifies out
    ensures out[..] == before + [QUOTE] + [NUL]
  {
    out[ptr2] := QUOTE;
    out[ptr2 + 1] := NUL;
    assert out[..ptr2] == before;
    assert out[..] == out[..ptr2] + [QUOTE] + [NUL];
  }

  // ---------------------------------------------------------------- C strings

  /** strcpy followed by strlen of the source: the position behind the copied text. */
  method StrCopy(out: array<byte>, at: nat, src: array<byte>, ghost s: text) returns (end: nat)
    requires Holds(src, s) && src != out
    requires at + |s| < out.Length
    modifies out
    ensures end == at + |s| && out[..end] == old(out[..at]) + s && out[end] == NUL
  {
    var i := 0;
    while src[i] != NUL
      invariant 0 <= i <= |s|
      invariant forall k :: 0 <= k < |s| ==> src[k] == s[k]
      invariant src[|s|] == NUL
      invariant out[..at + i] == old(out[..at]) + s[..i]
      decreases |s| - i
    {
      out[at + i] := src[i];
      i := i + 1;
    }
    out[at + i] := NUL;
    end := at + i;
  }

  /** sprintf into a buffer. */
  method Store(out: array<byte>, s: text)
    requires |s| < out.Length && NulFree(s)
    modifies out
    ensures Holds(out, s)
  {
    var i := 0;
    while i < |s|
      invariant 0 <= i <= |s| && out[..i] == s[..i]
    {
      out[i] := s[i];
      i := i + 1;
    }
    out[i] := NUL;
  }

  method StrDup(s: text) returns (out: array<byte>)
    requires NulFree(s)
    ensures fresh(out) && Holds(out, s)
  {
    out := new byte[|s| + 1];
    Store(out, s);
  }

  method StrLen(a: array<byte>, ghost s: text) returns (n: nat)
    requires Holds(a, s)
    ensures n == |s|
  {
    n := 0;
    while a[n] != NUL
      invariant 0 <= n <= |s|
      invariant forall k :: 0 <= k < |s| ==> a[k] == s[k]
      decreases |s| - n
    {
      n := n + 1;
    }
  }

  /** cJSON_strdup of a buffer. */
  method StrDupBuffer(src: array<byte>, ghost s: text) returns (out: array<byte>)
    requires Holds(src, s)
    ensures fresh(out) && Holds(out, s)
  {
    var len := StrLen(src, s);
    out := new byte[len + 1];
    var end := StrCopy(out, 0, src, s);
    assert out[..end] == [] + s;
  }
}
