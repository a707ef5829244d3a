/** The encoder inside parse_string: a code point is cut into six-bit groups with masks and
    shifts. It is compared with the arithmetic definition of UTF-8 (section 3 of RFC 3629).
 */
module Utf8 {
  import opened Bytes
  import opened Bits

  const MAX_CODE_POINT: nat := 0x10FFFF

  predicate IsHighSurrogate(u: nat) { 0xD800 <= u <= 0xDBFF }
  predicate IsLowSurrogate(u: nat) { 0xDC00 <= u <= 0xDFFF }

  /** UTF-8 as the standard defines it. */
  function Reference(cp: nat): (r: text)
    requires cp <= MAX_CODE_POINT
    ensures 1 <= |r| <= 4
  {
    if cp < 0x80 then [cp]
    else if cp < 0x800 then [0xC0 + cp / 64, 0x80 + cp % 64]
    else if cp < 0x10000 then [0xE0 + cp / 4096, 0x80 + cp / 64 % 64, 0x80 + cp % 64]
    else [0xF0 + cp / 262144, 0x80 + cp / 4096 % 64, 0x80 + cp / 64 % 64, 0x80 + cp % 64]
  }

  /** The number of bytes the code reserves. */
  function Length(uc: nat): nat {
    if uc < 0x80 then 1 else if uc < 0x800 then 2 else if uc < 0x10000 then 3 else 4
  }

  function FirstByteMark(len: nat): nat
    requires 1 <= len <= 4
  {
    if len == 1 then 0x00 else if len == 2 then 0xC0 else if len == 3 then 0xE0 else 0xF0
  }

  /** Storing an unsigned value in a char keeps its low eight bits. */
  function ToChar(x: nat): byte {
    x % 256
  }

  function ContinuationByte(uc: nat): byte {
    ToChar(And(Or(uc, 0x80), 0xBF))
  }

  function LeadByte(uc: nat, len: nat): byte
    requires 1 <= len <= 4
  {
    ToChar(Or(uc, FirstByteMark(len)))
  }

  /** The bytes the code stores, the last one first in time. */
  function Encode(uc: nat): (r: text)
    ensures |r| == Length(uc)
  {
    var len := Length(uc);
    if len == 1 then [LeadByte(uc, 1)]
    else if len == 2 then [LeadByte(uc / 64, 2), ContinuationByte(uc)]
    else if len == 3 then [LeadByte(uc / 64 / 64, 3), ContinuationByte(uc / 64), ContinuationByte(uc)]
    else
      [LeadByte(uc / 64 / 64 / 64, 4), ContinuationByte(uc / 64 / 64), ContinuationByte(uc / 64), ContinuationByte(uc)]
  }

  lemma HighPairKept(hi: nat)
    ensures And(Or(hi, 2), 2) == 2
  {
    OrUnfold(hi, 2);
    OrUnfold(hi / 2, 1);
    var merged := Or(hi, 2);
    AndUnfold(merged, 2);
    AndUnfold(merged / 2, 1);
    AndZero(merged / 4);
  }

  lemma MarkHigh(uc: nat, hi: nat, lo: nat)
    requires uc == hi * 64 + lo && lo < 64
    ensures Or(uc, 0x80) == Or(hi, 2) * 64 + lo
  {
    Pow2Values();
    OrSplit(hi, lo, 2, 0, 6, uc, 0x80);
    OrZero(lo);
  }

  lemma LowSix(lo: nat)
    requires lo < 64
    ensures And(lo, 63) == lo
  {
    MaskSix(lo, 63);
  }

  lemma MaskSix(lo: nat, mask: nat)
    requires lo < 64 && mask == 63
    ensures And(lo, mask) == lo
  {
    Pow2Values();
    MaskBelow(lo, mask, 6);
  }

  lemma MaskBelow(lo: nat, mask: nat, k: nat)
    requires lo < Pow2(k) && mask == Pow2(k) - 1
    ensures And(lo, mask) == lo
  {
    AndMask(lo, k);
    assert mask + 1 == Pow2(k);
    SmallRemainder(lo, Pow2(k));
  }

  lemma SmallRemainder(lo: nat, p: nat)
    requires lo < p
    ensures lo % p == lo
  {
  }

  lemma CutAnd(a: nat, c: nat, b: nat, d: nat, k: nat, p: nat, whole: nat, other: nat)
    requires p == Pow2(k) && c < p && d < p
    requires whole == a * p + c && other == b * p + d
    ensures And(whole, other) == And(a, b) * p + And(c, d)
  {
    AndSplit(a, c, b, d, k, whole, other);
  }

  lemma ClearHigh(merged: nat, hi: nat, lo: nat, mask: nat)
    requires merged == hi * 64 + lo && lo < 64
    requires mask == 2 * 64 + 63
    ensures And(merged, mask) == And(hi, 2) * 64 + lo
  {
    Pow2Values();
    CutAnd(hi, lo, 2, 63, 6, 64, merged, mask);
    LowSix(lo);
  }

  lemma ContinuationOf(uc: nat, hi: nat, lo: nat)
    requires uc == hi * 64 + lo && lo < 64
    ensures And(Or(uc, 0x80), 0xBF) == 0x80 + lo
  {
    MarkHigh(uc, hi, lo);
    ClearHigh(Or(uc, 0x80), Or(hi, 2), lo, 0xBF);
    HighPairKept(hi);
  }

  lemma ContinuationIs(uc: nat)
    ensures ContinuationByte(uc) == 0x80 + uc % 64
  {
    ContinuationOf(uc, uc / 64, uc % 64);
  }

  /** A lead byte: the mark occupies bits above the remaining payload. */
  lemma MarkAbove(x: nat, high: nat, k: nat, p: nat, mark: nat)
    requires p == Pow2(k) && x < p && mark == high * p
    ensures Or(x, mark) == mark + x
  {
    OrSplit(0, x, high, 0, k, x, mark);
    OrZero(x);
    OrZero(high);
  }

  lemma SmallIsByte(v: nat)
    requires v < 256
    ensures ToChar(v) == v
  {
  }

  lemma LeadTwo(x: nat)
    requires x < 32
    ensures LeadByte(x, 2) == 0xC0 + x
  {
    Pow2Values();
    MarkAbove(x, 6, 5, 32, 0xC0);
    SmallIsByte(0xC0 + x);
  }

  lemma LeadThree(x: nat)
    requires x < 16
    ensures LeadByte(x, 3) == 0xE0 + x
  {
    Pow2Values();
    MarkAbove(x, 14, 4, 16, 0xE0);
    SmallIsByte(0xE0 + x);
  }

  lemma LeadFour(x: nat)
    requires x < 8
    ensures LeadByte(x, 4) == 0xF0 + x
  {
    Pow2Values();
    MarkAbove(x, 30, 3, 8, 0xF0);
    SmallIsByte(0xF0 + x);
  }

  lemma LeadAscii(uc: nat)
    requires uc < 0x80
    ensures LeadByte(uc, 1) == uc
  {
    OrZero(uc);
  }

  /** The masks and shifts of the code produce the standard encoding of every code point. */
  lemma EncodeIsUtf8(cp: nat)
    requires cp <= MAX_CODE_POINT
    ensures Encode(cp) == Reference(cp)
  {
    if cp < 0x80 {
      LeadAscii(cp);
    } else {
      ContinuationIs(cp);
      if cp < 0x800 {
        LeadTwo(cp / 64);
      } else {
        ContinuationIs(cp / 64);
        EncodeLong(cp);
      }
    }
  }

  lemma EncodeLong(cp: nat)
    requires 0x800 <= cp <= MAX_CODE_POINT
    requires ContinuationByte(cp) == 0x80 + cp % 64
    requires ContinuationByte(cp / 64) == 0x80 + cp / 64 % 64
    ensures Encode(cp) == Reference(cp)
  {
    assert cp / 64 / 64 == cp / 4096;
    if cp < 0x10000 {
      LeadThree(cp / 4096);
    } else {
      ContinuationIs(cp / 4096);
      assert cp / 4096 / 64 == cp / 262144;
      LeadFour(cp / 262144);
    }
  }

  /** The 20-bit offset that a surrogate pair carries. */
  function PairOffset(high: nat, low: nat): nat {
    high % 0x400 * 0x400 + low % 0x400
  }

  /** The value the code computes from a surrogate pair. */
  function CombinePair(high: nat, low: nat): nat {
    Or(0x10000, Or(And(high, 0x3FF) * 0x400, And(low, 0x3FF)))
  }

  function Bit16(o: nat): bool {
    o / 0x10000 % 2 == 1
  }

  /** The code point of a surrogate pair (section 2.2 of RFC 2781). */
  function PairCodePoint(high: nat, low: nat): nat {
    0x10000 + PairOffset(high, low)
  }

  lemma MaskTen(x: nat)
    ensures And(x, 0x3FF) == x % 0x400
  {
    Pow2Values();
    AndMask(x, 10);
  }

  lemma JoinTen(high: nat, low: nat)
    requires low < 0x400
    ensures Or(high * 0x400, low) == high * 0x400 + low
  {
    Pow2Values();
    OrSplit(high, 0, 0, low, 10, high * 0x400, low);
    OrZero(high);
    OrZero(low);
  }

  lemma CombineIsOr(high: nat, low: nat)
    ensures CombinePair(high, low) == Or(0x10000, PairOffset(high, low))
  {
    MaskTen(high);
    MaskTen(low);
    JoinTen(high % 0x400, low % 0x400);
  }

  lemma OrBit16(o: nat)
    ensures Or(0x10000, o) == if Bit16(o) then o else 0x10000 + o
  {
    Pow2Values();
    var hi, lo := o / 0x10000, o % 0x10000;
    OrSplit(1, 0, hi, lo, 16, 0x10000, o);
    OrZero(lo);
    OrUnfold(1, hi);
    OrZero(hi / 2);
  }

  lemma OffsetBound(high: nat, low: nat)
    ensures PairOffset(high, low) < 0x100000
  {
  }

  lemma CombineCases(high: nat, low: nat)
    ensures CombinePair(high, low) ==
            if Bit16(PairOffset(high, low)) then PairOffset(high, low) else PairCodePoint(high, low)
  {
    CombineIsOr(high, low);
    OrBit16(PairOffset(high, low));
  }

  lemma PairBounds(high: nat, low: nat)
    ensures 0x10000 <= CombinePair(high, low) <= MAX_CODE_POINT
    ensures Bit16(PairOffset(high, low)) ==> 0x10000 <= PairOffset(high, low)
    ensures PairOffset(high, low) + 0x10000 <= MAX_CODE_POINT
  {
    OffsetBound(high, low);
    CombineCases(high, low);
  }

  /** Combining with `|` instead of `+`: the bytes are those of the pair's code point exactly when
      bit 16 of the offset is clear. */
  lemma PairIsRightIffBit16Clear(high: nat, low: nat)
    requires IsHighSurrogate(high) && IsLowSurrogate(low)
    ensures 0x10000 <= CombinePair(high, low) <= MAX_CODE_POINT && PairCodePoint(high, low) <= MAX_CODE_POINT
    ensures Encode(CombinePair(high, low)) == Reference(CombinePair(high, low))
    ensures Encode(CombinePair(high, low)) == Reference(PairCodePoint(high, low))
            <==> !Bit16(PairOffset(high, low))
  {
    PairBounds(high, low);
    CombineCases(high, low);
    EncodeIsUtf8(CombinePair(high, low));
    if Bit16(PairOffset(high, low)) {
      NextPlaneDiffers(PairOffset(high, low));
    }
  }

  lemma NextPlaneDiffers(a: nat)
    requires 0x10000 <= a <= MAX_CODE_POINT - 0x10000
    ensures Reference(a) != Reference(a + 0x10000)
  {
    var b := a + 0x10000;
    assert b / 4096 == a / 4096 + 16;
    assert Reference(a)[1] != Reference(b)[1];
  }
}
