/** 64-bit integers of the JSON engine: an unsigned bit pattern with a separate sign tag,
    printed in decimal and parsed back through two's-complement negation.
 */
module JsonInt {
  import opened Bytes

  const TWO_32: nat := 0x1_0000_0000
  const TWO_63: nat := 0x8000_0000_0000_0000
  const TWO_64: nat := 0x1_0000_0000_0000_0000
  const INT_MAX: nat := 0x7FFF_FFFF
  const UINT_MAX: nat := 0xFFFF_FFFF
  // INT_MIN after the usual arithmetic conversion to an unsigned 64-bit operand
  const INT_MIN_AS_U64: nat := 0xFFFF_FFFF_8000_0000

  type u64 = n: int | 0 <= n < 0x1_0000_0000_0000_0000

  /** Conversion of any integer to an unsigned 64-bit value. */
  function U64(i: int): u64 {
    i % TWO_64
  }

  /** The signed reading of a 64-bit pattern. */
  function Signed64(v: u64): int {
    if v < TWO_63 then v else v - TWO_64
  }

  /** The signed reading of the low 32 bits. */
  function Signed32(v: u64): int {
    var low := v % TWO_32;
    if low < TWO_32 / 2 then low else low - TWO_32
  }

  /** Decimal digits without leading zeros. */
  function Dec(n: nat): (r: text)
    ensures |r| >= 1
    ensures forall i :: 0 <= i < |r| ==> IsDigit(r[i])
    ensures r[0] == ZERO <==> n == 0
    ensures n == 0 ==> |r| == 1
  {
    if n < 10 then [ZERO + n] else Dec(n / 10) + [ZERO + n % 10]
  }

  function DecSigned(i: int): text {
    if i < 0 then [MINUS] + Dec(-i) else Dec(i)
  }

  /** What print_int writes. The first branch compares the unsigned pattern with the
      converted INT_MIN, so no value takes it. */
  function PrintInt(v: u64, sign: int): text {
    if sign == -1 then
      if v <= INT_MAX && v >= INT_MIN_AS_U64 then DecSigned(Signed32(v)) else DecSigned(Signed64(v))
    else
      if v <= UINT_MAX then Dec(v % TWO_32) else Dec(v)
  }

  /** The value of a number text; a decimal that is not an integer keeps its digits and its
      power of ten instead of a binary approximation. */
  datatype Number = IntNum(value: u64, sign: int) | DblNum(sign: int, mantissa: nat, exponent: int)

  /** The digit loop: accumulate decimal digits, return the rest. */
  function Scan(s: text, acc: nat): (r: (nat, text))
    ensures |r.1| <= |s|
    ensures IsDigit(At(s)) ==> |r.1| < |s|
    ensures !IsDigit(At(r.1))
    ensures r.0 >= acc
  {
    if |s| > 0 && IsDigit(s[0]) then Scan(s[1..], acc * 10 + (s[0] - ZERO)) else (acc, s)
  }

  datatype Exponent = Exponent(value: int, rest: text)

  function ParseExponent(s: text): (r: Exponent)
    ensures |r.rest| <= |s|
  {
    if At(s) == LOWER_E || At(s) == UPPER_E then
      var negative := At(s[1..]) == MINUS;
      var digits := if At(s[1..]) == PLUS || negative then s[2..] else s[1..];
      var (n, rest) := Scan(digits, 0);
      var magnitude: int := n;
      Exponent(if negative then -magnitude else magnitude, rest)
    else
      Exponent(0, s)
  }

  /** The rest of a number text once its integral digits are known. */
  function ParseTail(sign: int, n: nat, s: text): (r: (Number, text))
    ensures |r.1| <= |s|
  {
    var fraction := |s| >= 2 && s[0] == DOT && IsDigit(s[1]);
    var (mantissa, afterFraction) := if fraction then Scan(s[1..], n) else (n, s);
    var scale := if fraction then |s[1..]| - |afterFraction| else 0;
    var e := ParseExponent(afterFraction);
    if scale == 0 && e.value == 0 then
      (IntNum(U64(sign * U64(mantissa)), sign), e.rest)
    else
      (DblNum(sign, mantissa, e.value - scale), e.rest)
  }

  function ParseNumber(s: text): (r: (Number, text))
    ensures |r.1| <= |s|
    ensures At(s) == MINUS || IsDigit(At(s)) ==> |r.1| < |s|
  {
    var sign := if At(s) == MINUS then -1 else 1;
    var unsigned := if At(s) == MINUS then s[1..] else s;
    var digits := if At(unsigned) == ZERO then unsigned[1..] else unsigned;
    var (n, rest) := if ZERO < At(digits) <= NINE then Scan(digits, 0) else (0, digits);
    ParseTail(sign, n, rest)
  }

  /** Following text that a number would absorb. */
  predicate ContinuesNumber(s: text) {
    || IsDigit(At(s))
    || At(s) == LOWER_E || At(s) == UPPER_E
    || (|s| >= 2 && s[0] == DOT && IsDigit(s[1]))
  }

  lemma {:induction false} ScanDec(n: nat, rest: text)
    ensures Scan(Dec(n) + rest, 0) == Scan(rest, n)
  {
    if n < 10 {
      assert (Dec(n) + rest)[1..] == rest;
    } else {
      var last := [ZERO + n % 10];
      assert Dec(n) + rest == Dec(n / 10) + (last + rest);
      ScanDec(n / 10, last + rest);
      assert (last + rest)[1..] == rest;
    }
  }

  /** The digit loop never holds a number above the final one: the value of every prefix of the
      digits is at most the value of all of them. */
  lemma {:induction false} PrefixesStayBelow(digits: text, k: nat, acc: nat)
    requires k <= |digits|
    requires forall i :: 0 <= i < |digits| ==> IsDigit(digits[i])
    ensures Scan(digits[..k], acc).0 <= Scan(digits, acc).0
  {
    if k > 0 {
      assert digits[..k][1..] == digits[1..][..k - 1];
      PrefixesStayBelow(digits[1..], k - 1, acc * 10 + (digits[0] - ZERO));
    }
  }

  /** On the text of a 64-bit integer every intermediate accumulation stays below 2^64, so the
      extended-precision accumulator is exact. */
  lemma AccumulationIsExact(v: u64, sign: int, k: nat)
    requires k <= |Dec(Magnitude(v, sign))|
    ensures Scan(Dec(Magnitude(v, sign))[..k], 0).0 < TWO_64
  {
    var m := Magnitude(v, sign);
    PrefixesStayBelow(Dec(m), k, 0);
    ScanDec(m, []);
    assert Dec(m) + [] == Dec(m);
  }

  /** The magnitude print_int writes behind an optional minus sign. */
  function Magnitude(v: u64, sign: int): u64 {
    if PrintsMinus(v, sign) then TWO_64 - v else v
  }

  predicate PrintsMinus(v: u64, sign: int) {
    sign == -1 && v >= TWO_63
  }

  lemma PrintIntShape(v: u64, sign: int)
    ensures PrintInt(v, sign) ==
            (if PrintsMinus(v, sign) then [MINUS] else []) + Dec(Magnitude(v, sign))
  {
    assert [] + Dec(v) == Dec(v);
    if sign != -1 {
      LowIsAll(v);
    }
  }

  lemma LowIsAll(v: u64)
    ensures v <= UINT_MAX ==> v % TWO_32 == v
  {
  }

  lemma ParseDigits(m: u64, rest: text)
    requires !ContinuesNumber(rest)
    ensures var s := Dec(m) + rest;
            var digits := if At(s) == ZERO then s[1..] else s;
            (if ZERO < At(digits) <= NINE then Scan(digits, 0) else (0, digits)) == (m as nat, rest)
  {
    if m == 0 {
      assert (Dec(m) + rest)[1..] == rest;
    } else {
      ScanDec(m, rest);
    }
  }

  lemma ParseNoTail(sign: int, m: u64, rest: text)
    requires !ContinuesNumber(rest)
    ensures ParseTail(sign, m, rest) == (IntNum(U64(sign * m), sign), rest)
  {
  }

  lemma NegationReturns(v: u64)
    requires v > 0
    ensures U64(-1 * (TWO_64 - v)) == v
  {
  }

  lemma MinusReturns(v: u64, rest: text)
    requires v >= TWO_63 && !ContinuesNumber(rest)
    ensures ParseNumber([MINUS] + Dec(TWO_64 - v) + rest) == (IntNum(v, -1), rest)
  {
    var m: u64 := TWO_64 - v;
    ParseDigits(m, rest);
    ParseNoTail(-1, m, rest);
    NegationReturns(v);
    assert ([MINUS] + Dec(m) + rest)[1..] == Dec(m) + rest;
  }

  lemma PlainStart(v: u64, rest: text)
    requires !ContinuesNumber(rest)
    ensures ParseNumber(Dec(v) + rest) == ParseTail(1, v, rest)
  {
    ParseDigits(v, rest);
  }

  lemma OnceIsSame(v: u64)
    ensures U64(1 * v) == v
  {
  }

  lemma PlainReturns(v: u64, rest: text)
    requires !ContinuesNumber(rest)
    ensures ParseNumber(Dec(v) + rest) == (IntNum(v, 1), rest)
  {
    PlainStart(v, rest);
    ParseNoTail(1, v, rest);
    OnceIsSame(v);
  }

  /** parse_number undoes print_int on all 2^64 patterns and every sign tag: the pattern comes
      back unchanged, and the tag is -1 exactly for texts that start with a minus sign. */
  lemma IntRoundTrip(v: u64, sign: int, rest: text)
    requires !ContinuesNumber(rest)
    ensures ParseNumber(PrintInt(v, sign) + rest) ==
            (IntNum(v, if PrintsMinus(v, sign) then -1 else 1), rest)
    ensures At(PrintInt(v, sign)) == MINUS <==> PrintsMinus(v, sign)
  {
    PrintIntShape(v, sign);
    if PrintsMinus(v, sign) {
      MinusReturns(v, rest);
    } else {
      PlainReturns(v, rest);
      assert PrintInt(v, sign) == Dec(v);
    }
  }

  /** The digit loop, which parse_number runs for the integral part, the fraction and the
      exponent. */
  method RunScan(s: text, acc: nat) returns (n: nat, num: text)
    ensures (n, num) == Scan(s, acc)
  {
    n, num := acc, s;
    while IsDigit(At(num))
      invariant Scan(num, n) == Scan(s, acc)
      decreases |num|
    {
      n := n * 10 + (num[0] - ZERO);
      num := num[1..];
    }
  }

  method RunExponent(s: text) returns (e: Exponent)
    ensures e == ParseExponent(s)
  {
    var num: text, subscale: nat, signsubscale := s, 0, 1;
    if At(num) == LOWER_E || At(num) == UPPER_E {
      num := num[1..];
      if At(num) == PLUS {
        num := num[1..];
      } else if At(num) == MINUS {
        signsubscale, num := -1, num[1..];
      }
      subscale, num := RunScan(num, 0);
    }
    e := Exponent(subscale * signsubscale, num);
  }

  method RunTail(sign: int, integral: nat, s: text) returns (result: Number, rest: text)
    ensures (result, rest) == ParseTail(sign, integral, s)
  {
    var n, num: text, scale := integral, s, 0;
    if |num| >= 2 && At(num) == DOT && IsDigit(num[1]) {
      n, num := RunScan(s[1..], integral);
      scale := |s[1..]| - |num|;
    }
    var e := RunExponent(num);
    rest := e.rest;
    if scale == 0 && e.value == 0 {
      result := IntNum(U64(sign * U64(n)), sign);
    } else {
      result := DblNum(sign, n, e.value - scale);
    }
  }

  /** parse_number as it runs, with its pointer moving over the text. */
  method RunParseNumber(s: text) returns (result: Number, rest: text)
    ensures (result, rest) == ParseNumber(s)
  {
    var n: nat, sign := 0, 1;
    var num: text := s;
    if At(num) == MINUS {
      sign, num := -1, num[1..];
    }
    if At(num) == ZERO {
      num := num[1..];
    }
    if ZERO < At(num) <= NINE {
      n, num := RunScan(num, 0);
    }
    result, rest := RunTail(sign, n, num);
  }
}
