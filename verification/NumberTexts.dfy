/** Numbers: parse_number reads exactly the numerals of the grammar. */
module NumberTexts {
  import opened Bytes
  import opened JsonGrammar
  import opened JsonInt
  import opened JsonText
  import opened Numerals

  /** The digits of the integral part end in front of `tail`. */
  predicate WholeStops(whole: text, tail: text) {
    if whole == [48] then !(49 <= At(tail) <= 57) else NoDigitAhead(tail)
  }

  /** The first digit loop, behind one zero at most. */
  function Integral(s: text): (nat, text) {
    var digits := if At(s) == ZERO then s[1..] else s;
    if ZERO < At(digits) <= NINE then Scan(digits, 0) else (0, digits)
  }

  lemma DigitsFromZero(digits: text, tail: text)
    requires AllDigits(digits) && NoDigitAhead(tail)
    ensures Scan(digits + tail, 0) == (Decimal(digits), tail)
  {
    ScanReads([], digits, tail);
    assert [] + digits == digits;
  }

  lemma ZeroAdds(zero: text, digits: text, tail: text)
    requires zero == [48] && AllDigits(digits) && NoDigitAhead(tail)
    ensures AllDigits(zero + digits) && Decimal(zero + digits) == Decimal(digits)
  {
    DecimalSnoc([], 48);
    assert [] + [48] == zero;
    ScanReads(zero, digits, tail);
    DigitsFromZero(digits, tail);
  }

  lemma PlainWhole(whole: text, tail: text)
    requires AllDigits(whole) && |whole| > 0 && whole[0] != 48 && NoDigitAhead(tail)
    ensures Integral(whole + tail) == (Decimal(whole), tail)
  {
    DigitsFromZero(whole, tail);
  }

  lemma ZeroWhole(whole: text, tail: text)
    requires whole == [48] && !(49 <= At(tail) <= 57)
    ensures Integral(whole + tail) == (Decimal(whole), tail)
  {
    ZeroAdds(whole, [], []);
    assert whole + [] == whole && (whole + tail)[1..] == tail;
  }

  lemma LeadingZero(whole: text, others: text, tail: text)
    requires AllDigits(others) && |others| > 0 && others[0] != 48 && NoDigitAhead(tail)
    requires whole == [48] + others
    ensures Integral(whole + tail) == (Decimal(whole), tail)
  {
    ZeroAdds([48], others, tail);
    assert (whole + tail)[1..] == others + tail;
    DigitsFromZero(others, tail);
  }

  lemma WholeRead(whole: text, tail: text)
    requires AllDigits(whole) && (|whole| >= 2 && whole[0] == 48 ==> whole[1] != 48) && WholeStops(whole, tail)
    ensures Integral(whole + tail) == (Decimal(whole), tail)
  {
    if |whole| == 0 {
      assert whole + tail == tail;
    } else if whole[0] != 48 {
      PlainWhole(whole, tail);
    } else if |whole| == 1 {
      ZeroWhole(whole, tail);
    } else {
      LeadingZero(whole, whole[1..], tail);
    }
  }

  predicate PowerStops(p: Power, rest: text) {
    match p
    case Power(_, sign, digits) =>
      NoDigitAhead(rest) && (sign == [] && digits == [] ==> At(rest) != 43 && At(rest) != 45)
    case NoPower => At(rest) != 101 && At(rest) != 69
  }

  lemma TwoCuts(letter: byte, sign: text, digits: text)
    ensures ([letter] + (sign + digits))[1..] == sign + digits
    ensures |sign| == 0 ==> sign + digits == digits
    ensures |sign| == 1 ==> ([letter] + (sign + digits))[2..] == digits
  {
  }

  lemma PowerPartsRead(letter: byte, sign: text, digits: text, m: nat, rest: text)
    requires letter == 101 || letter == 69
    requires (sign == [] && At(digits) != 43 && At(digits) != 45) || sign == [43] || sign == [45]
    requires Scan(digits, 0) == (m, rest)
    ensures ParseExponent([letter] + (sign + digits)) == Exponent(if sign == [45] then -(m as int) else m, rest)
  {
    var s := [letter] + (sign + digits);
    if sign == [] {
      TwoCuts(letter, [], digits);
      PlainPower(s, m, rest);
    } else {
      TwoCuts(letter, sign, digits);
      SignedPower(s, m, rest);
    }
  }

  lemma PowerRead(p: Power, rest: text)
    requires PowerOk(p) && PowerStops(p, rest)
    ensures ParseExponent(PowerText(p) + rest) == Exponent(PowerValue(p), rest)
  {
    match p
    case NoPower => assert PowerText(p) + rest == rest;
    case Power(letter, sign, digits) =>
      DigitsFromZero(digits, rest);
      PowerSplit(letter, sign, digits, rest);
      PowerPartsRead(letter, sign, digits + rest, Decimal(digits), rest);
  }

  lemma PowerSplit(letter: byte, sign: text, digits: text, rest: text)
    ensures [letter] + (sign + digits) + rest == [letter] + (sign + (digits + rest))
  {
    assert (sign + digits) + rest == sign + (digits + rest);
  }

  lemma PlainPower(s: text, m: nat, rest: text)
    requires (At(s) == 101 || At(s) == 69) && At(s[1..]) != 43 && At(s[1..]) != 45 && Scan(s[1..], 0) == (m, rest)
    ensures ParseExponent(s) == Exponent(m, rest)
  {
  }

  lemma SignedPower(s: text, m: nat, rest: text)
    requires |s| >= 2 && (s[0] == 101 || s[0] == 69) && (s[1] == 43 || s[1] == 45) && Scan(s[2..], 0) == (m, rest)
    ensures ParseExponent(s) == Exponent(if s[1] == 45 then -(m as int) else m, rest)
  {
    assert At(s[1..]) == s[1];
  }

  /** Two conversions to 64 bits are one. */
  lemma WrapTwice(minus: bool, m: nat)
    ensures U64((if minus then -1 else 1) * U64(m)) == (if minus then -(m as int) else m) % 0x1_0000_0000_0000_0000
  {
    WrapTwiceAt(minus, m, TWO_64);
  }

  lemma WrapTwiceAt(minus: bool, m: nat, n: nat)
    requires n > 0
    ensures ((if minus then -1 else 1) * (m % n)) % n == (if minus then -(m as int) else m) % n
  {
    var q := m / n;
    assert m == q * n + m % n;
    if minus {
      WrapNegative(m, n, q, m % n);
    } else {
      RemainderIs(m % n, n, 0, m % n);
    }
  }

  lemma AtLeast(d: int, n: nat)
    requires d >= 1
    ensures d * n >= n
  {
    assert d * n == n + (d - 1) * n;
  }

  lemma SameRemainder(n: nat, a: int, b: int, r: nat, t: nat)
    requires a * n + r == b * n + t && r < n && t < n
    ensures r == t
  {
    if a > b {
      AtLeast(a - b, n);
    } else if a < b {
      AtLeast(b - a, n);
    }
  }

  lemma RemainderIs(x: int, n: nat, k: int, r: nat)
    requires n > 0 && x == k * n + r && r < n
    ensures x % n == r
  {
    SameRemainder(n, x / n, k, x % n, r);
  }

  lemma WrapNegative(m: nat, n: nat, q: nat, r: nat)
    requires n > 0 && m == q * n + r && r < n
    ensures (-(m as int)) % n == (-(r as int)) % n
  {
    if r == 0 {
      RemainderIs(-(m as int), n, -(q as int), 0);
    } else {
      RemainderIs(-(m as int), n, -(q as int) - 1, n - r);
      RemainderIs(-(r as int), n, -1, n - r);
    }
  }

  /** The number behind the sign and the digits. */
  function Finish(minus: bool, m: nat, scale: int, e: int): Number {
    var sign := if minus then -1 else 1;
    if scale == 0 && e == 0 then IntNum(U64(sign * U64(m)), sign) else DblNum(sign, m, e - scale)
  }

  lemma FinishRead(n: Numeral)
    requires NumeralOk(n)
    ensures FromNumber(Finish(n.minus, Decimal(n.whole + n.fraction), |n.fraction|, PowerValue(n.power)))
            == NumeralValue(n)
  {
    WrapTwice(n.minus, Decimal(n.whole + n.fraction));
  }

  lemma NoFractionRead(minus: bool, m: nat, behind: text, e: int, rest: text)
    requires !(|behind| >= 2 && behind[0] == 46 && 48 <= behind[1] <= 57)
    requires ParseExponent(behind) == Exponent(e, rest)
    ensures ParseTail(if minus then -1 else 1, m, behind) == (Finish(minus, m, 0, e), rest)
  {
  }

  lemma FractionRead(minus: bool, m: nat, fraction: text, all: nat, behind: text, e: int, rest: text)
    requires |fraction| > 0 && AllDigits(fraction) && Scan(fraction + behind, m) == (all, behind)
    requires ParseExponent(behind) == Exponent(e, rest)
    ensures ParseTail(if minus then -1 else 1, m, [46] + fraction + behind) ==
            (Finish(minus, all, |fraction|, e), rest)
  {
    assert ([46] + fraction + behind)[1..] == fraction + behind;
  }

  lemma BehindFraction(n: Numeral, rest: text)
    requires NumeralOk(n) && NumeralStops(n, rest)
    ensures var behind := PowerText(n.power) + rest;
      if n.fraction == [] then !(|behind| >= 2 && behind[0] == 46 && 48 <= behind[1] <= 57)
      else NoDigitAhead(behind)
    ensures PowerStops(n.power, rest)
  {
    if n.power == NoPower {
      assert PowerText(n.power) + rest == rest;
    }
  }

  /** What stands behind the integral part: the fraction and the power. */
  lemma TailRead(n: Numeral, rest: text)
    requires NumeralOk(n) && NumeralStops(n, rest)
    ensures var (number, r) := ParseTail(if n.minus then -1 else 1, Decimal(n.whole),
                                         FractionText(n.fraction) + (PowerText(n.power) + rest));
            FromNumber(number) == NumeralValue(n) && r == rest
  {
    var behind := PowerText(n.power) + rest;
    BehindFraction(n, rest);
    PowerRead(n.power, rest);
    FinishRead(n);
    if n.fraction == [] {
      assert FractionText(n.fraction) + behind == behind && n.whole + n.fraction == n.whole;
      NoFractionRead(n.minus, Decimal(n.whole), behind, PowerValue(n.power), rest);
    } else {
      ScanReads(n.whole, n.fraction, behind);
      FractionRead(n.minus, Decimal(n.whole), n.fraction, Decimal(n.whole + n.fraction), behind, PowerValue(n.power),
                   rest);
    }
  }

  lemma BehindWhole(n: Numeral, rest: text)
    requires NumeralOk(n) && NumeralStops(n, rest)
    ensures WholeStops(n.whole, FractionText(n.fraction) + (PowerText(n.power) + rest))
  {
  }

  lemma Regroup(a: text, b: text, c: text, d: text, e: text)
    ensures (a + (b + (c + d))) + e == a + (b + (c + (d + e)))
  {
    assert (c + d) + e == c + (d + e);
    assert (b + (c + d)) + e == b + ((c + d) + e);
  }

  lemma NumeralStarts(n: Numeral, rest: text)
    requires NumeralOk(n)
    ensures var s := NumeralText(n) + rest;
      var tail := FractionText(n.fraction) + (PowerText(n.power) + rest);
      && (At(s) == MINUS <==> n.minus) && (At(s) == MINUS || IsDigit(At(s)))
      && (if At(s) == MINUS then s[1..] else s) == n.whole + tail
  {
    var sign: text := if n.minus then [45] else [];
    var tail := FractionText(n.fraction) + (PowerText(n.power) + rest);
    Regroup(sign, n.whole, FractionText(n.fraction), PowerText(n.power), rest);
  }

  lemma NumberIs(s: text)
    ensures var sign := if At(s) == MINUS then -1 else 1;
      var (n, tail) := Integral(if At(s) == MINUS then s[1..] else s);
      ParseNumber(s) == ParseTail(sign, n, tail)
  {
  }

  /** A numeral is read to its end, with its value. */
  lemma NumeralRead(n: Numeral, rest: text)
    requires NumeralOk(n) && NumeralStops(n, rest)
    ensures var (number, r) := ParseNumber(NumeralText(n) + rest);
            FromNumber(number) == NumeralValue(n) && r == rest
  {
    var tail := FractionText(n.fraction) + (PowerText(n.power) + rest);
    NumeralStarts(n, rest);
    NumberIs(NumeralText(n) + rest);
    BehindWhole(n, rest);
    WholeRead(n.whole, tail);
    TailRead(n, rest);
  }

  // ---------------------------------------------------------------- nothing else is read

  lemma WholeFound(s: text) returns (whole: text, tail: text)
    ensures s == whole + tail && AllDigits(whole) && (|whole| >= 2 && whole[0] == 48 ==> whole[1] != 48)
    ensures WholeStops(whole, tail) && (IsDigit(At(s)) ==> whole != [])
  {
    if At(s) == 48 && !(49 <= At(s[1..]) <= 57) {
      whole, tail := [48], s[1..];
    } else {
      whole, tail := DigitRun(s);
    }
  }

  lemma FractionFound(s: text) returns (fraction: text, behind: text)
    ensures s == FractionText(fraction) + behind && AllDigits(fraction)
    ensures if fraction == [] then !(|behind| >= 2 && behind[0] == 46 && 48 <= behind[1] <= 57)
            else NoDigitAhead(behind)
  {
    if |s| >= 2 && s[0] == 46 && 48 <= s[1] <= 57 {
      fraction, behind := DigitRun(s[1..]);
      assert s == [46] + s[1..];
    } else {
      fraction, behind := [], s;
    }
  }

  lemma PowerParts(s: text) returns (sign: text, digits: text, rest: text)
    ensures s == sign + (digits + rest) && (sign == [] || sign == [43] || sign == [45])
    ensures AllDigits(digits) && NoDigitAhead(rest) && (sign == [] && digits == [] ==> At(rest) != 43 && At(rest) != 45)
  {
    if At(s) == 43 || At(s) == 45 {
      sign := [s[0]];
      digits, rest := DigitRun(s[1..]);
      assert s == [s[0]] + s[1..];
    } else {
      sign := [];
      digits, rest := DigitRun(s);
      assert sign + (digits + rest) == digits + rest;
    }
  }

  lemma PowerFound(s: text) returns (p: Power, rest: text)
    ensures s == PowerText(p) + rest && PowerOk(p) && PowerStops(p, rest)
    ensures p == NoPower ==> rest == s
    ensures p.Power? ==> At(s) == 101 || At(s) == 69
  {
    if At(s) == 101 || At(s) == 69 {
      var sign, digits;
      sign, digits, rest := PowerParts(s[1..]);
      p := Power(s[0], sign, digits);
      assert s == [s[0]] + s[1..];
      PowerSplit(s[0], sign, digits, rest);
    } else {
      p, rest := NoPower, s;
    }
  }

  lemma Assembled(s: text, n: Numeral, tail: text, behind: text, rest: text)
    requires s == (if n.minus then [45] else []) + (n.whole + tail)
    requires tail == FractionText(n.fraction) + behind && behind == PowerText(n.power) + rest
    ensures s == NumeralText(n) + rest
  {
    Regroup(if n.minus then [45] else [], n.whole, FractionText(n.fraction), PowerText(n.power), rest);
  }

  lemma PartsStop(n: Numeral, tail: text, behind: text, rest: text)
    requires tail == FractionText(n.fraction) + behind && behind == PowerText(n.power) + rest
    requires WholeStops(n.whole, tail) && PowerStops(n.power, rest)
    requires if n.fraction == [] then !(|behind| >= 2 && behind[0] == 46 && 48 <= behind[1] <= 57)
             else NoDigitAhead(behind)
    ensures NumeralStops(n, rest)
  {
    if n.power == NoPower {
      assert behind == rest;
      assert n.fraction == [] ==> tail == rest;
    }
  }

  lemma SignCut(s: text, minus: bool)
    requires minus <==> At(s) == 45
    ensures s == (if minus then [45] else []) + (if minus then s[1..] else s)
  {
  }

  /** Whatever is read as a number is a numeral. */
  lemma NumeralFound(s: text) returns (n: Numeral)
    requires At(s) == MINUS || IsDigit(At(s))
    ensures NumeralOk(n) && s == NumeralText(n) + ParseNumber(s).1 && NumeralStops(n, ParseNumber(s).1)
    ensures FromNumber(ParseNumber(s).0) == NumeralValue(n)
  {
    var minus := At(s) == 45;
    var whole, tail := WholeFound(if minus then s[1..] else s);
    var fraction, behind := FractionFound(tail);
    var p, rest := PowerFound(behind);
    n := Numeral(minus, whole, fraction, p);
    SignCut(s, minus);
    Assembled(s, n, tail, behind, rest);
    PartsStop(n, tail, behind, rest);
    NumeralRead(n, rest);
  }
}
