/** Decimal numerals by position: every digit counts ten times the one behind it. */
module Numerals {
  import opened Bytes
  import opened JsonInt

  predicate AllDigits(s: text) {
    forall i :: 0 <= i < |s| ==> 48 <= s[i] <= 57
  }

  /** The value of a digit string; no digits count as zero. */
  function Decimal(digits: text): nat
    requires AllDigits(digits)
  {
    if |digits| == 0 then 0 else 10 * Decimal(digits[..|digits| - 1]) + (digits[|digits| - 1] - 48)
  }

  lemma DecimalSnoc(digits: text, d: byte)
    requires AllDigits(digits) && 48 <= d <= 57
    ensures AllDigits(digits + [d])
    ensures Decimal(digits + [d]) == 10 * Decimal(digits) + (d - 48)
  {
    assert (digits + [d])[..|digits|] == digits;
  }

  /** The numeral of a number has that number as its value. */
  lemma {:induction false} DecimalOfDec(n: nat)
    ensures AllDigits(Dec(n)) && Decimal(Dec(n)) == n
  {
    if n < 10 {
      assert Dec(n) == [] + [ZERO + n];
      DecimalSnoc([], ZERO + n);
    } else {
      DecimalOfDec(n / 10);
      DecimalSnoc(Dec(n / 10), ZERO + n % 10);
    }
  }

  predicate NoDigitAhead(s: text) {
    |s| > 0 ==> !(48 <= s[0] <= 57)
  }

  /** The digits at the front of a text. */
  lemma {:induction false} DigitRun(s: text) returns (digits: text, tail: text)
    ensures s == digits + tail && AllDigits(digits) && NoDigitAhead(tail)
  {
    if |s| > 0 && 48 <= s[0] <= 57 {
      digits, tail := DigitRun(s[1..]);
      digits := [s[0]] + digits;
    } else {
      digits, tail := [], s;
    }
  }

  /** The digit loop, behind digits that it has read: it reads on to the end of the digits and has their value. */
  lemma {:induction false} ScanReads(before: text, digits: text, tail: text)
    requires AllDigits(before) && AllDigits(digits) && NoDigitAhead(tail)
    ensures AllDigits(before + digits)
    ensures Scan(digits + tail, Decimal(before)) == (Decimal(before + digits), tail)
    decreases |digits|
  {
    if |digits| == 0 {
      assert digits + tail == tail && before + digits == before;
    } else {
      DecimalSnoc(before, digits[0]);
      assert (digits + tail)[1..] == digits[1..] + tail;
      assert before + [digits[0]] + digits[1..] == before + digits;
      ScanReads(before + [digits[0]], digits[1..], tail);
    }
  }
}
