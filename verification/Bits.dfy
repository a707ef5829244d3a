/** Bitwise operators on unsigned integers of any width, by recursion on the lowest bit, and the
    arithmetic facts that let masks and shifts be read as remainders and sums.
 */
module Bits {

  function Or(a: nat, b: nat): nat {
    if a == 0 && b == 0 then 0
    else 2 * Or(a / 2, b / 2) + (if a % 2 == 1 || b % 2 == 1 then 1 else 0)
  }

  function And(a: nat, b: nat): nat {
    if a == 0 && b == 0 then 0
    else 2 * And(a / 2, b / 2) + (if a % 2 == 1 && b % 2 == 1 then 1 else 0)
  }

  function Pow2(k: nat): (p: nat)
    ensures p > 0
  {
    if k == 0 then 1 else 2 * Pow2(k - 1)
  }

  lemma Pow2Values()
    ensures Pow2(3) == 8 && Pow2(4) == 16 && Pow2(5) == 32 && Pow2(6) == 64
    ensures Pow2(10) == 0x400 && Pow2(16) == 0x10000
  {
  }

  lemma {:induction false} OrZero(a: nat)
    ensures Or(a, 0) == a && Or(0, a) == a
  {
    if a > 0 {
      OrZero(a / 2);
    }
  }

  lemma {:induction false} AndZero(a: nat)
    ensures And(a, 0) == 0
  {
    if a > 0 {
      AndZero(a / 2);
    }
  }

  /** Masking with k ones keeps the remainder modulo 2^k. */
  lemma {:induction false} AndMask(x: nat, k: nat)
    ensures And(x, Pow2(k) - 1) == x % Pow2(k)
  {
    if k == 0 {
      AndZero(x);
    } else {
      AndMask(x / 2, k - 1);
      var p := Pow2(k - 1);
      HalfRemainder(x, p);
      assert (2 * p - 1) / 2 == p - 1 && (2 * p - 1) % 2 == 1;
    }
  }

  lemma HalfRemainder(x: nat, p: nat)
    requires p > 0
    ensures x % (2 * p) == 2 * ((x / 2) % p) + x % 2
  {
    var q, r := (x / 2) / p, (x / 2) % p;
    assert x / 2 == q * p + r;
    assert x == 2 * (x / 2) + x % 2;
    assert x == q * (2 * p) + (2 * r + x % 2) by {
      assert 2 * (q * p) == q * (2 * p);
    }
    RemainderIs(x, 2 * p, q, 2 * r + x % 2);
  }

  lemma MultipleGap(d: int, m: nat)
    ensures d >= 1 ==> d * m >= m
    ensures d <= -1 ==> d * m <= -(m as int)
  {
  }

  lemma RemainderIs(x: nat, m: nat, q: nat, r: nat)
    requires m > 0 && x == q * m + r && r < m
    ensures x % m == r
  {
    var d := x / m - q;
    assert d * m == r - x % m;
    MultipleGap(d, m);
  }

  lemma OrUnfold(a: nat, b: nat)
    ensures Or(a, b) == 2 * Or(a / 2, b / 2) + (if a % 2 == 1 || b % 2 == 1 then 1 else 0)
  {
  }

  lemma AndUnfold(a: nat, b: nat)
    ensures And(a, b) == 2 * And(a / 2, b / 2) + (if a % 2 == 1 && b % 2 == 1 then 1 else 0)
  {
  }

  lemma HalfSplit(a: nat, c: nat, p: nat)
    requires p > 0 && c < 2 * p
    ensures (a * (2 * p) + c) / 2 == a * p + c / 2
    ensures (a * (2 * p) + c) % 2 == c % 2
    ensures c / 2 < p
  {
  }

  lemma Double(x: nat, p: nat)
    ensures 2 * (x * p) == x * (2 * p)
  {
  }

  lemma OrStep(a: nat, b: nat, c: nat, d: nat, p: nat, whole: nat, other: nat)
    requires whole / 2 == a * p + c / 2 && whole % 2 == c % 2
    requires other / 2 == b * p + d / 2 && other % 2 == d % 2
    requires Or(whole / 2, other / 2) == Or(a, b) * p + Or(c / 2, d / 2)
    ensures Or(whole, other) == Or(a, b) * (2 * p) + Or(c, d)
  {
    OrUnfold(whole, other);
    OrUnfold(c, d);
    Double(Or(a, b), p);
  }

  /** Operands cut at the same bit: the halves are combined independently. */
  lemma {:induction false} OrSplit(a: nat, c: nat, b: nat, d: nat, k: nat, whole: nat, other: nat)
    requires c < Pow2(k) && d < Pow2(k)
    requires whole == a * Pow2(k) + c && other == b * Pow2(k) + d
    ensures Or(whole, other) == Or(a, b) * Pow2(k) + Or(c, d)
  {
    if k == 0 {
      OrZero(0);
    } else {
      var p := Pow2(k - 1);
      HalfSplit(a, c, p);
      HalfSplit(b, d, p);
      OrSplit(a, c / 2, b, d / 2, k - 1, whole / 2, other / 2);
      OrStep(a, b, c, d, p, whole, other);
    }
  }

  lemma AndStep(a: nat, b: nat, c: nat, d: nat, p: nat, whole: nat, other: nat)
    requires whole / 2 == a * p + c / 2 && whole % 2 == c % 2
    requires other / 2 == b * p + d / 2 && other % 2 == d % 2
    requires And(whole / 2, other / 2) == And(a, b) * p + And(c / 2, d / 2)
    ensures And(whole, other) == And(a, b) * (2 * p) + And(c, d)
  {
    AndUnfold(whole, other);
    AndUnfold(c, d);
    Double(And(a, b), p);
  }

  lemma {:induction false} AndSplit(a: nat, c: nat, b: nat, d: nat, k: nat, whole: nat, other: nat)
    requires c < Pow2(k) && d < Pow2(k)
    requires whole == a * Pow2(k) + c && other == b * Pow2(k) + d
    ensures And(whole, other) == And(a, b) * Pow2(k) + And(c, d)
  {
    if k == 0 {
      AndZero(0);
    } else {
      var p := Pow2(k - 1);
      HalfSplit(a, c, p);
      HalfSplit(b, d, p);
      AndSplit(a, c / 2, b, d / 2, k - 1, whole / 2, other / 2);
      AndStep(a, b, c, d, p, whole, other);
    }
  }
}
