/**
 * Decimal digit strings as the display renderer manipulates them: the
 * mantissa of a decimal128 value is a run of '0'..'9' characters, rounded
 * in place by `rpn_round_bankers` (RPN.c) with the roundTiesToEven rule of
 * section 4.3.1 of IEEE 754-2008, and exponents are printed with as many
 * digits as `rpn_digits_count_int` counts.
 */
module Digits {

  predicate IsDigit(c: char) { '0' <= c <= '9' }

  predicate AllDigits(s: seq<char>) {
    forall i :: 0 <= i < |s| ==> IsDigit(s[i])
  }

  function DigitValue(c: char): nat
    requires IsDigit(c)
  {
    c as int - '0' as int
  }

  function DigitChar(n: nat): (c: char)
    requires n < 10
    ensures IsDigit(c) && DigitValue(c) == n
  {
    ('0' as int + n) as char
  }

  function Pow10(n: nat): (p: nat)
    ensures p >= 1
  {
    if n == 0 then 1 else 10 * Pow10(n - 1)
  }

  /** The number a digit string denotes (most significant digit first). */
  function Value(s: seq<char>): nat
    requires AllDigits(s)
  {
    if |s| == 0 then 0 else Value(s[..|s| - 1]) * 10 + DigitValue(s[|s| - 1])
  }

  function Zeros(n: nat): (z: seq<char>)
    ensures |z| == n && AllDigits(z)
    ensures forall i :: 0 <= i < n ==> z[i] == '0'
  {
    if n == 0 then [] else Zeros(n - 1) + ['0']
  }

  predicate AllNines(s: seq<char>) {
    forall i :: 0 <= i < |s| ==> s[i] == '9'
  }

  predicate AnyNonZero(s: seq<char>) {
    exists i :: 0 <= i < |s| && s[i] != '0'
  }

  /** Adds one to a numeral, growing it by a leading '1' when every digit carries. */
  function Increment(s: seq<char>): (r: seq<char>)
    requires AllDigits(s)
    ensures AllDigits(r)
    ensures |r| == |s| || |r| == |s| + 1
  {
    if |s| == 0 then ['1']
    else if s[|s| - 1] == '9' then Increment(s[..|s| - 1]) + ['0']
    else s[..|s| - 1] + [DigitChar(DigitValue(s[|s| - 1]) + 1)]
  }

  /**
   * The decision `rpn_round_bankers` takes when it drops the digits from
   * position `keep` on: round up above a half, and on an exact half only
   * when the last kept digit is odd (no kept digit counts as an even 0).
   */
  predicate RoundsUp(d: seq<char>, keep: nat)
    requires AllDigits(d) && keep < |d|
  {
    var next := DigitValue(d[keep]);
    next > 5 ||
    (next == 5 &&
     (AnyNonZero(d[keep + 1..]) || (keep > 0 && DigitValue(d[keep - 1]) % 2 == 1)))
  }

  /**
   * The digits `rpn_round_bankers` leaves in the array: the input unchanged
   * when `keep` is out of range, otherwise the first `keep` digits, rounded.
   */
  function RoundBankers(d: seq<char>, keep: int): (r: seq<char>)
    requires AllDigits(d)
    ensures AllDigits(r)
    ensures keep < 0 || keep >= |d| ==> r == d
    ensures 0 <= keep < |d| ==> |r| == keep || |r| == keep + 1
  {
    if keep < 0 || keep >= |d| then d
    else if RoundsUp(d, keep) then Increment(d[..keep])
    else d[..keep]
  }

  /** Integer round-half-to-even of v / q. */
  function HalfEven(v: nat, q: nat): nat
    requires q > 0
  {
    var rem := v % q;
    v / q + (if 2 * rem > q || (2 * rem == q && (v / q) % 2 == 1) then 1 else 0)
  }

  // ---------------------------------------------------------------------
  // Arithmetic facts about numerals

  lemma ShiftDigit(x: int, p: int, v: int, d: int)
    ensures (x * p + v) * 10 + d == x * (10 * p) + (v * 10 + d)
  {
  }

  lemma {:induction false} ValueAppend(a: seq<char>, b: seq<char>)
    requires AllDigits(a) && AllDigits(b)
    ensures AllDigits(a + b)
    ensures Value(a + b) == Value(a) * Pow10(|b|) + Value(b)
    decreases |b|
  {
    if |b| == 0 {
      assert a + b == a;
    } else {
      var b' := b[..|b| - 1];
      assert (a + b)[..|a + b| - 1] == a + b';
      ValueAppend(a, b');
      ShiftDigit(Value(a), Pow10(|b'|), Value(b'), DigitValue(b[|b| - 1]));
    }
  }

  lemma {:induction false} ValueBound(s: seq<char>)
    requires AllDigits(s)
    ensures Value(s) < Pow10(|s|)
  {
    if |s| > 0 {
      ValueBound(s[..|s| - 1]);
    }
  }

  lemma {:induction false} ValueZeroIff(s: seq<char>)
    requires AllDigits(s)
    ensures Value(s) == 0 <==> !AnyNonZero(s)
  {
    if |s| > 0 {
      var p := s[..|s| - 1];
      ValueZeroIff(p);
      if AnyNonZero(p) {
        var i :| 0 <= i < |p| && p[i] != '0';
        assert s[i] != '0';
      }
      if AnyNonZero(s) && !AnyNonZero(p) {
        var i :| 0 <= i < |s| && s[i] != '0';
        assert i == |s| - 1;
      }
    }
  }

  lemma ValueOfZeros(n: nat)
    ensures Value(Zeros(n)) == 0
  {
    ValueZeroIff(Zeros(n));
  }

  lemma {:induction false} IncrementValue(s: seq<char>)
    requires AllDigits(s)
    ensures Value(Increment(s)) == Value(s) + 1
  {
    if |s| == 0 {
      assert Increment(s)[..0] == [];
    } else if s[|s| - 1] == '9' {
      var p := s[..|s| - 1];
      IncrementValue(p);
      var r := Increment(s);
      assert r[..|r| - 1] == Increment(p);
    } else {
      var r := Increment(s);
      assert r[..|r| - 1] == s[..|s| - 1];
    }
  }

  /** A carry out of every digit happens exactly on a run of nines, and gives 1 followed by zeros. */
  lemma {:induction false} IncrementCarry(s: seq<char>)
    requires AllDigits(s)
    ensures |Increment(s)| == |s| + 1 <==> AllNines(s)
    ensures AllNines(s) ==> Increment(s) == ['1'] + Zeros(|s|)
  {
    if |s| > 0 {
      var p := s[..|s| - 1];
      IncrementCarry(p);
      if s[|s| - 1] == '9' {
        if AllNines(p) {
          assert AllNines(s);
          assert ['1'] + Zeros(|s|) == ['1'] + Zeros(|p|) + ['0'];
        } else {
          var i :| 0 <= i < |p| && p[i] != '9';
          assert s[i] != '9';
        }
      } else {
        assert !AllNines(s);
      }
    }
  }

  /** The in-place carry loop: the digit before a run of nines goes up by one, the nines become zeros. */
  lemma {:induction false} IncrementAt(s: seq<char>, j: nat)
    requires AllDigits(s) && j < |s| && s[j] != '9'
    requires AllNines(s[j + 1..])
    ensures Increment(s) == s[..j] + [DigitChar(DigitValue(s[j]) + 1)] + Zeros(|s| - j - 1)
    decreases |s|
  {
    if j == |s| - 1 {
    } else {
      var p := s[..|s| - 1];
      assert s[|s| - 1] == s[j + 1..][|s| - 1 - (j + 1)];
      assert p[j + 1..] == s[j + 1..|s| - 1];
      assert AllNines(p[j + 1..]);
      IncrementAt(p, j);
      assert p[..j] == s[..j];
    }
  }

  // ---------------------------------------------------------------------
  // The rounding rule

  lemma ValueFirstDigit(t: seq<char>)
    requires AllDigits(t) && |t| > 0
    ensures Value(t) == DigitValue(t[0]) * Pow10(|t| - 1) + Value(t[1..])
  {
    var h, r := [t[0]], t[1..];
    assert h + r == t;
    assert h[..0] == [];
    assert Value(h) == DigitValue(t[0]);
    ValueAppend(h, r);
  }

  lemma HalfCompare(n: int, p: int, rest: int)
    requires 0 <= n <= 9 && 0 <= rest < p
    ensures 2 * (n * p + rest) > 10 * p <==> n > 5 || (n == 5 && rest > 0)
    ensures 2 * (n * p + rest) == 10 * p <==> n == 5 && rest == 0
  {
    if n == 0 {} else if n == 1 {} else if n == 2 {} else if n == 3 {} else if n == 4 {}
    else if n == 5 {} else if n == 6 {} else if n == 7 {} else if n == 8 {} else {}
  }

  /** The digits dropped by rounding, compared with one half of a unit in the last kept place. */
  lemma TailAgainstHalf(t: seq<char>)
    requires AllDigits(t) && |t| > 0
    ensures 2 * Value(t) > Pow10(|t|) <==> DigitValue(t[0]) > 5 || (DigitValue(t[0]) == 5 && AnyNonZero(t[1..]))
    ensures 2 * Value(t) == Pow10(|t|) <==> DigitValue(t[0]) == 5 && !AnyNonZero(t[1..])
  {
    ValueFirstDigit(t);
    ValueBound(t[1..]);
    ValueZeroIff(t[1..]);
    HalfCompare(DigitValue(t[0]), Pow10(|t| - 1), Value(t[1..]));
  }

  lemma ValueParity(s: seq<char>)
    requires AllDigits(s)
    ensures Value(s) % 2 == (if |s| == 0 then 0 else DigitValue(s[|s| - 1]) % 2)
  {
    if |s| > 0 {
      LastDigitParity(Value(s[..|s| - 1]), DigitValue(s[|s| - 1]));
    }
  }

  /** Appending a digit: v * 10 + d has the parity of d. */
  lemma LastDigitParity(v: int, d: int)
    ensures (v * 10 + d) % 2 == d % 2
  {
    assert v * 10 + d == 2 * (5 * v) + d;
  }

  /** `RoundsUp` is exactly round-half-to-even of the value at the kept position. */
  lemma RoundsUpIsHalfEven(d: seq<char>, keep: nat)
    requires AllDigits(d) && keep < |d|
    ensures var q := Pow10(|d| - keep);
            var v := Value(d);
            RoundsUp(d, keep) <==> 2 * (v % q) > q || (2 * (v % q) == q && (v / q) % 2 == 1)
  {
    var head, tail := d[..keep], d[keep..];
    assert d == head + tail;
    ValueAppend(head, tail);
    ValueBound(tail);
    var q := Pow10(|d| - keep);
    var v := Value(d);
    assert v == Value(head) * q + Value(tail);
    assert v / q == Value(head) && v % q == Value(tail) by {
      DivModUnique(v, q, Value(head), Value(tail));
    }
    TailAgainstHalf(tail);
    assert tail[0] == d[keep] && tail[1..] == d[keep + 1..];
    ValueParity(head);
    if keep > 0 {
      assert head[|head| - 1] == d[keep - 1];
    }
  }

  lemma MulAtLeast(k: int, q: int)
    requires k >= 1 && q > 0
    ensures k * q >= q
  {
  }

  lemma DivModUnique(v: nat, q: nat, a: nat, b: nat)
    requires q > 0 && b < q && v == a * q + b
    ensures v / q == a && v % q == b
  {
    var a', b' := v / q, v % q;
    assert (a - a') * q == b' - b;
    if a > a' {
      MulAtLeast(a - a', q);
    } else if a < a' {
      MulAtLeast(a' - a, q);
    }
  }

  /** The value of the rounded digits is the round-half-to-even quotient (section 4.3.1 of IEEE 754-2008). */
  lemma RoundBankersValue(d: seq<char>, keep: nat)
    requires AllDigits(d) && keep < |d|
    ensures Value(RoundBankers(d, keep)) == HalfEven(Value(d), Pow10(|d| - keep))
  {
    var head, tail := d[..keep], d[keep..];
    assert d == head + tail;
    ValueAppend(head, tail);
    ValueBound(tail);
    DivModUnique(Value(d), Pow10(|d| - keep), Value(head), Value(tail));
    RoundsUpIsHalfEven(d, keep);
    if RoundsUp(d, keep) {
      IncrementValue(head);
    }
  }

  /**
   * The result has `keep` digits, or `keep + 1` exactly when every kept
   * digit was a nine and the dropped part rounded up; it is then '1'
   * followed by `keep` zeros.
   */
  lemma RoundBankersCarry(d: seq<char>, keep: nat)
    requires AllDigits(d) && keep < |d|
    ensures |RoundBankers(d, keep)| == keep + 1 <==> AllNines(d[..keep]) && RoundsUp(d, keep)
    ensures |RoundBankers(d, keep)| == keep + 1 ==> RoundBankers(d, keep) == ['1'] + Zeros(keep)
  {
    IncrementCarry(d[..keep]);
  }

  /** A run of k nines is 10^k - 1. */
  lemma {:induction false} AllNinesValue(s: seq<char>)
    requires AllNines(s)
    ensures AllDigits(s) && Value(s) + 1 == Pow10(|s|)
  {
    if |s| > 0 {
      AllNinesValue(s[..|s| - 1]);
    }
  }

  /** When rounding carries out of the kept digits, the rounded value is exactly 10^keep. */
  lemma RoundBankersCarryValue(d: seq<char>, keep: int)
    requires AllDigits(d) && 0 <= keep
    requires |RoundBankers(d, keep)| > keep
    ensures keep < |d| && HalfEven(Value(d), Pow10(|d| - keep)) == Pow10(keep)
  {
    RoundBankersCarry(d, keep);
    RoundBankersValue(d, keep);
    IncrementValue(d[..keep]);
    AllNinesValue(d[..keep]);
  }

  /** The value statement for any `keep` the renderer passes: keeping every digit changes nothing. */
  lemma RoundBankersValueAnyKeep(d: seq<char>, keep: int)
    requires AllDigits(d) && 0 <= keep
    ensures Value(RoundBankers(d, keep)) == (if keep < |d| then HalfEven(Value(d), Pow10(|d| - keep)) else Value(d))
  {
    if keep < |d| {
      RoundBankersValue(d, keep);
    }
  }

  lemma RoundBankersExamples()
    ensures RoundBankers("25", 1) == "2"
    ensures RoundBankers("35", 1) == "4"
    ensures RoundBankers("251", 1) == "3"
    ensures RoundBankers("5", 0) == ""
    ensures RoundBankers("96", 1) == "10"
  {
    assert AnyNonZero("251"[2..]) by { assert "251"[2..][0] != '0'; }
    assert !AnyNonZero("25"[2..]);
    assert !AnyNonZero("35"[2..]);
    assert !AnyNonZero("5"[1..]);
  }

  /** `rpn_round_bankers` on a digit array (RPN.c): rounds `digits[..len]` to `keep` digits in place. */
  method RoundBankersInPlace(digits: array<char>, len: int, keep: int) returns (newLen: int)
    requires 0 <= len < digits.Length && AllDigits(digits[..len])
    modifies digits
    ensures 0 <= newLen <= len
    ensures digits[..newLen] == RoundBankers(old(digits[..len]), keep)
    ensures keep < 0 || keep >= len ==> newLen == len && digits[..] == old(digits[..])
    ensures 0 <= keep < len ==> digits[newLen] == '\0' && digits[newLen + 1..] == old(digits[newLen + 1..])
  {
    if keep >= len || keep < 0 {
      return len;
    }
    ghost var d := digits[..len];
    var next := DigitValue(digits[keep]);
    var anyAfter := ScanNonZero(digits, keep + 1, len);
    assert digits[keep + 1..len] == d[keep + 1..];
    var roundUp := false;
    if next > 5 {
      roundUp := true;
    } else if next < 5 {
      roundUp := false;
    } else {
      if anyAfter {
        roundUp := true;
      } else {
        var last := keep - 1;
        var lastDigit := if last >= 0 then DigitValue(digits[last]) else 0;
        roundUp := lastDigit % 2 == 1;
      }
    }
    assert roundUp == RoundsUp(d, keep);
    newLen := keep;
    if roundUp {
      assert digits[..keep] == d[..keep];
      newLen := CarryInPlace(digits, keep);
      assert digits[..newLen] == Increment(d[..keep]);
      assert digits[newLen + 1..] == digits[newLen..][1..] == old(digits[newLen..])[1..];
    } else {
      assert digits[..keep] == d[..keep];
    }
    assert digits[..newLen] == RoundBankers(d, keep);
    assert digits[newLen + 1..] == old(digits[newLen + 1..]);
    ghost var tail := digits[newLen + 1..];
    digits[newLen] := '\0';
    assert digits[..newLen] == RoundBankers(d, keep) && digits[newLen + 1..] == tail;
  }

  /** The scan for a non-zero digit after the rounding position. */
  method ScanNonZero(digits: array<char>, from: int, to: int) returns (found: bool)
    requires 0 <= from <= to <= digits.Length
    ensures found <==> AnyNonZero(digits[from..to])
  {
    var i := from;
    while i < to
      invariant from <= i <= to
      invariant !AnyNonZero(digits[from..i])
    {
      if digits[i] != '0' {
        assert digits[from..to][i - from] != '0';
        return true;
      }
      assert digits[from..i + 1] == digits[from..i] + ['0'];
      i := i + 1;
    }
    return false;
  }

  /** Every kept digit carried: the zeros move one place right and a '1' is written in front. */
  method ShiftInOne(digits: array<char>, keep: int, ghost after: seq<char>)
    requires 0 <= keep < digits.Length && digits[..keep] == Zeros(keep) && digits[keep + 1..] == after
    modifies digits
    ensures digits[..keep + 1] == ['1'] + Zeros(keep)
    ensures digits[keep + 1..] == after
  {
    var j := keep;
    while j > 0
      invariant 0 <= j <= keep
      invariant forall t :: 0 <= t < j ==> digits[t] == '0'
      invariant forall t :: j < t <= keep ==> digits[t] == '0'
      invariant digits[keep + 1..] == after
    {
      digits[j] := digits[j - 1];
      j := j - 1;
    }
    digits[0] := '1';
    assert digits[..keep + 1] == ['1'] + Zeros(keep);
  }

  /**
   * The carry loop of `rpn_round_bankers`: adds one to `digits[..keep]`,
   * shifting right and writing a leading '1' when every digit carries.
   */
  method CarryInPlace(digits: array<char>, keep: int) returns (newLen: int)
    requires 0 <= keep < digits.Length && AllDigits(digits[..keep])
    modifies digits
    ensures newLen == keep || newLen == keep + 1
    ensures digits[..newLen] == Increment(old(digits[..keep]))
    ensures digits[newLen..] == old(digits[newLen..])
  {
    ghost var d := digits[..keep];
    ghost var rest := digits[keep..];
    ghost var after := digits[keep + 1..];
    assert after == rest[1..];
    var carried := PropagateCarry(digits, keep, d, rest);
    if carried {
      IncrementCarry(d);
      assert digits[keep + 1..] == rest[1..];
      ShiftInOne(digits, keep, after);
      newLen := keep + 1;
    } else {
      newLen := keep;
    }
  }

  /**
   * Adds one at position keep - 1, turning trailing '9's into '0's and
   * stopping at the first digit that absorbs the carry; `carried` when
   * every kept digit was a '9' and is now a '0'.
   */
  method PropagateCarry(digits: array<char>, keep: int, ghost d: seq<char>, ghost rest: seq<char>) returns (carried: bool)
    requires 0 <= keep < digits.Length && digits[..keep] == d && AllDigits(d) && digits[keep..] == rest
    modifies digits
    ensures digits[keep..] == rest
    ensures carried ==> AllNines(d) && digits[..keep] == Zeros(keep)
    ensures !carried ==> digits[..keep] == Increment(d)
  {
    var i := keep - 1;
    while i >= 0
      invariant -1 <= i < keep
      invariant digits[..keep] == d[..i + 1] + Zeros(keep - i - 1)
      invariant AllNines(d[i + 1..]) && digits[keep..] == rest
    {
      assert digits[i] == d[i] && IsDigit(d[i]);
      var v := DigitValue(digits[i]) + 1;
      if v == 10 {
        digits[i] := '0';
        assert digits[..keep] == d[..i] + Zeros(keep - i);
        assert d[i..] == [d[i]] + d[i + 1..];
      } else {
        digits[i] := DigitChar(v);
        assert digits[..keep] == d[..i] + [DigitChar(DigitValue(d[i]) + 1)] + Zeros(keep - i - 1);
        IncrementAt(d, i);
        return false;
      }
      i := i - 1;
    }
    assert i == -1 && d[0..] == d && d[..0] + Zeros(keep) == Zeros(keep);
    return true;
  }

  // ---------------------------------------------------------------------
  // Exponent digits

  /** Number of decimal digits of n, at least one. */
  function NumDigits(n: nat): (c: nat)
    ensures c >= 1
  {
    if n < 10 then 1 else 1 + NumDigits(n / 10)
  }

  /** The decimal numeral of n without leading zeros, as the renderer's exponent loop emits it. */
  function NatText(n: nat): (s: seq<char>)
    ensures AllDigits(s) && |s| >= 1
  {
    if n < 10 then [DigitChar(n)] else NatText(n / 10) + [DigitChar(n % 10)]
  }

  /** The printed exponent is a numeral for n, and it has exactly NumDigits(n) digits. */
  lemma {:induction false} NatTextFacts(n: nat)
    ensures |NatText(n)| == NumDigits(n)
    ensures Value(NatText(n)) == n
    ensures NatText(n)[0] != '0' || n == 0
  {
    if n >= 10 {
      NatTextFacts(n / 10);
      var s := NatText(n);
      assert s[..|s| - 1] == NatText(n / 10);
    }
  }

  /** NumDigits(n) is the number of decimal places n needs. */
  lemma {:induction false} NumDigitsBounds(n: nat)
    ensures n < Pow10(NumDigits(n))
    ensures n >= 10 ==> Pow10(NumDigits(n) - 1) <= n
  {
    if n >= 10 {
      NumDigitsBounds(n / 10);
    }
  }

  function Abs(v: int): nat { if v < 0 then -v else v }

  /** `rpn_digits_count_int` (RPN.c): digits of |v|, counted by repeated division. */
  method DigitsCountInt(v: int) returns (c: int)
    ensures c == NumDigits(Abs(v))
  {
    var a := if v < 0 then -v else v;
    c := 1;
    while a >= 10
      invariant a >= 0
      invariant c + NumDigits(a) - 1 == NumDigits(Abs(v))
    {
      a := a / 10;
      c := c + 1;
    }
  }
}
