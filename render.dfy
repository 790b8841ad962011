/**
 * The display renderer `bid128_to_str` (RPN.c): it formats a decimal128
 * value into a caller's buffer of `bufsize` characters in one of three
 * layouts, NORMAL (fixed point), SCIENTIFIC and ENGINEERING, rounding the
 * significand half-to-even to the width, padding or trimming trailing
 * fractional zeros, and falling back from NORMAL to SCIENTIFIC once.
 *
 * The renderer starts from the library's to-string output split into a
 * sign, a run of significand digits and a base-10 exponent (`Decomposed`).
 * Every character goes through PUSH_CH, which silently drops characters
 * once `bufsize - 1` have been written; the functions below therefore
 * describe the untruncated text of each layout (`...Body`) and the buffer
 * receives its first `bufsize - 1` characters (`RenderText`).
 */
module Render {
  import opened Digits

  datatype DispMode = Normal | Scientific | Engineering
  datatype ZeroMode = Pad | Trim

  /** The library's output split up: sign, significand digits and exponent, or a special value. */
  datatype Decomposed =
    | Number(neg: bool, digits: seq<char>, exp: int)
    | Inf(neg: bool)
    | NotANumber

  /** Largest decimal128 coefficient length and exponent magnitude. */
  const MaxDigits := 34
  const MaxExponent := 6176

  predicate WellFormed(x: Decomposed) {
    x.Number? ==>
      1 <= |x.digits| <= MaxDigits && AllDigits(x.digits) && -MaxExponent <= x.exp <= MaxExponent
  }

  function Min(a: int, b: int): int { if a < b then a else b }
  function Max(a: int, b: int): int { if a < b then b else a }

  /** What a buffer that accepts at most n characters keeps of s. */
  function Take(s: string, n: int): (r: string)
    ensures |r| == Max(0, Min(|s|, n))
    ensures r <= s
  {
    if n <= 0 then [] else if |s| <= n then s else s[..n]
  }

  /** Once the buffer is full, later characters are dropped: filling it in pieces equals filling it at once. */
  lemma TakeAppend(a: string, b: string, n: int)
    ensures Take(Take(a, n) + b, n) == Take(a + b, n)
  {
    if n > 0 && |a| > n {
      assert (a + b)[..n] == a[..n];
    } else if n > 0 {
      assert Take(a, n) == a;
    }
  }

  function SignText(neg: bool): string { if neg then "-" else "" }
  function SignWidth(neg: bool): int { if neg then 1 else 0 }

  /** 'E', the exponent's sign (always written) and its digits. */
  function ExponentText(e: int): (t: string)
    ensures |t| >= 3 && t[0] == 'E'
  {
    ['E'] + (if e < 0 then "-" else "+") + NatText(Abs(e))
  }

  /** The exponent field: 'E', a sign that is '-' exactly for negative exponents, and the digits of |e|. */
  lemma ExponentTextFacts(e: int)
    ensures var t := ExponentText(e);
            |t| == 2 + NumDigits(Abs(e)) &&
            (t[1] == '-' <==> e < 0) && (t[1] == '+' <==> e >= 0) &&
            AllDigits(t[2..]) && Value(t[2..]) == Abs(e)
  {
    NatTextFacts(Abs(e));
    var t := ExponentText(e);
    assert t[2..] == NatText(Abs(e));
  }

  /** s without its trailing '0' characters. */
  function TrimZeros(s: seq<char>): (r: seq<char>)
    ensures r <= s
    ensures |r| == 0 || r[|r| - 1] != '0'
    ensures forall i :: |r| <= i < |s| ==> s[i] == '0'
  {
    if |s| == 0 || s[|s| - 1] != '0' then s else TrimZeros(s[..|s| - 1])
  }

  /** TRIM: the point and the fraction without trailing zeros, or nothing when none remain. */
  function TrimmedFraction(ds: seq<char>): (f: string)
    ensures f == [] || (|f| >= 2 && f[0] == '.' && f[|f| - 1] != '0' && f[1..] <= ds)
  {
    var k := TrimZeros(ds);
    if |k| > 0 then "." + k else ""
  }

  /** PAD: the point and exactly `want` fractional places, zero-filled past the available digits. */
  function PaddedFraction(ds: seq<char>, want: int): (f: string)
    ensures want <= 0 ==> f == []
    ensures want > 0 ==> |f| == want + 1 && f[0] == '.'
    ensures want > 0 ==> f[1..1 + Min(|ds|, want)] == ds[..Min(|ds|, want)]
    ensures want > 0 ==> forall i :: 1 + Min(|ds|, want) <= i < |f| ==> f[i] == '0'
  {
    if want > 0 then
      var take := Min(|ds|, want);
      var f := "." + ds[..take] + Zeros(want - take);
      assert f[1..1 + take] == ds[..take];
      f
    else []
  }

  function Fraction(zero: ZeroMode, ds: seq<char>, want: int): string {
    if zero == Trim then TrimmedFraction(ds) else PaddedFraction(ds, want)
  }

  /** The first n digits of ds, zero-filled when ds is shorter. */
  function LeadDigits(ds: seq<char>, n: nat): (r: seq<char>)
    ensures |r| == n
    ensures AllDigits(ds) ==> AllDigits(r)
  {
    if |ds| >= n then ds[..n] else ds + Zeros(n - |ds|)
  }

  // ---------------------------------------------------------------------
  // SCIENTIFIC

  /** The digits of a power of ten: a one followed by zeros. */
  predicate OneThenZeros(ds: seq<char>) {
    1 <= |ds| && ds == ['1'] + Zeros(|ds| - 1)
  }

  /** Significand digits after rounding, the significant-digit target of PAD, and the printed exponent. */
  datatype Plan = Plan(digits: seq<char>, cap: int, lead: int, exponent: int)

  /**
   * The SCIENTIFIC width budget: one leading digit, 'E', the exponent sign
   * and digits; `cap` digits fit and `sig` of them are rounded to.
   */
  function SciBudget(avail: int, expDigits: nat, mlen: nat): (b: (int, int))
    requires mlen >= 1
    ensures 1 <= b.1 <= b.0 && b.1 <= mlen
  {
    var base := 3 + expDigits;
    if avail > base then (avail - base, Min(avail - base, mlen)) else (1, 1)
  }

  /** The number of significant digits SCIENTIFIC first rounds to. */
  function SciSignificant(neg: bool, m: seq<char>, exp: int, maxChars: int): int
    requires 1 <= |m|
  {
    SciBudget(maxChars - SignWidth(neg), NumDigits(Abs(exp + |m| - 1)), |m|).1
  }

  function SciPlan(neg: bool, m: seq<char>, exp: int, maxChars: int): (p: Plan)
    requires 1 <= |m| && AllDigits(m)
    ensures 1 <= |p.digits| && AllDigits(p.digits) && p.lead == 1
    ensures var sig := SciSignificant(neg, m, exp, maxChars);
            |RoundBankers(m, sig)| > sig ==> p.exponent == exp + |m| && OneThenZeros(p.digits)
  {
    var avail := maxChars - SignWidth(neg);
    var e0 := exp + |m| - 1;
    var ed := NumDigits(Abs(e0));
    var b := SciBudget(avail, ed, |m|);
    assert b.1 == SciSignificant(neg, m, exp, maxChars);
    var r := RoundBankers(m, b.1);
    if |r| > b.1 then
      RoundBankersCarry(m, b.1);
      SciReplan(avail, r, e0 + 1, ed, b.0)
    else Plan(r, b.0, 1, e0)
  }

  /**
   * SCIENTIFIC after a carry into a new digit: only when the exponent
   * `e1` now needs more digits than `ed` is the budget recomputed and the
   * digits rounded again.
   */
  function SciReplan(avail: int, r: seq<char>, e1: int, ed: nat, cap: int): (p: Plan)
    requires 1 <= |r| && AllDigits(r)
    ensures 1 <= |p.digits| && AllDigits(p.digits) && p.lead == 1 && p.exponent == e1
    ensures OneThenZeros(r) ==> OneThenZeros(p.digits)
  {
    var ed2 := NumDigits(Abs(e1));
    if ed2 > ed then
      var b2 := SciBudget(avail, ed2, |r|);
      RoundPowerOfTen(|r| - 1, b2.1);
      Plan(if b2.1 < |r| then RoundBankers(r, b2.1) else r, b2.0, 1, e1)
    else Plan(r, cap, 1, e1)
  }

  /** Sign, the leading digit, the fraction and the exponent of a SCIENTIFIC plan. */
  function SciLayout(neg: bool, p: Plan, zero: ZeroMode): string
    requires 1 <= |p.digits|
  {
    SignText(neg) + SciMagnitude(p, zero)
  }

  function SciMagnitude(p: Plan, zero: ZeroMode): string
    requires 1 <= |p.digits|
  {
    [p.digits[0]] + Fraction(zero, p.digits[1..], p.cap - 1) + ExponentText(p.exponent)
  }

  /** SCIENTIFIC: the sign, one digit, and always an exponent. */
  function SciBody(neg: bool, m: seq<char>, exp: int, zero: ZeroMode, maxChars: int): (r: string)
    requires 1 <= |m| && AllDigits(m)
    ensures |r| > SignWidth(neg) && r[..SignWidth(neg)] == SignText(neg) && IsDigit(r[SignWidth(neg)])
    ensures 'E' in r
  {
    var p := SciPlan(neg, m, exp, maxChars);
    LayoutShape(neg, [p.digits[0]], Fraction(zero, p.digits[1..], p.cap - 1), ExponentText(p.exponent));
    SciLayout(neg, p, zero)
  }

  /** Sign, digits, fraction and exponent text: the sign comes first, then a digit, and an 'E' follows. */
  lemma LayoutShape(neg: bool, l: seq<char>, f: string, t: string)
    requires |l| >= 1 && IsDigit(l[0]) && |t| >= 1 && t[0] == 'E'
    ensures var r := SignText(neg) + l + f + t;
            |r| > SignWidth(neg) && r[..SignWidth(neg)] == SignText(neg) && IsDigit(r[SignWidth(neg)]) && 'E' in r
  {
    var r := SignText(neg) + l + f + t;
    assert r[SignWidth(neg) + |l| + |f|] == 'E';
    assert r[SignWidth(neg)] == l[0];
  }

  // ---------------------------------------------------------------------
  // ENGINEERING

  /** Integer digits ahead of the point for a decimal point position: 1, 2 or 3. */
  function IntegerDigits(decPos: int): (db: int)
    ensures 1 <= db <= 3 && (decPos - db) % 3 == 0
  {
    var r := decPos % 3;
    if r == 0 then 3 else r
  }

  function EngBudget(avail: int, db: int, expDigits: nat, mlen: nat): (b: (int, int))
    requires 1 <= db <= 3 && mlen >= 1
    ensures b.0 >= db && 1 <= b.1 <= b.0
  {
    var base := db + 2 + expDigits;
    if avail > base then
      var extra := avail - base - 1;
      var cap := if extra > 0 then db + extra else db;
      (cap, Min(cap, mlen))
    else (db, db)
  }

  /** The number of significant digits ENGINEERING first rounds to. */
  function EngSignificant(neg: bool, m: seq<char>, exp: int, maxChars: int): int
    requires 1 <= |m|
  {
    var db := IntegerDigits(|m| + exp);
    EngBudget(maxChars - SignWidth(neg), db, NumDigits(Abs(|m| + exp - db)), |m|).1
  }

  function EngPlan(neg: bool, m: seq<char>, exp: int, maxChars: int): (p: Plan)
    requires 1 <= |m| && AllDigits(m)
    ensures 1 <= |p.digits| && AllDigits(p.digits)
    ensures 1 <= p.lead <= 3 && p.exponent % 3 == 0
  {
    var avail := maxChars - SignWidth(neg);
    var decPos := |m| + exp;
    var db := IntegerDigits(decPos);
    var e0 := decPos - db;
    var ed := NumDigits(Abs(e0));
    var b := EngBudget(avail, db, ed, |m|);
    assert b.1 == EngSignificant(neg, m, exp, maxChars);
    var r := RoundBankers(m, b.1);
    if |r| > b.1 then
      RoundBankersCarry(m, b.1);
      EngReplan(avail, r, decPos + 1, ed, b.0)
    else Plan(r, b.0, db, e0)
  }

  /**
   * ENGINEERING after a carry: the point moves to `decPos`; only when the
   * exponent's digit count differs from `ed` is the budget recomputed and
   * the digits rounded again.
   */
  function EngReplan(avail: int, r: seq<char>, decPos: int, ed: nat, cap: int): (p: Plan)
    requires 1 <= |r| && AllDigits(r)
    ensures 1 <= |p.digits| && AllDigits(p.digits)
    ensures p.lead == IntegerDigits(decPos) && p.exponent == decPos - p.lead && p.exponent % 3 == 0
    ensures OneThenZeros(r) ==> OneThenZeros(p.digits)
  {
    var db1 := IntegerDigits(decPos);
    var e1 := decPos - db1;
    var ed2 := NumDigits(Abs(e1));
    if ed2 != ed then
      var b2 := EngBudget(avail, db1, ed2, |r|);
      RoundPowerOfTen(|r| - 1, b2.1);
      Plan(if b2.1 < |r| then RoundBankers(r, b2.1) else r, b2.0, db1, e1)
    else Plan(r, cap, db1, e1)
  }

  function Suffix(ds: seq<char>, from: int): seq<char>
    requires 0 <= from
  {
    if |ds| > from then ds[from..] else []
  }

  /** Sign, exactly `lead` integer digits, the fraction and the exponent of an ENGINEERING plan. */
  function EngLayout(neg: bool, p: Plan, zero: ZeroMode): string
    requires 0 <= p.lead
  {
    SignText(neg) + EngMagnitude(p, zero)
  }

  function EngMagnitude(p: Plan, zero: ZeroMode): string
    requires 0 <= p.lead
  {
    LeadDigits(p.digits, p.lead) + Fraction(zero, Suffix(p.digits, p.lead), p.cap - p.lead)
      + ExponentText(p.exponent)
  }

  /** ENGINEERING: the sign, a digit, and always an exponent. */
  function EngBody(neg: bool, m: seq<char>, exp: int, zero: ZeroMode, maxChars: int): (r: string)
    requires 1 <= |m| && AllDigits(m)
    ensures |r| > SignWidth(neg) && r[..SignWidth(neg)] == SignText(neg) && IsDigit(r[SignWidth(neg)])
    ensures 'E' in r
  {
    var p := EngPlan(neg, m, exp, maxChars);
    var l := LeadDigits(p.digits, p.lead);
    LayoutShape(neg, l, Fraction(zero, Suffix(p.digits, p.lead), p.cap - p.lead), ExponentText(p.exponent));
    EngLayout(neg, p, zero)
  }

  // ---------------------------------------------------------------------
  // NORMAL

  /** Where the decimal point falls, counted from the left of the digits. */
  function PointPosition(m: seq<char>, exp: int): int { |m| + exp }

  function IntegerLength(decPos: int): int { if decPos > 0 then decPos else 1 }

  /** The fractional places left after the sign, the integer part and the point. */
  function FractionBudget(neg: bool, intLen: int, maxChars: int): (c: int)
    ensures c >= 0
  {
    Max(maxChars - SignWidth(neg) - intLen - 1, 0)
  }

  function IntegerPart(m: seq<char>, decPos: int): (s: seq<char>)
    requires AllDigits(m)
    ensures AllDigits(s) && |s| == IntegerLength(decPos)
  {
    if decPos > 0 then LeadDigits(m, decPos) else "0"
  }

  function FractionPart(m: seq<char>, decPos: int): (s: seq<char>)
    requires AllDigits(m)
    ensures AllDigits(s)
  {
    if decPos < 0 then Zeros(-decPos) + m
    else if decPos < |m| then m[decPos..]
    else []
  }

  /** The rounded integer-and-fraction digits and the length of their integer part. */
  function NormalRounded(m: seq<char>, decPos: int, capFrac: int): (w: (seq<char>, int))
    requires AllDigits(m) && 0 <= capFrac < |FractionPart(m, decPos)|
    ensures AllDigits(w.0) && |IntegerPart(m, decPos)| <= w.1 <= |w.0|
  {
    var ib := IntegerPart(m, decPos);
    var keep := |ib| + capFrac;
    var r := RoundBankers(ib + FractionPart(m, decPos), keep);
    (r, if |r| > keep then |ib| + 1 else |ib|)
  }

  /** The three cases in which NORMAL gives way to SCIENTIFIC. */
  predicate NormalFallsBack(neg: bool, m: seq<char>, exp: int, maxChars: int)
    requires AllDigits(m)
  {
    var decPos := PointPosition(m, exp);
    var intLen := IntegerLength(decPos);
    var capFrac := FractionBudget(neg, intLen, maxChars);
    SignWidth(neg) + intLen > maxChars
    || (decPos <= 0 && capFrac <= -decPos)
    || (capFrac < |FractionPart(m, decPos)|
        && SignWidth(neg) + NormalRounded(m, decPos, capFrac).1 > maxChars)
  }

  /** An integer (exponent at least zero) stays in fixed point exactly when its digits, trailing zeros and sign fit the width. */
  lemma IntegerFallsBackIffTooWide(neg: bool, m: seq<char>, exp: int, maxChars: int)
    requires 1 <= |m| && AllDigits(m) && exp >= 0
    ensures NormalFallsBack(neg, m, exp, maxChars) <==> SignWidth(neg) + |m| + exp > maxChars
  {
    assert FractionPart(m, PointPosition(m, exp)) == [];
  }

  /**
   * The integer digits, the fraction digits and the PAD fraction budget of
   * a NORMAL rendering that does not fall back; when the fraction has more
   * digits than fit, the whole digit string is rounded at the budget and a
   * carry may lengthen the integer part.
   */
  function NormalParts(neg: bool, m: seq<char>, exp: int, maxChars: int): (parts: (seq<char>, seq<char>, int))
    requires 1 <= |m| && AllDigits(m)
    requires !NormalFallsBack(neg, m, exp, maxChars)
    ensures AllDigits(parts.0) && AllDigits(parts.1) && |parts.0| >= 1 && |parts.1| <= parts.2
    ensures SignWidth(neg) + |parts.0| <= maxChars && parts.2 == FractionBudget(neg, |parts.0|, maxChars)
  {
    var decPos := PointPosition(m, exp);
    var capFrac := FractionBudget(neg, IntegerLength(decPos), maxChars);
    var ff := FractionPart(m, decPos);
    if capFrac < |ff| then
      var rounded := NormalRounded(m, decPos, capFrac);
      RoundedParts(neg, rounded.0, rounded.1, maxChars)
    else
      (IntegerPart(m, decPos), ff, capFrac)
  }

  /** Rounded digits `w` split after `newInt` integer digits, the fraction cut at its budget. */
  function RoundedParts(neg: bool, w: seq<char>, newInt: int, maxChars: int): (parts: (seq<char>, seq<char>, int))
    requires 0 <= newInt <= |w|
    ensures parts.0 == w[..newInt] && parts.2 == FractionBudget(neg, newInt, maxChars)
    ensures |parts.1| <= parts.2 && parts.1 <= w[newInt..]
  {
    var cap2 := FractionBudget(neg, newInt, maxChars);
    (w[..newInt], w[newInt..newInt + Min(|w| - newInt, cap2)], cap2)
  }

  /** NORMAL: the sign and a digit, in fixed point or, falling back, in SCIENTIFIC. */
  function NormalBody(neg: bool, m: seq<char>, exp: int, zero: ZeroMode, maxChars: int): (r: string)
    requires 1 <= |m| && AllDigits(m)
    ensures |r| > SignWidth(neg) && r[..SignWidth(neg)] == SignText(neg) && IsDigit(r[SignWidth(neg)])
  {
    if NormalFallsBack(neg, m, exp, maxChars) then SciBody(neg, m, exp, zero, maxChars)
    else
      var parts := NormalParts(neg, m, exp, maxChars);
      var f := Fraction(zero, parts.1, parts.2);
      assert NormalLayout(neg, parts.0, parts.1, parts.2, zero) == SignText(neg) + parts.0 + f;
      assert (SignText(neg) + parts.0 + f)[SignWidth(neg)] == parts.0[0];
      NormalLayout(neg, parts.0, parts.1, parts.2, zero)
  }

  /** Sign, integer digits and the fraction with `cap` places for PAD. */
  function NormalLayout(neg: bool, ip: seq<char>, fp: seq<char>, cap: int, zero: ZeroMode): string {
    SignText(neg) + ip + Fraction(zero, fp, cap)
  }

  // ---------------------------------------------------------------------
  // The whole renderer

  /** The text starts with '-' exactly for a negative number or infinity, and the exponent modes always show an exponent. */
  function Body(x: Decomposed, disp: DispMode, zero: ZeroMode, maxChars: int): (r: string)
    requires WellFormed(x)
    ensures |r| > 0 && (r[0] == '-' <==> (x.Number? || x.Inf?) && x.neg)
    ensures x.Number? && disp != Normal ==> 'E' in r
  {
    match x
    case Inf(neg) => if neg then "-Inf" else "Inf"
    case NotANumber => "NaN"
    case Number(neg, m, exp) =>
      match disp
      case Scientific => SciBody(neg, m, exp, zero, maxChars)
      case Engineering => EngBody(neg, m, exp, zero, maxChars)
      case Normal => NormalBody(neg, m, exp, zero, maxChars)
  }

  /** What `bid128_to_str(x, buf, bufsize)` leaves in `buf` before the terminating NUL. */
  function RenderText(x: Decomposed, disp: DispMode, zero: ZeroMode, bufsize: int): (r: string)
    requires WellFormed(x)
    ensures |r| <= Max(bufsize - 1, 0)
    ensures r <= Body(x, disp, zero, bufsize - 1)
  {
    Take(Body(x, disp, zero, bufsize - 1), bufsize - 1)
  }

  // ---------------------------------------------------------------------
  // Properties of the layouts

  /** Rounding "1000..." further only shortens it: the second SCIENTIFIC/ENGINEERING rounding never carries. */
  lemma RoundPowerOfTen(k: nat, j: int)
    requires 1 <= j
    ensures RoundBankers(['1'] + Zeros(k), j) == ['1'] + Zeros(if j <= k then j - 1 else k)
  {
    var d := ['1'] + Zeros(k);
    if j < |d| {
      assert d[j] == '0';
      assert d[..j] == ['1'] + Zeros(j - 1);
    }
  }

  /** When the first SCIENTIFIC rounding does not carry, the plan keeps its digits and exponent exp + |m| - 1. */
  lemma SciNoCarry(neg: bool, m: seq<char>, exp: int, maxChars: int)
    requires 1 <= |m| && AllDigits(m)
    requires var sig := SciSignificant(neg, m, exp, maxChars);
             |RoundBankers(m, sig)| <= sig
    ensures var p := SciPlan(neg, m, exp, maxChars);
            p.exponent == exp + |m| - 1 && p.digits == RoundBankers(m, SciSignificant(neg, m, exp, maxChars))
  {
  }

  /**
   * SCIENTIFIC rounds the significand half-to-even to `sig` significant
   * digits and prints exponent exp + |m| - 1; when that rounding carries
   * into a new digit (the rounded value is 10^sig) the significand becomes
   * 1.000... and the exponent goes up by one.
   */
  lemma SciRounding(neg: bool, m: seq<char>, exp: int, maxChars: int)
    requires 1 <= |m| && AllDigits(m)
    ensures var p := SciPlan(neg, m, exp, maxChars);
            var sig := SciSignificant(neg, m, exp, maxChars);
            var carry := |RoundBankers(m, sig)| > sig;
            (carry ==> p.exponent == exp + |m| && OneThenZeros(p.digits)) &&
            (!carry ==> p.exponent == exp + |m| - 1 && p.digits == RoundBankers(m, sig))
  {
    var sig := SciSignificant(neg, m, exp, maxChars);
    if |RoundBankers(m, sig)| <= sig {
      SciNoCarry(neg, m, exp, maxChars);
    }
  }

  lemma EngNoCarry(neg: bool, m: seq<char>, exp: int, maxChars: int)
    requires 1 <= |m| && AllDigits(m)
    requires var sig := EngSignificant(neg, m, exp, maxChars);
             |RoundBankers(m, sig)| <= sig
    ensures var p := EngPlan(neg, m, exp, maxChars);
            p.exponent + p.lead == exp + |m| && p.digits == RoundBankers(m, EngSignificant(neg, m, exp, maxChars))
  {
  }

  /**
   * ENGINEERING prints `lead` in 1..3 integer digits and an exponent that is
   * a multiple of three, placed so that lead + exponent is the position of
   * the decimal point of the input (one further right after a carry).
   */
  lemma EngRounding(neg: bool, m: seq<char>, exp: int, maxChars: int)
    requires 1 <= |m| && AllDigits(m)
    ensures var p := EngPlan(neg, m, exp, maxChars);
            var sig := EngSignificant(neg, m, exp, maxChars);
            var carry := |RoundBankers(m, sig)| > sig;
            1 <= p.lead <= 3 && p.exponent % 3 == 0 &&
            (carry ==> p.exponent + p.lead == |m| + exp + 1 && OneThenZeros(p.digits)) &&
            (!carry ==> p.exponent + p.lead == |m| + exp && p.digits == RoundBankers(m, sig))
  {
    var sig := EngSignificant(neg, m, exp, maxChars);
    if |RoundBankers(m, sig)| <= sig {
      EngNoCarry(neg, m, exp, maxChars);
    } else {
      RoundBankersCarry(m, sig);
    }
  }

  /** A one-digit (or `lead`-digit) head, then nothing or a fraction starting with '.', then 'E'. */
  lemma PiecesAfterLead(a: string, f: string, e: string)
    requires |a| >= 1 && (f == [] || f[0] == '.') && |e| >= 1 && e[0] == 'E'
    ensures var t := a + f + e;
            |t| > |a| && t[..|a|] == a && (t[|a|] == '.' || t[|a|] == 'E')
  {
    var t := a + f + e;
    assert t[..|a|] == a;
    if |f| > 0 {
      assert t[|a|] == f[0];
    } else {
      assert t[|a|] == e[0];
    }
  }

  lemma FractionStartsWithPoint(zero: ZeroMode, ds: seq<char>, want: int)
    ensures var f := Fraction(zero, ds, want);
            f == [] || f[0] == '.'
  {
  }

  /** After the sign, ENGINEERING writes exactly `lead` digits, then the point or the exponent. */
  lemma EngIntegerPart(p: Plan, zero: ZeroMode)
    requires 1 <= p.lead && AllDigits(p.digits)
    ensures var t := EngMagnitude(p, zero);
            |t| > p.lead && AllDigits(t[..p.lead]) && (t[p.lead] == '.' || t[p.lead] == 'E')
  {
    var a := LeadDigits(p.digits, p.lead);
    FractionStartsWithPoint(zero, Suffix(p.digits, p.lead), p.cap - p.lead);
    PiecesAfterLead(a, Fraction(zero, Suffix(p.digits, p.lead), p.cap - p.lead), ExponentText(p.exponent));
  }

  /** After the sign, SCIENTIFIC writes exactly one digit, then the point or the exponent. */
  lemma SciLeadingDigit(p: Plan, zero: ZeroMode)
    requires 1 <= |p.digits| && AllDigits(p.digits)
    ensures var t := SciMagnitude(p, zero);
            |t| > 1 && IsDigit(t[0]) && (t[1] == '.' || t[1] == 'E')
  {
    FractionStartsWithPoint(zero, p.digits[1..], p.cap - 1);
    PiecesAfterLead([p.digits[0]], Fraction(zero, p.digits[1..], p.cap - 1), ExponentText(p.exponent));
  }

  /** Characters of a fixed-point numeral: sign, digits and the point. */
  predicate FixedPointChars(s: string) {
    forall i :: 0 <= i < |s| ==> s[i] == '-' || s[i] == '.' || IsDigit(s[i])
  }

  lemma FractionChars(zero: ZeroMode, ds: seq<char>, want: int)
    requires AllDigits(ds)
    ensures FixedPointChars(Fraction(zero, ds, want))
  {
    var f := Fraction(zero, ds, want);
    if zero == Trim {
      if f != [] {
        assert f == "." + TrimZeros(ds);
      }
    } else if want > 0 {
      assert f == "." + ds[..Min(|ds|, want)] + Zeros(want - Min(|ds|, want));
    }
  }

  lemma LayoutFacts(neg: bool, ip: seq<char>, fp: seq<char>, cap: int, zero: ZeroMode)
    requires AllDigits(ip) && AllDigits(fp) && |ip| >= 1 && |fp| <= cap
    ensures var b := NormalLayout(neg, ip, fp, cap, zero);
            FixedPointChars(b) && 'E' !in b
            && (zero == Pad ==> |b| == |SignText(neg)| + |ip| + (if cap > 0 then cap + 1 else 0))
            && (zero == Trim ==> |b| <= |SignText(neg)| + |ip| + (if cap > 0 then cap + 1 else 0))
  {
    var f := Fraction(zero, fp, cap);
    FractionChars(zero, fp, cap);
    var b := SignText(neg) + ip + f;
    assert FixedPointChars(b) by {
      forall i | 0 <= i < |b| ensures b[i] == '-' || b[i] == '.' || IsDigit(b[i]) {
        if i < |SignText(neg)| {
        } else if i < |SignText(neg)| + |ip| {
          assert b[i] == ip[i - |SignText(neg)|];
        } else {
          assert b[i] == f[i - |SignText(neg)| - |ip|];
        }
      }
    }
    if zero == Trim && cap <= 0 {
      assert fp == [];
    }
  }

  /** NORMAL without a fallback is plain fixed point: no exponent, and it is never cut by the width. */
  lemma NormalIsFixedPoint(neg: bool, m: seq<char>, exp: int, zero: ZeroMode, maxChars: int)
    requires 1 <= |m| && AllDigits(m)
    requires !NormalFallsBack(neg, m, exp, maxChars)
    ensures var b := NormalBody(neg, m, exp, zero, maxChars);
            FixedPointChars(b) && 'E' !in b && |b| <= maxChars && Take(b, maxChars) == b
  {
    var parts := NormalParts(neg, m, exp, maxChars);
    LayoutFacts(neg, parts.0, parts.1, parts.2, zero);
  }

  /** NORMAL with PAD fills the width, or falls one short where a point and one place would not fit. */
  lemma NormalPadFillsWidth(neg: bool, m: seq<char>, exp: int, maxChars: int)
    requires 1 <= |m| && AllDigits(m)
    requires !NormalFallsBack(neg, m, exp, maxChars)
    ensures var b := NormalBody(neg, m, exp, Pad, maxChars);
            maxChars - 1 <= |b| <= maxChars
  {
    var parts := NormalParts(neg, m, exp, maxChars);
    LayoutFacts(neg, parts.0, parts.1, parts.2, Pad);
  }

  lemma TrimLayoutEnds(neg: bool, ip: seq<char>, fp: seq<char>, cap: int)
    requires AllDigits(ip) && AllDigits(fp) && |ip| >= 1
    ensures var b := NormalLayout(neg, ip, fp, cap, Trim);
            |b| > 0 && IsDigit(b[|b| - 1]) && ('.' in b ==> b[|b| - 1] != '0')
  {
    var f := TrimmedFraction(fp);
    var b := SignText(neg) + ip + f;
    assert b == NormalLayout(neg, ip, fp, cap, Trim);
    if |f| > 0 {
      assert b[|b| - 1] == f[|f| - 1];
      assert f[1..] <= fp;
      assert f[|f| - 1] == fp[|f| - 2];
    } else {
      assert b[|b| - 1] == ip[|ip| - 1];
      assert '.' !in b by {
        forall i | 0 <= i < |b| ensures b[i] != '.' {
          if i >= |SignText(neg)| {
            assert b[i] == ip[i - |SignText(neg)|];
          }
        }
      }
    }
  }

  /** NORMAL with TRIM ends in a digit and, when it has a point, never in a fractional zero. */
  lemma NormalTrimEnds(neg: bool, m: seq<char>, exp: int, maxChars: int)
    requires 1 <= |m| && AllDigits(m)
    requires !NormalFallsBack(neg, m, exp, maxChars)
    ensures var b := NormalBody(neg, m, exp, Trim, maxChars);
            |b| > 0 && IsDigit(b[|b| - 1]) && ('.' in b ==> b[|b| - 1] != '0')
  {
    var parts := NormalParts(neg, m, exp, maxChars);
    TrimLayoutEnds(neg, parts.0, parts.1, parts.2);
  }

  /** What the firmware writes for a finite value, the body pushed into an empty buffer, is `RenderText` once cut. */
  lemma RenderTextCut(x: Decomposed, disp: DispMode, zero: ZeroMode, bufsize: int, maxChars: int, written: string)
    requires WellFormed(x) && maxChars == bufsize - 1 && written == [] + Body(x, disp, zero, maxChars)
    ensures RenderText(x, disp, zero, bufsize) == Take(written, maxChars)
  {
    assert written == Body(x, disp, zero, bufsize - 1);
  }

  lemma RenderNumber(neg: bool, m: seq<char>, exp: int, disp: DispMode, zero: ZeroMode, bufsize: int)
    requires WellFormed(Number(neg, m, exp))
    ensures RenderText(Number(neg, m, exp), disp, zero, bufsize) == Take(
              match disp
              case Normal => NormalBody(neg, m, exp, zero, bufsize - 1)
              case Scientific => SciBody(neg, m, exp, zero, bufsize - 1)
              case Engineering => EngBody(neg, m, exp, zero, bufsize - 1), bufsize - 1)
  {
  }

  lemma NormalBodyFixed(neg: bool, m: seq<char>, exp: int, zero: ZeroMode, maxChars: int)
    requires 1 <= |m| && AllDigits(m) && !NormalFallsBack(neg, m, exp, maxChars)
    ensures var parts := NormalParts(neg, m, exp, maxChars);
            NormalBody(neg, m, exp, zero, maxChars) == NormalLayout(neg, parts.0, parts.1, parts.2, zero)
  {
  }

  /** When every fraction digit fits, NORMAL shows the integer and fraction digits unrounded. */
  lemma NormalExactBody(neg: bool, m: seq<char>, exp: int, zero: ZeroMode, maxChars: int, decPos: int, capFrac: int)
    requires 1 <= |m| && AllDigits(m) && decPos == PointPosition(m, exp)
    requires capFrac == FractionBudget(neg, IntegerLength(decPos), maxChars)
    requires SignWidth(neg) + IntegerLength(decPos) <= maxChars && |FractionPart(m, decPos)| <= capFrac
    requires !(decPos <= 0 && capFrac <= -decPos)
    ensures NormalBody(neg, m, exp, zero, maxChars)
            == NormalLayout(neg, IntegerPart(m, decPos), FractionPart(m, decPos), capFrac, zero)
  {
    assert !NormalFallsBack(neg, m, exp, maxChars);
  }

  /** The parts of a rounded NORMAL rendering: the rounded digits split at the new integer length. */
  lemma NormalPartsRounded(neg: bool, m: seq<char>, exp: int, maxChars: int, w: seq<char>, newInt: int)
    requires 1 <= |m| && AllDigits(m) && !NormalFallsBack(neg, m, exp, maxChars)
    requires var decPos := PointPosition(m, exp);
             var capFrac := FractionBudget(neg, IntegerLength(decPos), maxChars);
             capFrac < |FractionPart(m, decPos)| && (w, newInt) == NormalRounded(m, decPos, capFrac)
    ensures 0 <= newInt <= |w|
    ensures NormalParts(neg, m, exp, maxChars) == RoundedParts(neg, w, newInt, maxChars)
  {
  }

  /**
   * A NORMAL rendering whose integer part fits and whose fraction is cut:
   * `w` are the digits rounded at the fraction budget, `newInt` of them
   * before the point.
   */
  predicate RoundedCase(neg: bool, m: seq<char>, exp: int, maxChars: int, w: seq<char>, newInt: int)
    requires AllDigits(m)
  {
    var decPos := PointPosition(m, exp);
    var capFrac := FractionBudget(neg, IntegerLength(decPos), maxChars);
    SignWidth(neg) + IntegerLength(decPos) <= maxChars && !(decPos <= 0 && capFrac <= -decPos)
    && capFrac < |FractionPart(m, decPos)| && (w, newInt) == NormalRounded(m, decPos, capFrac)
  }

  /** When the carry of a rounded NORMAL rendering leaves no room for the integer part, SCIENTIFIC is shown. */
  lemma NormalRoundedFallsBack(neg: bool, m: seq<char>, exp: int, zero: ZeroMode, maxChars: int, w: seq<char>, newInt: int)
    requires 1 <= |m| && AllDigits(m) && RoundedCase(neg, m, exp, maxChars, w, newInt)
    requires SignWidth(neg) + newInt > maxChars
    ensures NormalBody(neg, m, exp, zero, maxChars) == SciBody(neg, m, exp, zero, maxChars)
  {
    assert NormalFallsBack(neg, m, exp, maxChars);
  }

  /** Otherwise a rounded NORMAL rendering shows the rounded digits. */
  lemma NormalRoundedBody(neg: bool, m: seq<char>, exp: int, zero: ZeroMode, maxChars: int, w: seq<char>, newInt: int)
    requires 1 <= |m| && AllDigits(m) && RoundedCase(neg, m, exp, maxChars, w, newInt)
    requires SignWidth(neg) + newInt <= maxChars
    ensures 0 <= newInt <= |w|
    ensures NormalBody(neg, m, exp, zero, maxChars) == RoundedLayout(neg, w, newInt, zero, maxChars)
  {
    assert !NormalFallsBack(neg, m, exp, maxChars);
    NormalBodyFixed(neg, m, exp, zero, maxChars);
    NormalPartsRounded(neg, m, exp, maxChars, w, newInt);
  }

  /** `RoundedLayout` spelled out with the fraction length and budget of the rounded rendering. */
  lemma RoundedLayoutParts(neg: bool, w: seq<char>, newInt: int, zero: ZeroMode, maxChars: int, nf: int, cap: int)
    requires 0 <= newInt <= |w| && cap == FractionBudget(neg, newInt, maxChars) && nf == Min(|w| - newInt, cap)
    ensures 0 <= nf && newInt + nf <= |w|
    ensures RoundedLayout(neg, w, newInt, zero, maxChars) == NormalLayout(neg, w[..newInt], w[newInt..newInt + nf], cap, zero)
  {
  }

  /** The NORMAL layout of rounded digits `w` whose first `newInt` are the integer part. */
  function RoundedLayout(neg: bool, w: seq<char>, newInt: int, zero: ZeroMode, maxChars: int): string
    requires 0 <= newInt <= |w|
  {
    var parts := RoundedParts(neg, w, newInt, maxChars);
    NormalLayout(neg, parts.0, parts.1, parts.2, zero)
  }



}

module RenderExamples {
  import opened Digits
  import opened Render

  const PiDigits: seq<char> := "3141592653589793238462643383279503"

  lemma PiAllDigits()
    ensures AllDigits(PiDigits)
  {
    assert forall i :: 0 <= i < |PiDigits| ==> IsDigit(PiDigits[i]);
  }

  lemma PiRounded()
    ensures AllDigits(PiDigits)
    ensures NormalRounded(PiDigits, 1, 14) == ("314159265358979", 1)
  {
    var m := PiDigits;
    PiAllDigits();
    assert m[..1] == "3";
    assert IntegerPart(m, 1) == "3";
    assert FractionPart(m, 1) == m[1..];
    assert "3" + m[1..] == m;
    assert !RoundsUp(m, 15);
    assert RoundBankers(m, 15) == "314159265358979";
  }

  lemma PiParts()
    ensures AllDigits(PiDigits) && !NormalFallsBack(false, PiDigits, -33, 16)
    ensures NormalParts(false, PiDigits, -33, 16) == ("3", "14159265358979", 14)
  {
    PiRounded();
    var w := "314159265358979";
    assert w[..1] == "3" && w[1..15] == "14159265358979";
  }

  lemma PiLayout()
    ensures NormalLayout(false, "3", "14159265358979", 14, Trim) == "3.14159265358979"
  {
    var f := "14159265358979";
    assert f[|f| - 1] == '9';
    assert TrimmedFraction(f) == "." + f;
    assert SignText(false) + "3" + ("." + f) == "3.14159265358979";
  }

  /** Pi as the library prints it, on a 16-character display line: rounded and trimmed to 14 places. */
  lemma PiOnSixteenColumns()
    ensures AllDigits(PiDigits)
    ensures RenderText(Number(false, PiDigits, -33), Normal, Trim, 17) == "3.14159265358979"
  {
    PiParts();
    PiLayout();
    NormalBodyFixed(false, PiDigits, -33, Trim, 16);
    RenderNumber(false, PiDigits, -33, Normal, Trim, 17);
  }

  /** 10^20 does not fit sixteen columns in fixed point and falls back to SCIENTIFIC. */
  lemma LargeNumberFallsBack()
    ensures RenderText(Number(false, "1", 20), Normal, Trim, 17) == "1E+20"
  {
    assert AllDigits("1");
    assert NormalFallsBack(false, "1", 20, 16);
    assert NatText(20) == "20";
    assert SciPlan(false, "1", 20, 16) == Plan("1", 11, 1, 20);
    assert SciBody(false, "1", 20, Trim, 16) == "1E+20";
    RenderNumber(false, "1", 20, Normal, Trim, 17);
  }

  /** 999 kept to one significant digit rounds up to "10", which carries into the exponent. */
  lemma SciPlanOf999()
    ensures AllDigits("999") && SciPlan(false, "999", 0, 5) == Plan("10", 1, 1, 3)
  {
    assert AllDigits("999");
    assert RoundBankers("999", 1) == "10";
  }

  lemma SciLayoutOf999()
    ensures SciLayout(false, Plan("10", 1, 1, 3), Trim) == "1E+3"
  {
    assert TrimZeros("0") == "";
    assert NatText(3) == "3";
    assert SciMagnitude(Plan("10", 1, 1, 3), Trim) == "1E+3";
  }

  /** Rounding 999 to one significant digit carries: the exponent goes from 2 to 3. */
  lemma ScientificCarry()
    ensures RenderText(Number(false, "999", 0), Scientific, Trim, 6) == "1E+3"
  {
    SciPlanOf999();
    SciLayoutOf999();
    RenderNumber(false, "999", 0, Scientific, Trim, 6);
  }

  lemma EngPlanOf12345()
    ensures AllDigits("12345") && EngPlan(false, "12345", 0, 16) == Plan("12345", 12, 2, 3)
  {
    assert AllDigits("12345");
    assert IntegerDigits(5) == 2;
  }

  lemma EngMagnitudeOf12345()
    ensures EngMagnitude(Plan("12345", 12, 2, 3), Trim) == "12.345E+3"
  {
    assert TrimZeros("345") == "345";
    assert NatText(3) == "3";
  }

  /** ENGINEERING puts two digits ahead of the point for 12345 and an exponent of 3. */
  lemma EngineeringExample()
    ensures RenderText(Number(false, "12345", 0), Engineering, Trim, 17) == "12.345E+3"
  {
    EngPlanOf12345();
    EngMagnitudeOf12345();
    assert EngBody(false, "12345", 0, Trim, 16) == "12.345E+3";
    RenderNumber(false, "12345", 0, Engineering, Trim, 17);
  }

  /** PAD fills the sixteen columns with zeros after 2.5. */
  lemma PadExample()
    ensures RenderText(Number(false, "25", -1), Normal, Pad, 17) == "2.50000000000000"
  {
    assert AllDigits("25");
    assert "25"[..1] == "2" && "25"[1..] == "5";
    assert FractionPart("25", 1) == "5";
    assert !NormalFallsBack(false, "25", -1, 16);
    assert NormalParts(false, "25", -1, 16) == ("2", "5", 14);
    assert NormalLayout(false, "2", "5", 14, Pad) == "2.50000000000000";
    NormalBodyFixed(false, "25", -1, Pad, 16);
    RenderNumber(false, "25", -1, Normal, Pad, 17);
  }

  /** Infinity and NaN are copied literally and cut to the buffer. */
  lemma SpecialValues()
    ensures RenderText(Inf(true), Normal, Trim, 17) == "-Inf"
    ensures RenderText(Inf(true), Scientific, Pad, 3) == "-I"
    ensures RenderText(NotANumber, Engineering, Trim, 1) == ""
  {
  }
}
