
/**
 * `bid128_to_str` as the firmware runs it: scratch arrays for the
 * significand, the in-place rounding of `rpn_round_bankers`, and every
 * output character written through PUSH_CH into the caller's buffer.
 * Each layout method is proved to push exactly the text the corresponding
 * function of `Render` describes.
 */
module RenderBuffer {
  import opened Digits
  import opened Render

  /** PUSH_CH's state: the caller's buffer, the write position `out_i` and the limit `max_chars`. */
  class Sink {
    const buf: array<char>
    const maxChars: int
    var outI: int
    /** Every character pushed so far, including those PUSH_CH dropped. */
    ghost var written: string
    /** The buffer as the caller handed it over; PUSH_CH never touches what lies past `out_i`. */
    ghost const orig: seq<char>

    ghost predicate Valid()
      reads this, buf
    {
      maxChars == buf.Length - 1 && maxChars >= 1 &&
      0 <= outI <= maxChars && outI == |Take(written, maxChars)| && buf[..outI] == Take(written, maxChars) &&
      |orig| == buf.Length && buf[outI..] == orig[outI..]
    }

    constructor(b: array<char>)
      requires b.Length >= 2
      ensures Valid() && buf == b && written == [] && outI == 0 && orig == b[..]
    {
      buf := b;
      maxChars := b.Length - 1;
      outI := 0;
      written := [];
      orig := b[..];
    }

    /** PUSH_CH(c): stores c only while fewer than `max_chars` characters are in the buffer. */
    method Push(c: char)
      requires Valid()
      modifies this, buf
      ensures Valid() && written == old(written) + [c]
    {
      if outI < maxChars {
        assert buf[outI + 1..] == buf[outI..][1..];
        buf[outI] := c;
        outI := outI + 1;
        assert Take(written, maxChars) == written;
      } else {
        TakeAppend(written, [c], maxChars);
        assert Take(written, maxChars) + [c] == Take(written, maxChars) + [c];
        assert Take(Take(written, maxChars) + [c], maxChars) == Take(written, maxChars);
      }
      written := written + [c];
    }

    /** Characters the firmware does not even try to push once the buffer is full change nothing. */
    ghost method Skip(s: string)
      requires Valid() && outI >= maxChars
      modifies this
      ensures Valid() && written == old(written) + s && outI == old(outI)
    {
      assert |written| >= maxChars;
      assert (written + s)[..maxChars] == written[..maxChars];
      written := written + s;
    }

    /** The final `buf[out_i] = '\0'`. */
    method Terminate()
      requires Valid()
      modifies buf
      ensures outI == |Take(written, maxChars)| && buf[..outI] == Take(written, maxChars) && buf[outI] == '\0'
      ensures buf[outI + 1..] == orig[outI + 1..]
    {
      assert buf[outI + 1..] == buf[outI..][1..];
      buf[outI] := '\0';
    }

    /** The loops that push `src[from..to]` while the buffer has room. */
    method PushRange(src: array<char>, from: int, to: int)
      requires Valid() && 0 <= from <= to <= src.Length && src != buf
      modifies this, buf
      ensures Valid() && written == old(written) + src[from..to]
    {
      var i := PushWhileRoom(src, from, to);
      if i < to {
        Skip(src[i..to]);
      }
      assert src[from..to] == src[from..i] + src[i..to];
    }

    /** The copy loop proper: stops at `to` or when the buffer is full. */
    method PushWhileRoom(src: array<char>, from: int, to: int) returns (i: int)
      requires Valid() && 0 <= from <= to <= src.Length && src != buf
      modifies this, buf
      ensures Valid() && from <= i <= to && written == old(written) + src[from..i]
      ensures i < to ==> outI >= maxChars
    {
      i := from;
      ghost var w0 := written;
      while i < to && outI < maxChars
        invariant from <= i <= to
        invariant Valid() && written == w0 + src[from..i]
      {
        Push(src[i]);
        assert src[from..i + 1] == src[from..i] + [src[i]];
        i := i + 1;
      }
    }

    /** The loop that pushes a digit buffer filled back to front: `src[count - 1]` down to `src[0]`. */
    method PushReversed(src: array<char>, count: int, ghost txt: string)
      requires Valid() && src != buf && 0 <= count <= src.Length && |txt| == count
      requires forall k :: 0 <= k < count ==> src[k] == txt[count - 1 - k]
      modifies this, buf
      ensures Valid() && written == old(written) + txt
    {
      var i := count - 1;
      ghost var n := 0;
      ghost var w0 := written;
      while i >= 0 && outI < maxChars
        invariant -1 <= i < count && n == count - 1 - i
        invariant Valid() && written == w0 + txt[..n]
      {
        assert src[i] == txt[n];
        Push(src[i]);
        assert txt[..n + 1] == txt[..n] + [txt[n]];
        i := i - 1;
        n := n + 1;
      }
      if i >= 0 {
        Skip(txt[n..]);
        assert txt == txt[..n] + txt[n..];
      }
    }

    /** The zero-padding loops: `n` zeros while the buffer has room. */
    method PushZeros(n: int)
      requires Valid()
      modifies this, buf
      ensures Valid() && written == old(written) + Zeros(Max(n, 0))
    {
      var shown := 0;
      ghost var w0 := written;
      while shown < n && outI < maxChars
        invariant 0 <= shown <= Max(n, 0)
        invariant Valid() && written == w0 + Zeros(shown)
      {
        Push('0');
        shown := shown + 1;
      }
      if shown < n {
        ZerosSplit(shown, n - shown);
        Skip(Zeros(n - shown));
      }
    }
  }

  lemma {:induction false} ZerosSplit(a: nat, b: nat)
    ensures Zeros(a) + Zeros(b) == Zeros(a + b)
  {
    if b > 0 {
      ZerosSplit(a, b - 1);
    }
  }

  /** n < 10^k means n has at most k digits. */
  lemma {:induction false} NumDigitsAtMost(n: nat, k: nat)
    requires 1 <= k && n < Pow10(k)
    ensures NumDigits(n) <= k
  {
    if n >= 10 {
      assert Pow10(k) == 10 * Pow10(k - 1);
      assert n / 10 < Pow10(k - 1);
      NumDigitsAtMost(n / 10, k - 1);
    }
  }

  /**
   * The exponent: 'E', its sign, then the `expbuf` loop that stores the
   * digits least significant first and pushes them back in reverse.
   */
  method PushExponent(sink: Sink, e: int)
    requires sink.Valid() && Abs(e) < 100000
    modifies sink, sink.buf
    ensures sink.Valid() && sink.written == old(sink.written) + ExponentText(e)
  {
    ghost var w0 := sink.written;
    sink.Push('E');
    var a := e;
    ghost var sign: string;
    if a < 0 {
      sink.Push('-');
      a := -a;
      sign := "-";
    } else {
      sink.Push('+');
      sign := "+";
    }
    assert sink.written == w0 + ['E'] + sign;
    var expbuf, ei := StoreDigitsReversed(a);
    sink.PushReversed(expbuf, ei, NatText(a));
    Associate(w0, ['E'], sign, NatText(a));
  }

  /** NatText(a) ends in a's last digit, after the numeral of a / 10 when there is one. */
  /** One step of the `expbuf` loop: the last digit of the remaining numeral, and what remains after it. */
  lemma NatTextStep(txt: seq<char>, a: nat, ei: nat)
    requires a > 0 && ei <= |txt| && NatText(a) == txt[..|txt| - ei]
    ensures ei < |txt| && txt[|txt| - 1 - ei] == DigitChar(a % 10)
    ensures a / 10 > 0 ==> NatText(a / 10) == txt[..|txt| - (ei + 1)]
    ensures a / 10 == 0 ==> ei + 1 == |txt|
  {
    var r := NatText(a);
    assert r[|r| - 1] == txt[|txt| - 1 - ei];
    if a >= 10 {
      assert r[..|r| - 1] == txt[..|txt| - (ei + 1)];
    }
  }

  /** The numeral of a non-negative exponent below 100000 is short, and ends in its last digit. */
  lemma FirstExponentDigit(n: nat)
    requires n < 100000
    ensures 1 <= |NatText(n)| <= 5 && NatText(n)[|NatText(n)| - 1] == DigitChar(n % 10)
    ensures n / 10 > 0 ==> NatText(n / 10) == NatText(n)[..|NatText(n)| - 1]
    ensures n / 10 == 0 ==> |NatText(n)| == 1
  {
    NatTextFacts(n);
    NumDigitsAtMost(n, 5);
    if n > 0 {
      NatTextStep(NatText(n), n, 0);
    }
  }

  /** The `expbuf` loop: the digits of n, least significant first. */
  method StoreDigitsReversed(n: int) returns (expbuf: array<char>, ei: int)
    requires 0 <= n < 100000
    ensures fresh(expbuf) && ei == |NatText(n)| && 1 <= ei <= expbuf.Length
    ensures forall k :: 0 <= k < ei ==> expbuf[k] == NatText(n)[ei - 1 - k]
  {
    ghost var txt := NatText(n);
    FirstExponentDigit(n);
    expbuf := new char[16];
    expbuf[0] := DigitChar(n % 10);
    ei := StoreRemainingDigits(expbuf, n / 10, 1, txt);
  }

  /** The rest of the `expbuf` loop, from the second digit on. */
  method StoreRemainingDigits(expbuf: array<char>, a0: int, ei0: int, ghost txt: seq<char>) returns (ei: int)
    requires expbuf.Length == 16 && 1 <= ei0 <= |txt| <= 5 && a0 >= 0
    requires forall k :: 0 <= k < ei0 ==> expbuf[k] == txt[|txt| - 1 - k]
    requires a0 > 0 ==> NatText(a0) == txt[..|txt| - ei0]
    requires a0 == 0 ==> ei0 == |txt|
    modifies expbuf
    ensures ei == |txt| && forall k :: 0 <= k < ei ==> expbuf[k] == txt[|txt| - 1 - k]
  {
    var a := a0;
    ei := ei0;
    while a != 0 && ei < 16
      invariant 1 <= ei <= |txt| && a >= 0
      invariant forall k :: 0 <= k < ei ==> expbuf[k] == txt[|txt| - 1 - k]
      invariant a > 0 ==> NatText(a) == txt[..|txt| - ei]
      invariant a == 0 ==> ei == |txt|
      decreases a
    {
      NatTextStep(txt, a, ei);
      expbuf[ei] := DigitChar(a % 10);
      ei := ei + 1;
      a := a / 10;
    }
  }

  /**
   * The fraction after the digits `tmp[..start]`: TRIM pushes the point and
   * the digits up to the last non-zero one, PAD pushes the point and
   * `want` places, zero-filled past `newlen`.
   */
  method PushTailFraction(sink: Sink, tmp: array<char>, start: int, newlen: int, zero: ZeroMode, want: int,
                          ghost ds: seq<char>)
    requires sink.Valid() && tmp != sink.buf && 0 <= start <= tmp.Length && 0 <= newlen <= tmp.Length
    requires ds == Suffix(tmp[..newlen], start)
    modifies sink, sink.buf
    ensures sink.Valid()
    ensures sink.written == old(sink.written) + Fraction(zero, ds, want)
  {
    if zero == Trim {
      PushTrimmedTail(sink, tmp, start, newlen);
    } else {
      PushPaddedTail(sink, tmp, start, newlen, want);
    }
    assert Suffix(tmp[..newlen], start) == ds;
  }

  method PushTrimmedTail(sink: Sink, tmp: array<char>, start: int, newlen: int)
    requires sink.Valid() && tmp != sink.buf && 0 <= start <= tmp.Length && 0 <= newlen <= tmp.Length
    modifies sink, sink.buf
    ensures sink.Valid()
    ensures sink.written == old(sink.written) + TrimmedFraction(Suffix(tmp[..newlen], start))
  {
    ghost var t := tmp[..newlen];
    ghost var w0 := sink.written;
    var end := TrimEnd(tmp, start, newlen, t);
    ghost var f: string := [];
    if end > start {
      PushPoint(sink, tmp, start, end, 0, t[start..end]);
      f := "." + t[start..end] + Zeros(0);
    }
    assert sink.written == w0 + f;
    TrimmedTail(t, start, end);
    assert tmp[..newlen] == t;
  }

  /** TRIM's fraction once the backward scan stopped at `end`. */
  lemma TrimmedTail(t: seq<char>, start: int, end: int)
    requires 0 <= start
    requires |t| <= start ==> end == |t|
    requires |t| > start ==> start <= end <= |t| && TrimZeros(t[start..]) == t[start..end]
    ensures TrimmedFraction(Suffix(t, start)) == if end > start then "." + t[start..end] + Zeros(0) else []
  {
  }

  /** TRIM's backward scan: `end` stops after the last non-zero digit of `tmp[start..newlen]`. */
  method TrimEnd(tmp: array<char>, start: int, newlen: int, ghost t: seq<char>) returns (end: int)
    requires 0 <= start && 0 <= newlen <= tmp.Length && t == tmp[..newlen]
    ensures newlen <= start ==> end == newlen
    ensures newlen > start ==> start <= end <= newlen && TrimZeros(t[start..]) == t[start..end]
  {
    end := newlen;
    while end > start && tmp[end - 1] == '0'
      invariant newlen <= start ==> end == newlen
      invariant newlen > start ==> start <= end <= newlen
      invariant forall k :: end <= k < newlen ==> tmp[k] == '0'
    {
      end := end - 1;
    }
    if newlen > start {
      TrimZerosAt(t[start..], end - start);
      assert t[start..][..end - start] == t[start..end];
    }
  }

  /** When s[j..] are all '0' and s[j - 1] is not, TRIM keeps exactly s[..j]. */
  lemma {:induction false} TrimZerosAt(s: seq<char>, j: int)
    requires 0 <= j <= |s| && (j == 0 || s[j - 1] != '0')
    requires forall k :: j <= k < |s| ==> s[k] == '0'
    ensures TrimZeros(s) == s[..j]
    decreases |s|
  {
    if |s| > j {
      TrimZerosAt(s[..|s| - 1], j);
      assert s[..|s| - 1][..j] == s[..j];
    } else {
      assert s[..j] == s;
    }
  }

  /**
   * A point, the digits `src[from..to]` and `zeros` zeros, all pushed only
   * if the buffer still has room when the point comes.
   */
  method PushPoint(sink: Sink, src: array<char>, from: int, to: int, zeros: nat, ghost piece: string)
    requires sink.Valid() && src != sink.buf && 0 <= from <= to <= src.Length && piece == src[from..to]
    modifies sink, sink.buf
    ensures sink.Valid() && sink.written == old(sink.written) + ("." + piece + Zeros(zeros))
  {
    if sink.outI < sink.maxChars {
      ghost var w0 := sink.written;
      sink.Push('.');
      sink.PushRange(src, from, to);
      sink.PushZeros(zeros);
      Associate(w0, ['.'], piece, Zeros(zeros));
    } else {
      sink.Skip("." + piece + Zeros(zeros));
    }
  }

  method PushPaddedTail(sink: Sink, tmp: array<char>, start: int, newlen: int, want: int)
    requires sink.Valid() && tmp != sink.buf && 0 <= start <= tmp.Length && 0 <= newlen <= tmp.Length
    modifies sink, sink.buf
    ensures sink.Valid()
    ensures sink.written == old(sink.written) + PaddedFraction(Suffix(tmp[..newlen], start), want)
  {
    ghost var t := tmp[..newlen];
    var desired := if want > 0 then want else 0;
    var available := if newlen > start then newlen - start else 0;
    if desired > 0 {
      var take := if available < desired then available else desired;
      PaddedPieces(t, start, want, take);
      PushPoint(sink, tmp, start, start + take, desired - take, if take > 0 then t[start..start + take] else []);
    }
    assert tmp[..newlen] == t;
  }

  lemma Associate(w: string, a: string, b: string, c: string)
    ensures w + a + b + c == w + (a + b + c)
    ensures w + a + b == w + (a + b)
  {
  }

  /** PAD's fraction is the point, the available digits up to `want`, and zeros. */
  lemma PaddedPieces(t: seq<char>, start: int, want: int, take: int)
    requires 0 <= start && want > 0 && take == Min(|Suffix(t, start)|, want)
    ensures 0 <= take <= want && (take > 0 ==> start + take <= |t|)
    ensures PaddedFraction(Suffix(t, start), want)
            == "." + (if take > 0 then t[start..start + take] else []) + Zeros(want - take)
  {
  }

  /** Copies the `mlen` significand digits and the NUL after them (the `memcpy` into `tmp`). */
  method CopyDigits(mant: array<char>, mlen: int) returns (tmp: array<char>)
    requires 0 <= mlen < mant.Length && mlen < 64
    ensures fresh(tmp) && tmp.Length == 64 && tmp[..mlen] == mant[..mlen]
  {
    tmp := new char[64];
    var i := 0;
    while i <= mlen
      invariant 0 <= i <= mlen + 1
      invariant tmp[..i] == mant[..i]
    {
      tmp[i] := mant[i];
      i := i + 1;
    }
    assert tmp[..mlen] == tmp[..i][..mlen];
  }

  // ---------------------------------------------------------------------
  // SCIENTIFIC

  /** `tmp`: a copy of the significand, rounded in place to `keep` digits. */
  method RoundedCopy(mant: array<char>, mlen: int, keep: int) returns (tmp: array<char>, newlen: int)
    requires 1 <= mlen < mant.Length && mlen < 64 && AllDigits(mant[..mlen]) && 1 <= keep
    ensures fresh(tmp) && tmp.Length == 64 && 1 <= newlen <= mlen
    ensures tmp[..newlen] == RoundBankers(mant[..mlen], keep)
  {
    tmp := CopyDigits(mant, mlen);
    newlen := RoundBankersInPlace(tmp, mlen, keep);
  }

  /**
   * SCIENTIFIC's width arithmetic: the digits that fit beside one leading
   * digit, the point, 'E', the exponent sign and `expDigits` digits.
   */
  method SciFit(avail: int, expDigits: int, mlen: int) returns (cap: int, sig: int)
    requires expDigits >= 0 && mlen >= 1
    ensures (cap, sig) == SciBudget(avail, expDigits, mlen)
  {
    var base := 1 + 1 + 1 + expDigits;
    sig := 1;
    cap := 1;
    if avail > base {
      cap := 1 + (avail - base - 1);
      sig := cap;
      if sig > mlen {
        sig := mlen;
      }
    }
  }

  /**
   * SCIENTIFIC's budget and rounding: the digits left in `tmp`, the PAD
   * target and the exponent are those of `SciPlan`.
   */
  method SciRound(neg: bool, mant: array<char>, mlen: int, exp10: int, maxChars: int)
    returns (tmp: array<char>, newlen: int, cap: int, esci: int)
    requires 1 <= mlen <= MaxDigits && mlen < mant.Length && AllDigits(mant[..mlen])
    requires Abs(exp10) <= MaxExponent
    ensures fresh(tmp) && tmp.Length == 64 && 1 <= newlen <= mlen
    ensures Plan(tmp[..newlen], cap, 1, esci) == SciPlan(neg, mant[..mlen], exp10, maxChars)
    ensures Abs(esci) <= MaxExponent + MaxDigits
  {
    ghost var m := mant[..mlen];
    esci := exp10 + (if mlen > 0 then mlen - 1 else 0);
    var expDigits := DigitsCountInt(esci);
    var avail := maxChars - (if neg then 1 else 0);
    var sig;
    cap, sig := SciFit(avail, expDigits, mlen);
    var keep := sig;
    tmp, newlen := RoundedCopy(mant, mlen, keep);
    SciPlanSteps(neg, m, exp10, maxChars, avail, expDigits, cap, sig);
    newlen, cap, esci := SciCarry(neg, tmp, newlen, keep, maxChars, avail, expDigits, cap, esci, tmp[..newlen],
                                  SciPlan(neg, m, exp10, maxChars));
  }

  /** After the first rounding: a carry into a new digit moves the exponent up and may call for a second rounding. */
  method SciCarry(neg: bool, tmp: array<char>, len: int, keep: int, maxChars: int, avail: int, expDigits: nat,
                  cap0: int, esci0: int, ghost r: seq<char>, ghost plan: Plan)
    returns (newlen: int, cap: int, esci: int)
    requires 1 <= len < tmp.Length && tmp[..len] == r && AllDigits(r) && avail == maxChars - SignWidth(neg)
    requires plan == if |r| > keep then SciReplan(avail, r, esci0 + 1, expDigits, cap0) else Plan(r, cap0, 1, esci0)
    modifies tmp
    ensures 1 <= newlen <= len && Plan(tmp[..newlen], cap, 1, esci) == plan
    ensures esci == esci0 || esci == esci0 + 1
  {
    newlen, cap, esci := len, cap0, esci0;
    if len > keep {
      esci := esci + 1;
      newlen, cap := SciReround(neg, tmp, len, maxChars, esci, expDigits, cap0);
    }
  }


  lemma SciPlanSteps(neg: bool, m: seq<char>, exp: int, maxChars: int, avail: int, ed: nat, cap: int, sig: int)
    requires 1 <= |m| && AllDigits(m)
    requires avail == maxChars - SignWidth(neg) && ed == NumDigits(Abs(exp + |m| - 1))
    requires (cap, sig) == SciBudget(avail, ed, |m|)
    ensures var r := RoundBankers(m, sig);
            SciPlan(neg, m, exp, maxChars)
            == if |r| > sig then SciReplan(avail, r, exp + |m|, ed, cap) else Plan(r, cap, 1, exp + |m| - 1)
  {
  }

  /** The SCIENTIFIC re-rounding after a carry, on the digits already in `tmp`. */
  method SciReround(neg: bool, tmp: array<char>, len: int, maxChars: int, esci: int, expDigits: int, cap: int)
    returns (newlen: int, newCap: int)
    requires 1 <= len < tmp.Length && AllDigits(tmp[..len]) && expDigits >= 0
    modifies tmp
    ensures 1 <= newlen <= len
    ensures Plan(tmp[..newlen], newCap, 1, esci) == SciReplan(maxChars - SignWidth(neg), old(tmp[..len]), esci, expDigits, cap)
  {
    newlen, newCap := len, cap;
    var expDigits2 := DigitsCountInt(esci);
    if expDigits2 > expDigits {
      var avail2 := maxChars - (if neg then 1 else 0);
      var cap2, sig2 := SciFit(avail2, expDigits2, newlen);
      if sig2 < newlen {
        var keep := sig2;
        newlen := RoundBankersInPlace(tmp, newlen, keep);
      }
      newCap := cap2;
    }
  }

  /** Sign, leading digit, fraction and exponent pushed in SCIENTIFIC order. */
  method PushSci(sink: Sink, neg: bool, tmp: array<char>, newlen: int, cap: int, esci: int, zero: ZeroMode)
    requires sink.Valid() && tmp != sink.buf && 1 <= newlen <= tmp.Length && Abs(esci) < 100000
    modifies sink, sink.buf
    ensures sink.Valid()
    ensures sink.written == old(sink.written) + SciLayout(neg, Plan(tmp[..newlen], cap, 1, esci), zero)
  {
    ghost var p := Plan(tmp[..newlen], cap, 1, esci);
    ghost var w0 := sink.written;
    if neg {
      sink.Push('-');
    }
    assert sink.written == w0 + SignText(neg);
    sink.Push(tmp[0]);
    Associate(w0, SignText(neg), [p.digits[0]], []);
    ghost var w1 := SignText(neg) + [p.digits[0]];
    assert sink.written == w0 + w1;
    ghost var fr := Fraction(zero, Suffix(tmp[..newlen], 1), cap - 1);
    var desired := if cap > 1 then cap - 1 else 0;
    assert Fraction(zero, Suffix(tmp[..newlen], 1), desired) == fr;
    PushTailFraction(sink, tmp, 1, newlen, zero, desired, Suffix(tmp[..newlen], 1));
    Associate(w0, w1, fr, []);
    PushExponent(sink, esci);
    Associate(w0, w1 + fr, ExponentText(esci), []);
    SciLayoutPieces(neg, p, zero);
  }

  lemma SciLayoutPieces(neg: bool, p: Plan, zero: ZeroMode)
    requires 1 <= |p.digits|
    ensures SciLayout(neg, p, zero)
            == SignText(neg) + [p.digits[0]] + Fraction(zero, Suffix(p.digits, 1), p.cap - 1) + ExponentText(p.exponent)
  {
    assert Suffix(p.digits, 1) == p.digits[1..];
  }

  /** The SCIENTIFIC branch of `bid128_to_str`. */
  method RenderSci(sink: Sink, neg: bool, mant: array<char>, mlen: int, exp10: int, zero: ZeroMode)
    requires sink.Valid() && mant != sink.buf
    requires 1 <= mlen <= MaxDigits && mlen < mant.Length && AllDigits(mant[..mlen])
    requires Abs(exp10) <= MaxExponent
    modifies sink, sink.buf
    ensures sink.Valid()
    ensures sink.written == old(sink.written) + SciBody(neg, mant[..mlen], exp10, zero, sink.maxChars)
  {
    var tmp, newlen, cap, esci := SciRound(neg, mant, mlen, exp10, sink.maxChars);
    PushSci(sink, neg, tmp, newlen, cap, esci, zero);
  }

  // ---------------------------------------------------------------------
  // ENGINEERING

  /** C's `%`, whose remainder takes the sign of the dividend. */
  function TruncRem(a: int, b: int): (r: int)
    requires b > 0
    ensures -b < r < b && (a >= 0 ==> r >= 0) && (a < 0 ==> r <= 0)
  {
    if a >= 0 then a % b else -((-a) % b)
  }

  /** C's remainder by 3 made positive is the Euclidean remainder. */
  lemma TruncRemThree(a: int)
    ensures (if TruncRem(a, 3) < 0 then TruncRem(a, 3) + 3 else TruncRem(a, 3)) == a % 3
  {
    if a < 0 {
      var s := (-a) % 3;
      var q := (-a) / 3;
      assert -a == 3 * q + s;
      if s != 0 {
        assert a == 3 * (-q - 1) + (3 - s);
      }
    }
  }

  /** `digits_before`: C's remainder by 3, made positive, with 0 read as 3. */
  method EngLead(decPos: int) returns (db: int)
    ensures db == IntegerDigits(decPos)
  {
    var r := TruncRem(decPos, 3);
    if r < 0 {
      r := r + 3;
    }
    TruncRemThree(decPos);
    db := if r == 0 then 3 else r;
  }

  /**
   * ENGINEERING's width arithmetic: the digits that fit beside `db`
   * integer digits, the point, 'E', the exponent sign and `expDigits` digits.
   */
  method EngFit(avail: int, db: int, expDigits: int, mlen: int) returns (cap: int, sig: int)
    requires 1 <= db <= 3 && expDigits >= 0 && mlen >= 1
    ensures (cap, sig) == EngBudget(avail, db, expDigits, mlen)
  {
    var base := db + 1 + 1 + expDigits;
    sig := db;
    cap := db;
    if avail > base {
      var extra := avail - base - 1;
      if extra > 0 {
        cap := db + extra;
      }
      sig := cap;
      if sig > mlen {
        sig := mlen;
      }
    }
  }

  lemma EngPlanSteps(neg: bool, m: seq<char>, exp: int, maxChars: int, avail: int, decPos: int, db: int, eeng: int,
                     ed: nat, cap: int, sig: int, r: seq<char>)
    requires 1 <= |m| && AllDigits(m)
    requires avail == maxChars - SignWidth(neg) && decPos == |m| + exp
    requires db == IntegerDigits(decPos) && eeng == decPos - db
    requires ed == NumDigits(Abs(eeng)) && (cap, sig) == EngBudget(avail, db, ed, |m|)
    requires r == RoundBankers(m, sig)
    ensures EngPlan(neg, m, exp, maxChars)
            == if |r| > sig then EngReplan(avail, r, decPos + 1, ed, cap) else Plan(r, cap, db, eeng)
  {
  }

  /**
   * ENGINEERING's budget and rounding: the digits left in `tmp`, the PAD
   * target, the integer digits and the exponent are those of `EngPlan`.
   */
  method EngRound(neg: bool, mant: array<char>, mlen: int, exp10: int, maxChars: int)
    returns (tmp: array<char>, newlen: int, cap: int, db: int, eeng: int)
    requires 1 <= mlen <= MaxDigits && mlen < mant.Length && AllDigits(mant[..mlen])
    requires Abs(exp10) <= MaxExponent
    ensures fresh(tmp) && tmp.Length == 64 && 1 <= newlen <= mlen
    ensures Plan(tmp[..newlen], cap, db, eeng) == EngPlan(neg, mant[..mlen], exp10, maxChars)
  {
    ghost var m := mant[..mlen];
    var decPos := mlen + exp10;
    var avail, expDigits, sig;
    db, eeng, expDigits, avail, cap, sig := EngSetup(neg, mlen, decPos, maxChars);
    var keep := sig;
    tmp, newlen := RoundedCopy(mant, mlen, keep);
    ghost var r := tmp[..newlen];
    EngPlanSteps(neg, m, exp10, maxChars, avail, decPos, db, eeng, expDigits, cap, sig, r);
    newlen, cap, db, eeng := EngCarry(neg, tmp, newlen, keep, maxChars, avail, decPos, expDigits, cap, db, eeng, r,
                                      EngPlan(neg, m, exp10, maxChars));
  }

  /** After the first rounding: a carry moves the point one place right and may call for a second rounding. */
  method EngCarry(neg: bool, tmp: array<char>, len: int, keep: int, maxChars: int, ghost avail: int, decPos: int,
                  expDigits: int, cap: int, db: int, eeng: int, ghost r: seq<char>, ghost plan: Plan)
    returns (newlen: int, newCap: int, newDb: int, newEeng: int)
    requires 1 <= len < tmp.Length && tmp[..len] == r && AllDigits(r) && expDigits >= 0
    requires avail == maxChars - SignWidth(neg)
    requires plan == if |r| > keep then EngReplan(avail, r, decPos + 1, expDigits, cap) else Plan(r, cap, db, eeng)
    modifies tmp
    ensures 1 <= newlen <= len
    ensures Plan(tmp[..newlen], newCap, newDb, newEeng) == plan
  {
    newlen, newCap, newDb, newEeng := len, cap, db, eeng;
    if len > keep {
      newlen, newCap, newDb, newEeng := EngReround(neg, tmp, len, maxChars, decPos + 1, expDigits, cap, r);
    }
  }

  /** ENGINEERING's integer digits, exponent and budget before any rounding. */
  method EngSetup(neg: bool, mlen: int, decPos: int, maxChars: int)
    returns (db: int, eeng: int, expDigits: int, avail: int, cap: int, sig: int)
    requires 1 <= mlen
    ensures db == IntegerDigits(decPos) && eeng == decPos - db
    ensures expDigits == NumDigits(Abs(eeng)) && avail == maxChars - SignWidth(neg)
    ensures (cap, sig) == EngBudget(avail, db, expDigits, mlen)
  {
    db := EngLead(decPos);
    eeng := decPos - db;
    expDigits := DigitsCountInt(eeng);
    avail := maxChars - (if neg then 1 else 0);
    cap, sig := EngFit(avail, db, expDigits, mlen);
  }

  /** The ENGINEERING re-rounding after a carry moved the point to `decPos`. */
  method EngReround(neg: bool, tmp: array<char>, len: int, maxChars: int, decPos: int, expDigits: int, cap: int,
                    ghost r: seq<char>)
    returns (newlen: int, newCap: int, db: int, eeng: int)
    requires 1 <= len < tmp.Length && tmp[..len] == r && AllDigits(r) && expDigits >= 0
    modifies tmp
    ensures 1 <= newlen <= len
    ensures Plan(tmp[..newlen], newCap, db, eeng) == EngReplan(maxChars - SignWidth(neg), r, decPos, expDigits, cap)
  {
    newlen, newCap := len, cap;
    db := EngLead(decPos);
    eeng := decPos - db;
    var expDigits2 := DigitsCountInt(eeng);
    if expDigits2 != expDigits {
      var avail := maxChars - (if neg then 1 else 0);
      var cap2, sig2 := EngFit(avail, db, expDigits2, newlen);
      if sig2 < newlen {
        var keep := sig2;
        newlen := RoundBankersInPlace(tmp, newlen, keep);
      }
      newCap := cap2;
    }
  }

  lemma LeadDigitsAt(ds: seq<char>, n: nat, i: int)
    requires 0 <= i < n
    ensures LeadDigits(ds, n)[i] == if i < |ds| then ds[i] else '0'
  {
  }

  /** The integer part: always `db` digits, '0' past the significand. */
  method PushLead(sink: Sink, tmp: array<char>, newlen: int, db: int, ghost t: seq<char>, ghost lead: seq<char>)
    requires sink.Valid() && tmp != sink.buf && 0 <= newlen <= tmp.Length && db >= 0
    requires t == tmp[..newlen] && lead == LeadDigits(t, db)
    modifies sink, sink.buf
    ensures sink.Valid() && sink.written == old(sink.written) + lead
  {
    ghost var w0 := sink.written;
    var i := 0;
    while i < db && sink.outI < sink.maxChars
      invariant 0 <= i <= db
      invariant sink.Valid() && sink.written == w0 + lead[..i]
    {
      var d := if i < newlen then tmp[i] else '0';
      assert d == lead[i] by {
        LeadDigitsAt(t, db, i);
      }
      sink.Push(d);
      assert lead[..i + 1] == lead[..i] + [d];
      i := i + 1;
    }
    if i < db {
      sink.Skip(lead[i..]);
      assert lead == lead[..i] + lead[i..];
    }
  }

  /** Sign, integer digits, fraction (only while the buffer has room) and exponent in ENGINEERING order. */
  method PushEng(sink: Sink, neg: bool, tmp: array<char>, newlen: int, cap: int, db: int, eeng: int, zero: ZeroMode)
    requires sink.Valid() && tmp != sink.buf && 1 <= newlen <= tmp.Length && 0 <= db <= tmp.Length
    requires Abs(eeng) < 100000
    modifies sink, sink.buf
    ensures sink.Valid()
    ensures sink.written == old(sink.written) + EngLayout(neg, Plan(tmp[..newlen], cap, db, eeng), zero)
  {
    ghost var w0 := sink.written;
    if neg {
      sink.Push('-');
    }
    assert sink.written == w0 + SignText(neg);
    PushEngMagnitude(sink, tmp, newlen, cap, db, eeng, zero);
    Associate(w0, SignText(neg), EngMagnitude(Plan(tmp[..newlen], cap, db, eeng), zero), []);
  }

  /** The digits, fraction and exponent of an ENGINEERING plan. */
  method PushEngMagnitude(sink: Sink, tmp: array<char>, newlen: int, cap: int, db: int, eeng: int, zero: ZeroMode)
    requires sink.Valid() && tmp != sink.buf && 1 <= newlen <= tmp.Length && 0 <= db <= tmp.Length
    requires Abs(eeng) < 100000
    modifies sink, sink.buf
    ensures sink.Valid()
    ensures sink.written == old(sink.written) + EngMagnitude(Plan(tmp[..newlen], cap, db, eeng), zero)
  {
    ghost var w0 := sink.written;
    ghost var t := tmp[..newlen];
    ghost var l := LeadDigits(t, db);
    ghost var ds := Suffix(t, db);
    PushLead(sink, tmp, newlen, db, t, l);
    PushEngFraction(sink, tmp, db, newlen, zero, cap, t, ds);
    PushExponent(sink, eeng);
    assert sink.written == w0 + EngMagnitude(Plan(tmp[..newlen], cap, db, eeng), zero) by {
      Associate(w0, l, Fraction(zero, ds, cap - db), ExponentText(eeng));
      assert tmp[..newlen] == t;
    }
  }

  /** The ENGINEERING fraction: pushed only while the buffer still has room after the integer digits. */
  method PushEngFraction(sink: Sink, tmp: array<char>, db: int, newlen: int, zero: ZeroMode, cap: int,
                         ghost t: seq<char>, ghost ds: seq<char>)
    requires sink.Valid() && tmp != sink.buf && 0 <= db <= tmp.Length && 0 <= newlen <= tmp.Length
    requires t == tmp[..newlen] && ds == Suffix(t, db)
    modifies sink, sink.buf
    ensures sink.Valid()
    ensures sink.written == old(sink.written) + Fraction(zero, ds, cap - db)
  {
    if sink.outI < sink.maxChars {
      var desired := if cap > db then cap - db else 0;
      assert Fraction(zero, ds, desired) == Fraction(zero, ds, cap - db);
      PushTailFraction(sink, tmp, db, newlen, zero, desired, ds);
    } else {
      sink.Skip(Fraction(zero, ds, cap - db));
    }
  }

  /** The ENGINEERING branch of `bid128_to_str`. */
  method RenderEng(sink: Sink, neg: bool, mant: array<char>, mlen: int, exp10: int, zero: ZeroMode)
    requires sink.Valid() && mant != sink.buf
    requires 1 <= mlen <= MaxDigits && mlen < mant.Length && AllDigits(mant[..mlen])
    requires Abs(exp10) <= MaxExponent
    modifies sink, sink.buf
    ensures sink.Valid()
    ensures sink.written == old(sink.written) + EngBody(neg, mant[..mlen], exp10, zero, sink.maxChars)
  {
    var tmp, newlen, cap, db, eeng := EngRound(neg, mant, mlen, exp10, sink.maxChars);
    PushEng(sink, neg, tmp, newlen, cap, db, eeng, zero);
  }

  // ---------------------------------------------------------------------
  // NORMAL

  /** `intbuf`: the integer digits, zero-filled past the significand, or a lone '0'. */
  method IntegerBuffer(mant: array<char>, mlen: int, decPos: int) returns (intbuf: array<char>, len: int)
    requires 0 <= mlen <= mant.Length && AllDigits(mant[..mlen]) && decPos <= 79
    ensures fresh(intbuf) && intbuf.Length == 80 && 1 <= len <= 79
    ensures intbuf[..len] == IntegerPart(mant[..mlen], decPos)
  {
    intbuf := new char[80];
    len := 0;
    ghost var ip := IntegerPart(mant[..mlen], decPos);
    if decPos > 0 {
      var i := 0;
      while i < decPos
        invariant 0 <= i <= decPos && len == i
        invariant intbuf[..len] == ip[..i]
      {
        var d := if i < mlen then mant[i] else '0';
        LeadDigitsAt(mant[..mlen], decPos, i);
        if len < 80 - 1 {
          intbuf[len] := d;
          len := len + 1;
        }
        assert ip[..i + 1] == ip[..i] + [d];
        i := i + 1;
      }
      assert ip[..i] == ip;
    } else {
      intbuf[len] := '0';
      len := len + 1;
    }
  }

  /** `frac_full`: the digits after the point, with the zeros a negative point position puts ahead of them. */
  method FractionBuffer(mant: array<char>, mlen: int, decPos: int) returns (frac: array<char>, len: int)
    requires 0 <= mlen <= mant.Length && AllDigits(mant[..mlen]) && -decPos + mlen <= 95
    ensures fresh(frac) && frac.Length == 96 && 0 <= len <= 95
    ensures frac[..len] == FractionPart(mant[..mlen], decPos)
  {
    frac := new char[96];
    len := 0;
    if decPos < 0 {
      len := AppendZeros(frac, 0, -decPos, []);
      len := AppendDigits(frac, len, mant, 0, mlen, Zeros(-decPos), mant[..mlen]);
    } else if decPos < mlen {
      len := AppendDigits(frac, 0, mant, decPos, mlen, [], mant[decPos..mlen]);
      assert mant[..mlen][decPos..] == mant[decPos..mlen];
    }
  }

  /** Appends `count` zeros at `dst[len]`, stopping one short of the end of `dst`. */
  method AppendZeros(dst: array<char>, len: int, count: int, ghost pre: seq<char>) returns (newLen: int)
    requires 0 <= len && 0 <= count && len + count < dst.Length && dst[..len] == pre
    modifies dst
    ensures newLen == len + count && dst[..newLen] == pre + Zeros(count)
  {
    newLen := len;
    var i := 0;
    while i < count && newLen < dst.Length - 1
      invariant 0 <= i <= count && newLen == len + i
      invariant dst[..newLen] == pre + Zeros(i)
    {
      dst[newLen] := '0';
      newLen := newLen + 1;
      i := i + 1;
    }
  }

  /** Appends `src[from..to]` at `dst[len]`, stopping one short of the end of `dst`. */
  method AppendDigits(dst: array<char>, len: int, src: array<char>, from: int, to: int,
                      ghost pre: seq<char>, ghost piece: seq<char>) returns (newLen: int)
    requires dst != src && 0 <= len && 0 <= from <= to <= src.Length && len + (to - from) < dst.Length
    requires dst[..len] == pre && piece == src[from..to]
    modifies dst
    ensures newLen == len + (to - from) && dst[..newLen] == pre + piece
  {
    newLen := len;
    var i := from;
    while i < to && newLen < dst.Length - 1
      invariant from <= i <= to && newLen == len + (i - from)
      invariant dst[..newLen] == pre + src[from..i]
    {
      dst[newLen] := src[i];
      newLen := newLen + 1;
      assert src[from..i + 1] == src[from..i] + [src[i]];
      i := i + 1;
    }
  }

  /** `work`: the integer digits followed by the fraction digits. */
  method JoinDigits(intbuf: array<char>, ilen: int, frac: array<char>, flen: int) returns (work: array<char>, wlen: int)
    requires 0 <= ilen <= intbuf.Length && 0 <= flen <= frac.Length && ilen + flen <= 127
    ensures fresh(work) && work.Length == 128 && wlen == ilen + flen
    ensures work[..wlen] == intbuf[..ilen] + frac[..flen]
  {
    work := new char[128];
    wlen := AppendDigits(work, 0, intbuf, 0, ilen, [], intbuf[..ilen]);
    wlen := AppendDigits(work, wlen, frac, 0, flen, intbuf[..ilen], frac[..flen]);
  }

  /** Copies the first `len` characters of `src` over those of `dst` (the rounded integer part back into `intbuf`). */
  method CopyPrefix(src: array<char>, dst: array<char>, len: int)
    requires 0 <= len <= src.Length && len <= dst.Length && src != dst
    modifies dst
    ensures dst[..len] == src[..len]
  {
    var i := 0;
    while i < len
      invariant 0 <= i <= len
      invariant dst[..i] == src[..i]
    {
      dst[i] := src[i];
      i := i + 1;
    }
  }

  /** Sign, integer digits and, while the buffer has room, the fraction of a NORMAL rendering. */
  method PushNormal(sink: Sink, neg: bool, intbuf: array<char>, ilen: int, src: array<char>, from: int, flen: int,
                    cap: int, zero: ZeroMode)
    requires sink.Valid() && intbuf != sink.buf && src != sink.buf
    requires 0 <= ilen <= intbuf.Length && 0 <= from && 0 <= flen && from + flen <= src.Length
    modifies sink, sink.buf
    ensures sink.Valid()
    ensures sink.written == old(sink.written) + NormalLayout(neg, intbuf[..ilen], src[from..from + flen], cap, zero)
  {
    ghost var w0 := sink.written;
    ghost var ip := intbuf[..ilen];
    ghost var fp := src[from..from + flen];
    if neg {
      sink.Push('-');
    }
    assert sink.written == w0 + SignText(neg);
    sink.PushRange(intbuf, 0, ilen);
    Associate(w0, SignText(neg), ip, []);
    ghost var w1 := SignText(neg) + ip;
    PushNormalFraction(sink, src, from, flen, cap, zero);
    Associate(w0, w1, Fraction(zero, fp, cap), []);
  }

  /** The NORMAL fraction, pushed only when the integer part left room. */
  method PushNormalFraction(sink: Sink, src: array<char>, from: int, flen: int, cap: int, zero: ZeroMode)
    requires sink.Valid() && src != sink.buf && 0 <= from && 0 <= flen && from + flen <= src.Length
    modifies sink, sink.buf
    ensures sink.Valid()
    ensures sink.written == old(sink.written) + Fraction(zero, src[from..from + flen], cap)
  {
    ghost var fp := src[from..from + flen];
    assert Suffix(src[..from + flen], from) == fp;
    if sink.outI < sink.maxChars {
      PushTailFraction(sink, src, from, from + flen, zero, cap, fp);
    } else {
      sink.Skip(Fraction(zero, fp, cap));
    }
  }

  /** The NORMAL branch of `bid128_to_str`: the first two fall-backs to SCIENTIFIC and the fraction budget. */
  method RenderNormal(sink: Sink, neg: bool, mant: array<char>, mlen: int, exp10: int, zero: ZeroMode)
    requires sink.Valid() && mant != sink.buf && sink.maxChars <= 59
    requires 1 <= mlen <= MaxDigits && mlen < mant.Length && AllDigits(mant[..mlen])
    requires Abs(exp10) <= MaxExponent
    modifies sink, sink.buf
    ensures sink.Valid()
    ensures sink.written == old(sink.written) + NormalBody(neg, mant[..mlen], exp10, zero, sink.maxChars)
  {
    var maxChars := sink.maxChars;
    var decPos := mlen + exp10;
    var intLen := if decPos > 0 then decPos else 1;
    if (if neg then 1 else 0) + intLen > maxChars {
      assert NormalFallsBack(neg, mant[..mlen], exp10, maxChars);
      RenderSci(sink, neg, mant, mlen, exp10, zero);
      return;
    }
    var availAfterInt := maxChars - (if neg then 1 else 0) - intLen;
    var capFrac := 0;
    if availAfterInt > 0 {
      capFrac := availAfterInt - 1;
      if capFrac < 0 {
        capFrac := 0;
      }
    }
    assert capFrac == FractionBudget(neg, IntegerLength(decPos), maxChars);
    if decPos <= 0 {
      var leadingZeros := -decPos;
      if capFrac <= leadingZeros {
        assert NormalFallsBack(neg, mant[..mlen], exp10, maxChars);
        RenderSci(sink, neg, mant, mlen, exp10, zero);
        return;
      }
    }
    NormalDigits(sink, neg, mant, mlen, exp10, zero, capFrac);
  }

  /** NORMAL once the integer part fits: builds `intbuf` and `frac_full` and takes the exact or the rounded path. */
  method NormalDigits(sink: Sink, neg: bool, mant: array<char>, mlen: int, exp10: int, zero: ZeroMode, capFrac: int)
    requires sink.Valid() && mant != sink.buf && sink.maxChars <= 59
    requires 1 <= mlen <= MaxDigits && mlen < mant.Length && AllDigits(mant[..mlen])
    requires Abs(exp10) <= MaxExponent
    requires SignWidth(neg) + IntegerLength(mlen + exp10) <= sink.maxChars
    requires capFrac == FractionBudget(neg, IntegerLength(mlen + exp10), sink.maxChars)
    requires !(mlen + exp10 <= 0 && capFrac <= -(mlen + exp10))
    modifies sink, sink.buf
    ensures sink.Valid()
    ensures sink.written == old(sink.written) + NormalBody(neg, mant[..mlen], exp10, zero, sink.maxChars)
  {
    var decPos := mlen + exp10;
    var intbuf, intbufLen := IntegerBuffer(mant, mlen, decPos);
    var fracFull, ffull := FractionBuffer(mant, mlen, decPos);
    var keepFrac := if capFrac < ffull then capFrac else ffull;
    if keepFrac < ffull {
      NormalRounded(sink, neg, mant, mlen, exp10, zero, intbuf, intbufLen, fracFull, ffull, capFrac);
    } else {
      NormalExact(sink, neg, mant, mlen, exp10, zero, intbuf, intbufLen, fracFull, ffull);
    }
  }

  /** NORMAL when every fraction digit fits: the digits are shown as they are. */
  method NormalExact(sink: Sink, neg: bool, mant: array<char>, mlen: int, exp10: int, zero: ZeroMode,
                     intbuf: array<char>, intbufLen: int, fracFull: array<char>, ffull: int)
    requires sink.Valid() && mant != sink.buf && intbuf != sink.buf && fracFull != sink.buf
    requires 1 <= mlen <= mant.Length && AllDigits(mant[..mlen])
    requires 0 <= intbufLen <= intbuf.Length && 0 <= ffull <= fracFull.Length
    requires intbuf[..intbufLen] == IntegerPart(mant[..mlen], mlen + exp10)
    requires fracFull[..ffull] == FractionPart(mant[..mlen], mlen + exp10)
    requires SignWidth(neg) + IntegerLength(mlen + exp10) <= sink.maxChars
    requires FractionBudget(neg, IntegerLength(mlen + exp10), sink.maxChars) >= ffull
    requires !(mlen + exp10 <= 0 && FractionBudget(neg, IntegerLength(mlen + exp10), sink.maxChars) <= -(mlen + exp10))
    modifies sink, sink.buf
    ensures sink.Valid()
    ensures sink.written == old(sink.written) + NormalBody(neg, mant[..mlen], exp10, zero, sink.maxChars)
  {
    ghost var m := mant[..mlen];
    ghost var body := NormalBody(neg, m, exp10, zero, sink.maxChars);
    var maxChars := sink.maxChars;
    var decPos := mlen + exp10;
    var availAfterInt2 := maxChars - (if neg then 1 else 0) - intbufLen;
    var capFrac2 := if availAfterInt2 > 0 then availAfterInt2 - 1 else 0;
    if capFrac2 < 0 {
      capFrac2 := 0;
    }
    assert intbufLen == IntegerLength(decPos);
    assert capFrac2 == FractionBudget(neg, IntegerLength(decPos), maxChars);
    NormalExactBody(neg, m, exp10, zero, maxChars, decPos, capFrac2);
    assert body == NormalLayout(neg, intbuf[..intbufLen], fracFull[0..0 + ffull], capFrac2, zero) by {
      assert fracFull[0..0 + ffull] == fracFull[..ffull];
    }
    PushNormal(sink, neg, intbuf, intbufLen, fracFull, 0, ffull, capFrac2, zero);
    assert mant[..mlen] == m;
  }

  /**
   * NORMAL when the fraction has more digits than fit: `work` holds every
   * digit and is rounded half-to-even at the budget; a carry that makes
   * the integer part too wide falls back to SCIENTIFIC.
   */
  method NormalRounded(sink: Sink, neg: bool, mant: array<char>, mlen: int, exp10: int, zero: ZeroMode,
                       intbuf: array<char>, intbufLen: int, fracFull: array<char>, ffull: int, capFrac: int)
    requires sink.Valid() && mant != sink.buf && intbuf != sink.buf && fracFull != sink.buf
    requires intbuf != mant && intbuf != fracFull
    requires 1 <= mlen <= MaxDigits && mlen < mant.Length && AllDigits(mant[..mlen])
    requires Abs(exp10) <= MaxExponent
    requires intbuf.Length == 80 && 1 <= intbufLen <= 79 && 0 <= ffull <= fracFull.Length && intbufLen + ffull <= 127
    requires intbuf[..intbufLen] == IntegerPart(mant[..mlen], mlen + exp10)
    requires fracFull[..ffull] == FractionPart(mant[..mlen], mlen + exp10)
    requires capFrac == FractionBudget(neg, IntegerLength(mlen + exp10), sink.maxChars) && capFrac < ffull
    requires SignWidth(neg) + IntegerLength(mlen + exp10) <= sink.maxChars
    requires !(mlen + exp10 <= 0 && capFrac <= -(mlen + exp10))
    modifies sink, sink.buf, intbuf
    ensures sink.Valid()
    ensures sink.written == old(sink.written) + NormalBody(neg, mant[..mlen], exp10, zero, sink.maxChars)
  {
    var work, newWlen, newIntLen := RoundWork(intbuf, intbufLen, fracFull, ffull, capFrac, mant[..mlen], mlen + exp10);
    EmitRounded(sink, neg, mant, mlen, exp10, zero, intbuf, work, newWlen, newIntLen);
  }

  /** The rounded NORMAL rendering, or SCIENTIFIC when the carry leaves no room for the integer part. */
  method EmitRounded(sink: Sink, neg: bool, mant: array<char>, mlen: int, exp10: int, zero: ZeroMode,
                     intbuf: array<char>, work: array<char>, newWlen: int, newIntLen: int)
    requires sink.Valid() && mant != sink.buf && intbuf != sink.buf && work != sink.buf
    requires intbuf != mant && intbuf != work
    requires 1 <= mlen <= MaxDigits && mlen < mant.Length && AllDigits(mant[..mlen])
    requires Abs(exp10) <= MaxExponent
    requires 0 <= newWlen <= work.Length && newIntLen <= intbuf.Length
    requires RoundedCase(neg, mant[..mlen], exp10, sink.maxChars, work[..newWlen], newIntLen)
    modifies sink, sink.buf, intbuf
    ensures sink.Valid()
    ensures sink.written == old(sink.written) + NormalBody(neg, mant[..mlen], exp10, zero, sink.maxChars)
  {
    ghost var m := mant[..mlen];
    ghost var w := work[..newWlen];
    if (if neg then 1 else 0) + newIntLen > sink.maxChars {
      NormalRoundedFallsBack(neg, m, exp10, zero, sink.maxChars, w, newIntLen);
      RenderSci(sink, neg, mant, mlen, exp10, zero);
      assert mant[..mlen] == m;
      return;
    }
    NormalRoundedBody(neg, m, exp10, zero, sink.maxChars, w, newIntLen);
    PushRounded(sink, neg, intbuf, work, newWlen, newIntLen, zero);
    assert work[..newWlen] == w;
    assert mant[..mlen] == m;
  }

  /** `work`: the integer and fraction digits rounded half-to-even at the fraction budget. */
  method RoundWork(intbuf: array<char>, intbufLen: int, fracFull: array<char>, ffull: int, capFrac: int,
                   ghost m: seq<char>, ghost decPos: int)
      returns (work: array<char>, newWlen: int, newIntLen: int)
    requires AllDigits(m) && 0 <= capFrac < |FractionPart(m, decPos)|
    requires 0 <= intbufLen <= intbuf.Length && 0 <= ffull <= fracFull.Length && intbufLen + ffull <= 127
    requires intbuf[..intbufLen] == IntegerPart(m, decPos) && fracFull[..ffull] == FractionPart(m, decPos)
    ensures fresh(work) && 0 <= newWlen <= work.Length
    ensures (work[..newWlen], newIntLen) == Render.NormalRounded(m, decPos, capFrac)
    ensures newIntLen <= intbufLen + 1
  {
    var wlen;
    work, wlen := JoinDigits(intbuf, intbufLen, fracFull, ffull);
    var keepTotal := intbufLen + capFrac;
    newWlen := RoundBankersInPlace(work, wlen, keepTotal);
    newIntLen := if newWlen > keepTotal then intbufLen + 1 else intbufLen;
  }

  /** The rounded NORMAL rendering: integer digits copied back to `intbuf`, the fraction cut to the new budget. */
  method PushRounded(sink: Sink, neg: bool, intbuf: array<char>, work: array<char>, newWlen: int, newIntLen: int,
                     zero: ZeroMode)
    requires sink.Valid() && intbuf != sink.buf && work != sink.buf && intbuf != work
    requires 0 <= newIntLen <= newWlen <= work.Length && newIntLen <= intbuf.Length
    modifies sink, sink.buf, intbuf
    ensures sink.Valid()
    ensures sink.written == old(sink.written) + RoundedLayout(neg, work[..newWlen], newIntLen, zero, sink.maxChars)
  {
    CopyPrefix(work, intbuf, newIntLen);
    var intLen2 := newIntLen;
    var newFracLen := newWlen - intLen2;
    var availAfterInt2 := sink.maxChars - (if neg then 1 else 0) - intLen2;
    var capFrac2 := if availAfterInt2 > 0 then availAfterInt2 - 1 else 0;
    if capFrac2 < 0 {
      capFrac2 := 0;
    }
    if newFracLen > capFrac2 {
      newFracLen := capFrac2;
    }
    ghost var w := work[..newWlen];
    ghost var ip := w[..newIntLen];
    ghost var fp := w[newIntLen..newIntLen + newFracLen];
    assert ip == intbuf[..intLen2];
    assert fp == work[intLen2..intLen2 + newFracLen];
    RoundedLayoutParts(neg, w, newIntLen, zero, sink.maxChars, newFracLen, capFrac2);
    ghost var lay := NormalLayout(neg, ip, fp, capFrac2, zero);
    ghost var w0 := sink.written;
    PushNormal(sink, neg, intbuf, intLen2, work, intLen2, newFracLen, capFrac2, zero);
    assert intbuf[..intLen2] == ip && work[intLen2..intLen2 + newFracLen] == fp;
    assert sink.written == w0 + lay;
  }

  // ---------------------------------------------------------------------
  // The whole conversion

  /**
   * `bid128_to_str(x, buf, bufsize)` with `bufsize` the length of `buf`:
   * a buffer of one character or more ends up holding the rendering cut to
   * `bufsize - 1` characters and a terminating NUL; an empty one is left
   * alone. The display and zero modes are the settings the firmware reads.
   */
  method Bid128ToStr(x: Decomposed, disp: DispMode, zero: ZeroMode, buf: array<char>)
    requires WellFormed(x) && buf.Length <= 60
    modifies buf
    ensures buf.Length == 0 ==> buf[..] == old(buf[..])
    ensures buf.Length >= 1 ==>
              var t := RenderText(x, disp, zero, buf.Length);
              |t| < buf.Length && buf[..|t|] == t && buf[|t|] == '\0' && buf[|t| + 1..] == old(buf[|t| + 1..])
  {
    if buf.Length <= 0 {
      return;
    }
    buf[0] := '\0';
    match x
    case Inf(neg) =>
      CopySpecial(if neg then "-Inf" else "Inf", buf);
    case NotANumber =>
      CopySpecial("NaN", buf);
    case Number(neg, digits, exp10) =>
      RenderNumberInto(neg, digits, exp10, disp, zero, buf);
  }

  /** A finite value: the significand copied to `mant`, laid out through PUSH_CH, then NUL. */
  method RenderNumberInto(neg: bool, digits: seq<char>, exp10: int, disp: DispMode, zero: ZeroMode, buf: array<char>)
    requires WellFormed(Number(neg, digits, exp10)) && 1 <= buf.Length <= 60
    modifies buf
    ensures var t := RenderText(Number(neg, digits, exp10), disp, zero, buf.Length);
            |t| < buf.Length && buf[..|t|] == t && buf[|t|] == '\0' && buf[|t| + 1..] == old(buf[|t| + 1..])
  {
    var maxChars := buf.Length - 1;
    if maxChars <= 0 {
      buf[0] := '\0';
      return;
    }
    var mant := MantissaBuffer(digits);
    var mlen := |digits|;
    FillBuffer(neg, mant, mlen, exp10, disp, zero, buf, digits);
  }

  /** Everything after the `max_chars <= 0` guard: PUSH_CH into `buf`, then the final NUL. */
  method FillBuffer(neg: bool, mant: array<char>, mlen: int, exp10: int, disp: DispMode, zero: ZeroMode, buf: array<char>,
                    ghost digits: seq<char>)
    requires 2 <= buf.Length <= 60 && mant != buf
    requires 1 <= mlen <= MaxDigits && mlen < mant.Length && mant[..mlen] == digits && AllDigits(digits)
    requires Abs(exp10) <= MaxExponent
    modifies buf
    ensures var t := RenderText(Number(neg, digits, exp10), disp, zero, buf.Length);
            |t| < buf.Length && buf[..|t|] == t && buf[|t|] == '\0' && buf[|t| + 1..] == old(buf[|t| + 1..])
  {
    var sink := new Sink(buf);
    ghost var x := Number(neg, digits, exp10);
    RenderMode(sink, neg, mant, mlen, exp10, disp, zero);
    assert mant[..mlen] == x.digits;
    RenderTextCut(x, disp, zero, buf.Length, sink.maxChars, sink.written);
    Finish(sink, RenderText(x, disp, zero, buf.Length));
    assert mant[..mlen] == x.digits;
  }

  /** The final `buf[out_i] = '\0'` after the text `t` was pushed as far as the buffer allows. */
  method Finish(sink: Sink, ghost t: string)
    requires sink.Valid() && t == Take(sink.written, sink.maxChars)
    modifies sink.buf
    ensures |t| < sink.buf.Length && sink.buf[..|t|] == t && sink.buf[|t|] == '\0'
    ensures sink.buf[|t| + 1..] == sink.orig[|t| + 1..]
  {
    sink.Terminate();
  }

  /** `mant`: the significand digits and a NUL in a 64-character array. */
  method MantissaBuffer(digits: seq<char>) returns (mant: array<char>)
    requires |digits| < 64
    ensures fresh(mant) && mant.Length == 64 && mant[..|digits|] == digits && mant[|digits|] == '\0'
  {
    mant := new char[64](i => if 0 <= i < |digits| then digits[i] else '\0');
  }

  /** The dispatch on the display mode. */
  method RenderMode(sink: Sink, neg: bool, mant: array<char>, mlen: int, exp10: int, disp: DispMode, zero: ZeroMode)
    requires sink.Valid() && mant != sink.buf && sink.maxChars <= 59
    requires 1 <= mlen <= MaxDigits && mlen < mant.Length && AllDigits(mant[..mlen])
    requires Abs(exp10) <= MaxExponent
    modifies sink, sink.buf
    ensures sink.Valid()
    ensures sink.written == old(sink.written) + Body(Number(neg, mant[..mlen], exp10), disp, zero, sink.maxChars)
  {
    match disp
    case Scientific => RenderSci(sink, neg, mant, mlen, exp10, zero);
    case Engineering => RenderEng(sink, neg, mant, mlen, exp10, zero);
    case Normal => RenderNormal(sink, neg, mant, mlen, exp10, zero);
  }

  /** The Inf and NaN branches: `s` copied as far as `bufsize - 1` characters allow, then NUL. */
  method CopySpecial(s: string, buf: array<char>)
    requires 1 <= buf.Length
    modifies buf
    ensures var t := Take(s, buf.Length - 1);
            |t| < buf.Length && buf[..|t|] == t && buf[|t|] == '\0' && buf[|t| + 1..] == old(buf[|t| + 1..])
  {
    var n := |s|;
    var maxc := buf.Length - 1;
    if maxc <= 0 {
      buf[0] := '\0';
      return;
    }
    if n > maxc {
      n := maxc;
    }
    forall i | 0 <= i < n {
      buf[i] := s[i];
    }
    buf[n] := '\0';
    assert buf[..n] == s[..n];
  }
}
