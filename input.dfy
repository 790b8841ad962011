/**
 * The number being keyed in: a character buffer of MAX_INPUTVAL_LENGTH = 40
 * bytes, terminator included, with its length, the positions of the decimal
 * point and of the exponent mark, and two sign flags. Editing is one key at
 * a time: a digit, a point, an `E`, a sign, or backspace.
 */
module Input {
  /** MAX_INPUTVAL_LENGTH: the buffer, terminator included. */
  const Capacity := 40
  /** The longest text the buffer holds. */
  const MaxText := Capacity - 1

  predicate IsDigit(c: char) { '0' <= c <= '9' }
  predicate IsSign(c: char) { c == '+' || c == '-' }

  /** The characters the editing keys can put into the buffer. */
  predicate Legal(c: char) { IsDigit(c) || c == '.' || c == 'E' || IsSign(c) }

  /** How often `c` occurs in `s`. */
  function Count(s: seq<char>, c: char): nat
    decreases |s|
  {
    if |s| == 0 then 0 else Count(s[..|s| - 1], c) + (if s[|s| - 1] == c then 1 else 0)
  }

  lemma {:induction false} CountAppend(a: seq<char>, b: seq<char>, c: char)
    ensures Count(a + b, c) == Count(a, c) + Count(b, c)
    decreases |b|
  {
    if |b| == 0 {
      assert a + b == a;
    } else {
      assert (a + b)[..|a + b| - 1] == a + b[..|b| - 1];
      CountAppend(a, b[..|b| - 1], c);
    }
  }

  lemma CountOne(x: char, c: char)
    ensures Count([x], c) == if x == c then 1 else 0
  {
    assert [x][..0] == [];
  }

  /** A character at a known position is counted. */
  lemma CountAt(s: seq<char>, i: int, c: char)
    requires 0 <= i < |s| && s[i] == c
    ensures Count(s, c) >= 1
  {
    assert s == s[..i] + [s[i]] + s[i + 1..];
    CountAppend(s[..i] + [s[i]], s[i + 1..], c);
    CountAppend(s[..i], [s[i]], c);
    CountOne(s[i], c);
  }

  /** `t` with `c` inserted before position `p`. */
  function Inserted(t: seq<char>, p: int, c: char): (r: seq<char>)
    requires 0 <= p <= |t|
    ensures |r| == |t| + 1 && r[p] == c
    ensures forall i :: 0 <= i < p ==> r[i] == t[i]
    ensures forall i :: p < i < |r| ==> r[i] == t[i - 1]
  {
    t[..p] + [c] + t[p..]
  }

  /** Inserting or overwriting with a character other than `c` leaves the count of `c` alone. */
  lemma CountInserted(t: seq<char>, p: int, x: char, c: char)
    requires 0 <= p <= |t| && x != c
    ensures Count(Inserted(t, p, x), c) == Count(t, c)
  {
    assert t == t[..p] + t[p..];
    CountAppend(t[..p] + [x], t[p..], c);
    CountAppend(t[..p], [x], c);
    CountAppend(t[..p], t[p..], c);
    CountOne(x, c);
  }

  lemma CountReplaced(t: seq<char>, p: int, x: char, c: char)
    requires 0 <= p < |t| && x != c && t[p] != c
    ensures Count(t[p := x], c) == Count(t, c)
  {
    assert t[p := x] == t[..p] + [x] + t[p + 1..];
    assert t == t[..p] + [t[p]] + t[p + 1..];
    CountAppend(t[..p] + [x], t[p + 1..], c);
    CountAppend(t[..p], [x], c);
    CountAppend(t[..p] + [t[p]], t[p + 1..], c);
    CountAppend(t[..p], [t[p]], c);
    CountOne(x, c);
    CountOne(t[p], c);
  }

  /** `input_state`: the text, the mantissa sign flag, the point and exponent positions (-1 when absent), the exponent sign flag. */
  datatype Line = Line(text: seq<char>, sign: bool, dot: int, exp: int, expSign: bool)

  /** `clear_input_state`. */
  const Empty := Line([], false, -1, -1, false)

  /**
   * What editing keeps: at most 39 characters, all of them from the keys'
   * alphabet; at most one point, present exactly when `dot` is not -1;
   * at most one `E`, and `exp` is its position or -1; the two sign flags,
   * cleared by `clear_input_state`, are never set.
   */
  predicate Consistent(l: Line) {
    && |l.text| <= MaxText
    && (forall i :: 0 <= i < |l.text| ==> Legal(l.text[i]))
    && l.dot >= -1 && Count(l.text, '.') <= 1 && (l.dot == -1 <==> Count(l.text, '.') == 0)
    && (if l.exp == -1 then Count(l.text, 'E') == 0
        else 0 <= l.exp < |l.text| && l.text[l.exp] == 'E' && Count(l.text, 'E') == 1)
    && !l.sign && !l.expSign
  }

  /** The text ends in a digit, so it reads as a complete number. */
  predicate EndsWithDigit(t: seq<char>) {
    |t| > 0 && IsDigit(t[|t| - 1])
  }

  /** The edit of `rpn_input_append_digit`: the digit is appended while there is room. */
  function WithDigit(l: Line, d: char): (r: Line)
    ensures Consistent(l) && IsDigit(d) ==> Consistent(r)
    ensures |l.text| < MaxText ==> r.text == l.text + [d]
    ensures |l.text| < MaxText && IsDigit(d) ==> EndsWithDigit(r.text)
    ensures |l.text| >= MaxText ==> r == l
    ensures r.dot == l.dot && r.exp == l.exp
  {
    if |l.text| < MaxText then
      var t := l.text + [d];
      CountAppend(l.text, [d], '.');
      CountAppend(l.text, [d], 'E');
      CountOne(d, '.');
      CountOne(d, 'E');
      l.(text := t)
    else l
  }

  /** The edit of `rpn_input_dot`: a second point is refused; on an empty buffer the point comes as "0.". */
  function WithDot(l: Line): (r: Line)
    ensures Consistent(l) ==> Consistent(r)
    ensures l.dot >= 0 ==> r == l
    ensures l.dot < 0 && |l.text| == 0 ==> r.text == ['0', '.'] && r.dot == 1
    ensures l.dot < 0 && 0 < |l.text| < MaxText ==> r.text == l.text + ['.'] && r.dot == |l.text|
  {
    if l.dot >= 0 then l
    else if |l.text| == 0 then
      if |l.text| < Capacity - 2 then
        assert ['0', '.'] == ['0'] + ['.'];
        CountAppend(['0'], ['.'], '.');
        CountAppend(['0'], ['.'], 'E');
        CountOne('0', '.');
        CountOne('.', '.');
        CountOne('0', 'E');
        CountOne('.', 'E');
        l.(text := ['0', '.'], dot := 1)
      else l
    else if |l.text| < MaxText then
      CountAppend(l.text, ['.'], '.');
      CountAppend(l.text, ['.'], 'E');
      CountOne('.', '.');
      CountOne('.', 'E');
      l.(text := l.text + ['.'], dot := |l.text|)
    else l
  }

  /** The edit of `rpn_input_exp`: a second `E`, and an `E` on an empty buffer, are refused. */
  function WithExp(l: Line): (r: Line)
    ensures Consistent(l) ==> Consistent(r)
    ensures l.exp >= 0 || |l.text| == 0 || |l.text| >= MaxText ==> r == l
    ensures l.exp < 0 && 0 < |l.text| < MaxText ==> r.text == l.text + ['E'] && r.exp == |l.text|
  {
    if l.exp >= 0 then l
    else if |l.text| == 0 then l
    else if |l.text| < MaxText then
      CountAppend(l.text, ['E'], '.');
      CountAppend(l.text, ['E'], 'E');
      CountOne('E', '.');
      CountOne('E', 'E');
      l.(text := l.text + ['E'], exp := |l.text|)
    else l
  }

  /** The sign the toggle leaves at a position that already holds one. */
  function Flipped(c: char): char {
    if c == '-' then '+' else '-'
  }

  /**
   * The edit of `rpn_input_toggle_sign` while a number is being keyed in:
   * with an `E` present, the sign just after it is flipped or inserted;
   * otherwise the sign at the front is flipped or a '-' inserted there.
   * The point position is not moved along by the insertion.
   */
  function Toggled(l: Line): (r: Line)
    requires |l.text| > 0
    ensures r.dot == l.dot && r.exp == l.exp && r.sign == l.sign && r.expSign == l.expSign
  {
    if l.exp >= 0 then
      var pos := l.exp + 1;
      if pos < |l.text| then
        if l.text[pos] == '+' then l.(text := l.text[pos := '-'])
        else if l.text[pos] == '-' then l.(text := l.text[pos := '+'])
        else if |l.text| < MaxText then l.(text := Inserted(l.text, pos, '-'))
        else l
      else if |l.text| < MaxText then l.(text := l.text + ['-'])
      else l
    else if IsSign(l.text[0]) then l.(text := l.text[0 := Flipped(l.text[0])])
    else if |l.text| < MaxText then l.(text := Inserted(l.text, 0, '-'))
    else l
  }

  /** The sign toggle keeps the buffer consistent. */
  lemma ToggledConsistent(l: Line)
    requires Consistent(l) && |l.text| > 0
    ensures Consistent(Toggled(l))
  {
    var t := l.text;
    if l.exp >= 0 {
      var pos := l.exp + 1;
      if pos < |t| {
        if t[pos] == '+' || t[pos] == '-' {
          var x := if t[pos] == '+' then '-' else '+';
          CountReplaced(t, pos, x, '.');
          CountReplaced(t, pos, x, 'E');
        } else if |t| < MaxText {
          CountInserted(t, pos, '-', '.');
          CountInserted(t, pos, '-', 'E');
        }
      } else if |t| < MaxText {
        CountAppend(t, ['-'], '.');
        CountAppend(t, ['-'], 'E');
        CountOne('-', '.');
        CountOne('-', 'E');
      }
    } else if IsSign(t[0]) {
      CountReplaced(t, 0, Flipped(t[0]), '.');
      CountReplaced(t, 0, Flipped(t[0]), 'E');
    } else if |t| < MaxText {
      CountInserted(t, 0, '-', '.');
      CountInserted(t, 0, '-', 'E');
    }
  }

  /**
   * Once a sign sits where the toggle acts, toggling flips only that sign,
   * so a second toggle restores the line.
   */
  lemma ToggleTwiceRestores(l: Line)
    requires |l.text| > 0
    requires l.exp >= 0 ==> l.exp + 1 < |l.text| && IsSign(l.text[l.exp + 1])
    requires l.exp < 0 ==> IsSign(l.text[0])
    ensures Toggled(Toggled(l)) == l
    ensures |Toggled(l).text| == |l.text|
  {
    if l.exp >= 0 {
      assert Toggled(l).text[l.exp + 1] == Flipped(l.text[l.exp + 1]);
    }
  }

  /** The text edit of `rpn_input_backspace`: the last character goes, and with it the point or `E` mark if it was one. */
  function Removed(l: Line): (r: Line)
    requires |l.text| > 0
    ensures r.text == l.text[..|l.text| - 1]
    ensures Consistent(l) ==> Consistent(r)
  {
    var c := l.text[|l.text| - 1];
    var t := l.text[..|l.text| - 1];
    assert l.text == t + [c];
    CountAppend(t, [c], '.');
    CountAppend(t, [c], 'E');
    CountOne(c, '.');
    CountOne(c, 'E');
    var r := l.(text := t, dot := if c == '.' then -1 else l.dot, exp := if c == 'E' then -1 else l.exp);
    if 0 <= l.exp < |t| && t[l.exp] == 'E' then CountAt(t, l.exp, 'E'); r else r
  }

  /** The buffer and its fields, as `input_state` holds them. */
  class InputBuffer {
    const chars: array<char>
    var len: int
    var sign: bool
    var dot: int
    var exp: int
    var expSign: bool

    /** Forty bytes, and every byte from the length on is the terminator. */
    ghost predicate Valid()
      reads this, chars
    {
      chars.Length == Capacity && 0 <= len < Capacity && forall i :: len <= i < Capacity ==> chars[i] == '\0'
    }

    function Text(): (t: seq<char>)
      requires Valid()
      reads this, chars
      ensures |t| == len
    {
      chars[..len]
    }

    function State(): Line
      requires Valid()
      reads this, chars
    {
      Line(Text(), sign, dot, exp, expSign)
    }

    /** The zero-initialised global. */
    constructor()
      ensures Valid() && State() == Line([], false, 0, 0, false) && fresh(chars)
    {
      chars := new char[Capacity](_ => '\0');
      len, sign, dot, exp, expSign := 0, false, 0, 0, false;
    }

    /** `clear_input_state`. */
    method Clear()
      requires Valid()
      modifies this, chars
      ensures Valid() && State() == Empty
    {
      var i := 0;
      while i < Capacity
        invariant 0 <= i <= Capacity && chars.Length == Capacity
        invariant forall k :: 0 <= k < i ==> chars[k] == '\0'
      {
        chars[i] := '\0';
        i := i + 1;
      }
      len := 0;
      sign := false;
      dot := -1;
      exp := -1;
      expSign := false;
    }

    /** The buffer write of `rpn_input_append_digit` (and of `handle_digit`, which omits the terminator the invariant already provides). */
    method AppendDigit(d: char)
      requires Valid()
      modifies this, chars
      ensures Valid() && State() == WithDigit(old(State()), d)
    {
      if len < Capacity - 1 {
        chars[len] := d;
        len := len + 1;
        chars[len] := '\0';
      }
    }

    /** The buffer part of `rpn_input_dot`. */
    method AppendDot()
      requires Valid()
      modifies this, chars
      ensures Valid() && State() == WithDot(old(State()))
    {
      if dot >= 0 {
        return;
      }
      if len == 0 {
        if len < Capacity - 2 {
          chars[len] := '0';
          len := len + 1;
          chars[len] := '.';
          len := len + 1;
          chars[len] := '\0';
          dot := 1;
        }
      } else {
        if len < Capacity - 1 {
          chars[len] := '.';
          len := len + 1;
          chars[len] := '\0';
          dot := len - 1;
        }
      }
    }

    /** The buffer part of `rpn_input_exp`. */
    method AppendExp()
      requires Valid()
      modifies this, chars
      ensures Valid() && State() == WithExp(old(State()))
    {
      if exp >= 0 {
        return;
      }
      if len == 0 {
        return;
      }
      if len < Capacity - 1 {
        chars[len] := 'E';
        len := len + 1;
        chars[len] := '\0';
        exp := len - 1;
      }
    }

    /** The editing branch of `rpn_input_toggle_sign`. */
    method ToggleSign()
      requires Valid() && len > 0
      modifies this, chars
      ensures Valid() && State() == Toggled(old(State()))
    {
      if exp >= 0 {
        var pos := exp + 1;
        if pos < len {
          if chars[pos] == '+' {
            chars[pos] := '-';
          } else if chars[pos] == '-' {
            chars[pos] := '+';
          } else {
            if len < Capacity - 1 {
              InsertAt(pos, '-');
            }
          }
        } else {
          if len < Capacity - 1 {
            chars[len] := '-';
            len := len + 1;
            chars[len] := '\0';
          }
        }
        return;
      }
      if len > 0 && (chars[0] == '-' || chars[0] == '+') {
        chars[0] := if chars[0] == '-' then '+' else '-';
      } else {
        if len < Capacity - 1 {
          InsertAt(0, '-');
        }
      }
    }

    /** Shift the tail right by one and put `c` at `pos`. */
    method InsertAt(pos: int, c: char)
      requires Valid() && 0 <= pos <= len < Capacity - 1
      modifies this, chars
      ensures Valid() && Text() == Inserted(old(Text()), pos, c)
      ensures sign == old(sign) && dot == old(dot) && exp == old(exp) && expSign == old(expSign)
    {
      var i := len;
      while i > pos
        modifies chars
        invariant pos <= i <= len && chars.Length == Capacity
        invariant forall k :: 0 <= k <= i ==> chars[k] == old(chars[k])
        invariant forall k :: i < k <= len ==> chars[k] == old(chars[k - 1])
        invariant forall k :: len < k < Capacity ==> chars[k] == old(chars[k])
      {
        chars[i] := chars[i - 1];
        i := i - 1;
      }
      chars[pos] := c;
      len := len + 1;
      chars[len] := '\0';
      assert Text() == Inserted(old(Text()), pos, c);
    }

    /** The buffer part of `rpn_input_backspace`, for a non-empty buffer. */
    method RemoveLast()
      requires Valid() && len > 0
      modifies this, chars
      ensures Valid() && State() == Removed(old(State()))
    {
      var removed := chars[len - 1];
      len := len - 1;
      chars[len] := '\0';
      if removed == '.' {
        dot := -1;
      }
      if removed == 'E' {
        exp := -1;
      }
    }
  }
}
