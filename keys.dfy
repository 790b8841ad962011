/**
 * The keypad driver: the logical key codes, the mapping from a raw matrix
 * code (row in bits 5-7, column bits in bits 0-4) to a key under the
 * current shift state, the debounce and auto-repeat step run on every
 * scan, and the eight-slot event ring that drops its oldest event when
 * full. The matrix scan itself, the timer and the clock boost are
 * hardware and appear here only as the raw code each scan produces.
 */
module Keys {
  datatype Option<T> = None | Some(value: T)

  /** `key_code_t`: an enumeration the firmware stores in one byte. */
  newtype KeyCode = c: int | 0 <= c < 256

  const NoKey: KeyCode := 0
  const K0: KeyCode := 1
  const K1: KeyCode := 2
  const K2: KeyCode := 3
  const K3: KeyCode := 4
  const K4: KeyCode := 5
  const K5: KeyCode := 6
  const K6: KeyCode := 7
  const K7: KeyCode := 8
  const K8: KeyCode := 9
  const K9: KeyCode := 10
  const Dot: KeyCode := 11
  const EE: KeyCode := 12
  const Enter: KeyCode := 13
  const Shift: KeyCode := 14
  const Del: KeyCode := 15
  const Add: KeyCode := 16
  const Sub: KeyCode := 17
  const Mul: KeyCode := 18
  const Div: KeyCode := 19
  const Swap: KeyCode := 20
  const Roll: KeyCode := 21
  const Sin: KeyCode := 22
  const Cos: KeyCode := 23
  const Tan: KeyCode := 24
  const Sqrt: KeyCode := 25
  const Pow2: KeyCode := 26
  const Pow: KeyCode := 27
  const Log: KeyCode := 28
  const Ln: KeyCode := 29
  const P1: KeyCode := 30
  const P2: KeyCode := 31
  const C1: KeyCode := 32
  const C2: KeyCode := 33
  const LogXY: KeyCode := 34
  const Sign: KeyCode := 35
  const Asin: KeyCode := 36
  const Acos: KeyCode := 37
  const Atan: KeyCode := 38
  const Exp: KeyCode := 39
  const Pow10: KeyCode := 40
  const Fact: KeyCode := 41
  const RollUp: KeyCode := 42
  const Rev: KeyCode := 43
  const Off: KeyCode := 44
  const Last: KeyCode := 45
  const CubeRoot: KeyCode := 46
  const Pow3: KeyCode := 47
  const NthRoot: KeyCode := 48
  const P3: KeyCode := 49
  const PR: KeyCode := 50
  const Mode: KeyCode := 51
  const Disp: KeyCode := 52
  const St: KeyCode := 53
  const Ld: KeyCode := 54
  const Clr: KeyCode := 55
  const VA: KeyCode := 56
  const VB: KeyCode := 57
  const VC: KeyCode := 58
  const VD: KeyCode := 59
  const VE: KeyCode := 60
  const VF: KeyCode := 61
  const Show: KeyCode := 62
  const PiKey: KeyCode := 63
  const EKey: KeyCode := 64

  /** The digit keys: `K0` is 0, `K1` is 1, and so on. */
  function DigitOf(k: KeyCode): (d: int)
    requires K0 <= k <= K9
    ensures 0 <= d <= 9
  {
    (k - K0) as int
  }

  /** `key_event_type_t`. */
  datatype EventType = NoEvent | Down | Up | Repeat

  datatype Event = Event(kind: EventType, code: KeyCode)

  const NoneEvent := Event(NoEvent, NoKey)

  // ---------------------------------------------------------------------
  // The key matrix

  const Rows := 7
  const Columns := 5

  /** The switch of `map_raw_to_key`: the key at a matrix position, with its shifted alternative. */
  function KeyAt(row: int, col: int, shift: bool): (k: KeyCode)
    requires 0 <= row < Rows && 0 <= col < Columns
    ensures k != NoKey
  {
    match row {
    case 0 =>
      match col {
      case 0 => LogXY
      case 1 => if shift then Disp else C2
      case 2 => if shift then Mode else C1
      case 3 => if shift then PR else P2
      case _ => if shift then P3 else P1
      }
    case 1 =>
      match col {
      case 0 => if shift then Exp else Ln
      case 1 => if shift then Pow10 else Log
      case 2 => if shift then NthRoot else Pow
      case 3 => if shift then Pow3 else Pow2
      case _ => if shift then CubeRoot else Sqrt
      }
    case 2 =>
      match col {
      case 0 => if shift then Atan else Tan
      case 1 => if shift then Acos else Cos
      case 2 => if shift then Asin else Sin
      case 3 => if shift then Last else Swap
      case _ => if shift then RollUp else Roll
      }
    case 3 =>
      match col {
      case 0 => if shift then Off else Del
      case 1 => Sign
      case 2 => if shift then VF else K9
      case 3 => if shift then VE else K8
      case _ => if shift then VD else K7
      }
    case 4 =>
      match col {
      case 0 => if shift then Rev else Div
      case 1 => if shift then Fact else Mul
      case 2 => if shift then VC else K6
      case 3 => if shift then VB else K5
      case _ => if shift then VA else K4
      }
    case 5 =>
      match col {
      case 0 => Sub
      case 1 => Add
      case 2 => if shift then Clr else K3
      case 3 => if shift then St else K2
      case _ => if shift then Ld else K1
      }
    case _ =>
      match col {
      case 0 => Enter
      case 1 => Shift
      case 2 => if shift then PiKey else EE
      case 3 => if shift then EKey else Dot
      case _ => if shift then Show else K0
      }
    }
  }

  /** The positions whose key does not depend on shift: LOGXY, SIGN, SUB, ADD, ENTER and SHIFT. */
  predicate ShiftFree(row: int, col: int) {
    (row == 0 && col == 0) || (row == 3 && col == 1) || (row == 5 && col <= 1) || (row == 6 && col <= 1)
  }

  /** Shift selects a different key exactly at the positions that are not shift-free. */
  lemma ShiftAlternatives(row: int, col: int)
    requires 0 <= row < Rows && 0 <= col < Columns
    ensures KeyAt(row, col, true) == KeyAt(row, col, false) <==> ShiftFree(row, col)
    ensures ShiftFree(row, col) ==> KeyAt(row, col, false) in {LogXY, Sign, Sub, Add, Enter, Shift}
  {
  }

  /** The mask of column bit `i`. */
  function ColumnMask(i: int): bv8
    requires 0 <= i < Columns
  {
    [0x01, 0x02, 0x04, 0x08, 0x10][i]
  }

  /** Column bit `i` is set in `mask`. */
  predicate ColumnBit(mask: bv8, i: int)
    requires 0 <= i < Columns
  {
    mask & ColumnMask(i) != 0
  }

  /** `1u << i` is the mask of column bit `i`. */
  lemma ShiftedOne(i: int)
    requires 0 <= i < Columns
    ensures (1 as bv8) << i == ColumnMask(i)
  {
    if i == 0 {
    } else if i == 1 {
    } else if i == 2 {
    } else if i == 3 {
    } else {
    }
  }

  /** The lowest set bit of `mask` among bits `from`..4, or -1 when there is none. */
  function LowestColumn(mask: bv8, from: nat): (c: int)
    requires from <= Columns
    ensures c == -1 || from <= c < Columns
    decreases Columns - from
  {
    if from == Columns then -1
    else if ColumnBit(mask, from) then from
    else LowestColumn(mask, from + 1)
  }

  /** The column found is a set bit with no set bit below it; -1 means no bit at all. */
  lemma {:induction false} LowestColumnIsLowest(mask: bv8, from: nat)
    requires from <= Columns
    ensures var c := LowestColumn(mask, from);
            (c == -1 <==> forall i :: from <= i < Columns ==> !ColumnBit(mask, i))
            && (c != -1 ==> ColumnBit(mask, c) && forall i :: from <= i < c ==> !ColumnBit(mask, i))
    decreases Columns - from
  {
    if from < Columns && !ColumnBit(mask, from) {
      LowestColumnIsLowest(mask, from + 1);
    }
  }

  /** The row number in bits 5-7. */
  function RowOf(raw: bv8): (r: int)
    ensures 0 <= r < 8
  {
    ((raw >> 5) & 0x07) as int
  }

  /** `map_raw_to_key`: the lowest column bit and the row select the key; nothing, or row 7, is no key. */
  function KeyOf(raw: bv8, shift: bool): (k: KeyCode)
    ensures k == NoKey <==> LowestColumn(raw & 0x1F, 0) == -1 || RowOf(raw) >= Rows
  {
    var col := LowestColumn(raw & 0x1F, 0);
    var row := RowOf(raw);
    if col < 0 || row >= Rows then NoKey else KeyAt(row, col, shift)
  }

  /** `map_raw_to_key`: the column scan, then the switch on row and column. */
  method MapRawToKey(raw: bv8, shift: bool) returns (k: KeyCode)
    ensures k == KeyOf(raw, shift)
  {
    var colMask := raw & 0x1F;
    var row := ((raw >> 5) & 0x07) as int;
    var col := ScanColumns(colMask);
    if col < 0 || row >= Rows {
      return NoKey;
    }
    k := KeyAt(row, col, shift);
  }

  /** The bit-scan loop: the first column bit set, or -1. */
  method ScanColumns(colMask: bv8) returns (col: int)
    ensures col == LowestColumn(colMask, 0)
  {
    col := -1;
    var i := 0;
    while i < Columns && col < 0
      invariant 0 <= i <= Columns
      invariant col < 0 ==> LowestColumn(colMask, i) == LowestColumn(colMask, 0)
      invariant col >= 0 ==> col == LowestColumn(colMask, 0)
      decreases Columns - i
    {
      ShiftedOne(i);
      if colMask & (1 << i) != 0 {
        col := i;
      }
      i := i + 1;
    }
  }

  // ---------------------------------------------------------------------
  // The event ring

  /** The ring holds at most seven events: a push onto seven drops the oldest. */
  function Enqueued(q: seq<Event>, ev: Event): (r: seq<Event>)
    requires |q| <= 7
    ensures 1 <= |r| <= 7 && r[|r| - 1] == ev
    ensures |q| < 7 ==> r == q + [ev]
    ensures |q| == 7 ==> r == q[1..] + [ev]
  {
    if |q| == 7 then q[1..] + [ev] else q + [ev]
  }

  /** Events pushed one after the other. */
  function EnqueuedAll(q: seq<Event>, evs: seq<Event>): (r: seq<Event>)
    requires |q| <= 7
    ensures |r| <= 7
    decreases |evs|
  {
    if |evs| == 0 then q else EnqueuedAll(Enqueued(q, evs[0]), evs[1..])
  }

  /** The last seven events of `s`, or all of them when there are fewer. */
  function Latest(s: seq<Event>): (r: seq<Event>)
    ensures |r| <= 7
  {
    s[if |s| > 7 then |s| - 7 else 0..]
  }

  /** Whatever was pushed, the ring holds the latest seven events in the order they came. */
  lemma {:induction false} EnqueuedAllKeepsLatest(q: seq<Event>, evs: seq<Event>)
    requires |q| <= 7
    ensures EnqueuedAll(q, evs) == Latest(q + evs)
    decreases |evs|
  {
    if |evs| == 0 {
      assert q + evs == q;
    } else {
      var q1 := Enqueued(q, evs[0]);
      assert EnqueuedAll(q, evs) == EnqueuedAll(q1, evs[1..]);
      EnqueuedAllKeepsLatest(q1, evs[1..]);
      if |q| == 7 {
        assert q1 == q[1..] + [evs[0]];
        assert q1 + evs[1..] == (q + evs)[1..];
        LatestOfTail(q + evs);
      } else {
        assert q1 == q + [evs[0]];
        assert q1 + evs[1..] == q + evs;
      }
    }
  }

  lemma LatestOfTail(s: seq<Event>)
    requires |s| >= 8
    ensures Latest(s[1..]) == Latest(s)
  {
    assert s[1..][|s| - 8..] == s[|s| - 7..];
  }

  // ---------------------------------------------------------------------
  // Debounce and auto-repeat

  /** The scan counters: stable code, last raw code, debounce count, repeat ticks, shift. */
  datatype Debounce = Debounce(stable: bv8, last: bv8, count: int, repeat: int, shift: bool)

  /** `repeat_ms` grows by 50 / TIMER_TICK per stable scan, fires at 2500 / TIMER_TICK, restarts at 2000 / TIMER_TICK. */
  const RepeatStep := 5
  const RepeatFire := 250
  const RepeatRestart := 200

  /**
   * One scan with raw code `raw`: a change restarts the debounce count;
   * the third identical scan after it makes the code stable and emits DOWN
   * (a nonzero code, toggling shift on SHIFT) or UP (zero, naming the key
   * that was down); a code that stays down counts towards a REPEAT.
   */
  function Step(d: Debounce, raw: bv8): (r: (Debounce, Option<Event>))
    ensures r.0.last == raw
    ensures r.0.shift != d.shift ==> r.1 == Some(Event(Down, Shift))
    ensures r.1.Some? ==> d.last == raw && r.0.count == 3
    ensures r.0.stable != d.stable ==> r.0.stable == raw && r.1.Some?
    ensures 0 <= d.count <= 3 ==> 0 <= r.0.count <= 3
  {
    if raw != d.last then
      (d.(count := 0, last := raw), None)
    else
      var c := if d.count < 3 then d.count + 1 else d.count;
      if c != 3 then
        (d.(count := c), None)
      else if d.stable != raw then
        Settle(d.(count := c), raw)
      else if raw != 0 then
        RepeatTick(d.(count := c), raw)
      else
        (d.(count := c), None)
  }

  /** A debounced code different from the stable one becomes stable: DOWN for a key, UP for zero. */
  function Settle(d: Debounce, raw: bv8): (r: (Debounce, Option<Event>))
    ensures r.0.stable == raw && r.0.last == d.last && r.0.count == d.count && r.1.Some?
    ensures r.1.value.kind == (if raw != 0 then Down else Up)
    ensures r.0.shift != d.shift ==> raw != 0 && r.1.value.code == Shift
  {
    if raw != 0 then
      var key := KeyOf(raw, d.shift);
      (d.(shift := if key == Shift then !d.shift else d.shift, repeat := 0, stable := raw), Some(Event(Down, key)))
    else
      (d.(stable := raw), Some(Event(Up, KeyOf(d.stable, d.shift))))
  }

  /** A key still down: the ticks advance (a 16-bit counter), and crossing the threshold fires a REPEAT. */
  function RepeatTick(d: Debounce, raw: bv8): (r: (Debounce, Option<Event>))
    ensures r.0 == d.(repeat := r.0.repeat) && 0 <= r.0.repeat < RepeatFire
    ensures r.1.Some? ==> r.1.value == Event(Repeat, KeyOf(raw, d.shift)) && r.0.repeat == RepeatRestart
  {
    var r := (d.repeat + RepeatStep) % 0x1_0000;
    if r >= RepeatFire then
      (d.(repeat := RepeatRestart), Some(Event(Repeat, KeyOf(raw, d.shift))))
    else
      (d.(repeat := r), None)
  }

  /** `n` scans of the same raw code, with the events they emit. */
  function Hold(d: Debounce, raw: bv8, n: nat): (r: (Debounce, seq<Event>))
    ensures |r.1| <= n
    ensures n > 0 ==> r.0.last == raw
    decreases n
  {
    if n == 0 then (d, [])
    else
      var first := Step(d, raw);
      var rest := Hold(first.0, raw, n - 1);
      (rest.0, Emitted(first.1) + rest.1)
  }

  function Emitted(e: Option<Event>): seq<Event> {
    if e.Some? then [e.value] else []
  }

  /**
   * A new code is reported on the third scan after the one that saw the
   * change, and not before: four scans of a new nonzero code emit exactly
   * one DOWN for its key, and four scans of zero exactly one UP for the key
   * that was down.
   */
  lemma DebounceLatency(d: Debounce, raw: bv8)
    requires raw != d.last && raw != d.stable
    ensures Hold(d, raw, 3).1 == []
    ensures Hold(d, raw, 4).1 == [if raw != 0 then Event(Down, KeyOf(raw, d.shift)) else Event(Up, KeyOf(d.stable, d.shift))]
    ensures Hold(d, raw, 4).0.stable == raw && Hold(d, raw, 4).0.count == 3
  {
    var d1 := Step(d, raw).0;
    var d2 := Step(d1, raw).0;
    var d3 := Step(d2, raw).0;
    assert d1.count == 0 && d2.count == 1 && d3.count == 2;
    var s := Step(d3, raw);
    assert Hold(s.0, raw, 0).1 == [];
    assert Hold(d3, raw, 1).1 == [s.1.value];
    assert Hold(d3, raw, 0).1 == [];
    assert Hold(d2, raw, 1).1 == [];
    assert Hold(d1, raw, 2).1 == [];
  }

  /** A key held down after its DOWN: the code is stable and nonzero, the count settled. */
  predicate Held(d: Debounce, raw: bv8) {
    raw != 0 && d.stable == raw && d.last == raw && d.count == 3
  }

  /** While a key is held and the ticks stay below the threshold, scans count up and emit nothing. */
  lemma {:induction false} HoldQuiet(d: Debounce, raw: bv8, n: nat)
    requires Held(d, raw) && 0 <= d.repeat && d.repeat + RepeatStep * n < RepeatFire
    ensures Hold(d, raw, n).0 == d.(repeat := d.repeat + RepeatStep * n)
    ensures Hold(d, raw, n).1 == []
    decreases n
  {
    if n > 0 {
      var d1 := Step(d, raw).0;
      assert Step(d, raw).1 == None;
      assert d1 == d.(repeat := d.repeat + RepeatStep);
      HoldQuiet(d1, raw, n - 1);
    }
  }

  /** `n` more scans reach the threshold exactly: the last of them emits the only REPEAT and restarts the ticks. */
  lemma RepeatAfter(d: Debounce, raw: bv8, n: nat)
    requires Held(d, raw) && 0 <= d.repeat && n >= 1 && d.repeat + RepeatStep * n == RepeatFire
    ensures Hold(d, raw, n).0 == d.(repeat := RepeatRestart)
    ensures Hold(d, raw, n).1 == [Event(Repeat, KeyOf(raw, d.shift))]
  {
    HoldQuiet(d, raw, n - 1);
    var dq := Hold(d, raw, n - 1).0;
    HoldSplit(d, raw, n - 1, 1);
    RepeatFires(dq, raw);
  }

  /** One scan of a held key at or past the threshold less one step fires. */
  lemma RepeatFires(d: Debounce, raw: bv8)
    requires Held(d, raw) && RepeatFire <= d.repeat + RepeatStep < 0x1_0000
    ensures Hold(d, raw, 1).0 == d.(repeat := RepeatRestart)
    ensures Hold(d, raw, 1).1 == [Event(Repeat, KeyOf(raw, d.shift))]
  {
    var s := Step(d, raw);
    assert s.0 == d.(repeat := RepeatRestart) && s.1 == Some(Event(Repeat, KeyOf(raw, d.shift)));
    assert Hold(s.0, raw, 0).1 == [];
  }

  /** The first REPEAT comes 50 scans after DOWN, and each later one 10 scans after the previous. */
  lemma RepeatCadence(d: Debounce, raw: bv8)
    requires Held(d, raw)
    ensures d.repeat == 0 ==> Hold(d, raw, 50).0 == d.(repeat := RepeatRestart)
                              && Hold(d, raw, 50).1 == [Event(Repeat, KeyOf(raw, d.shift))]
    ensures d.repeat == RepeatRestart ==> Hold(d, raw, 10).0 == d.(repeat := RepeatRestart)
                                          && Hold(d, raw, 10).1 == [Event(Repeat, KeyOf(raw, d.shift))]
  {
    if d.repeat == 0 {
      RepeatAfter(d, raw, 50);
    } else if d.repeat == RepeatRestart {
      RepeatAfter(d, raw, 10);
    }
  }

  /** Scanning `m` then `n` times is scanning `m + n` times. */
  lemma {:induction false} HoldSplit(d: Debounce, raw: bv8, m: nat, n: nat)
    ensures Hold(d, raw, m + n).0 == Hold(Hold(d, raw, m).0, raw, n).0
    ensures Hold(d, raw, m + n).1 == Hold(d, raw, m).1 + Hold(Hold(d, raw, m).0, raw, n).1
    decreases m
  {
    if m > 0 {
      var first := Step(d, raw);
      HoldSplit(first.0, raw, m - 1, n);
      var mid := Hold(first.0, raw, m - 1);
      var tail := Hold(mid.0, raw, n);
      assert Hold(d, raw, m) == (mid.0, Emitted(first.1) + mid.1);
      assert Hold(d, raw, m + n) == (tail.0, Emitted(first.1) + (mid.1 + tail.1));
      assert Emitted(first.1) + (mid.1 + tail.1) == (Emitted(first.1) + mid.1) + tail.1;
    } else {
      assert Hold(d, raw, 0) == (d, []);
      assert [] + Hold(d, raw, n).1 == Hold(d, raw, n).1;
    }
  }

  /** The ring after a scan that emitted `e`, or nothing. */
  function Pushed(q: seq<Event>, e: Option<Event>): (r: seq<Event>)
    requires |q| <= 7
    ensures e.None? ==> r == q
    ensures e.Some? ==> r == Enqueued(q, e.value)
  {
    if e.Some? then Enqueued(q, e.value) else q
  }

  // ---------------------------------------------------------------------
  // The driver state

  /** The event ring buffer: eight slots, `head` the next write, `tail` the oldest event. */
  class Ring {
    var events: array<Event>
    var head: int
    var tail: int

    ghost predicate Valid()
      reads this
    {
      events.Length == 8 && 0 <= head < 8 && 0 <= tail < 8
    }

    /** How many events wait in the ring: `(head - tail) mod 8`. */
    function Count(): (n: int)
      requires Valid()
      reads this
      ensures 0 <= n < 8 && n == (head - tail) % 8
    {
      if tail <= head then head - tail else head + 8 - tail
    }

    /** The array slot of the `i`-th waiting event: `(tail + i) mod 8`. */
    function Slot(i: int): (k: int)
      requires Valid() && 0 <= i < 8
      reads this
      ensures 0 <= k < 8 && k == (tail + i) % 8
    {
      if tail + i < 8 then tail + i else tail + i - 8
    }

    /** The events waiting in the ring, oldest first. */
    function Contents(): (q: seq<Event>)
      requires Valid()
      reads this, events
      ensures |q| == Count()
    {
      seq(Count(), i requires Valid() && 0 <= i < Count() reads this, events => events[Slot(i)])
    }

    constructor()
      ensures Valid() && fresh(events) && Contents() == []
    {
      events := new Event[8](_ => NoneEvent);
      head, tail := 0, 0;
    }

    /** `enqueue_event`: always succeeds, dropping the oldest event when the ring is full. */
    method Enqueue(ev: Event) returns (ok: bool)
      requires Valid()
      modifies this, events
      ensures Valid() && events == old(events)
      ensures ok && Contents() == Enqueued(old(Contents()), ev)
    {
      ghost var q := Contents();
      ghost var t0, h0 := tail, head;
      var nextHead := (head + 1) % 8;
      if nextHead == tail {
        tail := (tail + 1) % 8;
      }
      events[head] := ev;
      head := nextHead;
      ok := true;
      PushedContents(q, t0, h0, ev);
    }

    /** What `Enqueue`'s writes leave in the ring, given the ring before. */
    lemma PushedContents(q: seq<Event>, t0: int, h0: int, ev: Event)
      requires Valid() && 0 <= t0 < 8 && 0 <= h0 < 8 && |q| == (h0 - t0) % 8
      requires head == (h0 + 1) % 8 && tail == (if head == t0 then (t0 + 1) % 8 else t0)
      requires events[h0] == ev
      requires forall i :: 0 <= i < |q| && (t0 + i) % 8 != h0 ==> q[i] == events[(t0 + i) % 8]
      ensures Contents() == Enqueued(q, ev)
    {
      assert h0 == (t0 + |q|) % 8;
      if |q| < 7 {
        PushedIntoRoom(q, t0, h0, ev);
      } else {
        PushedOverOldest(q, t0, h0, ev);
      }
    }

    lemma PushedIntoRoom(q: seq<Event>, t0: int, h0: int, ev: Event)
      requires Valid() && 0 <= t0 < 8 && 0 <= h0 < 8 && |q| < 7 && h0 == (t0 + |q|) % 8
      requires head == (h0 + 1) % 8 && tail == t0
      requires events[h0] == ev
      requires forall i :: 0 <= i < |q| && (t0 + i) % 8 != h0 ==> q[i] == events[(t0 + i) % 8]
      ensures Contents() == q + [ev]
    {
      var r := q + [ev];
      assert Count() == |r|;
      forall i | 0 <= i < |r|
        ensures Contents()[i] == r[i]
      {
        assert Slot(i) == (t0 + i) % 8;
        assert i < |q| <==> Slot(i) != h0;
      }
    }

    lemma PushedOverOldest(q: seq<Event>, t0: int, h0: int, ev: Event)
      requires Valid() && 0 <= t0 < 8 && 0 <= h0 < 8 && |q| == 7 && h0 == (t0 + 7) % 8
      requires head == (h0 + 1) % 8 && tail == (t0 + 1) % 8
      requires events[h0] == ev
      requires forall i :: 0 <= i < |q| && (t0 + i) % 8 != h0 ==> q[i] == events[(t0 + i) % 8]
      ensures Contents() == q[1..] + [ev]
    {
      var r := q[1..] + [ev];
      assert Count() == 7;
      forall i | 0 <= i < 7
        ensures Contents()[i] == r[i]
      {
        assert Slot(i) == (t0 + (i + 1)) % 8;
        assert i < 6 <==> Slot(i) != h0;
      }
    }

    /** `dequeue_event`: the oldest event, or NONE on an empty ring. */
    method Dequeue() returns (ev: Event)
      requires Valid()
      modifies this
      ensures Valid() && events == old(events)
      ensures old(Contents()) == [] ==> ev == NoneEvent && Contents() == []
      ensures old(Contents()) != [] ==> ev == old(Contents())[0] && Contents() == old(Contents())[1..]
    {
      if head == tail {
        return NoneEvent;
      }
      ev := events[tail];
      tail := (tail + 1) % 8;
    }

    /** Emptying the ring, as `key_reset` does. */
    method Clear()
      requires Valid()
      modifies this
      ensures Valid() && events == old(events) && Contents() == []
    {
      head, tail := 0, 0;
    }
  }

  /** The scan state of the driver and its event ring. */
  class Scanner {
    var stableCode: bv8
    var lastCode: bv8
    var debounce: int
    var repeatTicks: int
    var shift: bool
    const ring: Ring

    ghost predicate Valid()
      reads this, ring
    {
      ring.Valid()
    }

    function Counters(): Debounce
      reads this
    {
      Debounce(stableCode, lastCode, debounce, repeatTicks, shift)
    }

    /** `key_init` after its `memset`: everything zero, the ring empty. */
    constructor()
      ensures Valid() && fresh(ring) && fresh(ring.events)
      ensures ring.Contents() == [] && Counters() == Debounce(0, 0, 0, 0, false)
    {
      stableCode, lastCode, debounce, repeatTicks, shift := 0, 0, 0, 0, false;
      ring := new Ring();
    }

    /** The debounce and repeat part of `scan_timer_cb`, given the raw code this scan read. */
    method Scan(raw: bv8)
      requires Valid()
      modifies this, ring, ring.events
      ensures Valid() && ring.events == old(ring.events)
      ensures Counters() == Step(old(Counters()), raw).0
      ensures ring.Contents() == Pushed(old(ring.Contents()), Step(old(Counters()), raw).1)
    {
      if raw != lastCode {
        debounce := 0;
        lastCode := raw;
        return;
      }
      if debounce < 3 {
        debounce := debounce + 1;
      }
      if debounce == 3 {
        if stableCode != raw {
          SettleCode(raw);
        } else if raw != 0 {
          AdvanceRepeat(raw);
        }
      }
    }

    /** A debounced change of code: the counters settle and the DOWN or UP event goes into the ring. */
    method SettleCode(raw: bv8)
      requires Valid() && stableCode != raw
      modifies this, ring, ring.events
      ensures Valid() && ring.events == old(ring.events)
      ensures Counters() == Settle(old(Counters()), raw).0
      ensures ring.Contents() == Pushed(old(ring.Contents()), Settle(old(Counters()), raw).1)
    {
      var ev := SettleCounters(raw);
      var ok := ring.Enqueue(ev);
    }

    /** The counter updates of a debounced change, returning the event to report. */
    method SettleCounters(raw: bv8) returns (ev: Event)
      requires stableCode != raw
      modifies this
      ensures Counters() == Settle(old(Counters()), raw).0
      ensures Settle(old(Counters()), raw).1 == Some(ev)
    {
      if raw != 0 {
        var key := MapRawToKey(raw, shift);
        if key == Shift {
          shift := !shift;
        }
        ev := Event(Down, key);
        repeatTicks := 0;
      } else {
        var key := MapRawToKey(stableCode, shift);
        ev := Event(Up, key);
      }
      stableCode := raw;
    }

    method AdvanceRepeat(raw: bv8)
      requires Valid()
      modifies this, ring, ring.events
      ensures Valid() && ring.events == old(ring.events)
      ensures Counters() == RepeatTick(old(Counters()), raw).0
      ensures ring.Contents() == Pushed(old(ring.Contents()), RepeatTick(old(Counters()), raw).1)
    {
      ghost var q := ring.Contents();
      repeatTicks := (repeatTicks + RepeatStep) % 0x1_0000;
      if repeatTicks >= RepeatFire {
        repeatTicks := RepeatRestart;
        var key := MapRawToKey(raw, shift);
        var ok := ring.Enqueue(Event(Repeat, key));
        assert ring.Contents() == Pushed(q, Some(Event(Repeat, key)));
      } else {
        assert ring.Contents() == Pushed(q, None);
      }
    }

    /** `key_poll`: the oldest waiting event, or NONE. */
    method Poll() returns (ev: Event)
      requires Valid()
      modifies ring
      ensures Valid() && ring.events == old(ring.events) && Counters() == old(Counters())
      ensures old(ring.Contents()) == [] ==> ev == NoneEvent && ring.Contents() == []
      ensures old(ring.Contents()) != [] ==> ev == old(ring.Contents())[0] && ring.Contents() == old(ring.Contents())[1..]
    {
      ev := ring.Dequeue();
    }

    /** `key_reset`: codes, debounce count and shift cleared, the ring emptied; the repeat ticks stay. */
    method Reset()
      requires Valid()
      modifies this, ring
      ensures Valid() && ring.events == old(ring.events) && ring.Contents() == []
      ensures Counters() == old(Counters()).(stable := 0, last := 0, count := 0, shift := false)
    {
      stableCode, lastCode := 0, 0;
      debounce := 0;
      shift := false;
      ring.Clear();
    }

    /** `key_set_shift_state`. */
    method SetShift(on: bool)
      requires Valid()
      modifies this
      ensures Valid() && ring.events == old(ring.events) && ring.Contents() == old(ring.Contents())
      ensures Counters() == old(Counters()).(shift := on)
    {
      shift := on;
    }

    /** `key_get_shift_state`. */
    method GetShift() returns (on: bool)
      ensures on == shift
    {
      on := shift;
    }
  }
}
