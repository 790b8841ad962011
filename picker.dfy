/**
 * The constant picker opened by C1 and C2: a selection 0..9 within a
 * group, moved by the digit keys and the two roll keys, applied with ENTER
 * and abandoned with DEL or OFF. While it is open it takes every key
 * except those that act outside it.
 */
module Picker {
  import opened Keys
  import Engine
  import Rpn

  /** `g_const_ui_active`, `g_const_group`, `g_const_sel`. */
  datatype PickerState = PickerState(active: bool, group: int, sel: int)

  /** Entries per group. */
  const Choices := 10

  /** The selection stays a valid index. */
  predicate Good(s: PickerState) {
    0 <= s.sel < Choices
  }

  /** `const_ui_open`. */
  function Opened(group: int): (s: PickerState)
    ensures Good(s) && s.active && s.group == group && s.sel == 0
  {
    PickerState(true, group, 0)
  }

  /** The selection a digit key chooses: keys 1..9 choose 0..8, key 0 chooses 9. */
  function DigitChoice(code: KeyCode): (c: Option<int>)
    ensures c.Some? <==> K0 <= code <= K9
    ensures c.Some? ==> 0 <= c.value < Choices
  {
    if code == K0 then Some(9)
    else if K1 <= code <= K9 then Some(code as int - K1 as int)
    else None
  }

  /** The digit shown in front of the selection (`numch`). */
  function Numeral(sel: int): (c: char)
    requires 0 <= sel < Choices
    ensures '0' <= c <= '9'
  {
    if sel == 9 then '0' else ('1' as int + sel) as char
  }

  /** The key that chooses a selection. */
  function KeyFor(sel: int): (k: KeyCode)
    requires 0 <= sel < Choices
  {
    if sel == 9 then K0 else (K1 as int + sel) as KeyCode
  }

  /** The numeral shown for a selection is the label of the key that chooses it, and that key chooses exactly it. */
  lemma NumeralMatchesKey(sel: int)
    requires 0 <= sel < Choices
    ensures DigitChoice(KeyFor(sel)) == Some(sel)
    ensures Numeral(sel) as int - '0' as int == KeyFor(sel) as int - K0 as int
  {
  }

  /** The keys that act outside the picker and are left to the rest of the firmware. */
  predicate Foreign(code: KeyCode) {
    code == Mode || code == P1 || code == P2 || code == P3 || code == PR
  }

  /** The events the picker looks at: it is open, and the event is a press or a repeat. */
  predicate Sees(s: PickerState, ev: Event) {
    s.active && ev.kind != Up && ev.kind != NoEvent
  }

  /** ENTER: the selected constant is applied and the picker closes. */
  predicate Applies(s: PickerState, ev: Event) {
    Sees(s, ev) && ev.code == Enter
  }

  /** ENTER, DEL and OFF close the picker, report the key as consumed, and release shift. */
  predicate Closes(s: PickerState, ev: Event) {
    Sees(s, ev) && (ev.code == Enter || ev.code == Del || ev.code == Off)
  }

  /** The state after `const_ui_handle_key`. */
  function Next(s: PickerState, ev: Event): (t: PickerState)
    ensures Good(s) ==> Good(t)
    ensures !Sees(s, ev) || Foreign(ev.code) ==> t == s
    ensures Closes(s, ev) ==> t == s.(active := false)
    ensures Sees(s, ev) && DigitChoice(ev.code).Some? ==> t == s.(sel := DigitChoice(ev.code).value)
    ensures Sees(s, ev) && ev.code == C1 ==> t == s.(group := 1)
    ensures Sees(s, ev) && ev.code == C2 ==> t == s.(group := 2)
  {
    if !Sees(s, ev) then s
    else if Foreign(ev.code) then s
    else if DigitChoice(ev.code).Some? then s.(sel := DigitChoice(ev.code).value)
    else if ev.code == Roll then s.(sel := (s.sel + 1) % Choices)
    else if ev.code == RollUp then s.(sel := if s.sel == 0 then 9 else s.sel - 1)
    else if ev.code == C1 then s.(group := 1)
    else if ev.code == C2 then s.(group := 2)
    else if ev.code == Enter || ev.code == Del || ev.code == Off then s.(active := false)
    else s
  }

  /** ROLL and ROLLUP walk round the ten selections in opposite directions, so each undoes the other. */
  lemma RollsUndoEachOther(s: PickerState)
    requires Good(s) && s.active
    ensures Next(Next(s, Event(Down, Roll)), Event(Down, RollUp)) == s
    ensures Next(Next(s, Event(Down, RollUp)), Event(Down, Roll)) == s
  {
  }

  /** Ten ROLL presses come back to the starting selection. */
  lemma {:induction false} RollCycle(s: PickerState, n: nat)
    requires Good(s) && s.active
    ensures RollTimes(s, n).sel == (s.sel + n) % Choices
    ensures RollTimes(s, n).active && RollTimes(s, n).group == s.group
    decreases n
  {
    if n > 0 {
      RollCycle(s, n - 1);
    }
  }

  function RollTimes(s: PickerState, n: nat): PickerState
    decreases n
  {
    if n == 0 then s else Next(RollTimes(s, n - 1), Event(Down, Roll))
  }

  class ConstUi {
    var active: bool
    var group: int
    var sel: int
    /** The engine the chosen constant goes to. */
    const engine: Rpn.Calculator

    function State(): PickerState
      reads this
    {
      PickerState(active, group, sel)
    }

    /** The zero-initialised globals. */
    constructor(engine: Rpn.Calculator)
      ensures State() == PickerState(false, 0, 0) && this.engine == engine
    {
      active, group, sel := false, 0, 0;
      this.engine := engine;
    }

    /** `const_ui_open`. */
    method Open(g: int)
      modifies this
      ensures State() == Opened(g)
    {
      group := g;
      sel := 0;
      active := true;
    }

    /** `const_ui_is_open`. */
    method IsOpen() returns (open: bool)
      ensures open == State().active
    {
      open := active;
    }

    /**
     * `const_ui_handle_key`: returns true exactly when the key closed the
     * picker. ENTER applies constant (group, sel) to the engine; ENTER,
     * DEL and OFF release shift; no other key touches the engine or the
     * keyboard.
     */
    method HandleKey(ev: Event) returns (handled: bool)
      requires engine.Valid()
      modifies this, engine, engine.stack, engine.line, engine.line.chars, engine.keys
      ensures engine.Valid()
      ensures State() == Next(old(State()), ev) && handled == Closes(old(State()), ev)
      ensures Applies(old(State()), ev) && Engine.ConstApplies(old(group), old(sel)) ==>
        engine.State() == Engine.ConstApplied(engine.lib, old(engine.State()), old(group), old(sel))
      ensures !(Applies(old(State()), ev) && Engine.ConstApplies(old(group), old(sel))) ==> engine.State() == old(engine.State())
      ensures engine.modes == old(engine.modes)
      ensures Closes(old(State()), ev) ==> engine.keys.Counters() == old(engine.keys.Counters()).(shift := false)
      ensures !Closes(old(State()), ev) ==> engine.keys.Counters() == old(engine.keys.Counters())
    {
      if !active {
        return false;
      }
      if ev.kind == Up || ev.kind == NoEvent {
        return false;
      }
      var code := ev.code;
      if code == Mode || code == P1 || code == P2 || code == P3 || code == PR {
        return false;
      }
      var choice := DigitChoice(code);
      if choice.Some? {
        sel := choice.value;
        return false;
      }
      if code == Roll {
        sel := (sel + 1) % Choices;
        return false;
      }
      if code == RollUp {
        sel := if sel == 0 then 9 else sel - 1;
        return false;
      }
      if code == C1 {
        group := 1;
        return false;
      }
      if code == C2 {
        group := 2;
        return false;
      }
      if code == Enter {
        var _ := engine.ConstApply(group, sel);
        engine.keys.SetShift(false);
        active := false;
        return true;
      }
      if code == Del || code == Off {
        engine.keys.SetShift(false);
        active := false;
        return true;
      }
      return false;
    }
  }
}
