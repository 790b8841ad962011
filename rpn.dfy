/**
 * The engine's module state as the firmware keeps it: `stack[4]`,
 * `last_x`, `vars_mem[6]`, the pending variable operator, `input_state`,
 * `flag_state`, the library's status word and the last exceptions, plus
 * the four calculator modes. Every public entry point of the engine is a
 * method proved to make the transition its `Engine` function describes.
 */
module Rpn {
  import opened Decimal
  import opened Input
  import opened Engine
  import Catalogue
  import Settings
  import Keys

  /** An all-zero decimal128 word: coefficient 0 at the lowest exponent, as a zero-initialised global reads. */
  const ZeroBits := Finite(false, 0, -6176)

  class Calculator {
    /** The decimal library the engine calls. */
    const lib: Library
    const stack: array<Dec>
    var lastX: Dec
    const vars: array<Dec>
    var pending: VarOp
    const line: InputBuffer
    var push: bool
    var accum: set<Exception>
    var lastExc: set<Exception>
    /** `init_state`: display, angle, hyperbolic and zero modes. */
    var modes: Settings.InitState
    const store: Settings.Store
    const keys: Keys.Scanner

    /** The arrays have their C sizes and do not overlap; the buffer keeps its terminator invariant. */
    ghost predicate Formed()
      reads this, line, line.chars
    {
      stack.Length == Depth && vars.Length == VarCount && stack != vars && line.Valid()
    }

    ghost predicate Valid()
      reads this, line, line.chars, keys, keys.ring
    {
      Formed() && keys.Valid()
    }

    function State(): (e: EngineState)
      requires Formed()
      reads this, stack, vars, line, line.chars
      ensures Shaped(e)
    {
      EngineState(stack[..], lastX, vars[..], pending, line.State(), push, accum, lastExc)
    }

    /** The zero-initialised globals, before `init_rpn`. */
    constructor(lib: Library, store: Settings.Store, keys: Keys.Scanner)
      requires keys.Valid()
      ensures Valid() && this.lib == lib && this.store == store && this.keys == keys
      ensures fresh(stack) && fresh(vars) && fresh(line) && fresh(line.chars)
      ensures State() == EngineState([ZeroBits, ZeroBits, ZeroBits, ZeroBits], ZeroBits, seq(VarCount, _ => ZeroBits),
                                     NoOp, Line([], false, 0, 0, false), false, {}, {})
      ensures modes == Settings.InitState(0, 0, 0, 0)
    {
      this.lib := lib;
      this.store := store;
      this.keys := keys;
      stack := new Dec[Depth](_ => ZeroBits);
      vars := new Dec[VarCount](_ => ZeroBits);
      line := new InputBuffer();
      lastX := ZeroBits;
      pending := NoOp;
      push := false;
      accum := {};
      lastExc := {};
      modes := Settings.InitState(0, 0, 0, 0);
    }

    // -------------------------------------------------------------------
    // The register stack

    /** `stack_push`. */
    method StackPush()
      requires Formed()
      modifies stack
      ensures stack[..] == Pushed(old(stack[..]))
    {
      stack[3] := stack[2];
      stack[2] := stack[1];
      stack[1] := stack[0];
    }

    /** `stack_pop`. */
    method StackPop()
      requires Formed()
      modifies stack
      ensures stack[..] == Popped(old(stack[..]))
    {
      stack[0] := stack[1];
      stack[1] := stack[2];
      stack[2] := stack[3];
    }

    /** `stack_swap`. */
    method StackSwap()
      requires Formed()
      modifies stack
      ensures stack[..] == Swapped(old(stack[..]))
    {
      var tmp := stack[0];
      stack[0] := stack[1];
      stack[1] := tmp;
    }

    /** `stack_roll_up`. */
    method StackRollUp()
      requires Formed()
      modifies stack
      ensures stack[..] == RolledUp(old(stack[..]))
    {
      var tmp := stack[3];
      stack[3] := stack[2];
      stack[2] := stack[1];
      stack[1] := stack[0];
      stack[0] := tmp;
    }

    /** `stack_roll_down`. */
    method StackRollDown()
      requires Formed()
      modifies stack
      ensures stack[..] == RolledDown(old(stack[..]))
    {
      var tmp := stack[0];
      stack[0] := stack[1];
      stack[1] := stack[2];
      stack[2] := stack[3];
      stack[3] := tmp;
    }

    /** `rpn_stack_x`. */
    method StackX() returns (x: Dec)
      requires Formed()
      ensures x == State().stack[0]
    {
      x := stack[0];
    }

    /** `rpn_stack_y`. */
    method StackY() returns (y: Dec)
      requires Formed()
      ensures y == State().stack[1]
    {
      y := stack[1];
    }

    /** `rpn_stack_z`. */
    method StackZ() returns (z: Dec)
      requires Formed()
      ensures z == State().stack[2]
    {
      z := stack[2];
    }

    /** `rpn_stack_t`. */
    method StackT() returns (t: Dec)
      requires Formed()
      ensures t == State().stack[3]
    {
      t := stack[3];
    }

    // -------------------------------------------------------------------
    // Shared steps

    /** `after_operation`, including the release of the shift key. */
    method AfterOperation()
      requires Valid()
      modifies this, stack, line, line.chars, keys
      ensures Valid() && State() == AfterOp(old(State())) && modes == old(modes)
      ensures keys.Counters() == old(keys.Counters()).(shift := false)
    {
      lastExc := accum;
      accum := {};
      if IsZero(stack[0]) {
        stack[0] := Zero;
      }
      var isInf := IsInf(stack[0]);
      var isNaN := IsNaN(stack[0]);
      line.Clear();
      push := !(isInf || isNaN);
      keys.SetShift(false);
    }

    /** `update_x_from_input_if_valid`. */
    method UpdateXFromInput()
      requires Formed()
      modifies this, stack
      ensures Formed() && State() == Reparse(lib, old(State())) && modes == old(modes)
    {
      if line.len == 0 {
        return;
      }
      var c := line.chars[line.len - 1];
      if !('0' <= c <= '9') {
        return;
      }
      var o := lib.parse(line.chars[..line.len]);
      stack[0] := o.value;
      accum := accum + o.flags;
    }

    /** The push-and-clear preamble of the digit, point and `E` keys. */
    method BeginEntry()
      requires Formed()
      modifies this, stack, line, line.chars
      ensures Formed() && State() == Begin(old(State())) && modes == old(modes)
    {
      if push {
        StackPush();
        line.Clear();
        push := false;
      }
    }

    /** Lift if `push_flag` is set, empty the buffer, write X, and set the flag. */
    method RecallValue(v: Dec)
      requires Formed()
      modifies this, stack, line, line.chars
      ensures Formed() && State() == Recall(old(State()), v) && modes == old(modes)
    {
      if push {
        StackPush();
      }
      line.Clear();
      stack[0] := v;
      push := true;
    }

    // -------------------------------------------------------------------
    // Entering a number

    /** `rpn_input_clear`. */
    method InputClear()
      requires Formed()
      modifies line, line.chars
      ensures Formed() && State() == old(State()).(line := Empty)
    {
      line.Clear();
    }

    /** `rpn_input_append_digit`. */
    method AppendDigit(d: char)
      requires Formed()
      modifies this, stack, line, line.chars
      ensures Formed() && State() == Digit(lib, old(State()), d) && modes == old(modes)
    {
      BeginEntry();
      line.AppendDigit(d);
      UpdateXFromInput();
    }

    /** `handle_digit`. */
    method HandleDigit(d: char)
      requires Formed()
      modifies this, stack, line, line.chars
      ensures Formed() && State() == Engine.HandleDigit(lib, old(State()), d) && modes == old(modes)
    {
      BeginEntry();
      line.AppendDigit(d);
      var o := lib.parse(line.chars[..line.len]);
      stack[0] := o.value;
      accum := accum + o.flags;
    }

    /** `rpn_input_dot`. */
    method InputDot()
      requires Formed()
      modifies this, stack, line, line.chars
      ensures Formed() && State() == Dot(old(State())) && modes == old(modes)
    {
      BeginEntry();
      line.AppendDot();
    }

    /** `rpn_input_exp`. */
    method InputExp()
      requires Formed()
      modifies this, stack, line, line.chars
      ensures Formed() && State() == Exponent(old(State())) && modes == old(modes)
    {
      BeginEntry();
      line.AppendExp();
    }

    /** `rpn_input_toggle_sign`: the shift key is released only on the negation path. */
    method InputToggleSign()
      requires Valid()
      modifies this, stack, line, line.chars, keys
      ensures Valid() && State() == ToggleSign(lib, old(State())) && modes == old(modes)
      ensures old(line.len) > 0 ==> keys.Counters() == old(keys.Counters())
      ensures old(line.len) == 0 ==> keys.Counters() == old(keys.Counters()).(shift := false)
    {
      if line.len > 0 {
        line.ToggleSign();
        UpdateXFromInput();
      } else {
        lastX := stack[0];
        stack[0] := Negated(stack[0]);
        AfterOperation();
      }
    }

    /** `rpn_input_backspace`. */
    method InputBackspace()
      requires Formed()
      modifies this, stack, line, line.chars
      ensures Formed() && State() == Backspace(lib, old(State())) && modes == old(modes)
    {
      if line.len <= 0 {
        return;
      }
      line.RemoveLast();
      if line.len == 1 && (line.chars[0] == '+' || line.chars[0] == '-') {
        line.Clear();
        stack[0] := Zero;
        return;
      }
      if line.len == 0 {
        stack[0] := Zero;
        return;
      }
      UpdateXFromInput();
    }

    /** `rpn_clear_x`. */
    method ClearX()
      requires Formed()
      modifies this, stack, line, line.chars
      ensures Formed() && State() == Engine.ClearX(old(State())) && modes == old(modes)
    {
      line.Clear();
      stack[0] := Zero;
      push := false;
    }

    /** `rpn_commit_input_without_push`. */
    method CommitInputWithoutPush()
      requires Formed()
      modifies this, stack, line, line.chars
      ensures Formed() && State() == Commit(lib, old(State())) && modes == old(modes)
    {
      if line.len > 0 {
        UpdateXFromInput();
      }
      line.Clear();
      push := false;
    }

    /** `rpn_enter`. */
    method Enter()
      requires Formed()
      modifies this, stack, line, line.chars
      ensures Formed() && State() == Engine.Enter(lib, old(State())) && modes == old(modes)
    {
      if line.len > 0 {
        UpdateXFromInput();
      }
      StackPush();
      line.Clear();
      push := false;
    }

    /** `rpn_swap`. */
    method Swap()
      requires Formed()
      modifies this, stack, line, line.chars
      ensures Formed() && State() == Rearranged(old(State()), Swapped(old(State()).stack)) && modes == old(modes)
    {
      StackSwap();
      line.Clear();
      push := true;
    }

    /** `rpn_roll_up`. */
    method RollUp()
      requires Formed()
      modifies this, stack, line, line.chars
      ensures Formed() && State() == Rearranged(old(State()), RolledUp(old(State()).stack)) && modes == old(modes)
    {
      StackRollUp();
      line.Clear();
      push := true;
    }

    /** `rpn_roll_down`. */
    method RollDown()
      requires Formed()
      modifies this, stack, line, line.chars
      ensures Formed() && State() == Rearranged(old(State()), RolledDown(old(State()).stack)) && modes == old(modes)
    {
      StackRollDown();
      line.Clear();
      push := true;
    }

    /** `rpn_set_x`. */
    method SetX(x: Dec)
      requires Formed()
      modifies this, stack, line, line.chars
      ensures Formed() && State() == Engine.SetX(old(State()), x) && modes == old(modes)
    {
      lastX := stack[0];
      stack[0] := x;
      line.Clear();
    }

    /** `rpn_is_input_active`. */
    method IsInputActive() returns (active: bool)
      requires Formed()
      ensures active <==> |State().line.text| > 0
    {
      active := line.len > 0;
    }

    /**
     * `rpn_get_input_string`: copies as much of the buffer as fits in
     * `bufsize - 1` characters, terminates it, and returns the full length.
     */
    method GetInputString(buf: array<char>, bufsize: int) returns (n: int)
      requires Formed() && bufsize <= buf.Length && buf != line.chars
      modifies buf
      ensures bufsize <= 0 ==> n == 0 && buf[..] == old(buf[..])
      ensures bufsize > 0 ==> n == |State().line.text|
      ensures bufsize > 0 ==>
        var m := if line.len < bufsize then line.len else bufsize - 1;
        buf[..m] == State().line.text[..m] && buf[m] == '\0' && buf[m + 1..] == old(buf[m + 1..])
    {
      if bufsize <= 0 {
        return 0;
      }
      var m := line.len;
      if m >= bufsize {
        m := bufsize - 1;
      }
      var i := 0;
      while i < m
        invariant 0 <= i <= m
        invariant buf[..i] == line.chars[..i]
        invariant buf[i..] == old(buf[i..])
      {
        buf[i] := line.chars[i];
        i := i + 1;
      }
      buf[m] := '\0';
      assert buf[m + 1..] == old(buf[m + 1..]);
      n := line.len;
    }

    // -------------------------------------------------------------------
    // Variables, constants and recall

    /** `rpn_var_set_pending_op`. */
    method VarSetPendingOp(op: VarOp)
      requires Formed()
      modifies this
      ensures Formed() && State() == old(State()).(pending := op) && modes == old(modes)
    {
      pending := op;
    }

    /** `rpn_var_get_pending_op`. */
    method VarGetPendingOp() returns (op: VarOp)
      requires Formed()
      ensures op == State().pending
    {
      op := pending;
    }

    /** `rpn_var_indicator_char`. */
    method VarIndicatorChar() returns (c: char)
      requires Formed()
      ensures c == Indicator(State().pending)
    {
      c := match pending
        case StoreOp => 'S'
        case LoadOp => 'L'
        case ClearOp => 'C'
        case NoOp => '\0';
    }

    /** `rpn_var_apply_slot`: false, and nothing changed, for a slot outside 0..5 or no pending operator. */
    method VarApplySlot(slot: int) returns (ok: bool)
      requires Formed()
      modifies this, stack, vars, line, line.chars
      ensures Formed() && ok == VarApplies(old(State()), slot) && modes == old(modes)
      ensures ok ==> State() == VarApplied(old(State()), slot)
      ensures !ok ==> State() == old(State())
    {
      if slot < 0 || slot >= VarCount {
        return false;
      }
      if pending == NoOp {
        return false;
      }
      match pending {
        case StoreOp =>
          vars[slot] := stack[0];
        case LoadOp =>
          RecallValue(vars[slot]);
        case ClearOp =>
          vars[slot] := Zero;
      }
      pending := NoOp;
      ok := true;
    }

    /** `rpn_const_apply`: false, and nothing changed, outside groups 1..2 and indexes 0..9. */
    method ConstApply(group: int, index: int) returns (ok: bool)
      requires Formed()
      modifies this, stack, line, line.chars
      ensures Formed() && ok == ConstApplies(group, index) && modes == old(modes)
      ensures ok ==> State() == ConstApplied(lib, old(State()), group, index)
      ensures !ok ==> State() == old(State())
    {
      var grp := Catalogue.PickGroup(group);
      if grp.None? {
        return false;
      }
      if index < 0 || index >= Catalogue.GroupSize {
        return false;
      }
      Catalogue.LiteralsFit(group, index);
      var o := lib.parse(grp.value[index].text);
      accum := accum + o.flags;
      RecallValue(o.value);
      ok := true;
    }

    /** `rpn_last`. */
    method LastX()
      requires Formed()
      modifies this, stack, line, line.chars
      ensures Formed() && State() == Last(old(State())) && modes == old(modes)
    {
      RecallValue(lastX);
    }

    /** `rpn_input_pi`. */
    method InputPi()
      requires Formed()
      modifies this, stack, line, line.chars
      ensures Formed() && State() == Literal(lib, old(State()), PiText) && modes == old(modes)
    {
      var o := lib.parse(PiText);
      accum := accum + o.flags;
      RecallValue(o.value);
    }

    /** `rpn_input_e`. */
    method InputE()
      requires Formed()
      modifies this, stack, line, line.chars
      ensures Formed() && State() == Literal(lib, old(State()), EText) && modes == old(modes)
    {
      var o := lib.parse(EText);
      accum := accum + o.flags;
      RecallValue(o.value);
    }

    // -------------------------------------------------------------------
    // Operations

    /** Every operation key: `rpn_add` ... `rpn_atanh`, `rpn_fact`. */
    method Apply(op: Op)
      requires Valid() && Keyed(op)
      modifies this, stack, line, line.chars, keys
      ensures Valid() && State() == Applied(lib, modes.angle, old(State()), op) && modes == old(modes)
      ensures keys.Counters() == old(keys.Counters()).(shift := false)
    {
      Operate(op);
      AfterOperation();
    }

    /** Everything an operation key does before `after_operation`. */
    method Operate(op: Op)
      requires Formed()
      modifies this, stack
      ensures Formed() && State() == Operated(lib, modes.angle, old(State()), op) && modes == old(modes)
    {
      ghost var e := State();
      var x, y := stack[0], stack[1];
      lastX := x;
      var out := Evaluate(op, x, y);
      accum := accum + out.flags;
      if Pops(op) {
        StackPop();
      }
      stack[0] := out.value;
      assert stack[..] == Operated(lib, modes.angle, e, op).stack;
    }

    /** The library calls of one operation, in the order the firmware makes them. */
    method Evaluate(op: Op, x: Dec, y: Dec) returns (out: Outcome)
      ensures out == Result(lib, modes.angle, op, x, y)
    {
      match op {
        case Arith(f) =>
          out := lib.binary(f, y, x);
        case NthRoot =>
          var inv := lib.binary(Div, One, y);
          var r := lib.binary(Pow, x, inv.value);
          out := Outcome(r.value, inv.flags + r.flags);
        case LogXY =>
          var ly := lib.unary(Ln, y);
          var lx := lib.unary(Ln, x);
          var r := lib.binary(Div, ly.value, lx.value);
          out := Outcome(r.value, ly.flags + (lx.flags + r.flags));
        case Rev =>
          out := lib.binary(Div, One, x);
        case Square =>
          out := lib.binary(Mul, x, x);
        case Cube =>
          var t := lib.binary(Mul, x, x);
          var r := lib.binary(Mul, t.value, x);
          out := Outcome(r.value, t.flags + r.flags);
        case Direct(g) =>
          out := lib.unary(g, x);
        case Trig(g) =>
          var a := ConvertAngleToRad(x);
          var r := lib.unary(g, a.value);
          out := Outcome(r.value, a.flags + r.flags);
        case InverseTrig(g) =>
          var r := lib.unary(g, x);
          var d := ConvertAngleFromRad(r.value);
          out := Outcome(d.value, r.flags + d.flags);
        case Fact =>
          out := Factorial(x);
      }
    }

    /** `rpn_convert_angle_to_rad`. */
    method ConvertAngleToRad(x: Dec) returns (out: Outcome)
      ensures out == ToRadians(lib, modes.angle, x)
    {
      if modes.angle == AngleDeg {
        var k := lib.parse(DegToRad);
        var m := lib.binary(Mul, x, k.value);
        out := Outcome(m.value, k.flags + m.flags);
      } else if modes.angle == AngleGrad {
        var k := lib.parse(GradToRad);
        var m := lib.binary(Mul, x, k.value);
        out := Outcome(m.value, k.flags + m.flags);
      } else {
        out := Outcome(x, {});
      }
    }

    /** `rpn_convert_angle_from_rad`. */
    method ConvertAngleFromRad(x: Dec) returns (out: Outcome)
      ensures out == FromRadians(lib, modes.angle, x)
    {
      if modes.angle == AngleDeg {
        var k := lib.parse(RadToDeg);
        var m := lib.binary(Mul, x, k.value);
        out := Outcome(m.value, k.flags + m.flags);
      } else if modes.angle == AngleGrad {
        var k := lib.parse(RadToGrad);
        var m := lib.binary(Mul, x, k.value);
        out := Outcome(m.value, k.flags + m.flags);
      } else {
        out := Outcome(x, {});
      }
    }

    /**
     * The computation of `rpn_fact`. The loop's extra `k <= Bound(n)` test
     * changes nothing below +Inf (`BoundStopsLoop`) and only makes the
     * model's termination visible.
     */
    method Factorial(x: Dec) returns (out: Outcome)
      ensures out == Engine.Factorial(lib, x)
    {
      var xi := lib.unary(RoundIntegralExact, x);
      var isInteger := Inexact !in xi.flags;
      if isInteger && !QuietLess(x, Zero) {
        if QuietEqual(xi.value, Zero) || QuietEqual(xi.value, One) {
          return Outcome(One, {});
        }
        var n := xi.value;
        var k: nat := 2;
        var acc := One;
        var flags: set<Exception> := {};
        while true
          invariant Product(lib, n, k, acc, flags) == Product(lib, n, 2, One, {})
          decreases Bound(n) + 1 - k
        {
          if k > Bound(n) || !QuietLessEqual(FromNat(k), n) {
            break;
          }
          var m := lib.binary(Mul, acc, FromNat(k));
          flags := flags + m.flags;
          acc := m.value;
          if IsInf(acc) {
            return Outcome(acc, flags);
          }
          k := k + 1;
        }
        return Outcome(acc, flags);
      }
      var z := lib.binary(Add, x, One);
      var g := lib.unary(Gamma, z.value);
      out := Outcome(g.value, z.flags + g.flags);
    }

    /** `rpn_get_last_exceptions`. */
    method GetLastExceptions() returns (flags: set<Exception>)
      requires Formed()
      ensures flags == State().lastExc
    {
      flags := lastExc;
    }

    // -------------------------------------------------------------------
    // Modes and settings

    /** `rpn_get_disp_mode`. */
    method GetDispMode() returns (m: bv32)
      ensures m == modes.disp
    {
      m := modes.disp;
    }

    /** `rpn_get_zero_mode`. */
    method GetZeroMode() returns (m: bv32)
      ensures m == modes.zero
    {
      m := modes.zero;
    }

    /** `rpn_get_angle_mode`. */
    method GetAngleMode() returns (m: bv32)
      ensures m == modes.angle
    {
      m := modes.angle;
    }

    /** `rpn_get_hyperbolic_mode`. */
    method GetHyperbolicMode() returns (m: bv32)
      ensures m == modes.hyperbolic
    {
      m := modes.hyperbolic;
    }

    /** `rpn_set_disp_mode`: the mode is stored and the settings told. */
    method SetDispMode(m: bv32)
      modifies this, store
      ensures modes == old(modes).(disp := m)
      ensures store.State() == Settings.ValuesChanged(old(store.State()), modes)
      ensures unchanged(this`lastX, this`pending, this`push, this`accum, this`lastExc)
    {
      modes := modes.(disp := m);
      store.OnValuesChanged(modes);
    }

    /** `rpn_set_zero_mode`. */
    method SetZeroMode(m: bv32)
      modifies this, store
      ensures modes == old(modes).(zero := m)
      ensures store.State() == Settings.ValuesChanged(old(store.State()), modes)
      ensures unchanged(this`lastX, this`pending, this`push, this`accum, this`lastExc)
    {
      modes := modes.(zero := m);
      store.OnValuesChanged(modes);
    }

    /** `rpn_set_angle_mode`. */
    method SetAngleMode(m: bv32)
      modifies this, store
      ensures modes == old(modes).(angle := m)
      ensures store.State() == Settings.ValuesChanged(old(store.State()), modes)
      ensures unchanged(this`lastX, this`pending, this`push, this`accum, this`lastExc)
    {
      modes := modes.(angle := m);
      store.OnValuesChanged(modes);
    }

    /** `rpn_set_hyperbolic_mode`. */
    method SetHyperbolicMode(m: bv32)
      modifies this, store
      ensures modes == old(modes).(hyperbolic := m)
      ensures store.State() == Settings.ValuesChanged(old(store.State()), modes)
      ensures unchanged(this`lastX, this`pending, this`push, this`accum, this`lastExc)
    {
      modes := modes.(hyperbolic := m);
      store.OnValuesChanged(modes);
    }

    /** `rpn_settings_maybe_save`. */
    method SettingsMaybeSave()
      modifies store
      ensures store.State() == Settings.Flush(old(store.State()))
    {
      store.SaveIfDirty();
    }

    /**
     * `init_rpn`: the registers, LastX and variables become "0", no
     * operator is pending, the buffer is emptied and the stack will not
     * lift; then the settings are loaded and the modes read from them.
     */
    method Init()
      requires Formed()
      modifies this, stack, vars, line, line.chars, store
      ensures Formed() && State() == Initial(old(lastExc))
      ensures store.State() == Settings.Lazy(Settings.Boot(old(store.State()))) && modes == store.loaded.data
    {
      accum := {};
      StackInit();
      push := false;
      line.Clear();
      LoadSettings();
    }

    /** `stack_init`: LastX, the registers and the variables become "0", and no operator is pending. */
    method StackInit()
      requires Formed()
      modifies this, stack, vars
      ensures Formed() && State() == old(State()).(stack := Initial({}).stack, lastX := Zero, vars := Initial({}).vars, pending := NoOp)
      ensures modes == old(modes)
    {
      lastX := Zero;
      stack[0], stack[1], stack[2], stack[3] := Zero, Zero, Zero, Zero;
      var i := 0;
      while i < VarCount
        modifies vars
        invariant 0 <= i <= VarCount
        invariant forall j :: 0 <= j < i ==> vars[j] == Zero
      {
        vars[i] := Zero;
        i := i + 1;
      }
      pending := NoOp;
      assert stack[..] == Initial({}).stack;
      assert vars[..] == Initial({}).vars;
    }

    /** `load_settings`: `settings_init`, then `settings_load_into`. */
    method LoadSettings()
      requires Formed()
      modifies this, store
      ensures Formed() && State() == old(State())
      ensures store.State() == Settings.Lazy(Settings.Boot(old(store.State()))) && modes == store.loaded.data
    {
      store.Init();
      modes := store.LoadInto();
    }
  }
}
