/**
 * The calculator engine as values: the four-register stack X, Y, Z, T with
 * LastX, the six variables A..F with their pending ST/LD/CLR operator, the
 * number being keyed in, the `push_flag` that decides whether the next
 * entry lifts the stack, and the library's exception flags. Every function
 * here is one transition of that state; the class in module `Rpn` is proved
 * to make exactly these transitions.
 */
module Engine {
  import opened Decimal
  import opened Input
  import Catalogue
  import Digits

  /** `rpn_var_op_t`. */
  datatype VarOp = NoOp | StoreOp | LoadOp | ClearOp

  /** Registers X, Y, Z, T, in this order. */
  const Depth := 4
  /** Variables A..F. */
  const VarCount := 6

  /** The angle modes as the settings store them. */
  const AngleDeg: bv32 := 0
  const AngleRad: bv32 := 1
  const AngleGrad: bv32 := 2

  /** The conversion factors the engine parses: pi/180, pi/200, 180/pi, 200/pi. */
  const DegToRad := "0.017453292519943295769236907684886127134"
  const GradToRad := "0.015707963267948966192313216916397514421"
  const RadToDeg := "57.295779513082320876798154814105170332"
  const RadToGrad := "63.661977236758134307553505349005744814"
  const PiText := "3.1415926535897932384626433832795028842"
  const EText := "2.7182818284590452353602874713526624978"

  // ---------------------------------------------------------------------
  // The register stack

  /** `stack_push`: Y, Z, T take the old X, Y, Z; X stays. */
  function Pushed(s: seq<Dec>): (r: seq<Dec>)
    requires |s| == Depth
    ensures |r| == Depth && r[0] == s[0] && r[1..] == s[..3]
  {
    [s[0], s[0], s[1], s[2]]
  }

  /** `stack_pop`: X, Y, Z take the old Y, Z, T; T stays. */
  function Popped(s: seq<Dec>): (r: seq<Dec>)
    requires |s| == Depth
    ensures |r| == Depth && r[..3] == s[1..] && r[3] == s[3]
  {
    [s[1], s[2], s[3], s[3]]
  }

  /** `stack_swap`: X and Y trade places. */
  function Swapped(s: seq<Dec>): (r: seq<Dec>)
    requires |s| == Depth
    ensures |r| == Depth && r[0] == s[1] && r[1] == s[0] && r[2..] == s[2..]
  {
    [s[1], s[0], s[2], s[3]]
  }

  /** `stack_roll_up`: every register moves up one, T wraps round into X. */
  function RolledUp(s: seq<Dec>): (r: seq<Dec>)
    requires |s| == Depth
    ensures |r| == Depth && r[0] == s[3] && r[1..] == s[..3]
  {
    [s[3], s[0], s[1], s[2]]
  }

  /** `stack_roll_down`: every register moves down one, X wraps round into T. */
  function RolledDown(s: seq<Dec>): (r: seq<Dec>)
    requires |s| == Depth
    ensures |r| == Depth && r[..3] == s[1..] && r[3] == s[0]
  {
    [s[1], s[2], s[3], s[0]]
  }

  /** The two rolls undo each other, in either order. */
  lemma RollsAreInverse(s: seq<Dec>)
    requires |s| == Depth
    ensures RolledDown(RolledUp(s)) == s && RolledUp(RolledDown(s)) == s
  {
  }

  /** Swapping twice restores the stack. */
  lemma SwapIsInvolution(s: seq<Dec>)
    requires |s| == Depth
    ensures Swapped(Swapped(s)) == s
  {
  }

  /** A pop after a push gives back X, Y and Z; only the old T is lost. */
  lemma PopUndoesPush(s: seq<Dec>)
    requires |s| == Depth
    ensures Popped(Pushed(s))[..3] == s[..3]
  {
  }

  /** Four rolls in the same direction are the identity. */
  lemma FourRolls(s: seq<Dec>)
    requires |s| == Depth
    ensures RolledUp(RolledUp(RolledUp(RolledUp(s)))) == s
    ensures RolledDown(RolledDown(RolledDown(RolledDown(s)))) == s
  {
  }

  // ---------------------------------------------------------------------
  // The engine state

  datatype EngineState = EngineState(
    stack: seq<Dec>,
    lastX: Dec,
    vars: seq<Dec>,
    pending: VarOp,
    line: Line,
    push: bool,
    /** The library's sticky status word, `_IDEC_glbflags`. */
    accum: set<Exception>,
    /** What `rpn_get_last_exceptions` reports. */
    lastExc: set<Exception>)

  predicate Shaped(e: EngineState) {
    |e.stack| == Depth && |e.vars| == VarCount
  }

  /** The state every engine operation keeps once `init_rpn` has run. */
  predicate Steady(e: EngineState) {
    Shaped(e) && Consistent(e.line)
  }

  /** After `init_rpn`: every register and variable "0", no operator pending, nothing keyed in, no flag raised. */
  function Initial(lastExc: set<Exception>): (e: EngineState)
    ensures Steady(e) && !e.push && e.line == Empty
    ensures forall i :: 0 <= i < Depth ==> e.stack[i] == Zero
    ensures forall i :: 0 <= i < VarCount ==> e.vars[i] == Zero
  {
    EngineState([Zero, Zero, Zero, Zero], Zero, [Zero, Zero, Zero, Zero, Zero, Zero], NoOp, Empty, false, {}, lastExc)
  }

  /** `rpn_var_indicator_char`. */
  function Indicator(op: VarOp): (c: char)
    ensures c == '\0' <==> op == NoOp
  {
    match op
    case StoreOp => 'S'
    case LoadOp => 'L'
    case ClearOp => 'C'
    case NoOp => '\0'
  }

  /** Distinct operators show distinct indicators. */
  lemma IndicatorInjective(a: VarOp, b: VarOp)
    requires Indicator(a) == Indicator(b)
    ensures a == b
  {
  }

  /** A zero of any sign or exponent is replaced by the literal "0". */
  function Canonical(d: Dec): (r: Dec)
    ensures r == d || (IsZero(d) && r == Zero)
    ensures IsZero(r) == IsZero(d) && IsInf(r) == IsInf(d) && IsNaN(r) == IsNaN(d)
    ensures IsZero(r) ==> r == Zero
  {
    if IsZero(d) then Zero else d
  }

  /**
   * `after_operation`: the flags the operation raised become the last
   * exceptions and the status word is cleared, a zero X becomes "0", the
   * buffer is emptied, and the next entry lifts the stack unless X is an
   * infinity or a NaN. (It also clears the shift state of the keyboard,
   * which the class states.)
   */
  function AfterOp(e: EngineState): (r: EngineState)
    requires Shaped(e)
    ensures Steady(r) && r.line == Empty
    ensures r.stack[0] == Canonical(e.stack[0]) && r.stack[1..] == e.stack[1..]
    ensures r.push <==> !IsInf(e.stack[0]) && !IsNaN(e.stack[0])
    ensures r.lastExc == e.accum && r.accum == {}
    ensures r.lastX == e.lastX && r.vars == e.vars && r.pending == e.pending
  {
    var x := Canonical(e.stack[0]);
    e.(stack := e.stack[0 := x], line := Empty, push := !(IsInf(x) || IsNaN(x)), accum := {}, lastExc := e.accum)
  }

  // ---------------------------------------------------------------------
  // Entering a number

  /** `update_x_from_input_if_valid`: X follows the buffer only when the buffer ends in a digit. */
  function Reparse(lib: Library, e: EngineState): (r: EngineState)
    requires Shaped(e)
    ensures Shaped(r) && r.line == e.line && r.push == e.push && r.stack[1..] == e.stack[1..]
    ensures EndsWithDigit(e.line.text) ==> r.stack[0] == lib.parse(e.line.text).value && r.accum == e.accum + lib.parse(e.line.text).flags
    ensures !EndsWithDigit(e.line.text) ==> r == e
  {
    if EndsWithDigit(e.line.text) then
      var o := lib.parse(e.line.text);
      e.(stack := e.stack[0 := o.value], accum := e.accum + o.flags)
    else e
  }

  /** The preamble of the digit, point and `E` keys: lift the stack and start afresh when `push_flag` is set. */
  function Begin(e: EngineState): (r: EngineState)
    requires Shaped(e)
    ensures Shaped(r) && !r.push && r.stack[0] == e.stack[0]
    ensures e.push ==> r.stack[1..] == e.stack[..3] && r.line == Empty
    ensures !e.push ==> r == e
    ensures Consistent(e.line) ==> Consistent(r.line)
  {
    if e.push then e.(stack := Pushed(e.stack), line := Empty, push := false) else e
  }

  /** `rpn_input_append_digit`. */
  function Digit(lib: Library, e: EngineState, d: char): (r: EngineState)
    requires Shaped(e)
    ensures Shaped(r) && !r.push && r.stack[1..] == Begin(e).stack[1..]
    ensures e.push && IsDigit(d) ==> r.line.text == [d] && r.stack[0] == lib.parse([d]).value
    ensures |Begin(e).line.text| < MaxText && IsDigit(d) ==> r.line.text == Begin(e).line.text + [d] && r.stack[0] == lib.parse(r.line.text).value
    ensures Consistent(e.line) && IsDigit(d) ==> Consistent(r.line)
  {
    var b := Begin(e);
    Reparse(lib, b.(line := WithDigit(b.line, d)))
  }

  /** `handle_digit`: like the digit key, but X is parsed from the buffer whatever it ends with. */
  function HandleDigit(lib: Library, e: EngineState, d: char): (r: EngineState)
    requires Shaped(e)
    ensures Shaped(r) && !r.push && r.stack[1..] == Begin(e).stack[1..]
    ensures r.line == WithDigit(Begin(e).line, d) && r.stack[0] == lib.parse(r.line.text).value
    ensures Consistent(e.line) && IsDigit(d) ==> Consistent(r.line)
  {
    var b := Begin(e);
    var l := WithDigit(b.line, d);
    var o := lib.parse(l.text);
    b.(line := l, stack := b.stack[0 := o.value], accum := b.accum + o.flags)
  }

  /** `rpn_input_dot`: X is left alone, since the buffer now ends in a point. */
  function Dot(e: EngineState): (r: EngineState)
    requires Shaped(e)
    ensures Shaped(r) && !r.push && r.stack == Begin(e).stack && r.line == WithDot(Begin(e).line)
    ensures Consistent(e.line) ==> Consistent(r.line)
  {
    var b := Begin(e);
    b.(line := WithDot(b.line))
  }

  /**
   * `rpn_input_exp`. With `push_flag` set the stack is lifted and the
   * buffer emptied first, so the `E` is then refused and the lift stays.
   */
  function Exponent(e: EngineState): (r: EngineState)
    requires Shaped(e)
    ensures Shaped(r) && !r.push && r.stack == Begin(e).stack && r.line == WithExp(Begin(e).line)
    ensures e.push ==> r.line == Empty && r.stack[1..] == e.stack[..3]
    ensures Consistent(e.line) ==> Consistent(r.line)
  {
    var b := Begin(e);
    b.(line := WithExp(b.line))
  }

  /**
   * `rpn_input_toggle_sign`: while a number is being keyed in, the text's
   * sign is edited and X re-parsed; otherwise X is negated as an operation.
   */
  function Toggle(e: EngineState): (r: EngineState)
    requires Shaped(e)
    ensures Shaped(r)
    ensures |e.line.text| > 0 ==> r == e.(line := Toggled(e.line))
    ensures |e.line.text| == 0 ==> r.lastX == e.stack[0] && r.stack[0] == Canonical(Negated(e.stack[0])) && r.line == Empty
    ensures Consistent(e.line) ==> Consistent(r.line)
  {
    if |e.line.text| > 0 then
      ToggledConsistentIf(e.line);
      e.(line := Toggled(e.line))
    else
      AfterOp(e.(lastX := e.stack[0], stack := e.stack[0 := Negated(e.stack[0])]))
  }

  lemma ToggledConsistentIf(l: Line)
    requires |l.text| > 0
    ensures Consistent(l) ==> Consistent(Toggled(l))
  {
    if Consistent(l) {
      ToggledConsistent(l);
    }
  }

  /** The whole sign key: the edit of `Toggle`, then X re-parsed when the text was edited. */
  function ToggleSign(lib: Library, e: EngineState): (r: EngineState)
    requires Shaped(e)
    ensures Shaped(r) && (Consistent(e.line) ==> Consistent(r.line))
    ensures |e.line.text| > 0 ==> r.push == e.push && r.stack[1..] == e.stack[1..] && r.lastX == e.lastX
    ensures |e.line.text| == 0 ==> r == Toggle(e)
  {
    if |e.line.text| > 0 then Reparse(lib, Toggle(e)) else Toggle(e)
  }

  /**
   * `rpn_input_backspace`: nothing happens on an empty buffer; a buffer left
   * empty, or holding a lone sign, is cleared and X becomes "0"; otherwise X
   * follows the shortened text.
   */
  function Backspace(lib: Library, e: EngineState): (r: EngineState)
    requires Shaped(e)
    ensures Shaped(r) && r.push == e.push && r.stack[1..] == e.stack[1..] && r.lastX == e.lastX
    ensures |e.line.text| == 0 ==> r == e
    ensures |e.line.text| > 0 ==> |r.line.text| < |e.line.text|
    ensures |e.line.text| > 0 && |r.line.text| == 0 ==> r.stack[0] == Zero
    ensures |e.line.text| > 0 ==> !(|r.line.text| == 1 && IsSign(r.line.text[0]))
    ensures Consistent(e.line) ==> Consistent(r.line)
  {
    if |e.line.text| == 0 then e
    else
      var l := Removed(e.line);
      if |l.text| == 1 && IsSign(l.text[0]) then e.(line := Empty, stack := e.stack[0 := Zero])
      else if |l.text| == 0 then e.(line := l, stack := e.stack[0 := Zero])
      else Reparse(lib, e.(line := l))
  }

  /** `rpn_clear_x`: X is "0", the buffer empty, and the next entry overwrites X. */
  function ClearX(e: EngineState): (r: EngineState)
    requires Shaped(e)
    ensures Steady(r) && r.stack[0] == Zero && r.stack[1..] == e.stack[1..] && !r.push && r.line == Empty
  {
    e.(line := Empty, stack := e.stack[0 := Zero], push := false)
  }

  /** `rpn_commit_input_without_push`: X takes the typed number, and neither now nor at the next entry does the stack lift. */
  function Commit(lib: Library, e: EngineState): (r: EngineState)
    requires Shaped(e)
    ensures Steady(r) && r.stack == Reparse(lib, e).stack && r.stack[1..] == e.stack[1..] && !r.push && r.line == Empty
  {
    Reparse(lib, e).(line := Empty, push := false)
  }

  /** `rpn_enter`: commit, then lift the stack once, so X is duplicated into Y. */
  function Enter(lib: Library, e: EngineState): (r: EngineState)
    requires Shaped(e)
    ensures Steady(r) && !r.push && r.line == Empty
    ensures r.stack == Pushed(Reparse(lib, e).stack) && r.stack[0] == r.stack[1] && r.stack[2..] == e.stack[1..3]
  {
    var c := Reparse(lib, e);
    c.(stack := Pushed(c.stack), line := Empty, push := false)
  }

  /** `rpn_swap`, `rpn_roll_up`, `rpn_roll_down`: the stack is rearranged and the next entry lifts it. */
  function Rearranged(e: EngineState, s: seq<Dec>): (r: EngineState)
    requires Shaped(e) && |s| == Depth
    ensures Steady(r) && r.stack == s && r.push && r.line == Empty && r.lastX == e.lastX
  {
    e.(stack := s, line := Empty, push := true)
  }

  /** `rpn_set_x`: X is replaced, the old X saved as LastX, the buffer emptied. */
  function SetX(e: EngineState, x: Dec): (r: EngineState)
    requires Shaped(e)
    ensures Steady(r) && r.lastX == e.stack[0] && r.stack == e.stack[0 := x] && r.push == e.push
  {
    e.(lastX := e.stack[0], stack := e.stack[0 := x], line := Empty)
  }

  /**
   * The recall shared by LD, the constants, pi, e and LastX: lift the stack
   * only if `push_flag` is set, write X, and set the flag so the next entry
   * lifts again.
   */
  function Recall(e: EngineState, v: Dec): (r: EngineState)
    requires Shaped(e)
    ensures Steady(r) && r.stack[0] == v && r.push && r.line == Empty
    ensures e.push ==> r.stack[1..] == e.stack[..3]
    ensures !e.push ==> r.stack[1..] == e.stack[1..]
    ensures r.lastX == e.lastX && r.vars == e.vars && r.pending == e.pending && r.accum == e.accum
  {
    var s := if e.push then Pushed(e.stack) else e.stack;
    e.(stack := s[0 := v], line := Empty, push := true)
  }

  /** `rpn_last`. */
  function Last(e: EngineState): (r: EngineState)
    requires Shaped(e)
    ensures r == Recall(e, e.lastX) && r.stack[0] == e.lastX
  {
    Recall(e, e.lastX)
  }

  /** A literal parsed into X with recall's stack movement: `rpn_input_pi`, `rpn_input_e`, `rpn_const_apply`. */
  function Literal(lib: Library, e: EngineState, text: string): (r: EngineState)
    requires Shaped(e)
    ensures r == Recall(e.(accum := e.accum + lib.parse(text).flags), lib.parse(text).value)
  {
    var o := lib.parse(text);
    Recall(e.(accum := e.accum + o.flags), o.value)
  }

  // ---------------------------------------------------------------------
  // Variables and constants

  /** `rpn_var_apply_slot` acts only on slots 0..5 with an operator pending. */
  predicate VarApplies(e: EngineState, slot: int) {
    0 <= slot < VarCount && e.pending != NoOp
  }

  /** What `rpn_var_apply_slot` does when it acts: ST stores X, LD recalls, CLR zeroes; the operator is then consumed. */
  function VarApplied(e: EngineState, slot: int): (r: EngineState)
    requires Shaped(e) && VarApplies(e, slot)
    ensures Shaped(r) && r.pending == NoOp && r.lastX == e.lastX
    ensures forall j :: 0 <= j < VarCount && j != slot ==> r.vars[j] == e.vars[j]
    ensures e.pending == StoreOp ==> r.vars[slot] == e.stack[0] && r.stack == e.stack && r.line == e.line && r.push == e.push
    ensures e.pending == LoadOp ==> r == Recall(e, e.vars[slot]).(pending := NoOp) && r.stack[0] == e.vars[slot]
    ensures e.pending == ClearOp ==> r.vars[slot] == Zero && r.stack == e.stack && r.line == e.line && r.push == e.push
    ensures Consistent(e.line) ==> Consistent(r.line)
  {
    var t := match e.pending
      case StoreOp => e.(vars := e.vars[slot := e.stack[0]])
      case LoadOp => Recall(e, e.vars[slot])
      case ClearOp => e.(vars := e.vars[slot := Zero])
      case NoOp => e;
    t.(pending := NoOp)
  }

  /** `rpn_const_apply` acts only on groups 1 and 2 and indexes 0..9. */
  predicate ConstApplies(group: int, index: int) {
    Catalogue.Lookup(group, index).Some?
  }

  /** What `rpn_const_apply` does when it acts: the constant's literal is parsed and recalled. */
  function ConstApplied(lib: Library, e: EngineState, group: int, index: int): (r: EngineState)
    requires Shaped(e) && ConstApplies(group, index)
    ensures r == Literal(lib, e, Catalogue.Lookup(group, index).value.text)
    ensures Steady(r) && r.stack[0] == lib.parse(Catalogue.Lookup(group, index).value.text).value && r.push
  {
    Literal(lib, e, Catalogue.Lookup(group, index).value.text)
  }

  // ---------------------------------------------------------------------
  // Operations

  /** One constructor per operation key of the engine. */
  datatype Op =
    | Arith(f: BinaryOp)        // rpn_add, rpn_sub, rpn_mul, rpn_div, rpn_pow: Y f X
    | NthRoot                   // X ^ (1 / Y)
    | LogXY                     // ln Y / ln X
    | Rev                       // 1 / X
    | Square                    // X * X
    | Cube                      // (X * X) * X
    | Direct(g: UnaryOp)        // rpn_sqrt, rpn_cbrt, rpn_log, rpn_ln, rpn_exp, rpn_exp10, the hyperbolic functions
    | Trig(g: UnaryOp)          // rpn_sin, rpn_cos, rpn_tan: argument converted to radians
    | InverseTrig(g: UnaryOp)   // rpn_asin, rpn_acos, rpn_atan: result converted from radians
    | Fact

  /** The operations the engine has: each constructor applied only to the library functions its key uses. */
  predicate Keyed(op: Op) {
    match op
    case Direct(g) => g in {Sqrt, Cbrt, Log10, Ln, Exp, Exp10, Sinh, Cosh, Tanh, Asinh, Acosh, Atanh}
    case Trig(g) => g in {Sin, Cos, Tan}
    case InverseTrig(g) => g in {Asin, Acos, Atan}
    case _ => true
  }

  /** The two-operand operations, which pop the stack. */
  predicate Pops(op: Op) {
    op.Arith? || op.NthRoot? || op.LogXY?
  }

  /** Two library steps, their flags combined. */
  function Then(a: Outcome, b: Outcome): (r: Outcome)
    ensures r.value == b.value && r.flags == a.flags + b.flags
  {
    Outcome(b.value, a.flags + b.flags)
  }

  /** `rpn_convert_angle_to_rad`: DEG and GRAD multiply by pi/180 and pi/200; every other mode leaves x alone. */
  function ToRadians(lib: Library, angle: bv32, x: Dec): (r: Outcome)
    ensures angle != AngleDeg && angle != AngleGrad ==> r == Outcome(x, {})
    ensures angle == AngleDeg ==> r.value == lib.binary(Mul, x, lib.parse(DegToRad).value).value
    ensures angle == AngleGrad ==> r.value == lib.binary(Mul, x, lib.parse(GradToRad).value).value
  {
    if angle == AngleDeg then
      var k := lib.parse(DegToRad);
      Then(k, lib.binary(Mul, x, k.value))
    else if angle == AngleGrad then
      var k := lib.parse(GradToRad);
      Then(k, lib.binary(Mul, x, k.value))
    else Outcome(x, {})
  }

  /** `rpn_convert_angle_from_rad`: DEG and GRAD multiply by 180/pi and 200/pi; every other mode leaves x alone. */
  function FromRadians(lib: Library, angle: bv32, x: Dec): (r: Outcome)
    ensures angle != AngleDeg && angle != AngleGrad ==> r == Outcome(x, {})
    ensures angle == AngleDeg ==> r.value == lib.binary(Mul, x, lib.parse(RadToDeg).value).value
    ensures angle == AngleGrad ==> r.value == lib.binary(Mul, x, lib.parse(RadToGrad).value).value
  {
    if angle == AngleDeg then
      var k := lib.parse(RadToDeg);
      Then(k, lib.binary(Mul, x, k.value))
    else if angle == AngleGrad then
      var k := lib.parse(RadToGrad);
      Then(k, lib.binary(Mul, x, k.value))
    else Outcome(x, {})
  }

  // The factorial loop

  /** Factorials up to 2123! fit in decimal128 and 2124! does not, so the product overflows to infinity by this step. */
  const FactorialCap := 2124

  /**
   * A counter bound past which `k <= n` is false for every n but +Inf; for
   * +Inf it is where the product has overflowed. It makes the loop's
   * termination visible to the model, whose multiplication is arbitrary.
   */
  function Bound(n: Dec): nat {
    match n
    case Finite(neg, c, e) => if neg then 0 else if e >= 0 then c * Digits.Pow10(e) else c
    case Infinity(neg) => if neg then 0 else FactorialCap
    case NaN => 0
  }

  /** Below +Inf, the bound is where the loop's own test `k <= n` fails. */
  lemma BoundStopsLoop(n: Dec, k: nat)
    requires n != Infinity(false) && k > Bound(n)
    ensures !QuietLessEqual(FromNat(k), n)
  {
    match n {
      case Finite(neg, c, e) =>
        if e >= 0 {
          assert Scaled(FromNat(k), 0) == k;
        } else {
          var p := Digits.Pow10(0 - e);
          assert Scaled(FromNat(k), e) == k * p;
          assert k * p >= k;
        }
      case Infinity(neg) =>
      case NaN =>
    }
  }

  /**
   * The `while (1)` loop of `rpn_fact` from counter k and product acc:
   * multiply while k <= n, stopping early once the product is infinite.
   * The counter is exact; the multiplications' flags accumulate.
   */
  function Product(lib: Library, n: Dec, k: nat, acc: Dec, flags: set<Exception>): (r: Outcome)
    ensures flags <= r.flags
    decreases Bound(n) + 1 - k
  {
    if k <= Bound(n) && QuietLessEqual(FromNat(k), n) then
      var m := lib.binary(Mul, acc, FromNat(k));
      if IsInf(m.value) then Outcome(m.value, flags + m.flags)
      else Product(lib, n, k + 1, m.value, flags + m.flags)
    else Outcome(acc, flags)
  }

  /** The flags of the Γ(x + 1) path. */
  function GammaPath(lib: Library, x: Dec): Outcome {
    var z := lib.binary(Add, x, One);
    Then(z, lib.unary(Gamma, z.value))
  }

  /**
   * `rpn_fact`: a value that rounds to an integer without the inexact flag
   * and is not negative gets the product 2..n (0! = 1! = 1); everything
   * else gets Γ(x + 1). The rounding's own flags are discarded.
   */
  function Factorial(lib: Library, x: Dec): (r: Outcome)
    ensures QuietLess(x, Zero) || Inexact in lib.unary(RoundIntegralExact, x).flags ==> r == GammaPath(lib, x)
    ensures var xi := lib.unary(RoundIntegralExact, x);
            Inexact !in xi.flags && !QuietLess(x, Zero) && (QuietEqual(xi.value, Zero) || QuietEqual(xi.value, One))
            ==> r == Outcome(One, {})
  {
    var xi := lib.unary(RoundIntegralExact, x);
    if Inexact !in xi.flags && !QuietLess(x, Zero) then
      if QuietEqual(xi.value, Zero) || QuietEqual(xi.value, One) then Outcome(One, {})
      else Product(lib, xi.value, 2, One, {})
    else GammaPath(lib, x)
  }

  /** n! */
  function Fac(n: nat): (r: nat)
    ensures r >= 1
  {
    if n == 0 then 1 else n * Fac(n - 1)
  }

  /** k * (k+1) * ... * n, or 1 when k > n. */
  function Rising(k: nat, n: nat): nat
    decreases n + 1 - k
  {
    if k > n then 1 else k * Rising(k + 1, n)
  }

  lemma {:induction false} RisingFac(k: nat, n: nat)
    requires 1 <= k <= n + 1
    ensures Fac(k - 1) * Rising(k, n) == Fac(n)
    decreases n + 1 - k
  {
    if k <= n {
      RisingFac(k + 1, n);
      var f, r := Fac(k - 1), Rising(k + 1, n);
      assert Fac(k) == k * f;
      assert Rising(k, n) == k * r;
      MulAssoc(f, k, r);
    }
  }

  lemma MulAssoc(a: int, b: int, c: int)
    ensures a * (b * c) == (a * b) * c
  {
  }

  /** A library whose multiplication of two naturals is exact: the reference the factorial loop is compared with. */
  ghost predicate ExactProducts(lib: Library) {
    forall a: nat, b: nat :: lib.binary(Mul, FromNat(a), FromNat(b)) == Outcome(FromNat(a * b), {})
  }

  lemma {:induction false} ProductOfNaturals(lib: Library, n: nat, k: nat, m: nat)
    requires ExactProducts(lib) && k >= 1
    ensures Product(lib, FromNat(n), k, FromNat(m), {}) == Outcome(FromNat(m * Rising(k, n)), {})
    decreases n + 1 - k
  {
    assert Bound(FromNat(n)) == n by {
      assert Digits.Pow10(0) == 1;
    }
    QuietLessEqualOfIntegers(k, n);
    if k <= n {
      var mk := m * k;
      assert lib.binary(Mul, FromNat(m), FromNat(k)) == Outcome(FromNat(mk), {});
      ProductOfNaturals(lib, n, k + 1, mk);
      var r := Rising(k + 1, n);
      assert Rising(k, n) == k * r;
      MulAssoc(m, k, r);
    }
  }

  /**
   * With a multiplication that is exact on naturals and an integral
   * rounding that leaves a natural alone, the factorial key computes n!
   * exactly and raises no flag.
   */
  lemma FactorialOfNatural(lib: Library, n: nat)
    requires ExactProducts(lib)
    requires lib.unary(RoundIntegralExact, FromNat(n)) == Outcome(FromNat(n), {})
    ensures Factorial(lib, FromNat(n)) == Outcome(FromNat(Fac(n)), {})
  {
    if n <= 1 {
      assert QuietEqual(FromNat(n), if n == 0 then Zero else One);
    } else {
      assert !QuietEqual(FromNat(n), Zero) && !QuietEqual(FromNat(n), One);
      ProductOfNaturals(lib, n, 2, 1);
      RisingFac(2, n);
    }
  }

  /**
   * A NaN passes the integer test when its integral rounding raises no
   * inexact flag (the library returns NaN then), compares neither below 0
   * nor equal to 0 or 1, and fails the loop test at once: the key shows 1.
   */
  lemma FactorialOfNaN(lib: Library)
    requires lib.unary(RoundIntegralExact, NaN) == Outcome(NaN, {})
    ensures Factorial(lib, NaN) == Outcome(One, {})
  {
  }

  /** A value below zero takes the Γ(x + 1) path even when it is an integer. */
  lemma NegativeUsesGamma(lib: Library, x: Dec)
    requires QuietLess(x, Zero)
    ensures Factorial(lib, x) == GammaPath(lib, x)
  {
  }

  /** The operation's result from X = x and Y = y, with every flag the library raised on the way. */
  function Result(lib: Library, angle: bv32, op: Op, x: Dec, y: Dec): (r: Outcome)
    ensures op == NthRoot ==> lib.binary(Div, One, y).flags <= r.flags
    ensures op == LogXY ==> lib.unary(Ln, y).flags + lib.unary(Ln, x).flags <= r.flags
    ensures op == Cube ==> lib.binary(Mul, x, x).flags <= r.flags
    ensures op.Trig? ==> ToRadians(lib, angle, x).flags <= r.flags
    ensures op.InverseTrig? ==> lib.unary(op.g, x).flags <= r.flags
  {
    match op
    case Arith(f) => lib.binary(f, y, x)
    case NthRoot =>
      var inv := lib.binary(Div, One, y);
      Then(inv, lib.binary(Pow, x, inv.value))
    case LogXY =>
      var ly := lib.unary(Ln, y);
      var lx := lib.unary(Ln, x);
      Then(ly, Then(lx, lib.binary(Div, ly.value, lx.value)))
    case Rev => lib.binary(Div, One, x)
    case Square => lib.binary(Mul, x, x)
    case Cube =>
      var t := lib.binary(Mul, x, x);
      Then(t, lib.binary(Mul, t.value, x))
    case Direct(g) => lib.unary(g, x)
    case Trig(g) =>
      var a := ToRadians(lib, angle, x);
      Then(a, lib.unary(g, a.value))
    case InverseTrig(g) =>
      var r := lib.unary(g, x);
      Then(r, FromRadians(lib, angle, r.value))
    case Fact => Factorial(lib, x)
  }

  /** The two-operand keys take Y as the left operand and X as the right one. */
  lemma OperandOrder(lib: Library, angle: bv32, f: BinaryOp, x: Dec, y: Dec)
    ensures Result(lib, angle, Arith(f), x, y) == lib.binary(f, y, x)
    ensures Result(lib, angle, NthRoot, x, y).value == lib.binary(Pow, x, lib.binary(Div, One, y).value).value
  {
  }

  /** In radian mode the trigonometric keys hand X to the library untouched, and its result back untouched. */
  lemma RadiansPassThrough(lib: Library, g: UnaryOp, x: Dec)
    ensures Result(lib, AngleRad, Trig(g), x, x) == lib.unary(g, x)
    ensures Result(lib, AngleRad, InverseTrig(g), x, x) == lib.unary(g, x)
  {
  }

  /**
   * The skeleton every operation key shares: LastX takes X, the operands
   * are consumed (two-operand keys pop the stack), X takes the result, the
   * flags collect, and `after_operation` runs.
   */
  function Applied(lib: Library, angle: bv32, e: EngineState, op: Op): (r: EngineState)
    requires Shaped(e)
    ensures Steady(r) && r.line == Empty && r.lastX == e.stack[0] && r.vars == e.vars
    ensures r.stack[0] == Canonical(Result(lib, angle, op, e.stack[0], e.stack[1]).value)
    ensures Pops(op) ==> r.stack[1] == e.stack[2] && r.stack[2] == e.stack[3] && r.stack[3] == e.stack[3]
    ensures !Pops(op) ==> r.stack[1..] == e.stack[1..]
    ensures r.push <==> !IsInf(r.stack[0]) && !IsNaN(r.stack[0])
    ensures r.lastExc == e.accum + Result(lib, angle, op, e.stack[0], e.stack[1]).flags && r.accum == {}
  {
    AfterOp(Operated(lib, angle, e, op))
  }

  /** The skeleton up to `after_operation`. */
  function Operated(lib: Library, angle: bv32, e: EngineState, op: Op): (r: EngineState)
    requires Shaped(e)
    ensures Shaped(r)
  {
    var out := Result(lib, angle, op, e.stack[0], e.stack[1]);
    var s := if Pops(op) then Popped(e.stack)[0 := out.value] else e.stack[0 := out.value];
    e.(lastX := e.stack[0], stack := s, accum := e.accum + out.flags)
  }

  /** Division by zero leaves an infinity or NaN in X, so the next digit overwrites it rather than lifting it into Y. */
  lemma SpecialResultDoesNotLift(lib: Library, angle: bv32, e: EngineState, op: Op)
    requires Shaped(e)
    requires IsInf(Result(lib, angle, op, e.stack[0], e.stack[1]).value) || IsNaN(Result(lib, angle, op, e.stack[0], e.stack[1]).value)
    ensures var r := Digit(lib, Applied(lib, angle, e, op), '1'); r.stack[1..] == Applied(lib, angle, e, op).stack[1..] && r.line.text == ['1']
  {
  }
}
