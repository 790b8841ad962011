/**
 * The settings menu: a tree of items walked with a stack of frames, each
 * frame the menu being shown, the selected row and the first row of the
 * two-line window. Enumerated items cycle through their values, numeric
 * items stay within their bounds, submenus push a frame and the back keys
 * pop one.
 *
 * The getters and setters the items carry are modelled as one integer per
 * setting (`Knob`); the dialogs the actions open are reduced to their
 * effect on the menu, with the answer to the factory-reset question passed
 * in as `confirm`.
 */
module Menu {
  import opened Keys
  import Settings

  /** `menu_item_type_t`. */
  datatype Kind = SubmenuItem | ActionItem | EnumItem | ValueItem | ToggleItem

  /** The settings behind the enumerated items. */
  datatype Knob = AngleKnob | DisplayKnob | DigitsKnob | HyperbolicKnob | AutoOffKnob | ResumeKnob | LastKeyKnob

  /** The action functions the menu tables name. */
  datatype Action = ResetStack | ResetVars | ResetMemory | FactoryReset | AdjustContrast | About | ExitMenu

  /**
   * `menu_item_t` without its display strings: the children of a submenu,
   * the setting and value count of an enumerated item, the bounds of a
   * numeric item, the function of an action.
   */
  datatype Item = Item(title: string, kind: Kind, children: seq<Item>, knob: Option<Knob>,
                       count: int, min: int, max: int, action: Option<Action>)

  /** `menu_frame_t`. */
  datatype Frame = Frame(menu: Item, index: int, scroll: int)

  /** The frame stack has room for six levels. */
  const MaxDepth := 6

  function Choice(title: string, knob: Knob, count: int): Item {
    Item(title, EnumItem, [], Some(knob), count, 0, 0, None)
  }

  function Command(title: string, a: Action): Item {
    Item(title, ActionItem, [], None, 0, 0, 0, Some(a))
  }

  function Submenu(title: string, children: seq<Item>): Item {
    Item(title, SubmenuItem, children, None, 0, 0, 0, None)
  }

  const SettingsItems: seq<Item> := [
    Choice("Ang. Unit", AngleKnob, 3),
    Choice("Display", DisplayKnob, 3),
    Choice("Digits", DigitsKnob, 11),
    Choice("Hyp. Mode", HyperbolicKnob, 2)]

  const ResetItems: seq<Item> := [
    Command("Stack", ResetStack),
    Command("Vars", ResetVars),
    Command("Stack&Vars", ResetMemory),
    Command("FactoryReset", FactoryReset)]

  const SystemItems: seq<Item> := [
    Choice("Auto Off", AutoOffKnob, 4),
    Choice("Resume", ResumeKnob, 2),
    Choice("Last Key", LastKeyKnob, 2),
    Command("LCD Contrast", AdjustContrast),
    Submenu("Reset", ResetItems),
    Command("About", About)]

  const MainItems: seq<Item> := [
    Submenu("Settings", SettingsItems),
    Submenu("System", SystemItems),
    Command("Exit", ExitMenu)]

  const Root: Item := Submenu("Main Menu", MainItems)

  /** An item the key handler can use safely: enumerations have values, numeric bounds are ordered, and so on below. */
  predicate Formed(it: Item)
    decreases it
  {
    (it.kind == EnumItem ==> it.count > 0)
    && (it.kind == ValueItem ==> it.min <= it.max)
    && forall i :: 0 <= i < |it.children| ==> Formed(it.children[i])
  }

  lemma RootFormed()
    ensures Formed(Root)
  {
    assert forall i :: 0 <= i < |ResetItems| ==> Formed(ResetItems[i]);
    assert forall i :: 0 <= i < |SettingsItems| ==> Formed(SettingsItems[i]);
    assert forall i :: 0 <= i < |SystemItems| ==> Formed(SystemItems[i]);
    assert forall i :: 0 <= i < |MainItems| ==> Formed(MainItems[i]);
  }

  /** A frame shows a non-empty submenu, its selection is a row of it, and the window holds the selection. */
  predicate Placed(f: Frame) {
    f.menu.kind == SubmenuItem && Formed(f.menu)
    && 0 <= f.index < |f.menu.children|
    && f.scroll <= f.index <= f.scroll + 1
  }

  /** `g_menu`, with the setters' targets as a table of integers. */
  datatype MenuState = MenuState(open: bool, frames: seq<Frame>, redraw: bool, values: map<Knob, int>)

  /** The invariant the key handler keeps: open exactly when some frame is pushed, at most six frames, each placed. */
  predicate Good(m: MenuState) {
    m.open == (|m.frames| > 0)
    && |m.frames| <= MaxDepth
    && forall i :: 0 <= i < |m.frames| ==> Placed(m.frames[i])
  }

  /** The value a getter returns. */
  function Get(values: map<Knob, int>, k: Knob): int {
    if k in values then values[k] else 0
  }

  /** C's `%` for a positive divisor: the remainder takes the sign of the dividend. */
  function CRem(a: int, n: int): (r: int)
    requires n > 0
    ensures 0 <= a ==> r == a % n
    ensures -n < r < n
  {
    if a >= 0 then a % n else -((-a) % n)
  }

  /** `menu_open`. */
  function Opened(m: MenuState): (t: MenuState)
    ensures t.open && |t.frames| == 1 && t.frames[0] == Frame(Root, 0, 0) && t.redraw && t.values == m.values
  {
    m.(open := true, frames := [Frame(Root, 0, 0)], redraw := true)
  }

  /** `menu_close`. */
  function Closed(m: MenuState): (t: MenuState)
    ensures !t.open && t.frames == [] && t.redraw == m.redraw && t.values == m.values
  {
    m.(open := false, frames := [])
  }

  function Top(m: MenuState): Frame
    requires |m.frames| > 0
  {
    m.frames[|m.frames| - 1]
  }

  /** The current frame replaced, and a redraw requested. */
  function Retop(m: MenuState, f: Frame): MenuState
    requires |m.frames| > 0
  {
    m.(frames := m.frames[|m.frames| - 1 := f], redraw := true)
  }

  /** CLR, DEL, and OFF when pressed (not repeated), go back. */
  predicate IsBack(ev: Event) {
    ev.code == Clr || ev.code == Del || (ev.code == Off && ev.kind == Down)
  }

  /** The handler acts only on presses and repeats while the menu is open. */
  predicate Sees(m: MenuState, ev: Event) {
    ev.kind != NoEvent && ev.kind != Up && m.open && |m.frames| > 0
  }

  /** Going back: pop a level, or close the menu at the root. */
  function Back(m: MenuState): (t: MenuState)
    requires |m.frames| > 0
    ensures |m.frames| > 1 ==> t.open == m.open && t.frames == m.frames[..|m.frames| - 1] && t.redraw
    ensures |m.frames| == 1 ==> t == Closed(m)
  {
    if |m.frames| > 1 then m.(frames := m.frames[..|m.frames| - 1], redraw := true)
    else Closed(m)
  }

  /** ROLL: the next row, when there is one; the window follows the selection down. */
  function MoveDown(m: MenuState): (t: MenuState)
    requires |m.frames| > 0
    ensures |t.frames| == |m.frames| && t.frames[..|m.frames| - 1] == m.frames[..|m.frames| - 1]
    ensures t.open == m.open && t.values == m.values && Top(t).menu == Top(m).menu
    ensures Placed(Top(m)) ==> Placed(Top(t))
  {
    var f := Top(m);
    if f.index + 1 < |f.menu.children| then
      var i := f.index + 1;
      Retop(m, f.(index := i, scroll := if i >= f.scroll + 2 then i - 1 else f.scroll))
    else m
  }

  /** ROLLUP: the previous row, when there is one; the window follows the selection up. */
  function MoveUp(m: MenuState): (t: MenuState)
    requires |m.frames| > 0
    ensures |t.frames| == |m.frames| && t.frames[..|m.frames| - 1] == m.frames[..|m.frames| - 1]
    ensures t.open == m.open && t.values == m.values && Top(t).menu == Top(m).menu
    ensures Placed(Top(m)) ==> Placed(Top(t))
  {
    var f := Top(m);
    if f.index > 0 then
      var i := f.index - 1;
      Retop(m, f.(index := i, scroll := if i < f.scroll then i else f.scroll))
    else m
  }

  /** ADD or SUB on an item with a getter and a setter: enumerations wrap round, numbers stay within their bounds. */
  function Adjusted(it: Item, v: int, up: bool): (w: int)
    requires Formed(it) && (it.kind == EnumItem || it.kind == ValueItem)
    ensures it.kind == ValueItem ==> it.min <= w <= it.max
    ensures it.kind == EnumItem && 0 <= v < it.count ==> 0 <= w < it.count
  {
    if it.kind == EnumItem then
      if up then CRem(v + 1, it.count) else CRem(v - 1 + it.count, it.count)
    else
      var a := if up && v < it.max then v + 1 else v;
      var b := if !up && a > it.min then a - 1 else a;
      if b < it.min then it.min else if b > it.max then it.max else b
  }

  /** The setting of an item changed to `w`, and a redraw requested. */
  function SetKnob(m: MenuState, it: Item, w: int): (t: MenuState)
    requires it.knob.Some?
    ensures Get(t.values, it.knob.value) == w && t.redraw
    ensures forall k :: k != it.knob.value ==> Get(t.values, k) == Get(m.values, k)
    ensures t.open == m.open && t.frames == m.frames
  {
    m.(values := m.values[it.knob.value := w], redraw := true)
  }

  /** What an action leaves of the menu (before the handler asks for a redraw). */
  function Performed(m: MenuState, a: Action, confirm: bool): (t: MenuState)
    ensures t == m || t == Closed(m)
  {
    match a
    case ExitMenu => Closed(m)
    case ResetStack => Closed(m)
    case ResetVars => Closed(m)
    case ResetMemory => Closed(m)
    case FactoryReset => if confirm then Closed(m) else m
    case AdjustContrast => m
    case About => m
  }

  /** Whether an action releases shift: every one but About does, answered or not. */
  predicate ActionClearsShift(a: Action) {
    a != About
  }

  /** Whether an action runs `key_reset`: only a confirmed factory reset does. */
  predicate ActionResetsKeys(a: Action, confirm: bool) {
    a == FactoryReset && confirm
  }

  /** ENTER on a selected item. */
  function Entered(m: MenuState, it: Item, confirm: bool): (t: MenuState)
    requires Good(m) && m.open && Formed(it)
    ensures Good(t)
    ensures !Enterable(it) ==> t == m
    ensures |t.frames| <= |m.frames| + 1
  {
    if it.kind == SubmenuItem && |it.children| > 0 then
      if |m.frames| < MaxDepth then m.(frames := m.frames + [Frame(it, 0, 0)], redraw := true) else m
    else if it.kind == ActionItem && it.action.Some? then
      Performed(m, it.action.value, confirm).(redraw := true)
    else if it.kind == EnumItem && it.knob.Some? then
      SetKnob(m, it, CRem(Get(m.values, it.knob.value) + 1, it.count))
    else if it.kind == ValueItem && it.knob.Some? then
      var v := Get(m.values, it.knob.value);
      SetKnob(m, it, if v < it.max then v + 1 else v)
    else m
  }

  /** An item ENTER does something with. */
  predicate Enterable(it: Item) {
    (it.kind == SubmenuItem && |it.children| > 0)
    || (it.kind == ActionItem && it.action.Some?)
    || ((it.kind == EnumItem || it.kind == ValueItem) && it.knob.Some?)
  }

  /** Whether ADD or SUB changes this item. */
  predicate Adjusts(it: Item, ev: Event) {
    (it.kind == EnumItem || it.kind == ValueItem) && it.knob.Some? && (ev.code == Add || ev.code == Sub)
  }

  /** The selected item, when the selection is a row. */
  function Selected(m: MenuState): (it: Option<Item>)
    requires |m.frames| > 0
    ensures it.Some? <==> 0 <= Top(m).index < |Top(m).menu.children|
  {
    var f := Top(m);
    if 0 <= f.index < |f.menu.children| then Some(f.menu.children[f.index]) else None
  }

  /** Every other key acts on the selected item. */
  function Selecting(m: MenuState, ev: Event, confirm: bool): (t: MenuState)
    requires Good(m) && m.open
    ensures Good(t)
    ensures !SelectConsumes(m, ev) ==> t == m
  {
    match Selected(m)
    case None => m
    case Some(it) =>
      assert Placed(Top(m));
      if Adjusts(it, ev) then
        SetKnob(m, it, Adjusted(it, Get(m.values, it.knob.value), ev.code == Add))
      else if ev.code == Enter then Entered(m, it, confirm)
      else m
  }

  /** The menu after `menu_handle_key`. */
  function Next(m: MenuState, ev: Event, confirm: bool): (t: MenuState)
    requires Good(m)
    ensures !Sees(m, ev) ==> t == m
    ensures Sees(m, ev) && IsBack(ev) ==> t == Back(m)
  {
    if !Sees(m, ev) then m
    else if IsBack(ev) then Back(m)
    else if ev.code == Shift then m.(redraw := true)
    else if ev.code == Roll then MoveDown(m)
    else if ev.code == RollUp then MoveUp(m)
    else Selecting(m, ev, confirm)
  }

  /** Whether ENTER on this item runs `key_reset`. */
  predicate EnterResets(it: Item, confirm: bool) {
    it.kind == ActionItem && it.action.Some? && ActionResetsKeys(it.action.value, confirm)
  }

  /** Whether ENTER on this item releases shift: entering a submenu, and every action but About. */
  predicate EnterClears(m: MenuState, it: Item) {
    (it.kind == SubmenuItem && |it.children| > 0 && |m.frames| < MaxDepth)
    || (it.kind == ActionItem && it.action.Some? && ActionClearsShift(it.action.value))
  }

  /** Whether the selected item takes the key. */
  predicate SelectConsumes(m: MenuState, ev: Event)
    requires |m.frames| > 0
  {
    Selected(m).Some? && (Adjusts(Selected(m).value, ev) || (ev.code == Enter && Enterable(Selected(m).value)))
  }

  /** Whether the selected item's response to the key releases shift. */
  predicate SelectClears(m: MenuState, ev: Event)
    requires |m.frames| > 0
  {
    Selected(m).Some? && !Adjusts(Selected(m).value, ev) && ev.code == Enter && EnterClears(m, Selected(m).value)
  }

  /** Whether the selected item's response to the key runs `key_reset`. */
  predicate SelectResets(m: MenuState, ev: Event, confirm: bool)
    requires |m.frames| > 0
  {
    Selected(m).Some? && !Adjusts(Selected(m).value, ev) && ev.code == Enter && EnterResets(Selected(m).value, confirm)
  }

  /** The keys the handler deals with before looking at the selected item. */
  predicate Navigates(ev: Event) {
    IsBack(ev) || ev.code == Shift || ev.code == Roll || ev.code == RollUp
  }

  /** What `menu_handle_key` returns: whether the menu consumed the key. */
  predicate Consumed(m: MenuState, ev: Event) {
    Sees(m, ev) && (Navigates(ev) || SelectConsumes(m, ev))
  }

  /** Whether the key releases shift: going back, entering a submenu, and every action but About. */
  predicate ClearsShift(m: MenuState, ev: Event) {
    Sees(m, ev) && (IsBack(ev) || (!Navigates(ev) && SelectClears(m, ev)))
  }

  /** Whether the key runs `key_reset`: ENTER on the factory reset, confirmed. */
  predicate ResetsKeys(m: MenuState, ev: Event, confirm: bool) {
    Sees(m, ev) && !Navigates(ev) && SelectResets(m, ev, confirm)
  }

  /** The keyboard counters after `key_reset`: codes and debounce count zeroed, shift released, the repeat ticks kept. */
  function KeysReset(d: Debounce): (r: Debounce)
    ensures r.stable == 0 && r.last == 0 && r.count == 0 && !r.shift && r.repeat == d.repeat
  {
    d.(stable := 0, last := 0, count := 0, shift := false)
  }

  // ---------------------------------------------------------------------
  // Properties of the navigation

  /** The invariant holds from opening, and every key keeps it. */
  lemma OpenedGood(m: MenuState)
    ensures Good(Opened(m)) && Good(Closed(m))
  {
    RootFormed();
  }

  lemma NextKeepsGood(m: MenuState, ev: Event, confirm: bool)
    requires Good(m)
    ensures Good(Next(m, ev, confirm))
  {
    if Sees(m, ev) && !IsBack(ev) && ev.code != Shift && ev.code != Roll && ev.code != RollUp {
      var t := Next(m, ev, confirm);
      assert Placed(Top(m));
      match Selected(m)
      case None =>
      case Some(it) =>
        assert Formed(it);
        if !Adjusts(it, ev) && ev.code == Enter && it.kind == SubmenuItem && |it.children| > 0 && |m.frames| < MaxDepth {
          assert t.frames == m.frames + [Frame(it, 0, 0)];
          assert Placed(Frame(it, 0, 0));
        }
    }
  }

  /** ROLL and ROLLUP move one row without wrapping round: at the last row ROLL does nothing, at the first ROLLUP does nothing. */
  lemma RollsDoNotWrap(m: MenuState)
    requires Good(m) && m.open
    ensures Top(m).index + 1 == |Top(m).menu.children| ==> MoveDown(m) == m
    ensures Top(m).index + 1 < |Top(m).menu.children| ==> Top(MoveDown(m)).index == Top(m).index + 1
    ensures Top(m).index == 0 ==> MoveUp(m) == m
    ensures Top(m).index > 0 ==> Top(MoveUp(m)).index == Top(m).index - 1
    ensures |MoveDown(m).frames| == |m.frames| && |MoveUp(m).frames| == |m.frames|
  {
    assert Placed(Top(m));
  }

  /** Moving down and then up a row comes back to the same row. */
  lemma DownThenUp(m: MenuState)
    requires Good(m) && m.open && Top(m).index + 1 < |Top(m).menu.children|
    ensures Top(MoveUp(MoveDown(m))).index == Top(m).index
    ensures MoveUp(MoveDown(m)).frames[..|m.frames| - 1] == m.frames[..|m.frames| - 1]
  {
    assert Placed(Top(m));
  }

  /** Going back closes the menu exactly at the root; otherwise it returns to the parent frame as it was left. */
  lemma BackPops(m: MenuState, ev: Event, confirm: bool)
    requires Good(m) && Sees(m, ev) && IsBack(ev)
    ensures Next(m, ev, confirm).open <==> |m.frames| > 1
    ensures |m.frames| > 1 ==> Next(m, ev, confirm).frames == m.frames[..|m.frames| - 1]
    ensures Consumed(m, ev) && ClearsShift(m, ev)
  {
  }

  /** ENTER on a submenu pushes a fresh frame below six levels and does nothing at six. */
  lemma EnterPushes(m: MenuState, confirm: bool)
    requires Good(m) && m.open
    requires Selected(m).Some? && Selected(m).value.kind == SubmenuItem && |Selected(m).value.children| > 0
    ensures |m.frames| < MaxDepth ==> Next(m, Event(Down, Enter), confirm).frames == m.frames + [Frame(Selected(m).value, 0, 0)]
    ensures |m.frames| == MaxDepth ==> Next(m, Event(Down, Enter), confirm) == m
    ensures Consumed(m, Event(Down, Enter))
  {
    assert Placed(Top(m));
  }

  /** Dafny's `%` is determined by any quotient and remainder that fit. */
  lemma ModUnique(a: int, n: int, q: int, r: int)
    requires n > 0 && a == q * n + r && 0 <= r < n
    ensures a % n == r
  {
    var d := q - a / n;
    assert d * n == q * n - (a / n) * n;
    assert d * n == a % n - r;
  }

  /** Counting on by one modulo `n`: the remainder goes up by one, or wraps from `n - 1` to 0. */
  lemma ModNext(a: int, n: int)
    requires a >= 0 && n > 0
    ensures (a + 1) % n == if a % n + 1 == n then 0 else a % n + 1
  {
    var q, r := a / n, a % n;
    assert a == q * n + r;
    if r + 1 == n {
      assert a + 1 == (q + 1) * n + 0;
      ModUnique(a + 1, n, q + 1, 0);
    } else {
      ModUnique(a + 1, n, q, r + 1);
    }
  }

  /** On an enumerated item ADD moves to the next value and wraps from the last to the first; SUB moves back and wraps from the first to the last. */
  lemma EnumStep(it: Item, v: int)
    requires Formed(it) && it.kind == EnumItem && 0 <= v < it.count
    ensures Adjusted(it, v, true) == if v + 1 == it.count then 0 else v + 1
    ensures Adjusted(it, v, false) == if v == 0 then it.count - 1 else v - 1
  {
    var n := it.count;
    if v + 1 == n {
      ModUnique(v + 1, n, 1, 0);
    } else {
      ModUnique(v + 1, n, 0, v + 1);
    }
    if v == 0 {
      ModUnique(n - 1, n, 0, n - 1);
    } else {
      ModUnique(v - 1 + n, n, 1, v - 1);
    }
  }

  /** ADD then SUB (or SUB then ADD) on an enumerated item restores a value in range. */
  lemma EnumStepsUndo(it: Item, v: int)
    requires Formed(it) && it.kind == EnumItem && 0 <= v < it.count
    ensures Adjusted(it, Adjusted(it, v, true), false) == v
    ensures Adjusted(it, Adjusted(it, v, false), true) == v
  {
    EnumStep(it, v);
    EnumStep(it, Adjusted(it, v, true));
    EnumStep(it, Adjusted(it, v, false));
  }

  /** `k` presses of ADD on an enumerated item count on modulo the number of values, so `count` presses come back to the start. */
  lemma {:induction false} EnumCycles(it: Item, v: int, k: nat)
    requires Formed(it) && it.kind == EnumItem && 0 <= v < it.count
    ensures Presses(it, v, k) == (v + k) % it.count
    decreases k
  {
    var n := it.count;
    if k == 0 {
      ModUnique(v, n, 0, v);
    } else {
      EnumCycles(it, v, k - 1);
      var p := Presses(it, v, k - 1);
      assert 0 <= p < n;
      EnumStep(it, p);
      ModNext(v + k - 1, n);
    }
  }

  function Presses(it: Item, v: int, k: nat): int
    requires Formed(it) && it.kind == EnumItem
    decreases k
  {
    if k == 0 then v else Adjusted(it, Presses(it, v, k - 1), true)
  }

  /** The NONE and UP events, and every key while the menu is closed, change nothing and are not consumed. */
  lemma IgnoredKeys(m: MenuState, ev: Event, confirm: bool)
    requires Good(m) && (ev.kind == NoEvent || ev.kind == Up || !m.open)
    ensures Next(m, ev, confirm) == m && !Consumed(m, ev) && !ClearsShift(m, ev)
  {
  }

  // ---------------------------------------------------------------------
  // The Digits setting as an enumeration

  /** `get_digits_enum`: ALL (-1) is row 0, `d` digits row `d + 1`. */
  function DigitsRow(d: int): (row: int)
    ensures d < 0 <==> row == 0
  {
    if d < 0 then 0 else 1 + d
  }

  /** `set_digits_enum`: row 0 (or below) is ALL, row `k` is `k - 1` digits, narrowed to `int8_t`. */
  function RowDigits(row: int): (d: Settings.Int8)
    ensures row <= 0 ==> d == -1
    ensures 1 <= row <= 128 ==> d as int == row - 1
  {
    if row <= 0 then -1 else (((row - 1 + 128) % 256) - 128) as Settings.Int8
  }

  /** Setting a Digits row and reading it back through the settings store gives the row again, for all eleven rows. */
  lemma DigitsRowsRoundTrip(row: int)
    requires 0 <= row < 11
    ensures DigitsRow(Settings.DigitsOf(Settings.DigitsWord(RowDigits(row)))) == row
  {
    Settings.DigitsRoundTrip(RowDigits(row));
  }

  // ---------------------------------------------------------------------
  // The module state

  class MenuSystem {
    var open: bool
    /** `g_menu.stack`: frames beyond `depth` are stale. */
    const stack: array<Frame>
    var depth: int
    var redraw: bool
    var values: map<Knob, int>
    /** The keyboard whose shift state the menu releases. */
    const keys: Scanner

    predicate Sized()
      reads this
    {
      stack.Length == MaxDepth && 0 <= depth <= MaxDepth
    }

    function State(): MenuState
      requires Sized()
      reads this, stack
    {
      MenuState(open, stack[..depth], redraw, values)
    }

    ghost predicate Valid()
      reads this, stack, keys, keys.ring
    {
      Sized() && keys.Valid() && Good(State())
    }

    /** `menu_init`: everything zero. */
    constructor(keys: Scanner)
      requires keys.Valid()
      ensures Valid() && State() == MenuState(false, [], false, map[]) && this.keys == keys && fresh(stack)
    {
      open := false;
      depth := 0;
      redraw := false;
      values := map[];
      stack := new Frame[MaxDepth](_ => Frame(Root, 0, 0));
      this.keys := keys;
    }

    /** `menu_open`. */
    method Open()
      requires Valid()
      modifies this, stack, keys
      ensures Valid() && State() == Opened(old(State()))
      ensures keys.Counters() == old(keys.Counters()).(shift := false)
    {
      keys.SetShift(false);
      open := true;
      depth := 1;
      stack[0] := Frame(Root, 0, 0);
      redraw := true;
      OpenedGood(old(State()));
    }

    /** `menu_close`. */
    method Close()
      requires Valid()
      modifies this, keys
      ensures Valid() && State() == Closed(old(State()))
      ensures keys.Counters() == old(keys.Counters()).(shift := false)
    {
      open := false;
      depth := 0;
      keys.SetShift(false);
    }

    /** `menu_is_open`. */
    method IsOpen() returns (b: bool)
      requires Sized()
      ensures b == State().open
    {
      b := open;
    }

    /** `menu_needs_redraw`. */
    method NeedsRedraw() returns (b: bool)
      requires Sized()
      ensures b == State().redraw
    {
      b := redraw;
    }

    /** `menu_clear_redraw_flag`. */
    method ClearRedraw()
      requires Valid()
      modifies this
      ensures Valid() && State() == old(State()).(redraw := false)
    {
      redraw := false;
    }

    /** The back keys. */
    method GoBack()
      requires Valid() && open
      modifies this, keys
      ensures Valid() && State() == Back(old(State()))
      ensures keys.Counters() == old(keys.Counters()).(shift := false)
    {
      if depth > 1 {
        depth := depth - 1;
        keys.SetShift(false);
        redraw := true;
      } else {
        Close();
      }
    }

    /** ROLL. */
    method ScrollDown()
      requires Valid() && open
      modifies this, stack
      ensures Valid() && State() == MoveDown(old(State()))
    {
      var f := stack[depth - 1];
      assert Placed(f);
      if f.index + 1 < |f.menu.children| {
        var i := f.index + 1;
        var s := f.scroll;
        if i >= s + 2 {
          s := i - 1;
        }
        stack[depth - 1] := f.(index := i, scroll := s);
        redraw := true;
      }
    }

    /** ROLLUP. */
    method ScrollUp()
      requires Valid() && open
      modifies this, stack
      ensures Valid() && State() == MoveUp(old(State()))
    {
      var f := stack[depth - 1];
      assert Placed(f);
      if f.index > 0 {
        var i := f.index - 1;
        var s := f.scroll;
        if i < s {
          s := i;
        }
        stack[depth - 1] := f.(index := i, scroll := s);
        redraw := true;
      }
    }

    /** Runs an action; the factory-reset dialog's answer is `confirm`. */
    method Perform(a: Action, confirm: bool)
      requires Valid() && open
      modifies this, keys, keys.ring
      ensures Valid() && State() == Performed(old(State()), a, confirm).(redraw := true)
      ensures ActionResetsKeys(a, confirm) ==> keys.Counters() == KeysReset(old(keys.Counters())) && keys.ring.Contents() == []
      ensures !ActionResetsKeys(a, confirm) ==>
                keys.Counters() == (if ActionClearsShift(a) then old(keys.Counters()).(shift := false) else old(keys.Counters()))
                && keys.ring.Contents() == old(keys.ring.Contents())
    {
      match a {
        case ExitMenu => Close();
        case ResetStack => Close();
        case ResetVars => Close();
        case ResetMemory => Close();
        case FactoryReset =>
          keys.SetShift(false);
          if confirm {
            keys.Reset();
            Close();
          }
        case AdjustContrast =>
          keys.SetShift(false);
        case About =>
      }
      redraw := true;
    }

    /** ENTER on the selected item. */
    method Choose(it: Item, confirm: bool) returns (handled: bool)
      requires Valid() && open && Formed(it)
      modifies this, stack, keys, keys.ring
      ensures Valid() && State() == Entered(old(State()), it, confirm) && handled == Enterable(it)
      ensures EnterResets(it, confirm) ==> keys.Counters() == KeysReset(old(keys.Counters())) && keys.ring.Contents() == []
      ensures !EnterResets(it, confirm) ==>
                keys.Counters() == (if EnterClears(old(State()), it) then old(keys.Counters()).(shift := false) else old(keys.Counters()))
                && keys.ring.Contents() == old(keys.ring.Contents())
    {
      if it.kind == SubmenuItem && |it.children| > 0 {
        if depth < MaxDepth {
          ghost var m := State();
          stack[depth] := Frame(it, 0, 0);
          depth := depth + 1;
          assert stack[..depth] == m.frames + [Frame(it, 0, 0)];
          keys.SetShift(false);
          redraw := true;
        }
        return true;
      }
      if it.kind == ActionItem && it.action.Some? {
        Perform(it.action.value, confirm);
        return true;
      }
      if it.kind == EnumItem && it.knob.Some? {
        var v := CRem(Get(values, it.knob.value) + 1, it.count);
        values := values[it.knob.value := v];
        redraw := true;
        return true;
      }
      if it.kind == ValueItem && it.knob.Some? {
        var v := Get(values, it.knob.value);
        if v < it.max {
          v := v + 1;
        }
        values := values[it.knob.value := v];
        redraw := true;
        return true;
      }
      return false;
    }

    /** `menu_handle_key`; `confirm` answers the factory-reset dialog should the key open it. */
    method HandleKey(ev: Event, confirm: bool) returns (handled: bool)
      requires Valid()
      modifies this, stack, keys, keys.ring
      ensures Valid() && State() == Next(old(State()), ev, confirm) && handled == Consumed(old(State()), ev)
      ensures ResetsKeys(old(State()), ev, confirm) ==> keys.Counters() == KeysReset(old(keys.Counters())) && keys.ring.Contents() == []
      ensures !ResetsKeys(old(State()), ev, confirm) ==>
                keys.Counters() == (if ClearsShift(old(State()), ev) then old(keys.Counters()).(shift := false) else old(keys.Counters()))
                && keys.ring.Contents() == old(keys.ring.Contents())
    {
      if ev.kind == NoEvent || ev.kind == Up {
        return false;
      }
      if !open || depth == 0 {
        return false;
      }
      if ev.code == Clr || ev.code == Del || (ev.code == Off && ev.kind == Down) {
        GoBack();
        return true;
      }
      if ev.code == Shift {
        redraw := true;
        return true;
      }
      if ev.code == Roll {
        ScrollDown();
        return true;
      }
      if ev.code == RollUp {
        ScrollUp();
        return true;
      }
      handled := Select(ev, confirm);
    }

    /** The keys that act on the selected item: ADD and SUB adjust it, ENTER chooses it. */
    method Select(ev: Event, confirm: bool) returns (handled: bool)
      requires Valid() && open
      modifies this, stack, keys, keys.ring
      ensures Valid() && State() == Selecting(old(State()), ev, confirm) && handled == SelectConsumes(old(State()), ev)
      ensures SelectResets(old(State()), ev, confirm) ==> keys.Counters() == KeysReset(old(keys.Counters())) && keys.ring.Contents() == []
      ensures !SelectResets(old(State()), ev, confirm) ==>
                keys.Counters() == (if SelectClears(old(State()), ev) then old(keys.Counters()).(shift := false) else old(keys.Counters()))
                && keys.ring.Contents() == old(keys.ring.Contents())
    {
      var f := stack[depth - 1];
      assert Placed(f);
      handled := false;
      if f.index < |f.menu.children| {
        var it := f.menu.children[f.index];
        if (it.kind == EnumItem || it.kind == ValueItem) && it.knob.Some? && (ev.code == Add || ev.code == Sub) {
          var v := Adjusted(it, Get(values, it.knob.value), ev.code == Add);
          values := values[it.knob.value := v];
          redraw := true;
          handled := true;
        } else if ev.code == Enter {
          handled := Choose(it, confirm);
        }
      }
    }
  }
}
