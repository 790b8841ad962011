/**
 * The scientific constants behind the C1 and C2 keys: two groups of ten,
 * each entry a display symbol, the decimal literal the library parses, and
 * a short name for the picker's lower line.
 */
module Catalogue {
  datatype Option<T> = None | Some(value: T)

  datatype Constant = Constant(symbol: string, text: string, name: string)

  /** Every group holds this many constants. */
  const GroupSize := 10

  /** The local buffer `rpn_const_apply` copies a literal into, terminator included. */
  const LiteralBuffer := 48

  /** Fundamental, thermal and convenience constants. */
  const Group1: seq<Constant> := [
    Constant("c", "2.99792458E8", "Light Speed"),
    Constant("h", "6.62607015E-34", "Planck h"),
    Constant("hbar", "1.0545718176461563912624280033022807447E-34", "Reduced h"),
    Constant("e", "1.602176634E-19", "Elem Charge"),
    Constant("me", "9.1093837139E-31", "Electron m"),
    Constant("k", "1.380649E-23", "Boltzmann"),
    Constant("NA", "6.02214076E23", "Avogadro"),
    Constant("R", "8.31446261815324", "Gas Const"),
    Constant("F", "9.64853321233100184E4", "Faraday"),
    Constant("g", "9.80665", "Std Gravity")]

  /** Electromagnetic, quantum and unit-conversion constants. */
  const Group2: seq<Constant> := [
    Constant("mu0", "1.25663706127E-6", "Vacuum mu"),
    Constant("eps0", "8.8541878188E-12", "Vacuum eps"),
    Constant("Z0", "376.730313412", "Free Space Z"),
    Constant("alpha", "7.2973525643E-3", "Fine Struct"),
    Constant("sigma", "5.6703744191844294539709967318892308758E-8", "Stefan-Boltz"),
    Constant("Rinf", "10973731.568157", "Rydberg"),
    Constant("a0", "5.29177210544E-11", "Bohr Radius"),
    Constant("u", "1.66053906892E-27", "Atomic Mass"),
    Constant("mp", "1.67262192595E-27", "Proton m"),
    Constant("eV", "1.602176634E-19", "eV->J")]

  /** `pick_group`: groups 1 and 2 exist, every other number is no group. */
  function PickGroup(group: int): (g: Option<seq<Constant>>)
    ensures g.Some? <==> group == 1 || group == 2
    ensures g.Some? ==> |g.value| == GroupSize
  {
    if group == 1 then Some(Group1)
    else if group == 2 then Some(Group2)
    else None
  }

  /** The entry at (group, index), or nothing when either is out of range. */
  function Lookup(group: int, index: int): (c: Option<Constant>)
    ensures c.Some? <==> (group == 1 || group == 2) && 0 <= index < GroupSize
    ensures c.Some? ==> c.value == PickGroup(group).value[index]
  {
    match PickGroup(group)
    case None => None
    case Some(g) => if 0 <= index < GroupSize then Some(g[index]) else None
  }

  /** `rpn_const_symbol`: the symbol, or NULL (None) out of range. */
  function Symbol(group: int, index: int): (s: Option<string>)
    ensures s.Some? <==> Lookup(group, index).Some?
    ensures s.Some? ==> s.value == Lookup(group, index).value.symbol && |s.value| > 0
  {
    match Lookup(group, index)
    case None => None
    case Some(c) => Some(c.symbol)
  }

  /** `rpn_const_name`: the name, or NULL (None) out of range. */
  function Name(group: int, index: int): (s: Option<string>)
    ensures s.Some? <==> Lookup(group, index).Some?
    ensures s.Some? ==> s.value == Lookup(group, index).value.name && |s.value| > 0
  {
    match Lookup(group, index)
    case None => None
    case Some(c) => Some(c.name)
  }

  /** `rpn_const_group_size`: ten, whatever the group. */
  function GroupSizeOf(group: int): (n: int)
    ensures n == GroupSize && (PickGroup(group).Some? ==> n == |PickGroup(group).value|)
  {
    10
  }

  /**
   * Every literal fits the 48-byte buffer with room for its terminator, so
   * the bounded copy in `rpn_const_apply` never cuts a literal short.
   */
  lemma LiteralsFit(group: int, index: int)
    requires Lookup(group, index).Some?
    ensures |Lookup(group, index).value.text| < LiteralBuffer
  {
    var c := Lookup(group, index).value;
    if group == 1 {
      assert c == Group1[index];
      assert forall i :: 0 <= i < GroupSize ==> |Group1[i].text| <= 43;
    } else {
      assert c == Group2[index];
      assert forall i :: 0 <= i < GroupSize ==> |Group2[i].text| <= 43;
    }
  }
}
