/**
 * The CRC-32 that guards the settings blob and the macro blob: the
 * reflected form of the IEEE 802.3 polynomial (0xEDB88320), initial value
 * 0xFFFFFFFF, eight bit steps per byte taken least significant bit first,
 * and a final complement. Both `crc32_calc` copies in the firmware are the
 * same function.
 */
module Crc {
  /** The reflected IEEE 802.3 generator polynomial. */
  const Poly: bv32 := 0xEDB8_8320

  /**
   * One bit step as the firmware writes it: the polynomial is masked with
   * the negated low bit, so it is xored in exactly when a one is shifted out.
   */
  function MaskedStep(crc: bv32): bv32 {
    (crc >> 1) ^ (Poly & (0 - (crc & 1)))
  }

  /** The mask selects the polynomial exactly when the bit shifted out is a one. */
  lemma MaskedStepIsConditional(crc: bv32)
    ensures MaskedStep(crc) == if crc & 1 == 1 then (crc >> 1) ^ Poly else crc >> 1
  {
  }

  /** n bit steps. */
  function Steps(crc: bv32, n: nat): bv32
    decreases n
  {
    if n == 0 then crc else Steps(MaskedStep(crc), n - 1)
  }

  /** One byte: xor it into the low bits, then eight bit steps. */
  function ByteStep(crc: bv32, b: bv8): bv32 {
    Steps(crc ^ (b as bv32), 8)
  }

  /** The register after feeding `data`, starting from `crc`. */
  function Update(crc: bv32, data: seq<bv8>): bv32
    decreases |data|
  {
    if |data| == 0 then crc else Update(ByteStep(crc, data[0]), data[1..])
  }

  /** `crc32_calc(data, len)`. */
  function Crc32(data: seq<bv8>): (r: bv32)
    ensures |data| == 0 ==> r == 0
  {
    !Update(0xFFFF_FFFF, data)
  }

  /** Feeding two pieces one after the other is feeding their concatenation. */
  lemma {:induction false} UpdateAppend(crc: bv32, a: seq<bv8>, b: seq<bv8>)
    ensures Update(crc, a + b) == Update(Update(crc, a), b)
    decreases |a|
  {
    if |a| > 0 {
      assert (a + b)[1..] == a[1..] + b;
      UpdateAppend(ByteStep(crc, a[0]), a[1..], b);
    } else {
      assert a + b == b;
    }
  }

  /**
   * The firmware's loop: a byte at a time, eight masked bit steps per
   * byte, then the complement.
   */
  method Crc32Calc(data: seq<bv8>) returns (crc: bv32)
    ensures crc == Crc32(data)
  {
    crc := 0xFFFF_FFFF;
    var p := 0;
    while p < |data|
      invariant 0 <= p <= |data|
      invariant Update(crc, data[p..]) == Update(0xFFFF_FFFF, data)
    {
      assert data[p..][1..] == data[p + 1..];
      crc := FeedByte(crc, data[p]);
      p := p + 1;
    }
    assert data[p..] == [];
    crc := !crc;
  }

  /** The inner loop: eight masked bit steps after xoring the byte in. */
  method FeedByte(c: bv32, b: bv8) returns (crc: bv32)
    ensures crc == ByteStep(c, b)
  {
    crc := c ^ (b as bv32);
    ghost var c0 := crc;
    var i := 0;
    while i < 8
      invariant 0 <= i <= 8
      invariant Steps(crc, 8 - i) == Steps(c0, 8)
    {
      crc := (crc >> 1) ^ (Poly & (0 - (crc & 1)));
      i := i + 1;
    }
  }

  /** The four bytes of a 32-bit word as the little-endian RP2040 lays it out in a packed struct. */
  function Word(w: bv32): (b: seq<bv8>)
    ensures |b| == 4
  {
    [(w & 0xFF) as bv8, ((w >> 8) & 0xFF) as bv8, ((w >> 16) & 0xFF) as bv8, ((w >> 24) & 0xFF) as bv8]
  }

  /** Reading the four bytes back. */
  function WordOf(b: seq<bv8>): bv32
    requires |b| == 4
  {
    (b[0] as bv32) | ((b[1] as bv32) << 8) | ((b[2] as bv32) << 16) | ((b[3] as bv32) << 24)
  }

  /** A word survives being laid out as bytes and read back. */
  lemma WordRoundTrip(w: bv32)
    ensures WordOf(Word(w)) == w
  {
  }

  /** Distinct words have distinct layouts. */
  lemma WordInjective(v: bv32, w: bv32)
    requires Word(v) == Word(w)
    ensures v == w
  {
    WordRoundTrip(v);
    WordRoundTrip(w);
  }

  /** The standard check value of this CRC: the nine ASCII digits "123456789" give 0xCBF43926. */
  lemma CheckValue()
    ensures Crc32([0x31, 0x32, 0x33, 0x34, 0x35, 0x36, 0x37, 0x38, 0x39]) == 0xCBF4_3926
  {
    assert ByteStep(0xFFFF_FFFF, 0x31) == 0x7C23_1048;
    assert ByteStep(0x7C23_1048, 0x32) == 0xB0AC_BB32;
    assert ByteStep(0xB0AC_BB32, 0x33) == 0x77B7_9C2D;
    assert ByteStep(0x77B7_9C2D, 0x34) == 0x641C_1F5C;
    assert ByteStep(0x641C_1F5C, 0x35) == 0x340A_C5E3;
    assert ByteStep(0x340A_C5E3, 0x36) == 0xF68D_2C9E;
    assert ByteStep(0xF68D_2C9E, 0x37) == 0xAFFC_9660;
    assert ByteStep(0xAFFC_9660, 0x38) == 0x651F_2550;
    assert ByteStep(0x651F_2550, 0x39) == 0x340B_C6D9;
    UpdateCons(0xFFFF_FFFF, 0x31, [0x32, 0x33, 0x34, 0x35, 0x36, 0x37, 0x38, 0x39]);
    UpdateCons(0x7C23_1048, 0x32, [0x33, 0x34, 0x35, 0x36, 0x37, 0x38, 0x39]);
    UpdateCons(0xB0AC_BB32, 0x33, [0x34, 0x35, 0x36, 0x37, 0x38, 0x39]);
    UpdateCons(0x77B7_9C2D, 0x34, [0x35, 0x36, 0x37, 0x38, 0x39]);
    UpdateCons(0x641C_1F5C, 0x35, [0x36, 0x37, 0x38, 0x39]);
    UpdateCons(0x340A_C5E3, 0x36, [0x37, 0x38, 0x39]);
    UpdateCons(0xF68D_2C9E, 0x37, [0x38, 0x39]);
    UpdateCons(0xAFFC_9660, 0x38, [0x39]);
    UpdateCons(0x651F_2550, 0x39, []);
  }

  lemma UpdateCons(crc: bv32, b: bv8, rest: seq<bv8>)
    ensures Update(crc, [b] + rest) == Update(ByteStep(crc, b), rest)
  {
    assert ([b] + rest)[1..] == rest;
  }
}
