/**
 * The settings store. One blob in the last flash sector holds the
 * calculator modes (guarded by a CRC-32), the auto-off mode, the LCD
 * contrast, the fraction-digit setting, the Last-key mode and the resume
 * switch. It is validated and migrated from older layouts when loaded,
 * kept in RAM, and written back only when something changed. Every
 * accessor loads the blob first if that has not happened yet.
 *
 * The pure functions below are the store's specification; the class
 * `Store` is the firmware's module state, and each of its methods is
 * proved to make exactly the transition its function describes.
 */
module Settings {
  import opened Crc

  const Magic: bv32 := 0x5354_4631
  const CurrentVersion: bv32 := 4

  /** `auto_off_mode_t`: DISABLED, 3 min, 5 min, 10 min; COUNT is 4. */
  const AutoOffDisabled: int := 0
  const AutoOff10Min: int := 3
  const AutoOffCount: int := 4
  /** The stored word of the 10-minute mode. */
  const AutoOffDefaultWord: bv32 := 3

  const DefaultContrast: bv32 := 40
  /** The stored digits value meaning "all digits". */
  const DigitsAll: bv32 := 0xFF

  newtype Int8 = x: int | -128 <= x < 128

  datatype LastKeyMode = LastX | Undo

  /** `init_state_t` as stored: the four calculator modes, one enum word each, in field order. */
  datatype InitState = InitState(disp: bv32, angle: bv32, hyperbolic: bv32, zero: bv32)

  /** The bytes the CRC covers. */
  function DataBytes(d: InitState): (b: seq<bv8>)
    ensures |b| == 16
  {
    Word(d.disp) + Word(d.angle) + Word(d.hyperbolic) + Word(d.zero)
  }

  /** Distinct modes have distinct bytes, so comparing the bytes (`memcmp`) is comparing the modes. */
  lemma DataBytesInjective(d: InitState, e: InitState)
    ensures DataBytes(d) == DataBytes(e) <==> d == e
  {
    if DataBytes(d) == DataBytes(e) {
      Quarters(Word(d.disp), Word(d.angle), Word(d.hyperbolic), Word(d.zero));
      Quarters(Word(e.disp), Word(e.angle), Word(e.hyperbolic), Word(e.zero));
      WordInjective(d.disp, e.disp);
      WordInjective(d.angle, e.angle);
      WordInjective(d.hyperbolic, e.hyperbolic);
      WordInjective(d.zero, e.zero);
    }
  }

  /** Four four-byte pieces are recovered from their concatenation by position. */
  lemma Quarters(a: seq<bv8>, b: seq<bv8>, c: seq<bv8>, d: seq<bv8>)
    requires |a| == |b| == |c| == |d| == 4
    ensures var x := a + b + c + d;
            x[0..4] == a && x[4..8] == b && x[8..12] == c && x[12..16] == d
  {
  }

  /** `defaults()`: display NORMAL, angle DEG, hyperbolic OFF, zero mode TRIM. */
  const DefaultModes := InitState(0, 0, 0, 1)

  /** `settings_blob_t`: header, CRC over the modes, then the words added in later versions. */
  datatype Blob = Blob(magic: bv32, version: bv32, crc: bv32, data: InitState,
                       autoOff: bv32, contrast: bv32, digits: bv32, lastKey: bv32, resume: bv32)

  /** The blob used when flash holds nothing usable, and written by a reset. */
  function DefaultBlob(): (b: Blob)
    ensures Current(b) && b.data == DefaultModes
    ensures AutoOffOf(b.autoOff) == AutoOff10Min && ClampContrast(b.contrast) == 40 && DigitsOf(b.digits) == -1
    ensures LastKeyOf(b.lastKey) == LastX && b.resume == 0
  {
    Blob(Magic, CurrentVersion, Crc32(DataBytes(DefaultModes)), DefaultModes, AutoOffDefaultWord,
         DefaultContrast, DigitsAll, 0, 0)
  }

  /** The magic, one of the versions 1 to 4, and a CRC that matches the modes. */
  predicate Accepted(rom: Blob) {
    rom.magic == Magic && 1 <= rom.version <= CurrentVersion && Crc32(DataBytes(rom.data)) == rom.crc
  }

  /** A blob in the current layout, as the store keeps it in RAM. */
  predicate Current(b: Blob) {
    Accepted(b) && b.version == CurrentVersion
  }

  /**
   * What loading makes of an accepted blob: the current layout, with the
   * stored modes and the stored words each older version already had,
   * and defaults for the words it did not have yet.
   */
  function Migrate(rom: Blob): (b: Blob)
    requires Accepted(rom)
    ensures Current(b) && b.data == rom.data
    ensures rom.version == CurrentVersion ==> b == rom
    ensures b.autoOff == (if rom.version == 1 then AutoOffDefaultWord else rom.autoOff)
    ensures b.contrast == (if rom.version <= 2 then DefaultContrast else rom.contrast)
    ensures rom.version < CurrentVersion ==> b.digits == DigitsAll && b.lastKey == 0 && b.resume == 0
  {
    if rom.version == 1 then
      Blob(Magic, CurrentVersion, Crc32(DataBytes(rom.data)), rom.data, AutoOffDefaultWord, DefaultContrast,
           DigitsAll, 0, 0)
    else if rom.version == 2 then
      Blob(Magic, CurrentVersion, rom.crc, rom.data, rom.autoOff, DefaultContrast, DigitsAll, 0, 0)
    else if rom.version == 3 then
      Blob(Magic, CurrentVersion, rom.crc, rom.data, rom.autoOff, rom.contrast, DigitsAll, 0, 0)
    else
      rom
  }

  /**
   * Flash that fails validation gives, on a store that has not loaded yet,
   * display NORMAL, angle DEG, hyperbolic OFF, zero mode TRIM, auto-off
   * 10 minutes, contrast 40, all digits, Last X, and no resume.
   */
  lemma RejectedBlobGivesDefaults(s: StoreState)
    requires !Accepted(s.rom) && !s.haveLoaded
    ensures var b := Boot(s).loaded;
            b.data == InitState(0, 0, 0, 1) && AutoOffOf(b.autoOff) == AutoOff10Min
            && ClampContrast(b.contrast) == 40 && DigitsOf(b.digits) == -1
            && LastKeyOf(b.lastKey) == LastX && b.resume == 0
  {
  }

  /** A version 1 blob keeps its modes and gets auto-off 10 minutes and contrast 40. */
  lemma VersionOneMigration(rom: Blob)
    requires Accepted(rom) && rom.version == 1
    ensures var b := Migrate(rom);
            b.data == rom.data && AutoOffOf(b.autoOff) == AutoOff10Min && ClampContrast(b.contrast) == 40
            && DigitsOf(b.digits) == -1 && LastKeyOf(b.lastKey) == LastX && b.resume == 0
  {
  }

  /** Migrating twice is migrating once: a migrated blob is already current. */
  lemma MigrateIdempotent(rom: Blob)
    requires Accepted(rom)
    ensures Accepted(Migrate(rom)) && Migrate(Migrate(rom)) == Migrate(rom)
  {
  }

  // ---------------------------------------------------------------------
  // Reading the stored words

  /** An auto-off word out of range reads as 10 minutes. */
  function AutoOffOf(w: bv32): (m: int)
    ensures 0 <= m < AutoOffCount
    ensures w < 4 ==> m == w as int
    ensures w >= 4 ==> m == AutoOff10Min
  {
    if w >= 4 then AutoOff10Min else w as int
  }

  /** The word stored for an `auto_off_mode_t` argument; the unsigned cast sends negatives out of range too. */
  function AutoOffWord(mode: int): (w: bv32)
    ensures 0 <= mode < AutoOffCount ==> w as int == mode
    ensures !(0 <= mode < AutoOffCount) ==> w as int == AutoOff10Min
  {
    if mode < 0 || mode >= AutoOffCount then AutoOffDefaultWord else mode as bv32
  }

  /** Minutes of each auto-off mode. */
  function Minutes(mode: int): int
    requires 0 <= mode < AutoOffCount
  {
    [0, 3, 5, 10][mode]
  }

  /** `settings_get_auto_off_ms` after reading the mode: the firmware's table of tick counts. */
  function AutoOffMs(mode: int): (ms: int)
    ensures mode == AutoOffDisabled ==> ms == 0
  {
    if mode == 0 then 0
    else if mode == 1 then 15000
    else if mode == 2 then 25000
    else 50000
  }

  /** Every enabled mode is its minutes times 60000 / 12; disabled is no timeout at all. */
  lemma AutoOffMsIsMinutesScaled(mode: int)
    requires 0 <= mode < AutoOffCount
    ensures AutoOffMs(mode) == Minutes(mode) * 60 * 1000 / 12
  {
  }

  /** The contrast clamp of both the getter and the setter: the low six bits, then [25, 50]. */
  function ClampContrast(w: bv32): (v: bv32)
    ensures 25 <= v <= 50
    ensures 25 <= w & 0x3F <= 50 ==> v == w & 0x3F
    ensures w & 0x3F < 25 ==> v == 25
    ensures w & 0x3F > 50 ==> v == 50
  {
    var m := w & 0x3F;
    if m < 25 then 25 else if m > 50 then 50 else m
  }

  /** The digits word for an `int8_t` argument: negatives mean all digits, more than nine is nine. */
  function DigitsWord(d: Int8): (w: bv32)
    ensures d < 0 <==> w == DigitsAll
    ensures 0 <= d ==> w as int == if d > 9 then 9 else d as int
  {
    if d < 0 then DigitsAll else if d > 9 then 9 else d as int as bv32
  }

  /** `settings_get_digits` after loading: -1 for all digits, otherwise at most nine. */
  function DigitsOf(w: bv32): (d: int)
    ensures -1 <= d <= 9
    ensures d == -1 <==> w == DigitsAll
  {
    if w == DigitsAll then -1 else if w > 9 then 9 else w as int
  }

  /** Setting then getting the digits gives the argument, clamped into -1..9. */
  lemma DigitsRoundTrip(d: Int8)
    ensures DigitsOf(DigitsWord(d)) == if d < 0 then -1 else if d > 9 then 9 else d as int
  {
  }

  function LastKeyWord(m: LastKeyMode): bv32 {
    if m == Undo then 1 else 0
  }

  /** Only a stored 1 reads as UNDO; every other value reads as LAST_X. */
  function LastKeyOf(w: bv32): (m: LastKeyMode)
    ensures m == Undo <==> w == 1
  {
    if w == 1 then Undo else LastX
  }

  lemma LastKeyRoundTrip(m: LastKeyMode)
    ensures LastKeyOf(LastKeyWord(m)) == m
  {
  }

  // ---------------------------------------------------------------------
  // The store as a state machine

  /** The module state: the RAM copy, whether it was loaded, the dirty flag, and the flash sector. */
  datatype StoreState = StoreState(loaded: Blob, haveLoaded: bool, dirty: bool, rom: Blob)

  /** The store keeps a current, CRC-consistent blob once it has loaded. */
  predicate Good(s: StoreState) {
    s.haveLoaded ==> Current(s.loaded)
  }

  /**
   * `settings_init`, with the flag set on every path: an accepted blob is
   * migrated; otherwise a store that has not loaded yet falls back to the
   * defaults, and one that has keeps its RAM copy. Nothing is dirty.
   */
  function Boot(s: StoreState): (t: StoreState)
    ensures t.haveLoaded && !t.dirty && t.rom == s.rom
  {
    var b := if Accepted(s.rom) then Migrate(s.rom) else if s.haveLoaded then s.loaded else DefaultBlob();
    StoreState(b, true, false, s.rom)
  }

  /**
   * `settings_init` exactly as written: on the defaults path the loaded
   * flag stays false, so the next accessor loads again.
   */
  function BootAsWritten(s: StoreState): (t: StoreState)
    ensures t.haveLoaded == (s.haveLoaded || Accepted(s.rom)) && !t.dirty && t.rom == s.rom
  {
    var b := if Accepted(s.rom) then Migrate(s.rom) else if s.haveLoaded then s.loaded else DefaultBlob();
    StoreState(b, s.haveLoaded || Accepted(s.rom), false, s.rom)
  }

  /** The accessors' `if (!g_have_loaded) settings_init();`. */
  function Lazy(s: StoreState): (t: StoreState)
    ensures t.haveLoaded && t.rom == s.rom
    ensures s.haveLoaded ==> t == s
  {
    if s.haveLoaded then s else Boot(s)
  }

  function LazyAsWritten(s: StoreState): StoreState {
    if s.haveLoaded then s else BootAsWritten(s)
  }

  /** Loading always leaves a good store. */
  lemma InitGood(s: StoreState)
    requires Good(s)
    ensures Good(Boot(s)) && Good(Lazy(s))
  {
  }

  /** On a loaded store, write `b` as the RAM copy, marking dirty only when it differs. */
  function Put(t: StoreState, b: Blob): (u: StoreState)
    ensures u.loaded == b && u.haveLoaded == t.haveLoaded && u.rom == t.rom
    ensures u.dirty == (t.dirty || b != t.loaded)
  {
    if b != t.loaded then t.(loaded := b, dirty := true) else t
  }

  /** `settings_set_auto_off_mode`: the next read gives the mode, or 10 minutes for one out of range. */
  function WithAutoOff(s: StoreState, mode: int): (t: StoreState)
    ensures t.haveLoaded && t.rom == s.rom && t.loaded.data == Lazy(s).loaded.data
    ensures AutoOffOf(t.loaded.autoOff) == if 0 <= mode < AutoOffCount then mode else AutoOff10Min
  {
    var t := Lazy(s);
    Put(t, t.loaded.(autoOff := AutoOffWord(mode)))
  }

  /** `settings_set_lcd_contrast`: the low six bits of the value, clamped into [25, 50]. */
  function WithContrast(s: StoreState, value: bv8): (t: StoreState)
    ensures t.haveLoaded && t.rom == s.rom && t.loaded.data == Lazy(s).loaded.data
    ensures 25 <= t.loaded.contrast <= 50
    ensures 25 <= value & 0x3F <= 50 ==> t.loaded.contrast == (value & 0x3F) as bv32
  {
    var t := Lazy(s);
    Put(t, t.loaded.(contrast := ClampContrast((value & 0x3F) as bv32)))
  }

  /** `settings_set_digits`: the next read gives -1 for a negative argument, otherwise at most nine. */
  function WithDigits(s: StoreState, d: Int8): (t: StoreState)
    ensures t.haveLoaded && t.rom == s.rom && t.loaded.data == Lazy(s).loaded.data
    ensures DigitsOf(t.loaded.digits) == if d < 0 then -1 else if d > 9 then 9 else d as int
  {
    var t := Lazy(s);
    Put(t, t.loaded.(digits := DigitsWord(d)))
  }

  /** `settings_set_last_key_mode`: the next read gives the mode back. */
  function WithLastKey(s: StoreState, m: LastKeyMode): (t: StoreState)
    ensures t.haveLoaded && t.rom == s.rom && t.loaded.data == Lazy(s).loaded.data
    ensures LastKeyOf(t.loaded.lastKey) == m
  {
    var t := Lazy(s);
    Put(t, t.loaded.(lastKey := LastKeyWord(m)))
  }

  /** `settings_set_resume_enabled`: the next read gives the flag back. */
  function WithResume(s: StoreState, on: bool): (t: StoreState)
    ensures t.haveLoaded && t.rom == s.rom && t.loaded.data == Lazy(s).loaded.data
    ensures (t.loaded.resume != 0) == on
  {
    var t := Lazy(s);
    Put(t, t.loaded.(resume := if on then 1 else 0))
  }

  /**
   * `settings_on_values_changed`: new modes replace the stored ones and
   * their CRC only when they differ. It does not load first.
   */
  function ValuesChanged(s: StoreState, now: InitState): (t: StoreState)
    ensures t.loaded.data == now && t.haveLoaded == s.haveLoaded && t.rom == s.rom
    ensures Current(s.loaded) ==> Current(t.loaded)
  {
    if now != s.loaded.data then
      s.(loaded := s.loaded.(data := now, crc := Crc32(DataBytes(now))), dirty := true)
    else s
  }

  /** `settings_save_if_dirty`: the RAM copy goes to flash, and the store is clean. */
  function Flush(s: StoreState): (t: StoreState)
    ensures !t.dirty && t.loaded == s.loaded && t.haveLoaded == s.haveLoaded
    ensures t.rom == if s.dirty then s.loaded else s.rom
  {
    if s.dirty then s.(rom := s.loaded, dirty := false) else s
  }

  /** `settings_reset_to_defaults`: defaults in RAM and in flash, and the store clean. */
  function Reset(s: StoreState): (t: StoreState)
    ensures t.loaded == DefaultBlob() && t.rom == DefaultBlob() && t.haveLoaded && !t.dirty
  {
    var u := Lazy(s);
    Flush(u.(loaded := DefaultBlob(), haveLoaded := true, dirty := true))
  }

  /** Every transition keeps a good store good. */
  lemma TransitionsKeepGood(s: StoreState, mode: int, value: bv8, d: Int8, m: LastKeyMode, on: bool, now: InitState)
    requires Good(s)
    ensures Good(WithAutoOff(s, mode)) && Good(WithContrast(s, value)) && Good(WithDigits(s, d))
    ensures Good(WithLastKey(s, m)) && Good(WithResume(s, on)) && Good(ValuesChanged(s, now))
    ensures Good(Flush(s)) && Good(Reset(s))
  {
    InitGood(s);
  }

  /** A setter marks the store dirty only when the stored value actually changes. */
  lemma SettersDirtyOnlyOnChange(s: StoreState, value: bv8, d: Int8)
    ensures var t := Lazy(s);
            WithContrast(s, value).dirty == (t.dirty || t.loaded.contrast != ClampContrast((value & 0x3F) as bv32))
    ensures var t := Lazy(s);
            WithDigits(s, d).dirty == (t.dirty || t.loaded.digits != DigitsWord(d))
  {
  }

  /** New modes mark the store dirty only when they differ from the stored ones. */
  lemma ValuesChangedDirtyOnlyOnChange(s: StoreState, now: InitState)
    ensures ValuesChanged(s, now).dirty == (s.dirty || now != s.loaded.data)
  {
  }

  /** Setting a value twice is setting it once. */
  lemma SettersIdempotent(s: StoreState, mode: int, value: bv8, d: Int8, m: LastKeyMode, on: bool)
    ensures WithAutoOff(WithAutoOff(s, mode), mode) == WithAutoOff(s, mode)
    ensures WithContrast(WithContrast(s, value), value) == WithContrast(s, value)
    ensures WithDigits(WithDigits(s, d), d) == WithDigits(s, d)
    ensures WithLastKey(WithLastKey(s, m), m) == WithLastKey(s, m)
    ensures WithResume(WithResume(s, on), on) == WithResume(s, on)
  {
  }

  /** With the loaded flag kept, a set value is what the next get returns, clamped. */
  lemma SetThenGet(s: StoreState, value: bv8, d: Int8)
    ensures ClampContrast(Lazy(WithContrast(s, value)).loaded.contrast) == ClampContrast((value & 0x3F) as bv32)
    ensures DigitsOf(Lazy(WithDigits(s, d)).loaded.digits) == if d < 0 then -1 else if d > 9 then 9 else d as int
  {
  }

  /** What was saved is what the next boot loads: a current blob migrates to itself. */
  lemma SavedBlobReloads(s: StoreState)
    requires Good(s) && s.haveLoaded && s.dirty
    ensures Boot(Flush(s).(haveLoaded := false)).loaded == s.loaded
  {
  }

  /** A store whose flash is erased or corrupt: every word reads as all ones. */
  const Erased := Blob(0xFFFF_FFFF, 0xFFFF_FFFF, 0xFFFF_FFFF, InitState(0xFFFF_FFFF, 0xFFFF_FFFF, 0xFFFF_FFFF, 0xFFFF_FFFF),
                       0xFFFF_FFFF, 0xFFFF_FFFF, 0xFFFF_FFFF, 0xFFFF_FFFF, 0xFFFF_FFFF)

  /**
   * As written, on erased flash a setting is lost: setting the contrast to
   * 30 and then reading it reloads the defaults and reads 40, and the
   * change is no longer pending a save.
   */
  lemma LostSettingAsWritten(ram: Blob)
    ensures var s0 := StoreState(ram, false, false, Erased);
            var t0 := LazyAsWritten(s0);
            var s1 := Put(t0, t0.loaded.(contrast := ClampContrast(30)));
            var s2 := LazyAsWritten(s1);
            ClampContrast(s2.loaded.contrast) == 40 && !s2.dirty
  {
    assert !Accepted(Erased);
  }

  /** With the flag set on every path, the same sequence reads 30 and keeps the change pending. */
  lemma SettingKeptWhenCorrected(ram: Blob)
    ensures var s1 := WithContrast(StoreState(ram, false, false, Erased), 30);
            ClampContrast(Lazy(s1).loaded.contrast) == 30 && Lazy(s1).dirty
  {
    assert !Accepted(Erased);
  }

  // ---------------------------------------------------------------------
  // The firmware's module state

  /** The version branches of `settings_init`, filling the words an older layout lacks. */
  method MigrateBlob(rom: Blob) returns (b: Blob)
    requires Accepted(rom)
    ensures b == Migrate(rom)
  {
    if rom.version == 1 {
      var crc := Crc32Calc(DataBytes(rom.data));
      b := Blob(Magic, CurrentVersion, crc, rom.data, AutoOffDefaultWord, DefaultContrast, DigitsAll, 0, 0);
    } else if rom.version == 2 {
      b := Blob(Magic, CurrentVersion, rom.crc, rom.data, rom.autoOff, DefaultContrast, DigitsAll, 0, 0);
    } else if rom.version == 3 {
      b := Blob(Magic, CurrentVersion, rom.crc, rom.data, rom.autoOff, rom.contrast, DigitsAll, 0, 0);
    } else {
      b := rom;
    }
  }

  class Store {
    var loaded: Blob
    var haveLoaded: bool
    var dirty: bool
    /** The flash sector, as the current blob layout reads it. */
    var rom: Blob

    function State(): StoreState
      reads this
    {
      StoreState(loaded, haveLoaded, dirty, rom)
    }

    /** Power-on: nothing loaded yet, RAM zeroed, flash as found. */
    constructor(flash: Blob)
      ensures State() == StoreState(Blob(0, 0, 0, InitState(0, 0, 0, 0), 0, 0, 0, 0, 0), false, false, flash)
    {
      loaded := Blob(0, 0, 0, InitState(0, 0, 0, 0), 0, 0, 0, 0, 0);
      haveLoaded := false;
      dirty := false;
      rom := flash;
    }

    /** `settings_init`. */
    method Init()
      modifies this
      ensures State() == Boot(old(State()))
    {
      var valid := false;
      if rom.magic == Magic && 1 <= rom.version <= CurrentVersion {
        var crc := Crc32Calc(DataBytes(rom.data));
        valid := crc == rom.crc;
      }
      assert valid == Accepted(rom);
      if valid {
        loaded := MigrateBlob(rom);
        haveLoaded := true;
      }
      if !haveLoaded {
        var crc := Crc32Calc(DataBytes(DefaultModes));
        loaded := Blob(Magic, CurrentVersion, crc, DefaultModes, AutoOffDefaultWord, DefaultContrast, DigitsAll, 0, 0);
        assert loaded == DefaultBlob();
        haveLoaded := true;
      }
      dirty := false;
    }

    method EnsureLoaded()
      modifies this
      ensures State() == Lazy(old(State()))
    {
      if !haveLoaded {
        Init();
      }
    }

    /** `settings_load_into`: the stored modes. */
    method LoadInto() returns (modes: InitState)
      modifies this
      ensures State() == Lazy(old(State())) && modes == loaded.data
    {
      EnsureLoaded();
      modes := loaded.data;
    }

    /** `settings_on_values_changed`. */
    method OnValuesChanged(now: InitState)
      modifies this
      ensures State() == ValuesChanged(old(State()), now)
    {
      if now != loaded.data {
        var crc := Crc32Calc(DataBytes(now));
        loaded := loaded.(data := now, crc := crc);
        dirty := true;
      }
    }

    /** `settings_save_if_dirty`; the sector erase and program are the assignment to `rom`. */
    method SaveIfDirty()
      modifies this
      ensures State() == Flush(old(State()))
    {
      if !dirty {
        return;
      }
      rom := loaded;
      dirty := false;
    }

    /** `settings_reset_to_defaults`. */
    method ResetToDefaults()
      modifies this
      ensures State() == Reset(old(State()))
    {
      EnsureLoaded();
      var crc := Crc32Calc(DataBytes(DefaultModes));
      loaded := Blob(Magic, CurrentVersion, crc, DefaultModes, AutoOffDefaultWord, DefaultContrast, DigitsAll, 0, 0);
      haveLoaded := true;
      dirty := true;
      SaveIfDirty();
    }

    method GetAutoOffMode() returns (mode: int)
      modifies this
      ensures State() == Lazy(old(State())) && mode == AutoOffOf(loaded.autoOff)
    {
      EnsureLoaded();
      var m := loaded.autoOff;
      if m >= 4 {
        mode := AutoOff10Min;
      } else {
        mode := m as int;
      }
    }

    method SetAutoOffMode(mode: int)
      modifies this
      ensures State() == WithAutoOff(old(State()), mode)
    {
      EnsureLoaded();
      var nm: bv32;
      if mode < 0 || mode >= AutoOffCount {
        nm := AutoOffDefaultWord;
      } else {
        nm := mode as bv32;
      }
      if loaded.autoOff != nm {
        loaded := loaded.(autoOff := nm);
        dirty := true;
      }
    }

    /** `settings_get_auto_off_ms`: the timeout of the stored mode, in the firmware's tick units. */
    method GetAutoOffMs() returns (ms: int)
      modifies this
      ensures State() == Lazy(old(State())) && ms == AutoOffMs(AutoOffOf(loaded.autoOff))
    {
      var mode := GetAutoOffMode();
      if mode == 0 {
        ms := 0;
      } else if mode == 1 {
        ms := 3 * 60 * 1000 / 12;
      } else if mode == 2 {
        ms := 5 * 60 * 1000 / 12;
      } else {
        ms := 10 * 60 * 1000 / 12;
      }
    }

    method GetLcdContrast() returns (v: bv8)
      modifies this
      ensures State() == Lazy(old(State())) && v as bv32 == ClampContrast(loaded.contrast)
    {
      EnsureLoaded();
      var w := loaded.contrast & 0x3F;
      if w < 25 {
        w := 25;
      }
      if w > 50 {
        w := 50;
      }
      v := w as bv8;
    }

    method SetLcdContrast(value: bv8)
      modifies this
      ensures State() == WithContrast(old(State()), value)
    {
      EnsureLoaded();
      var w := (value & 0x3F) as bv32;
      if w < 25 {
        w := 25;
      }
      if w > 50 {
        w := 50;
      }
      if loaded.contrast != w {
        loaded := loaded.(contrast := w);
        dirty := true;
      }
    }

    method GetDigits() returns (d: int)
      modifies this
      ensures State() == Lazy(old(State())) && d == DigitsOf(loaded.digits)
    {
      EnsureLoaded();
      var w := loaded.digits;
      if w == DigitsAll {
        return -1;
      }
      if w > 9 {
        w := 9;
      }
      d := w as int;
    }

    method SetDigits(digits: Int8)
      modifies this
      ensures State() == WithDigits(old(State()), digits)
    {
      EnsureLoaded();
      var d := digits as int;
      var w: bv32;
      if d < 0 {
        w := DigitsAll;
      } else if d > 9 {
        w := 9;
      } else {
        w := d as bv32;
      }
      if loaded.digits != w {
        loaded := loaded.(digits := w);
        dirty := true;
      }
    }

    method GetLastKeyMode() returns (m: LastKeyMode)
      modifies this
      ensures State() == Lazy(old(State())) && m == LastKeyOf(loaded.lastKey)
    {
      EnsureLoaded();
      m := if loaded.lastKey == 1 then Undo else LastX;
    }

    method SetLastKeyMode(m: LastKeyMode)
      modifies this
      ensures State() == WithLastKey(old(State()), m)
    {
      EnsureLoaded();
      var w: bv32 := if m == Undo then 1 else 0;
      if loaded.lastKey != w {
        loaded := loaded.(lastKey := w);
        dirty := true;
      }
    }

    method GetResumeEnabled() returns (on: bool)
      modifies this
      ensures State() == Lazy(old(State())) && on == (loaded.resume != 0)
    {
      EnsureLoaded();
      on := loaded.resume != 0;
    }

    method SetResumeEnabled(on: bool)
      modifies this
      ensures State() == WithResume(old(State()), on)
    {
      EnsureLoaded();
      var w: bv32 := if on then 1 else 0;
      if loaded.resume != w {
        loaded := loaded.(resume := w);
        dirty := true;
      }
    }
  }
}
