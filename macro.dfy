/**
 * Keystroke macros: three slots of up to 1024 key codes, a record/play
 * state machine fed by the key events, and a CRC-guarded copy of the slots
 * in a flash sector of its own.
 */
module Macro {
  import opened Keys
  import opened Crc

  const SlotCount := 3
  const MaxLen := 1024

  const Magic: bv32 := 0x4D41_4331
  const Version: bv32 := 1

  // ---------------------------------------------------------------------
  // The flash blob

  /** A `uint8_t` and a `uint32_t` of the packed blob. */
  newtype Byte = b: int | 0 <= b < 0x100
  newtype U32 = w: int | 0 <= w < 0x1_0000_0000

  /** One stored slot: a 32-bit length and 1024 code bytes. */
  datatype StoredSlot = StoredSlot(len: U32, codes: seq<Byte>)

  datatype MacroBlob = MacroBlob(magic: bv32, version: bv32, crc: bv32, slots: seq<StoredSlot>)

  /** The fixed layout of the sector: three slots of 1024 bytes each. */
  predicate Shaped(b: MacroBlob) {
    |b.slots| == SlotCount && forall i :: 0 <= i < |b.slots| ==> |b.slots[i].codes| == MaxLen
  }

  /** Bytes as the CRC reads them. */
  function Octets(codes: seq<Byte>): (o: seq<bv8>)
    ensures |o| == |codes|
  {
    seq(|codes|, j requires 0 <= j < |codes| => codes[j] as bv8)
  }

  /** The packed bytes of the slots, the range the CRC covers: each length little-endian, then its codes. */
  function SlotBytes(slots: seq<StoredSlot>): seq<bv8>
    decreases |slots|
  {
    if |slots| == 0 then [] else Word(slots[0].len as bv32) + Octets(slots[0].codes) + SlotBytes(slots[1..])
  }

  /** Magic, version and CRC all match. */
  predicate Accepted(b: MacroBlob) {
    b.magic == Magic && b.version == Version && Crc32(SlotBytes(b.slots)) == b.crc
  }

  /** The RP2040's `(int)` of a 32-bit unsigned length: two's complement. */
  function Signed(w: U32): (n: int)
    ensures -0x8000_0000 <= n < 0x8000_0000
    ensures n >= 0 ==> n == w as int
  {
    if w < 0x8000_0000 then w as int else w as int - 0x1_0000_0000
  }

  /** The length clamp that both load and save apply. */
  function Clamp(n: int): (m: int)
    ensures 0 <= m <= MaxLen
    ensures 0 <= n <= MaxLen ==> m == n
  {
    if n < 0 then 0 else if n > MaxLen then MaxLen else n
  }

  /** A stored slot as the load copies it into RAM. */
  function Decode(s: StoredSlot): (r: seq<KeyCode>)
    requires |s.codes| == MaxLen
    ensures |r| == Clamp(Signed(s.len))
    ensures forall j :: 0 <= j < |r| ==> r[j] as int == s.codes[j] as int
  {
    var n := Clamp(Signed(s.len));
    seq(n, j requires 0 <= j < n => s.codes[j] as int as KeyCode)
  }

  /** A RAM slot as the save lays it out: clamped length, codes, then zero bytes. */
  function Encode(codes: seq<KeyCode>): (s: StoredSlot)
    ensures |s.codes| == MaxLen && Signed(s.len) == Clamp(|codes|)
    ensures forall j :: Clamp(|codes|) <= j < MaxLen ==> s.codes[j] == 0
  {
    var n := Clamp(|codes|);
    StoredSlot(n as U32, seq(MaxLen, j requires 0 <= j < MaxLen => if j < n then codes[j] as int as Byte else 0))
  }

  /** The RAM slots after `macro_load_from_flash`: the stored slots when the blob is accepted, else all empty. */
  function Loaded(rom: MacroBlob): (slots: seq<seq<KeyCode>>)
    requires Shaped(rom)
    ensures |slots| == SlotCount && forall i :: 0 <= i < SlotCount ==> |slots[i]| <= MaxLen
    ensures !Accepted(rom) ==> forall i :: 0 <= i < SlotCount ==> slots[i] == []
  {
    if Accepted(rom) then [Decode(rom.slots[0]), Decode(rom.slots[1]), Decode(rom.slots[2])]
    else [[], [], []]
  }

  /** The blob `macro_save_to_flash` writes. */
  function Saved(slots: seq<seq<KeyCode>>): (b: MacroBlob)
    requires |slots| == SlotCount
    ensures Shaped(b) && Accepted(b)
  {
    var stored := [Encode(slots[0]), Encode(slots[1]), Encode(slots[2])];
    MacroBlob(Magic, Version, Crc32(SlotBytes(stored)), stored)
  }

  /** A slot of at most 1024 codes survives being encoded and decoded. */
  lemma EncodeDecode(codes: seq<KeyCode>)
    requires |codes| <= MaxLen
    ensures Decode(Encode(codes)) == codes
  {
    var r := Decode(Encode(codes));
    assert |r| == |codes|;
    forall j | 0 <= j < |codes|
      ensures r[j] == codes[j]
    {
      assert r[j] as int == codes[j] as int;
    }
  }

  /** Saving and then loading gives back the slots. */
  lemma SaveLoadRoundTrip(slots: seq<seq<KeyCode>>)
    requires |slots| == SlotCount && forall i :: 0 <= i < SlotCount ==> |slots[i]| <= MaxLen
    ensures Loaded(Saved(slots)) == slots
  {
    EncodeDecode(slots[0]);
    EncodeDecode(slots[1]);
    EncodeDecode(slots[2]);
  }

  /** Lengths above 1024 load as 1024, and lengths with the top bit set, negative as `int`, as 0. */
  lemma LoadClamps(s: StoredSlot)
    requires |s.codes| == MaxLen
    ensures s.len >= 0x8000_0000 ==> Decode(s) == []
    ensures 1024 < s.len < 0x8000_0000 ==> |Decode(s)| == MaxLen
    ensures s.len <= 1024 ==> |Decode(s)| == s.len as int
  {
  }

  // ---------------------------------------------------------------------
  // The record/play state machine

  /** The module state: the RAM slots (their live prefixes), the record and play registers, the dirty flag and the flash sector. */
  datatype MacroState = MacroState(slots: seq<seq<KeyCode>>, recording: bool, recSlot: int,
                                   playing: bool, playSlot: int, playIndex: int, dirty: bool, rom: MacroBlob)

  /**
   * What every operation keeps: three slots of at most 1024 codes; a
   * recording session owns a valid slot that still has room; recording and
   * playing exclude each other; playback owns a valid slot and its index
   * stays within the recording; idle registers hold -1 and 0.
   */
  predicate Good(s: MacroState) {
    && |s.slots| == SlotCount
    && (forall i :: 0 <= i < SlotCount ==> |s.slots[i]| <= MaxLen)
    && (if s.recording then 0 <= s.recSlot < SlotCount && |s.slots[s.recSlot]| < MaxLen else s.recSlot == -1)
    && !(s.recording && s.playing)
    && (if s.playing then 0 <= s.playSlot < SlotCount && 0 <= s.playIndex <= |s.slots[s.playSlot]|
        else s.playSlot == -1 && s.playIndex == 0)
    && Shaped(s.rom)
  }

  /** Keys that never go into a recording: the macro keys themselves, MODE and OFF. */
  predicate Excluded(k: KeyCode) {
    k == PR || k == P1 || k == P2 || k == P3 || k == Mode || k == Off
  }

  /** `macro_init`: the slots as loaded, nothing recording or playing, not dirty. */
  function AfterInit(s: MacroState): (t: MacroState)
    requires Shaped(s.rom)
    ensures Good(t) && t.slots == Loaded(s.rom) && t.rom == s.rom && !t.dirty
  {
    MacroState(Loaded(s.rom), false, -1, false, -1, 0, false, s.rom)
  }

  /** `macro_start_record`. */
  function AfterStartRecord(s: MacroState, slot: int): (t: MacroState)
    requires |s.slots| == SlotCount
    ensures Good(s) ==> Good(t)
    ensures !(0 <= slot < SlotCount) ==> t == s
    ensures 0 <= slot < SlotCount ==>
      && t.slots == s.slots[slot := []] && t.recording && t.recSlot == slot
      && !t.playing && t.playSlot == -1 && t.playIndex == 0
      && t.dirty == s.dirty && t.rom == s.rom
  {
    if slot < 0 || slot >= SlotCount then s
    else s.(slots := s.slots[slot := []], recording := true, recSlot := slot,
            playing := false, playSlot := -1, playIndex := 0)
  }

  /** `macro_stop_record`: the session's result, an erased slot included, is to be saved. */
  function AfterStopRecord(s: MacroState): (t: MacroState)
    ensures Good(s) ==> Good(t)
    ensures !t.recording && t.recSlot == -1 && t.dirty
    ensures t.slots == s.slots && t.playing == s.playing && t.playSlot == s.playSlot && t.playIndex == s.playIndex
    ensures t.rom == s.rom
  {
    s.(recording := false, recSlot := -1, dirty := true)
  }

  /** `macro_has`. */
  function HasCodes(s: MacroState, slot: int): (r: bool)
    requires |s.slots| == SlotCount
    ensures r <==> 0 <= slot < SlotCount && s.slots[slot] != []
  {
    0 <= slot < SlotCount && |s.slots[slot]| > 0
  }

  /** Whether `macro_play` accepts the slot. */
  function CanPlay(s: MacroState, slot: int): (r: bool)
    requires |s.slots| == SlotCount
    ensures r == HasCodes(s, slot)
  {
    if slot < 0 || slot >= SlotCount then false else |s.slots[slot]| > 0
  }

  /** `macro_play`'s new state. */
  function AfterPlay(s: MacroState, slot: int): (t: MacroState)
    requires |s.slots| == SlotCount
    ensures Good(s) ==> Good(t)
    ensures !CanPlay(s, slot) ==> t == s
    ensures CanPlay(s, slot) ==>
      && !t.recording && t.recSlot == -1 && t.playing && t.playSlot == slot && t.playIndex == 0
      && t.slots == s.slots && t.dirty == s.dirty && t.rom == s.rom
  {
    if !CanPlay(s, slot) then s
    else s.(recording := false, recSlot := -1, playing := true, playSlot := slot, playIndex := 0)
  }

  /** `macro_cancel_play`. */
  function AfterCancelPlay(s: MacroState): (t: MacroState)
    ensures Good(s) ==> Good(t)
    ensures !t.playing && t.playSlot == -1 && t.playIndex == 0
    ensures t.slots == s.slots && t.recording == s.recording && t.recSlot == s.recSlot
    ensures t.dirty == s.dirty && t.rom == s.rom
  {
    s.(playing := false, playSlot := -1, playIndex := 0)
  }

  /** Whether `macro_capture_event` records the event at all. */
  predicate Recordable(ev: Event) {
    ev.kind == Down && !Excluded(ev.code)
  }

  /** `macro_capture_event`. */
  function AfterCapture(s: MacroState, ev: Event): (t: MacroState)
    requires |s.slots| == SlotCount
    ensures Good(s) ==> Good(t)
    ensures |t.slots| == SlotCount && t.rom == s.rom
    ensures t.playing == s.playing && t.playSlot == s.playSlot && t.playIndex == s.playIndex
    ensures !s.recording || !Recordable(ev) ==> t == s
    ensures s.recording && Recordable(ev) && 0 <= s.recSlot < SlotCount && |s.slots[s.recSlot]| < MaxLen ==>
      && t.slots == s.slots[s.recSlot := s.slots[s.recSlot] + [ev.code]] && t.dirty
      && (t.recording <==> |s.slots[s.recSlot]| + 1 < MaxLen)
      && (t.recording ==> t.recSlot == s.recSlot)
  {
    if !s.recording || ev.kind != Down || Excluded(ev.code) || s.recSlot < 0 || s.recSlot >= SlotCount then s
    else if |s.slots[s.recSlot]| >= MaxLen then AfterStopRecord(s)
    else
      var t := s.(slots := s.slots[s.recSlot := s.slots[s.recSlot] + [ev.code]], dirty := true);
      if |t.slots[s.recSlot]| >= MaxLen then AfterStopRecord(t) else t
  }

  /** The next event `macro_inject_next` hands out, if any. */
  function Injected(s: MacroState): (e: Option<Event>)
    requires Good(s)
    ensures e.Some? <==> s.playing && s.playIndex < |s.slots[s.playSlot]|
    ensures e.Some? ==> e.value == Event(Down, s.slots[s.playSlot][s.playIndex])
  {
    if !s.playing || s.playSlot < 0 then None
    else if s.playIndex >= |s.slots[s.playSlot]| then None
    else Some(Event(Down, s.slots[s.playSlot][s.playIndex]))
  }

  /** `macro_inject_next`'s new state: the index advances, or playback ends once the slot is exhausted. */
  function AfterInject(s: MacroState): (t: MacroState)
    requires Good(s)
    ensures Good(t)
    ensures t.slots == s.slots && t.recording == s.recording && t.recSlot == s.recSlot
    ensures t.dirty == s.dirty && t.rom == s.rom
    ensures Injected(s).None? ==> !t.playing
    ensures Injected(s).Some? ==> t == s.(playIndex := s.playIndex + 1)
  {
    if !s.playing || s.playSlot < 0 then s
    else if s.playIndex >= |s.slots[s.playSlot]| then s.(playing := false, playSlot := -1, playIndex := 0)
    else s.(playIndex := s.playIndex + 1)
  }

  /** `macro_save_if_dirty`: write the sector only when dirty, then clear the flag. */
  function AfterSaveIfDirty(s: MacroState): (t: MacroState)
    requires |s.slots| == SlotCount
    ensures Good(s) ==> Good(t)
    ensures !s.dirty ==> t == s
    ensures s.dirty ==> t == s.(rom := Saved(s.slots), dirty := false)
  {
    if !s.dirty then s else s.(rom := Saved(s.slots), dirty := false)
  }

  /** Three empty slots. */
  const Empty: seq<seq<KeyCode>> := [[], [], []]

  /** `macro_reset_all`: every slot empty, nothing recording or playing, the empty slots saved at once. */
  function AfterResetAll(s: MacroState): (t: MacroState)
    ensures Good(t) && !t.dirty && t.slots == Empty && t.rom == Saved(Empty)
  {
    MacroState(Empty, false, -1, false, -1, 0, false, Saved(Empty))
  }

  /** After a reset the sector holds the empty slots too. */
  lemma ResetAllPersists(s: MacroState)
    ensures Loaded(AfterResetAll(s).rom) == Empty
  {
    SaveLoadRoundTrip(Empty);
  }

  // ---------------------------------------------------------------------
  // Sessions

  /** The codes a recording session keeps from a stream of events, in order. */
  function Recorded(evs: seq<Event>): (r: seq<KeyCode>)
    ensures |r| <= |evs|
    decreases |evs|
  {
    if |evs| == 0 then [] else (if Recordable(evs[0]) then [evs[0].code] else []) + Recorded(evs[1..])
  }

  /** A session keeps no excluded key. */
  lemma {:induction false} RecordedNotExcluded(evs: seq<Event>)
    ensures forall k :: 0 <= k < |Recorded(evs)| ==> !Excluded(Recorded(evs)[k])
    decreases |evs|
  {
    if |evs| > 0 {
      RecordedNotExcluded(evs[1..]);
    }
  }

  /** DOWN events of keys that are not excluded are recorded as exactly those keys. */
  lemma {:induction false} DownsRecorded(codes: seq<KeyCode>)
    requires forall k :: 0 <= k < |codes| ==> !Excluded(codes[k])
    ensures Recorded(Downs(codes)) == codes
    decreases |codes|
  {
    if |codes| > 0 {
      DownsRecorded(codes[1..]);
      assert Downs(codes)[1..] == Downs(codes[1..]);
    }
  }

  /** Recording the playback of a recording gives the same recording: every kept key is recordable again. */
  lemma RecordedReplaysAsItself(evs: seq<Event>)
    ensures Recorded(Downs(Recorded(evs))) == Recorded(evs)
  {
    RecordedNotExcluded(evs);
    DownsRecorded(Recorded(evs));
  }

  /** Feeding events to `macro_capture_event` one by one. */
  function CaptureAll(s: MacroState, evs: seq<Event>): (t: MacroState)
    requires |s.slots| == SlotCount
    ensures |t.slots| == SlotCount
    decreases |evs|
  {
    if |evs| == 0 then s else CaptureAll(AfterCapture(s, evs[0]), evs[1..])
  }

  /** Outside a recording session no event changes anything. */
  lemma {:induction false} CaptureIdle(s: MacroState, evs: seq<Event>)
    requires |s.slots| == SlotCount && !s.recording
    ensures CaptureAll(s, evs) == s
    decreases |evs|
  {
    if |evs| > 0 {
      CaptureIdle(AfterCapture(s, evs[0]), evs[1..]);
    }
  }

  /**
   * A session appends the recordable codes in order and nothing else, and
   * stops by itself exactly when the slot reaches 1024 codes, dropping
   * whatever follows.
   */
  lemma {:induction false} CaptureAllAppends(s: MacroState, evs: seq<Event>)
    requires Good(s) && s.recording
    ensures var r := s.recSlot; var t := CaptureAll(s, evs); var w := s.slots[r] + Recorded(evs);
      && (|w| < MaxLen ==> t.slots == s.slots[r := w] && t.recording && t.recSlot == r)
      && (|w| >= MaxLen ==> t.slots == s.slots[r := w[..MaxLen]] && !t.recording)
    decreases |evs|
  {
    var r := s.recSlot;
    if |evs| == 0 {
      assert s.slots[r] + Recorded(evs) == s.slots[r];
    } else {
      var e := evs[0];
      var s1 := AfterCapture(s, e);
      if !Recordable(e) {
        assert Recorded(evs) == Recorded(evs[1..]);
        CaptureAllAppends(s, evs[1..]);
      } else {
        var v := s.slots[r] + [e.code];
        assert Recorded(evs) == [e.code] + Recorded(evs[1..]);
        assert s.slots[r] + Recorded(evs) == v + Recorded(evs[1..]);
        if |v| >= MaxLen {
          CaptureIdle(s1, evs[1..]);
          assert (v + Recorded(evs[1..]))[..MaxLen] == v;
        } else {
          CaptureAllAppends(s1, evs[1..]);
          assert s1.slots[r] == v;
        }
      }
    }
  }

  /** `macro_start_record` followed by a stream of events: the slot holds exactly the recordable codes, at most 1024 of them. */
  lemma RecordSession(s: MacroState, slot: int, evs: seq<Event>)
    requires Good(s) && 0 <= slot < SlotCount
    ensures var t := CaptureAll(AfterStartRecord(s, slot), evs); var w := Recorded(evs);
      && (forall i :: 0 <= i < SlotCount && i != slot ==> t.slots[i] == s.slots[i])
      && (|w| < MaxLen ==> t.slots[slot] == w && t.recording)
      && (|w| >= MaxLen ==> t.slots[slot] == w[..MaxLen] && !t.recording)
  {
    var s0 := AfterStartRecord(s, slot);
    CaptureAllAppends(s0, evs);
    assert s0.slots[slot] + Recorded(evs) == Recorded(evs);
  }

  /** Down events for a run of codes. */
  function Downs(codes: seq<KeyCode>): (evs: seq<Event>)
    ensures |evs| == |codes| && forall k :: 0 <= k < |codes| ==> evs[k] == Event(Down, codes[k])
  {
    seq(|codes|, k requires 0 <= k < |codes| => Event(Down, codes[k]))
  }

  /** The events of `n` calls to `macro_inject_next`. */
  function InjectedEvents(s: MacroState, n: nat): seq<Event>
    requires Good(s)
    decreases n
  {
    if n == 0 then [] else Emitted(Injected(s)) + InjectedEvents(AfterInject(s), n - 1)
  }

  /** The state after `n` calls to `macro_inject_next`. */
  function AfterInjecting(s: MacroState, n: nat): (t: MacroState)
    requires Good(s)
    ensures Good(t)
    decreases n
  {
    if n == 0 then s else AfterInjecting(AfterInject(s), n - 1)
  }

  /** While codes remain, each injection hands out the next one as a DOWN event. */
  lemma {:induction false} InjectInOrder(s: MacroState, n: nat)
    requires Good(s) && s.playing && s.playIndex + n <= |s.slots[s.playSlot]|
    ensures InjectedEvents(s, n) == Downs(s.slots[s.playSlot][s.playIndex..s.playIndex + n])
    decreases n
  {
    var codes := s.slots[s.playSlot];
    var i := s.playIndex;
    if n == 0 {
      assert codes[i..i] == [];
    } else {
      var s1 := AfterInject(s);
      InjectOne(s);
      InjectInOrder(s1, n - 1);
      DownsSplit(codes, i, n);
    }
  }

  /** One injection while codes remain: the next code as a DOWN event, and the index moved on. */
  lemma InjectOne(s: MacroState)
    requires Good(s) && s.playing && s.playIndex < |s.slots[s.playSlot]|
    ensures Emitted(Injected(s)) == [Event(Down, s.slots[s.playSlot][s.playIndex])]
    ensures AfterInject(s) == s.(playIndex := s.playIndex + 1)
  {
  }

  /** Each of those injections advances the index by one and changes nothing else. */
  lemma {:induction false} InjectAdvances(s: MacroState, n: nat)
    requires Good(s) && s.playing && s.playIndex + n <= |s.slots[s.playSlot]|
    ensures AfterInjecting(s, n) == s.(playIndex := s.playIndex + n)
    decreases n
  {
    if n > 0 {
      var s1 := AfterInject(s);
      assert s1 == s.(playIndex := s.playIndex + 1);
      InjectAdvances(s1, n - 1);
    }
  }

  lemma DownsSplit(codes: seq<KeyCode>, i: int, n: int)
    requires 0 <= i && 0 < n && i + n <= |codes|
    ensures Downs(codes[i..i + n]) == [Event(Down, codes[i])] + Downs(codes[i + 1..i + n])
  {
  }

  /** `macro_play` then injecting: the slot's codes come out in recorded order, after which playback ends. */
  lemma Playback(s: MacroState, slot: int)
    requires Good(s) && CanPlay(s, slot)
    ensures var p := AfterPlay(s, slot); var n := |s.slots[slot]|;
      && InjectedEvents(p, n) == Downs(s.slots[slot])
      && Injected(AfterInjecting(p, n)).None?
      && !AfterInject(AfterInjecting(p, n)).playing
  {
    var p := AfterPlay(s, slot);
    InjectInOrder(p, |s.slots[slot]|);
    InjectAdvances(p, |s.slots[slot]|);
    assert s.slots[slot][0..|s.slots[slot]|] == s.slots[slot];
  }

  /** What the sector holds after a save of a dirty state loads back at the next boot. */
  lemma SaveThenBoot(s: MacroState)
    requires Good(s) && s.dirty
    ensures AfterInit(AfterSaveIfDirty(s)).slots == s.slots
  {
    SaveLoadRoundTrip(s.slots);
  }

  // ---------------------------------------------------------------------
  // The module's globals

  /** `g_slots` (its code arrays and lengths), the record and play registers, the dirty flag and the flash sector. */
  class Recorder {
    const codes: array2<KeyCode>
    const lens: array<int>
    var recording: bool
    var recSlot: int
    var playing: bool
    var playSlot: int
    var playIndex: int
    var dirty: bool
    var rom: MacroBlob

    /** Three rows of 1024 codes, each length within its row. */
    ghost predicate Rows()
      reads lens
    {
      && codes.Length0 == SlotCount && codes.Length1 == MaxLen && lens.Length == SlotCount
      && (forall i :: 0 <= i < SlotCount ==> 0 <= lens[i] <= MaxLen)
    }

    /** The rows, and a sector of the fixed layout. */
    ghost predicate Valid()
      reads this, lens
    {
      Rows() && Shaped(rom)
    }

    /** The live prefix of row `i`. */
    function Slot(i: int): (r: seq<KeyCode>)
      requires Rows() && 0 <= i < SlotCount
      reads lens, codes
      ensures |r| == lens[i]
    {
      var n := lens[i];
      seq(n, j requires 0 <= j < n reads codes => codes[i, j])
    }

    function State(): (s: MacroState)
      requires Valid()
      reads this, lens, codes
    {
      MacroState([Slot(0), Slot(1), Slot(2)], recording, recSlot, playing, playSlot, playIndex, dirty, rom)
    }

    /** The static initialisers: empty slots, idle registers, and whatever the sector holds. */
    constructor(flash: MacroBlob)
      requires Shaped(flash)
      ensures Valid() && Good(State()) && State() == MacroState(Empty, false, -1, false, -1, 0, false, flash)
    {
      codes := new KeyCode[SlotCount, MaxLen]((i, j) => NoKey);
      lens := new int[SlotCount](_ => 0);
      recording, recSlot := false, -1;
      playing, playSlot, playIndex := false, -1, 0;
      dirty := false;
      rom := flash;
    }
  
    method IsRecording() returns (r: bool)
      ensures r == recording
    {
      r := recording;
    }

    method IsPlaying() returns (r: bool)
      ensures r == playing
    {
      r := playing;
    }

    /** `macro_start_record`. */
    method StartRecord(slot: int)
      requires Valid()
      modifies this, lens
      ensures Valid() && State() == AfterStartRecord(old(State()), slot)
    {
      if slot < 0 || slot >= SlotCount {
        return;
      }
      Truncate(slot);
      recording := true;
      recSlot := slot;
      playing := false;
      playSlot := -1;
      playIndex := 0;
    }

    /** `g_slots[slot].len = 0`. */
    method Truncate(slot: int)
      requires Valid() && 0 <= slot < SlotCount
      modifies lens
      ensures Valid() && State() == old(State()).(slots := old(State()).slots[slot := []])
    {
      ghost var before := State().slots;
      lens[slot] := 0;
      forall k | 0 <= k < SlotCount && k != slot
        ensures Slot(k) == before[k]
      {
        assert |Slot(k)| == |before[k]|;
      }
      assert State().slots == before[slot := []];
    }

    /** `macro_stop_record`. */
    method StopRecord()
      requires Valid()
      modifies this
      ensures Valid() && State() == AfterStopRecord(old(State()))
    {
      recording := false;
      recSlot := -1;
      dirty := true;
    }

    /** `macro_has`. */
    method Has(slot: int) returns (r: bool)
      requires Valid()
      ensures r == HasCodes(State(), slot)
    {
      if slot < 0 || slot >= SlotCount {
        return false;
      }
      return lens[slot] > 0;
    }

    /** `macro_play`. */
    method Play(slot: int) returns (ok: bool)
      requires Valid()
      modifies this
      ensures Valid() && ok == CanPlay(old(State()), slot) && State() == AfterPlay(old(State()), slot)
    {
      if slot < 0 || slot >= SlotCount {
        return false;
      }
      if lens[slot] <= 0 {
        return false;
      }
      recording := false;
      recSlot := -1;
      playing := true;
      playSlot := slot;
      playIndex := 0;
      return true;
    }

    /** `macro_cancel_play`. */
    method CancelPlay()
      requires Valid()
      modifies this
      ensures Valid() && State() == AfterCancelPlay(old(State()))
    {
      playing := false;
      playSlot := -1;
      playIndex := 0;
    }

    /** `macro_capture_event`. */
    method CaptureEvent(ev: Event)
      requires Valid()
      modifies this, lens, codes
      ensures Valid() && State() == AfterCapture(old(State()), ev)
    {
      if !recording {
        return;
      }
      if ev.kind != Down {
        return;
      }
      if ev.code == PR || ev.code == P1 || ev.code == P2 || ev.code == P3 || ev.code == Mode || ev.code == Off {
        return;
      }
      if recSlot < 0 || recSlot >= SlotCount {
        return;
      }
      if lens[recSlot] >= MaxLen {
        StopRecord();
        return;
      }
      Append(recSlot, ev.code);
      dirty := true;
      if lens[recSlot] >= MaxLen {
        StopRecord();
      }
    }

    /** `s->seq[s->len++] = code`. */
    method Append(r: int, code: KeyCode)
      requires Valid() && 0 <= r < SlotCount && lens[r] < MaxLen
      modifies lens, codes
      ensures Valid() && State() == old(State()).(slots := old(State()).slots[r := old(Slot(r)) + [code]])
    {
      ghost var before := State().slots;
      var n := lens[r];
      codes[r, n] := code;
      lens[r] := n + 1;
      assert Slot(r) == before[r] + [code];
      forall k | 0 <= k < SlotCount && k != r
        ensures Slot(k) == before[k]
      {
        assert |Slot(k)| == |before[k]|;
      }
      assert State().slots == before[r := before[r] + [code]];
    }

    /** `macro_inject_next`; the firmware's null check on `out_ev` has no counterpart here. */
    method InjectNext() returns (ok: bool, ev: Event)
      requires Valid() && Good(State())
      modifies this
      ensures Valid() && State() == AfterInject(old(State()))
      ensures ok == Injected(old(State())).Some? && (ok ==> ev == Injected(old(State())).value)
    {
      if !playing || playSlot < 0 {
        return false, NoneEvent;
      }
      if playIndex >= lens[playSlot] {
        playing := false;
        playSlot := -1;
        playIndex := 0;
        return false, NoneEvent;
      }
      ev := Event(Down, codes[playSlot, playIndex]);
      playIndex := playIndex + 1;
      ok := true;
    }
  
    /** `macro_save_if_dirty`. */
    method SaveIfDirty()
      requires Valid()
      modifies this
      ensures Valid() && State() == AfterSaveIfDirty(old(State()))
    {
      if !dirty {
        return;
      }
      SaveToFlash();
      dirty := false;
    }

    /** `macro_reset_all`. */
    method ResetAll()
      requires Valid()
      modifies this, lens
      ensures Valid() && State() == AfterResetAll(old(State()))
    {
      recording := false;
      recSlot := -1;
      playing := false;
      playSlot := -1;
      playIndex := 0;
      EmptyAll();
      SaveToFlash();
      dirty := false;
    }

    /** `macro_init`. */
    method Init()
      requires Valid()
      modifies this, lens, codes
      ensures Valid() && State() == AfterInit(old(State()))
    {
      LoadFromFlash();
      recording := false;
      recSlot := -1;
      playing := false;
      playSlot := -1;
      playIndex := 0;
    }

    /** Every slot's length set to zero. */
    method EmptyAll()
      requires Valid()
      modifies lens
      ensures Valid() && State() == old(State()).(slots := Empty)
    {
      var i := 0;
      while i < SlotCount
        modifies lens
        invariant 0 <= i <= SlotCount && Valid()
        invariant forall k :: 0 <= k < i ==> lens[k] == 0
      {
        lens[i] := 0;
        i := i + 1;
      }
      assert Slot(0) == [] && Slot(1) == [] && Slot(2) == [];
    }

    /** `macro_load_from_flash`: an accepted sector is copied slot by slot, clamping each length; otherwise the slots are emptied. */
    method LoadFromFlash()
      requires Valid()
      modifies this, lens, codes
      ensures Valid() && State() == old(State()).(slots := Loaded(old(rom)), dirty := false)
    {
      var ok := false;
      if rom.magic == Magic && rom.version == Version {
        var crc := Crc32Calc(SlotBytes(rom.slots));
        if crc == rom.crc {
          ok := true;
        }
      }
      EmptyAll();
      if ok {
        CopyAll();
      }
      dirty := false;
    }

    /** The copy loop of an accepted load. */
    method CopyAll()
      requires Valid() && Accepted(rom)
      modifies lens, codes
      ensures Valid() && State() == old(State()).(slots := Loaded(rom))
    {
      var i := 0;
      while i < SlotCount
        modifies lens, codes
        invariant 0 <= i <= SlotCount && Valid()
        invariant forall k :: 0 <= k < i ==> Slot(k) == Decode(rom.slots[k])
      {
        DecodeRow(i);
        i := i + 1;
      }
      assert State().slots == Loaded(rom);
    }

    /** One slot of the load: `(int)` of the stored length, clamped, then the codes copied byte by byte. */
    method DecodeRow(i: int)
      requires Valid() && 0 <= i < SlotCount
      modifies lens, codes
      ensures Valid() && Slot(i) == Decode(rom.slots[i])
      ensures forall k :: 0 <= k < SlotCount && k != i ==> Slot(k) == old(Slot(k))
    {
      var w := rom.slots[i].len;
      var n := if w < 0x8000_0000 then w as int else w as int - 0x1_0000_0000;
      if n < 0 {
        n := 0;
      }
      if n > MaxLen {
        n := MaxLen;
      }
      lens[i] := n;
      var j := 0;
      while j < n
        modifies codes
        invariant 0 <= j <= n
        invariant forall jj :: 0 <= jj < j ==> codes[i, jj] as int == rom.slots[i].codes[jj] as int
        invariant forall k, jj :: 0 <= k < SlotCount && k != i && 0 <= jj < MaxLen ==> codes[k, jj] == old(codes[k, jj])
      {
        codes[i, j] := rom.slots[i].codes[j] as int as KeyCode;
        j := j + 1;
      }
      assert |Slot(i)| == |Decode(rom.slots[i])|;
      forall k | 0 <= k < SlotCount && k != i
        ensures Slot(k) == old(Slot(k))
      {
        assert |Slot(k)| == |old(Slot(k))|;
      }
    }

    /** `macro_save_to_flash`: the blob image of the slots; the erase and program of the sector are the assignment to `rom`. */
    method SaveToFlash()
      requires Valid()
      modifies this
      ensures Valid() && State() == old(State()).(rom := Saved(old(State()).slots))
    {
      ghost var before := State();
      var stored: seq<StoredSlot> := [];
      var i := 0;
      while i < SlotCount
        modifies {}
        invariant 0 <= i <= SlotCount && |stored| == i
        invariant forall k :: 0 <= k < i ==> stored[k] == Encode(Slot(k))
      {
        var slot := EncodeRow(i);
        stored := stored + [slot];
        i := i + 1;
      }
      assert stored == [Encode(before.slots[0]), Encode(before.slots[1]), Encode(before.slots[2])];
      var crc := Crc32Calc(SlotBytes(stored));
      rom := MacroBlob(Magic, Version, crc, stored);
      assert rom == Saved(before.slots);
    }

    /** One slot of the save: the clamped length, the codes as bytes, zeros after them. */
    method EncodeRow(i: int) returns (slot: StoredSlot)
      requires Rows() && 0 <= i < SlotCount
      ensures slot == Encode(Slot(i))
    {
      var n := lens[i];
      if n < 0 {
        n := 0;
      }
      if n > MaxLen {
        n := MaxLen;
      }
      var bytes: seq<Byte> := seq(MaxLen, _ => 0);
      var j := 0;
      while j < n
        invariant 0 <= j <= n && |bytes| == MaxLen
        invariant forall k :: 0 <= k < j ==> bytes[k] == codes[i, k] as int as Byte
        invariant forall k :: j <= k < MaxLen ==> bytes[k] == 0
      {
        bytes := bytes[j := codes[i, j] as int as Byte];
        j := j + 1;
      }
      slot := StoredSlot(n as U32, bytes);
    }
  }
}
