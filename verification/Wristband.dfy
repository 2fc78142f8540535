/**
 The wristband firmware as it is written: globals updated by callbacks and by
 `loop()`. Every method is one or more steps of the transition system in
 `Firmware`; a pass through `loop()` is a run of its single statements.
 */
module WristbandDevice {
  import opened Wrappers
  import opened Chunks
  import opened Firmware

  /** The statements of the transition to BLE; bringing BLE up takes `ms`. */
  function ToBle(ms: nat): seq<Event> {
    [Loop(true), Loop(true), Tick(ms), Loop(true), Loop(true), Loop(true)]
  }

  /** The statements of the transition to ESP-NOW, with the callback that a dropped connection raises. */
  function ToEspNow(dropped: bool): seq<Event> {
    (if dropped then [Disconnect] else []) + [Loop(true), Loop(true), Loop(true), Loop(true), Loop(true)]
  }

  /** The run of single statements that one undisturbed pass of `loop()` is. */
  function Pass(s: State, readOk: bool, clearOk: bool, ms: nat): seq<Event> {
    [Loop(true), Loop(true)] +
    if s.mode == EspNow then
      if !PollsTag(s) then []
      else if !readOk || s.block8 != WAKE_PAYLOAD then [Loop(readOk)]
      else [Loop(readOk), Loop(clearOk)] + ToBle(ms)
    else BlePass(s)
  }

  /** The statements of a pass in BLE mode that are left when it looks at the switch flag. */
  function BlePass(s: State): seq<Event> {
    if s.switchFlag then [Loop(true)] + ToEspNow(s.connected)
    else if !s.connected && Elapsed(s.now % MILLIS_WRAP, s.enteredAt) > BLE_ADV_TIMEOUT_MS then
      [Loop(true), Loop(true)] + ToEspNow(s.connected)
    else [Loop(true), Loop(true)]
  }

  class Wristband {
    var mode: Mode
    var wifi: bool
    var ble: bool
    var connected: bool
    var switchFlag: bool
    var gpo: bool
    var enteredAt: nat
    var lastPoll: nat
    const buffer: EmbeddingBuffer
    var block8: seq<byte>
    var now: nat
    ghost var reader: Reader
    ghost var log: Log

    /** The fields as a state of the transition system, before statement `pc`. */
    ghost function At(pc: Pc): State
      reads this, buffer, buffer.bytes
    {
      State(mode, wifi, ble, connected, switchFlag, gpo, enteredAt, lastPoll,
            buffer.bytes[..], buffer.readOff, block8, reader, now, pc, log)
    }

    /** `setup()`: the tag keeps what it held, the radio starts in ESP-NOW. */
    constructor (size: nat, block8: seq<byte>, now: nat)
      ensures fresh(buffer) && fresh(buffer.bytes) && buffer.served == CHUNK_MAX
      ensures At(PollCdc) == Boot(size, block8, now)
    {
      mode, wifi, ble, connected := EspNow, true, false, false;
      switchFlag, gpo, enteredAt, lastPoll := false, false, 0, 0;
      this.block8, this.now, reader := block8, now, Quiet;
      log := Log(0, 0, 0, Token(block8), 0, 0, 0, 0, 0);
      buffer := new EmbeddingBuffer(size, CHUNK_MAX);
    }

    // ------------------------------------- interrupt and callbacks, at any statement

    method OnGpoFalling(ghost pc: Pc)
      modifies this
      ensures At(pc) == Step(old(At(pc)), Gpo)
    {
      gpo := true;
    }

    method OnConnect(ghost pc: Pc)
      requires ble
      modifies this
      ensures At(pc) == Step(old(At(pc)), Connect)
    {
      connected := true;
    }

    method OnDisconnect(ghost pc: Pc)
      requires ble
      modifies this
      ensures At(pc) == Step(old(At(pc)), Disconnect)
    {
      connected := false;
      switchFlag := true;
      log := log.(flagSession := log.session);
    }

    method OnCtrlWrite(ghost pc: Pc)
      requires ble
      modifies this
      ensures At(pc) == Step(old(At(pc)), Ctrl)
    {
      switchFlag := true;
      log := log.(flagSession := log.session);
    }

    method OnEmbedWrite(v: seq<byte>, ghost pc: Pc)
      requires ble
      modifies buffer.bytes
      ensures At(pc) == Step(old(At(pc)), EmbedWrite(v))
    {
      buffer.OnEmbedWrite(v);
    }

    method OnOffsetWrite(v: seq<byte>, ghost pc: Pc)
      requires ble
      modifies buffer`readOff
      ensures At(pc) == Step(old(At(pc)), OffsetWrite(v))
    {
      buffer.OnOffsetWrite(v);
    }

    // ---------------------------------------------------------------- loop context

    method CheckNfcTrigger(readOk: bool, clearOk: bool) returns (fired: bool)
      modifies this
      ensures fired == (readOk && old(block8) == WAKE_PAYLOAD)
      ensures At(if fired then WifiOff(false) else LoopEnd) ==
              Exec(old(At(ReadTrigger)), if fired then [Loop(readOk), Loop(clearOk)] else [Loop(readOk)])
    {
      hide Exec;
      TriggerChecked(At(ReadTrigger), readOk, clearOk);
      if !readOk || block8 != WAKE_PAYLOAD {
        return false;
      }
      if clearOk {
        block8 := CLEAR_PAYLOAD;
      }
      log := log.(entries := log.entries + 1, lostClears := log.lostClears + if clearOk then 0 else 1);
      fired := true;
    }

    method EnterBleMode(ms: nat)
      modifies this
      ensures At(LoopEnd) == Exec(old(At(WifiOff(false))), ToBle(ms))
    {
      hide Exec, ToBle;
      BleEntry(At(WifiOff(false)), ms);
      wifi := false;
      ble := true;
      now := now + ms;
      mode, enteredAt, switchFlag := Ble, now % MILLIS_WRAP, false;
      log := log.(session := log.session + 1, enteredTrue := now);
    }

    method EnterEspNowMode()
      requires ble
      modifies this
      ensures At(LoopEnd) == Exec(old(At(BleOff)), ToEspNow(old(connected)))
    {
      hide Exec, ToEspNow, LoopStep;
      ghost var s := At(BleOff);
      EspNowEntry(s, connected);
      if connected {
        OnDisconnect(BleOff);
      }
      ble := false;
      connected := false;
      wifi := false;
      wifi := true;
      mode := EspNow;
    }

    /** One pass of `loop()` with nothing in between. */
    method LoopPass(readOk: bool, clearOk: bool, ms: nat)
      requires ble == (mode == Ble)
      modifies this
      ensures At(LoopEnd) == Exec(old(At(PollCdc)), Pass(old(At(PollCdc)), readOk, clearOk, ms))
    {
      hide Exec, Step;
      ghost var s := At(PollCdc);
      PassDecides(s, readOk, clearOk, ms);
      if mode == EspNow {
        var fired := gpo;
        gpo := false;
        if fired || Elapsed(now % MILLIS_WRAP, lastPoll) > NFC_POLL_MS {
          lastPoll := now % MILLIS_WRAP;
          var wake := CheckNfcTrigger(readOk, clearOk);
          if wake {
            EnterBleMode(ms);
          }
        }
      } else if switchFlag {
        EnterEspNowMode();
      } else if !connected && Elapsed(now % MILLIS_WRAP, enteredAt) > BLE_ADV_TIMEOUT_MS {
        EnterEspNowMode();
      }
    }
  }

  lemma EntryStatement(s: State)
    requires ToBlePc(s.pc)
    ensures Step(s, Loop(true)) == EnterBle(s)
  {
    hide EnterBle, EnterEspNow;
  }

  lemma ExitStatement(s: State)
    requires ToEspNowPc(s.pc)
    ensures Step(s, Loop(true)) == EnterEspNow(s)
  {
    hide EnterBle, EnterEspNow;
  }

  lemma BleUp(s: State, cdc: bool)
    requires s.pc == WifiOff(cdc)
    ensures Exec(s, [Loop(true), Loop(true)]) ==
            s.(wifi := false, ble := true, pc := SetBle(cdc), log := s.log.(session := s.log.session + 1))
  {
    hide LoopStep, Exec, Step;
    EntryStatement(s);
    var s1 := EnterBle(s);
    EntryStatement(s1);
    Chain([s, s1, EnterBle(s1)], [Loop(true), Loop(true)]);
  }

  lemma BleSet(s: State, cdc: bool)
    requires s.pc == SetBle(cdc)
    ensures Exec(s, [Loop(true), Loop(true)]) ==
            s.(mode := Ble, enteredAt := s.now % MILLIS_WRAP, pc := ForgetFlag(cdc),
               log := s.log.(enteredTrue := s.now))
  {
    hide LoopStep, Exec, Step;
    EntryStatement(s);
    var s1 := EnterBle(s);
    EntryStatement(s1);
    Chain([s, s1, EnterBle(s1)], [Loop(true), Loop(true)]);
  }

  lemma BleStamped(s: State)
    requires s.pc == SetBle(false)
    ensures Exec(s, [Loop(true), Loop(true), Loop(true)]) ==
            s.(mode := Ble, enteredAt := s.now % MILLIS_WRAP, switchFlag := false, pc := LoopEnd,
               log := s.log.(enteredTrue := s.now))
  {
    hide LoopStep, Exec, Step;
    BleSet(s, false);
    var r := Exec(s, [Loop(true), Loop(true)]);
    EntryStatement(r);
    ExecOne(r, Loop(true));
    ExecTwo(s, [Loop(true), Loop(true)], [Loop(true)]);
    assert [Loop(true), Loop(true)] + [Loop(true)] == [Loop(true), Loop(true), Loop(true)];
  }

  lemma BleEntry(s: State, ms: nat)
    requires s.pc == WifiOff(false)
    ensures Exec(s, ToBle(ms)) ==
            s.(wifi := false, ble := true, mode := Ble, now := s.now + ms, enteredAt := (s.now + ms) % MILLIS_WRAP,
               switchFlag := false, pc := LoopEnd,
               log := s.log.(session := s.log.session + 1, enteredTrue := s.now + ms))
  {
    hide LoopStep, Exec, TagAccess, Callback;
    BleUp(s, false);
    var up := s.(wifi := false, ble := true, pc := SetBle(false), log := s.log.(session := s.log.session + 1));
    var stamps := [Loop(true), Loop(true), Loop(true)];
    ExecOne(up, Tick(ms));
    BleStamped(up.(now := s.now + ms));
    ExecTwo(up, [Tick(ms)], stamps);
    ExecTwo(s, [Loop(true), Loop(true)], [Tick(ms)] + stamps);
    assert ToBle(ms) == [Loop(true), Loop(true)] + ([Tick(ms)] + stamps);
  }

  lemma RadioDown(s: State)
    requires s.pc == BleOff
    ensures Exec(s, [Loop(true), Loop(true)]) == s.(ble := false, connected := false, pc := WifiReset)
  {
    hide LoopStep, Exec, Step;
    ExitStatement(s);
    var s1 := EnterEspNow(s);
    ExitStatement(s1);
    Chain([s, s1, EnterEspNow(s1)], [Loop(true), Loop(true)]);
  }

  lemma BleDown(s: State)
    requires s.pc == BleOff
    ensures Exec(s, [Loop(true), Loop(true), Loop(true)]) ==
            s.(ble := false, connected := false, wifi := false, pc := WifiOn)
  {
    hide LoopStep, Exec, Step;
    RadioDown(s);
    var r := Exec(s, [Loop(true), Loop(true)]);
    ExitStatement(r);
    ExecOne(r, Loop(true));
    ExecTwo(s, [Loop(true), Loop(true)], [Loop(true)]);
    assert [Loop(true), Loop(true)] + [Loop(true)] == [Loop(true), Loop(true), Loop(true)];
  }

  lemma EspNowUp(s: State)
    requires s.pc == WifiOn
    ensures Exec(s, [Loop(true), Loop(true)]) == s.(wifi := true, mode := EspNow, pc := LoopEnd)
  {
    hide LoopStep, Exec, Step;
    ExitStatement(s);
    var s1 := EnterEspNow(s);
    ExitStatement(s1);
    Chain([s, s1, EnterEspNow(s1)], [Loop(true), Loop(true)]);
  }

  lemma EspNowEntry(s: State, dropped: bool)
    requires s.pc == BleOff && s.ble
    ensures Exec(s, ToEspNow(dropped)) ==
            (if dropped then SetSwitch(s) else s).(
              ble := false, connected := false, wifi := true, mode := EspNow, pc := LoopEnd)
  {
    hide LoopStep, Exec, TagAccess;
    var off, on := [Loop(true), Loop(true), Loop(true)], [Loop(true), Loop(true)];
    var s0 := if dropped then SetSwitch(s.(connected := false)) else s;
    BleDown(s0);
    EspNowUp(s0.(ble := false, connected := false, wifi := false, pc := WifiOn));
    ExecTwo(s0, off, on);
    if dropped {
      ExecOne(s, Disconnect);
      ExecTwo(s, [Disconnect], off + on);
      assert ToEspNow(dropped) == [Disconnect] + (off + on);
    } else {
      assert ToEspNow(dropped) == off + on;
    }
  }

  /** What a pass in BLE mode does after its two checks. */
  lemma PassChecks(s: State, timedOut: bool)
    requires s.pc == CheckFlag
    requires timedOut == (!s.connected && Elapsed(s.now % MILLIS_WRAP, s.enteredAt) > BLE_ADV_TIMEOUT_MS)
    ensures s.switchFlag ==> LoopStep(s, true) == s.(pc := BleOff)
    ensures !s.switchFlag ==> LoopStep(LoopStep(s, true), true) == s.(pc := if timedOut then BleOff else LoopEnd)
  {
    hide EnterBle, EnterEspNow;
  }

  /** Where a pass stands once it has decided what to do, and what is left of it. */
  lemma PassDecides(s: State, readOk: bool, clearOk: bool, ms: nat)
    requires s.pc == PollCdc
    ensures var timedOut := !s.connected && Elapsed(s.now % MILLIS_WRAP, s.enteredAt) > BLE_ADV_TIMEOUT_MS;
      Exec(s, Pass(s, readOk, clearOk, ms)) ==
      if s.mode == EspNow then
        if !PollsTag(s) then s.(pc := LoopEnd)
        else
          var d := s.(gpo := false, lastPoll := s.now % MILLIS_WRAP, pc := ReadTrigger);
          if !readOk || s.block8 != WAKE_PAYLOAD then Exec(d, [Loop(readOk)])
          else Exec(Exec(d, [Loop(readOk), Loop(clearOk)]), ToBle(ms))
      else if s.switchFlag || timedOut then Exec(s.(pc := BleOff), ToEspNow(s.connected))
      else s.(pc := LoopEnd)
  {
    hide Exec, LoopStep, Elapsed;
    var pass := Pass(s, readOk, clearOk, ms);
    PassStarts(s);
    ExecPair(s, true, true);
    ExecTwo(s, [Loop(true), Loop(true)], pass[2..]);
    assert pass == [Loop(true), Loop(true)] + pass[2..];
    var d := LoopStep(LoopStep(s, true), true);
    if s.mode == EspNow {
      ExecNone(d);
      ExecTwo(d, [Loop(readOk), Loop(clearOk)], ToBle(ms));
    } else {
      BlePassDecides(d);
      assert pass[2..] == BlePass(d);
    }
  }

  lemma BlePassDecides(s: State)
    requires s.pc == CheckFlag
    ensures var timedOut := !s.connected && Elapsed(s.now % MILLIS_WRAP, s.enteredAt) > BLE_ADV_TIMEOUT_MS;
      Exec(s, BlePass(s)) ==
      if s.switchFlag || timedOut then Exec(s.(pc := BleOff), ToEspNow(s.connected)) else s.(pc := LoopEnd)
  {
    hide Exec, LoopStep, Elapsed;
    PassChecks(s, !s.connected && Elapsed(s.now % MILLIS_WRAP, s.enteredAt) > BLE_ADV_TIMEOUT_MS);
    ExecOne(s, Loop(true));
    ExecPair(s, true, true);
    ExecTwo(s, [Loop(true)], ToEspNow(s.connected));
    ExecTwo(s, [Loop(true), Loop(true)], ToEspNow(s.connected));
  }

  /**
   An undisturbed pass in ESP-NOW mode enters BLE exactly when the tag was due
   for a look and was read as FTWK; then BLE is on alone, the token is taken
   unless its clear was lost, and no left-over flag is waiting.
   */
  lemma PassEntersBleIff(s: State, readOk: bool, clearOk: bool, ms: nat)
    requires Inv(s) && s.pc == PollCdc && s.mode == EspNow
    ensures var r := Exec(s, Pass(s, readOk, clearOk, ms));
      && (r.mode == Ble <==>
            && (s.gpo || Elapsed(s.now % MILLIS_WRAP, s.lastPoll) > 1000)
            && readOk && s.block8 == [0x46, 0x54, 0x57, 0x4B])
      && (r.mode == Ble ==>
            && r.ble && !r.wifi && !r.switchFlag && r.pc == LoopEnd && r.mem == s.mem
            && r.block8 == (if clearOk then [0, 0, 0, 0] else s.block8)
            && r.log.entries == s.log.entries + 1 && r.log.session == s.log.session + 1)
  {
    hide Exec, Pass, ToBle, LoopStep, Elapsed;
    PassDecides(s, readOk, clearOk, ms);
    if PollsTag(s) {
      var d := s.(gpo := false, lastPoll := s.now % MILLIS_WRAP, pc := ReadTrigger);
      TriggerChecked(d, readOk, clearOk);
      if readOk && s.block8 == WAKE_PAYLOAD {
        BleEntry(Exec(d, [Loop(readOk), Loop(clearOk)]), ms);
      }
    }
  }

  /** For every age of the session the wrapping subtraction is the real time passed, modulo a round of the counter. */
  lemma ElapsedIsReal(now: nat, at: nat)
    requires at <= now
    ensures Elapsed(now % MILLIS_WRAP, at % MILLIS_WRAP) == (now - at) % MILLIS_WRAP
  {
  }

  /**
   An undisturbed pass in BLE mode goes back exactly when the flag is set, or
   nobody is connected and more than 20000 ms have passed, rounds of the
   32-bit counter not counted.
   */
  lemma PassLeavesBleIff(s: State, readOk: bool, clearOk: bool, ms: nat)
    requires Inv(s) && s.pc == PollCdc && s.mode == Ble
    ensures var r := Exec(s, Pass(s, readOk, clearOk, ms));
      && (r.mode == EspNow <==>
            s.switchFlag || (!s.connected && (s.now - s.log.enteredTrue) % 0x1_0000_0000 > 20000))
      && (r.mode == EspNow ==> r.wifi && !r.ble && !r.connected && r.mem == s.mem)
  {
    hide Exec, Pass, ToEspNow, LoopStep, Elapsed, MailboxInv;
    ElapsedIsReal(s.now, s.log.enteredTrue);
    PassDecides(s, readOk, clearOk, ms);
    EspNowEntry(s.(pc := BleOff), s.connected);
  }

  lemma ExecNone(s: State)
    ensures Exec(s, []) == s
  {
  }


  /** The debug command GOBLE enters BLE mode from ESP-NOW, and goes on polling the debug line. */
  lemma DebugEntersBle(s: State)
    requires s.pc == PollCdc && s.mode == EspNow
    ensures var r := Exec(Step(s, GoBle), [Loop(true), Loop(true), Loop(true), Loop(true), Loop(true)]);
      r.mode == Ble && r.ble && !r.wifi && !r.switchFlag && r.pc == PollCdc && r.mem == s.mem
  {
    hide LoopStep, Exec, TagAccess, Callback;
    var s0 := Step(s, GoBle);
    assert s0 == s.(pc := WifiOff(true));
    hide Step;
    var two: seq<Event> := [Loop(true), Loop(true)];
    BleUp(s0, true);
    var s1 := Exec(s0, two);
    BleSet(s1, true);
    var s2 := Exec(s1, two);
    EntryStatement(s2);
    ExecOne(s2, Loop(true));
    ExecTwo(s0, two, two);
    ExecTwo(s0, two + two, [Loop(true)]);
    assert two + two + [Loop(true)] == [Loop(true), Loop(true), Loop(true), Loop(true), Loop(true)];
  }
}
