/**
 The wristband: mode machine, NFC wake mailbox and embedding memory, as a
 transition system. `loop()` advances one statement at a time; the GPO
 interrupt, the BLE callbacks, the clock and the NFC reader's block accesses
 may come between any two of its statements.
 */
module Firmware {
  import opened Wrappers
  import opened Chunks

  const BLE_ADV_TIMEOUT_MS := 20000
  const NFC_POLL_MS := 1000
  const MILLIS_WRAP := 0x1_0000_0000
  const WAKE_PAYLOAD: seq<byte> := [0x46, 0x54, 0x57, 0x4B]
  const CLEAR_PAYLOAD: seq<byte> := [0, 0, 0, 0]

  datatype Mode = EspNow | Ble

  /** Next statement of `loop()`. `cdc` tells whether BLE mode is entered from the USB debug line. */
  datatype Pc =
    | PollCdc | Dispatch
    | ReadTrigger | ConsumeTrigger
    | WifiOff(cdc: bool) | BleOn(cdc: bool) | SetBle(cdc: bool) | StampEntry(cdc: bool) | ForgetFlag(cdc: bool)
    | CheckFlag | CheckTimer
    | BleOff | ForgetLink | WifiReset | WifiOn | SetEspNow
    | LoopEnd

  /** The reader between the acknowledged write of block 8 and its verifying read. */
  datatype Reader = Quiet | VerifyingWake | VerifyingClear

  /** History the program itself does not keep. */
  datatype Log = Log(
    enteredTrue: nat,      // unwrapped time of the last entry stamp
    session: nat,          // BLE sessions begun
    flagSession: nat,      // session in which the switch flag was last set
    token0: nat,           // 1 when block 8 held the wake payload at boot
    wakes: nat,            // wake payloads that reached block 8
    entries: nat,          // BLE entries triggered over NFC
    lostClears: nat,       // consumed triggers whose clear did not reach block 8
    okAnswers: nat,        // WAKE commands the reader answered with OK
    okClears: nat)         // CLEAR commands it answered with OK

  datatype State = State(
    mode: Mode, wifi: bool, ble: bool, connected: bool,
    switchFlag: bool, gpo: bool, enteredAt: nat, lastPoll: nat,
    mem: seq<byte>, readOff: nat, block8: seq<byte>,
    reader: Reader, now: nat, pc: Pc, log: Log)

  /** How a block write of the reader ends. */
  datatype RfWrite = NotWritten | Unacknowledged | Acknowledged

  datatype Event =
    | Tick(ms: nat)
    | Gpo
    | Connect | Disconnect | Ctrl | EmbedWrite(v: seq<byte>) | OffsetWrite(v: seq<byte>)
    | GoBle | TrigNfc(landed: bool)
    | Loop(ok: bool)
    | RfWake(outcome: RfWrite) | RfClear(outcome: RfWrite) | RfVerify(readOk: bool)

  function Token(block8: seq<byte>): nat {
    if block8 == WAKE_PAYLOAD then 1 else 0
  }

  /** State at the end of `setup()`. */
  function Boot(size: nat, block8: seq<byte>, now: nat): State {
    State(EspNow, true, false, false, false, false, 0, 0, Zeros(size), 0, block8, Quiet, now, PollCdc,
          Log(0, 0, 0, Token(block8), 0, 0, 0, 0, 0))
  }

  /** `millis() - at` in 32-bit unsigned arithmetic. */
  function Elapsed(now: nat, at: nat): nat {
    (now - at) % MILLIS_WRAP
  }

  function SetSwitch(s: State): State {
    s.(switchFlag := true, log := s.log.(flagSession := s.log.session))
  }

  /** One statement of the transition to BLE mode. */
  function EnterBle(s: State): (r: State)
    ensures r == s.(wifi := r.wifi, ble := r.ble, mode := r.mode, enteredAt := r.enteredAt, switchFlag := r.switchFlag,
                    pc := r.pc, log := s.log.(session := r.log.session, enteredTrue := r.log.enteredTrue))
    ensures r.pc.ConsumeTrigger? || r.pc.BleOff? ==> r == s
  {
    match s.pc
    case WifiOff(cdc) => s.(wifi := false, pc := BleOn(cdc))
    case BleOn(cdc) => s.(ble := true, log := s.log.(session := s.log.session + 1), pc := SetBle(cdc))
    case SetBle(cdc) => s.(mode := Ble, pc := StampEntry(cdc))
    case StampEntry(cdc) =>
      s.(enteredAt := s.now % MILLIS_WRAP, log := s.log.(enteredTrue := s.now), pc := ForgetFlag(cdc))
    case ForgetFlag(cdc) => s.(switchFlag := false, pc := if cdc then PollCdc else LoopEnd)
    case _ => s
  }

  /** One statement of the transition back to ESP-NOW mode. */
  function EnterEspNow(s: State): (r: State)
    ensures r == s.(wifi := r.wifi, ble := r.ble, mode := r.mode, connected := r.connected, pc := r.pc)
    ensures r.pc.ConsumeTrigger? || r.pc.BleOff? ==> r == s
  {
    match s.pc
    case BleOff => s.(ble := false, pc := ForgetLink)
    case ForgetLink => s.(connected := false, pc := WifiReset)
    case WifiReset => s.(wifi := false, pc := WifiOn)
    case WifiOn => s.(wifi := true, pc := SetEspNow)
    case SetEspNow => s.(mode := EspNow, pc := LoopEnd)
    case _ => s
  }

  /** The statements of `loop()` that decide whether to change the mode; `ok` is the outcome of the read of block 8. */
  function Watch(s: State, ok: bool): (r: State)
    ensures r == s.(gpo := r.gpo, lastPoll := r.lastPoll, pc := r.pc)
    ensures r.pc.ConsumeTrigger? && s.pc != ConsumeTrigger ==> s.pc.ReadTrigger? && s.block8 == WAKE_PAYLOAD
  {
    match s.pc
    case PollCdc => s.(pc := Dispatch)
    case Dispatch =>
      if s.mode == Ble then s.(pc := CheckFlag)
      else if s.gpo || Elapsed(s.now % MILLIS_WRAP, s.lastPoll) > NFC_POLL_MS then
        s.(gpo := false, lastPoll := s.now % MILLIS_WRAP, pc := ReadTrigger)
      else s.(pc := LoopEnd)
    case ReadTrigger => s.(pc := if ok && s.block8 == WAKE_PAYLOAD then ConsumeTrigger else LoopEnd)
    case CheckFlag => s.(pc := if s.switchFlag then BleOff else CheckTimer)
    case CheckTimer =>
      var timedOut := !s.connected && Elapsed(s.now % MILLIS_WRAP, s.enteredAt) > BLE_ADV_TIMEOUT_MS;
      s.(pc := if timedOut then BleOff else LoopEnd)
    case LoopEnd => s.(pc := PollCdc)
    case _ => s
  }

  /** The trigger is taken: block 8 is cleared if the write gets through, and BLE mode is entered either way. */
  function Consume(s: State, ok: bool): State {
    s.(block8 := if ok then CLEAR_PAYLOAD else s.block8,
       log := s.log.(entries := s.log.entries + 1, lostClears := s.log.lostClears + if ok then 0 else 1),
       pc := WifiOff(false))
  }

  predicate ToBlePc(pc: Pc) {
    pc.WifiOff? || pc.BleOn? || pc.SetBle? || pc.StampEntry? || pc.ForgetFlag?
  }

  predicate ToEspNowPc(pc: Pc) {
    pc.BleOff? || pc.ForgetLink? || pc.WifiReset? || pc.WifiOn? || pc.SetEspNow?
  }

  /** One statement of `loop()`. */
  function LoopStep(s: State, ok: bool): (r: State)
    ensures r.now == s.now && r.mem == s.mem && r.readOff == s.readOff && r.reader == s.reader
    ensures r.log.token0 == s.log.token0 && r.log.wakes == s.log.wakes
    ensures r.log.okAnswers == s.log.okAnswers && r.log.okClears == s.log.okClears
    ensures !s.pc.ConsumeTrigger? ==>
              r.block8 == s.block8 && r.log.entries == s.log.entries && r.log.lostClears == s.log.lostClears
    ensures r.pc.ConsumeTrigger? ==> s.pc.ReadTrigger? && s.block8 == WAKE_PAYLOAD
  {
    if ToEspNowPc(s.pc) then EnterEspNow(s)
    else if ToBlePc(s.pc) then EnterBle(s)
    else if s.pc.ConsumeTrigger? then Consume(s, ok)
    else Watch(s, ok)
  }

  /** Callbacks of the BLE stack; they run only while it is up. */
  function Callback(s: State, e: Event): (r: State)
    ensures r.pc == s.pc && r.now == s.now && r.mode == s.mode && r.wifi == s.wifi && r.ble == s.ble
    ensures r.log == s.log.(flagSession := r.log.flagSession) && r.block8 == s.block8 && r.reader == s.reader
    ensures r.mem == if e.EmbedWrite? && s.ble then Apply(s.mem, e.v) else s.mem
  {
    if !s.ble then s
    else
      match e
      case Connect => s.(connected := true)
      case Disconnect => SetSwitch(s.(connected := false))
      case Ctrl => SetSwitch(s)
      case EmbedWrite(v) => s.(mem := Apply(s.mem, v))
      case OffsetWrite(v) => s.(readOff := Seek(s.readOff, v))
      case _ => s
  }

  /** Accesses to block 8 from outside `loop()`: the reader, and the debug command that imitates it. */
  function TagAccess(s: State, e: Event): (r: State)
    ensures r == s.(block8 := r.block8, reader := r.reader,
                    log := s.log.(wakes := r.log.wakes, okAnswers := r.log.okAnswers, okClears := r.log.okClears))
  {
    match e
    case TrigNfc(landed) =>
      if s.pc == PollCdc && landed then s.(block8 := WAKE_PAYLOAD, log := s.log.(wakes := s.log.wakes + 1)) else s
    case RfWake(outcome) =>
      if s.reader != Quiet || outcome == NotWritten then s
      else s.(block8 := WAKE_PAYLOAD, log := s.log.(wakes := s.log.wakes + 1),
              reader := if outcome == Acknowledged then VerifyingWake else Quiet)
    case RfClear(outcome) =>
      if s.reader != Quiet || outcome == NotWritten then s
      else s.(block8 := CLEAR_PAYLOAD, reader := if outcome == Acknowledged then VerifyingClear else Quiet)
    case RfVerify(readOk) =>
      var answersOk := s.reader == VerifyingWake && readOk && s.block8 == WAKE_PAYLOAD;
      var clearsOk := s.reader == VerifyingClear && readOk && s.block8 == CLEAR_PAYLOAD;
      s.(reader := Quiet,
         log := s.log.(okAnswers := s.log.okAnswers + (if answersOk then 1 else 0),
                       okClears := s.log.okClears + if clearsOk then 1 else 0))
    case _ => s
  }

  function Step(s: State, e: Event): (r: State)
    ensures r.now >= s.now && r.log.token0 == s.log.token0
    ensures r.mem == if e.EmbedWrite? && s.ble then Apply(s.mem, e.v) else s.mem
  {
    match e
    case Tick(ms) => s.(now := s.now + ms)
    case Gpo => s.(gpo := true)
    case GoBle => if s.pc == PollCdc && s.mode == EspNow then s.(pc := WifiOff(true)) else s
    case Loop(ok) => LoopStep(s, ok)
    case TrigNfc(_) => TagAccess(s, e)
    case RfWake(_) => TagAccess(s, e)
    case RfClear(_) => TagAccess(s, e)
    case RfVerify(_) => TagAccess(s, e)
    case _ => Callback(s, e)
  }

  function Exec(s: State, events: seq<Event>): State
    decreases |events|
  {
    if events == [] then s else Exec(Step(s, events[0]), events[1..])
  }

  // ------------------------------------------------------------------- short runs

  /** Two events in a row, and so on; `Exec` on short lists. */
  lemma {:induction false} ExecTwo(s: State, first: seq<Event>, second: seq<Event>)
    ensures Exec(s, first + second) == Exec(Exec(s, first), second)
    decreases |first|
  {
    hide Step;
    if first == [] {
      assert first + second == second;
    } else {
      assert (first + second)[1..] == first[1..] + second;
      ExecTwo(Step(s, first[0]), first[1..], second);
    }
  }

  lemma ExecOne(s: State, e: Event)
    ensures Exec(s, [e]) == Step(s, e)
  {
    hide Step;
    assert [e][1..] == [];
  }

  /** A run whose states are known one by one. */
  lemma {:induction false} Chain(states: seq<State>, events: seq<Event>)
    requires |states| == |events| + 1
    requires forall i :: 0 <= i < |events| ==> Step(states[i], events[i]) == states[i + 1]
    ensures Exec(states[0], events) == states[|events|]
    decreases |events|
  {
    hide Step;
    if events != [] {
      Chain(states[1..], events[1..]);
    }
  }

  lemma ExecPair(s: State, a: bool, b: bool)
    ensures Exec(s, [Loop(a), Loop(b)]) == LoopStep(LoopStep(s, a), b)
  {
    hide LoopStep;
    ExecTwo(s, [Loop(a)], [Loop(b)]);
    ExecOne(s, Loop(a));
    ExecOne(Step(s, Loop(a)), Loop(b));
  }

  predicate PollsTag(s: State) {
    s.gpo || Elapsed(s.now % MILLIS_WRAP, s.lastPoll) > NFC_POLL_MS
  }

  /** The first two statements of a pass. */
  lemma PassStarts(s: State)
    requires s.pc == PollCdc
    ensures LoopStep(LoopStep(s, true), true) ==
            if s.mode == Ble then s.(pc := CheckFlag)
            else if PollsTag(s) then s.(gpo := false, lastPoll := s.now % MILLIS_WRAP, pc := ReadTrigger)
            else s.(pc := LoopEnd)
  {
    hide EnterBle, EnterEspNow;
  }

  lemma ReadStep(s: State, readOk: bool)
    requires s.pc == ReadTrigger
    ensures LoopStep(s, readOk) == s.(pc := if readOk && s.block8 == WAKE_PAYLOAD then ConsumeTrigger else LoopEnd)
  {
    hide EnterBle, EnterEspNow, Consume;
  }

  lemma ConsumeStep(s: State, clearOk: bool)
    requires s.pc == ConsumeTrigger
    ensures LoopStep(s, clearOk) == Consume(s, clearOk)
  {
    hide EnterBle, EnterEspNow, Consume, Watch;
  }

  /** Statements of the trigger check, up to the decision. */
  lemma TriggerChecked(s: State, readOk: bool, clearOk: bool)
    requires s.pc == ReadTrigger
    ensures !readOk || s.block8 != WAKE_PAYLOAD ==> Exec(s, [Loop(readOk)]) == s.(pc := LoopEnd)
    ensures readOk && s.block8 == WAKE_PAYLOAD ==>
      Exec(s, [Loop(readOk), Loop(clearOk)]) ==
      s.(block8 := if clearOk then CLEAR_PAYLOAD else WAKE_PAYLOAD, pc := WifiOff(false),
         log := s.log.(entries := s.log.entries + 1, lostClears := s.log.lostClears + if clearOk then 0 else 1))
  {
    hide LoopStep, Exec;
    ExecOne(s, Loop(readOk));
    ExecPair(s, readOk, clearOk);
    ReadStep(s, readOk);
    if readOk && s.block8 == WAKE_PAYLOAD {
      ConsumeStep(s.(pc := ConsumeTrigger), clearOk);
    }
  }

  // ------------------------------------------------------------- the invariant

  predicate BetweenPasses(pc: Pc) {
    pc.PollCdc? || pc.Dispatch? || pc.LoopEnd?
  }

  /** The mode variable says BLE before this statement; between passes it may say either. */
  predicate BleStatement(pc: Pc) {
    pc.StampEntry? || pc.ForgetFlag? || pc.CheckFlag? || pc.CheckTimer? || pc.BleOff?
    || pc.ForgetLink? || pc.WifiReset? || pc.WifiOn? || pc.SetEspNow?
  }

  /** Which radio is on before each statement. */
  predicate RadioInv(s: State) {
    && (BetweenPasses(s.pc) || (s.mode == Ble <==> BleStatement(s.pc)))
    && (s.wifi <==> (if BetweenPasses(s.pc) then s.mode == EspNow
                     else s.pc.ReadTrigger? || s.pc.ConsumeTrigger? || s.pc.WifiOff? || s.pc.SetEspNow?))
    && (s.ble <==> (if BetweenPasses(s.pc) then s.mode == Ble
                    else s.pc.SetBle? || s.pc.StampEntry? || s.pc.ForgetFlag? || s.pc.CheckFlag? || s.pc.CheckTimer?
                         || s.pc.BleOff?))
  }

  predicate SessionInv(s: State) {
    && s.log.enteredTrue <= s.now
    && s.enteredAt == s.log.enteredTrue % MILLIS_WRAP
    && (s.connected ==> s.ble || s.pc == ForgetLink)
    && (s.switchFlag && s.mode == Ble && !s.pc.StampEntry? && !s.pc.ForgetFlag? ==> s.log.flagSession == s.log.session)
  }

  predicate MailboxInv(s: State) {
    && s.log.entries + (if s.pc.ConsumeTrigger? then 1 else Token(s.block8))
       <= s.log.wakes + s.log.token0 + s.log.lostClears
    && s.log.okAnswers + (if s.reader == VerifyingWake then 1 else 0) <= s.log.wakes
  }

  predicate Inv(s: State) {
    RadioInv(s) && SessionInv(s) && MailboxInv(s)
  }

  lemma EnterBleInv(s: State)
    requires RadioInv(s) && SessionInv(s) && ToBlePc(s.pc)
    ensures RadioInv(EnterBle(s)) && SessionInv(EnterBle(s))
  {
  }

  lemma EnterEspNowInv(s: State)
    requires RadioInv(s) && SessionInv(s)
    requires ToEspNowPc(s.pc)
    ensures RadioInv(EnterEspNow(s)) && SessionInv(EnterEspNow(s))
  {
  }

  lemma RadioLoop(s: State, ok: bool)
    requires RadioInv(s) && SessionInv(s)
    ensures RadioInv(LoopStep(s, ok)) && SessionInv(LoopStep(s, ok))
  {
    hide EnterBle, EnterEspNow;
    if ToBlePc(s.pc) {
      EnterBleInv(s);
    } else if ToEspNowPc(s.pc) {
      EnterEspNowInv(s);
    }
  }

  lemma MailboxConsume(s: State, ok: bool)
    requires MailboxInv(s) && s.pc == ConsumeTrigger
    ensures MailboxInv(LoopStep(s, ok))
  {
  }

  lemma MailboxLoop(s: State, ok: bool)
    requires MailboxInv(s)
    ensures MailboxInv(LoopStep(s, ok))
  {
    hide LoopStep;
    if s.pc == ConsumeTrigger {
      MailboxConsume(s, ok);
    }
  }

  lemma InvCallback(s: State, e: Event)
    requires Inv(s)
    ensures Inv(Callback(s, e))
  {
  }

  lemma InvTag(s: State, e: Event)
    requires Inv(s)
    ensures Inv(TagAccess(s, e))
  {
  }

  lemma InvStep(s: State, e: Event)
    requires Inv(s)
    ensures Inv(Step(s, e))
  {
    hide LoopStep, Callback, TagAccess;
    if e.Loop? {
      RadioLoop(s, e.ok);
      MailboxLoop(s, e.ok);
    } else {
      InvCallback(s, e);
      InvTag(s, e);
    }
  }

  lemma {:induction false} InvRun(s: State, events: seq<Event>)
    requires Inv(s)
    ensures Inv(Exec(s, events))
    decreases |events|
  {
    hide Step, Inv;
    if events != [] {
      InvStep(s, events[0]);
      InvRun(Step(s, events[0]), events[1..]);
    }
  }

  // ------------------------------------------------------------- main results

  /** The two radios are never on together, and between passes of `loop()` the mode names the one that is on. */
  lemma SingleRadio(size: nat, block8: seq<byte>, now: nat, events: seq<Event>)
    ensures var s := Exec(Boot(size, block8, now), events);
      && !(s.wifi && s.ble)
      && (s.pc == PollCdc ==> (s.mode == Ble <==> s.ble) && (s.mode == EspNow <==> s.wifi))
  {
    BootInv(size, block8, now);
    InvRun(Boot(size, block8, now), events);
  }

  /** A freshly booted wristband: ESP-NOW alone, no client, no flags, an empty memory, the tag as found. */
  lemma BootState(size: nat, block8: seq<byte>, now: nat)
    ensures var s := Boot(size, block8, now);
      && s.mode == EspNow && s.wifi && !s.ble && !s.connected && !s.switchFlag && !s.gpo
      && |s.mem| == size && (forall i :: 0 <= i < size ==> s.mem[i] == 0) && s.readOff == 0
      && s.block8 == block8 && s.now == now && s.pc == PollCdc
  {
  }

  /** A write to the embedding touches nothing else, and one that comes when BLE is down nothing at all. */
  lemma EmbedWriteTouches(s: State, v: seq<byte>)
    ensures Step(s, EmbedWrite(v)) == if s.ble then s.(mem := Apply(s.mem, v)) else s
  {
  }

  /** An offset written while BLE is up is where the next read starts. */
  lemma OffsetIsKept(s: State, lo: byte, hi: byte, more: seq<byte>)
    requires s.ble
    ensures Step(s, OffsetWrite([lo, hi] + more)).readOff == lo as int + 256 * (hi as int)
  {
    OffsetOnBytes(s.mem + [0], lo, hi, more, 0);
    var v := [lo, hi] + more;
    assert v[0] == lo && v[1] == hi;
  }

  lemma BootInv(size: nat, block8: seq<byte>, now: nat)
    ensures Inv(Boot(size, block8, now))
  {
  }

  lemma LoopLeavesBle(s: State, ok: bool)
    requires Inv(s) && !s.pc.BleOff? && LoopStep(s, ok).pc.BleOff?
    ensures || (s.switchFlag && s.log.flagSession == s.log.session)
            || (!s.connected && s.now - s.log.enteredTrue > BLE_ADV_TIMEOUT_MS)
  {
    hide EnterBle, EnterEspNow;
  }

  /**
   A BLE session is ended only by a flag that was set during that same
   session, or, with nobody connected, after more than 20000 ms of real time;
   the wrapping subtraction never fires early.
   */
  lemma WhyBleEnds(size: nat, block8: seq<byte>, now: nat, events: seq<Event>, next: Event)
    ensures var s := Exec(Boot(size, block8, now), events);
      !s.pc.BleOff? && Step(s, next).pc.BleOff? ==>
        || (s.switchFlag && s.log.flagSession == s.log.session)
        || (!s.connected && s.now - s.log.enteredTrue > 20000)
  {
    hide Boot, LoopStep, Inv;
    BootInv(size, block8, now);
    InvRun(Boot(size, block8, now), events);
    var s := Exec(Boot(size, block8, now), events);
    if next.Loop? && !s.pc.BleOff? && LoopStep(s, next.ok).pc.BleOff? {
      LoopLeavesBle(s, next.ok);
    }
  }

  function Loops(events: seq<Event>): nat {
    if events == [] then 0 else (if events[0].Loop? then 1 else 0) + Loops(events[1..])
  }

  predicate BackInEspNow(s: State) {
    s.pc == LoopEnd && s.mode == EspNow
  }

  /** Statements of `loop()` until BLE mode is over, from a statement of the way out. */
  function ExitLeft(pc: Pc): nat {
    match pc
    case BleOff => 5 case ForgetLink => 4 case WifiReset => 3 case WifiOn => 2 case SetEspNow => 1
    case _ => 0
  }

  /** The same from anywhere, once the switch flag is set. */
  function FlagLeft(pc: Pc): nat {
    match pc
    case CheckTimer => 10 case LoopEnd => 9 case PollCdc => 8 case Dispatch => 7 case CheckFlag => 6
    case _ => ExitLeft(pc)
  }

  /** And once the time is up. */
  function TimeLeft(pc: Pc): nat {
    match pc
    case ForgetFlag(_) => 11 case LoopEnd => 10 case PollCdc => 9 case Dispatch => 8
    case CheckFlag => 7 case CheckTimer => 6
    case _ => ExitLeft(pc)
  }

  /** A statement of the transition to ESP-NOW leads to the next one or out of it. */
  lemma ExitProgress(s: State, ok: bool)
    requires s.mode == Ble && ToEspNowPc(s.pc)
    ensures var r := LoopStep(s, ok);
      && r.log == s.log
      && (BackInEspNow(r) || (r.mode == Ble && ToEspNowPc(r.pc) && ExitLeft(r.pc) < ExitLeft(s.pc)))
  {
    hide EnterBle, Watch, Consume;
  }

  /** A statement between two passes, or of a pass that looks at flag and timer. */
  predicate Looks(pc: Pc) {
    pc in {PollCdc, Dispatch, CheckFlag, CheckTimer, LoopEnd}
  }

  lemma WatchStep(s: State, ok: bool)
    requires Looks(s.pc)
    ensures LoopStep(s, ok) == Watch(s, ok)
  {
    hide EnterBle, EnterEspNow, Consume, Watch;
  }

  /** BLE mode with the switch flag set, or on its way out. */
  predicate FlagEnding(s: State) {
    s.mode == Ble && ((Looks(s.pc) && s.switchFlag) || ToEspNowPc(s.pc))
  }

  lemma FlagWatch(s: State, ok: bool)
    requires s.mode == Ble && Looks(s.pc) && s.switchFlag
    ensures FlagEnding(Watch(s, ok)) && FlagLeft(Watch(s, ok).pc) < FlagLeft(s.pc)
  {
    hide Elapsed;
  }

  lemma FlagEndingLoop(s: State, ok: bool)
    requires FlagEnding(s)
    ensures BackInEspNow(LoopStep(s, ok)) || FlagEnding(LoopStep(s, ok))
    ensures FlagEnding(LoopStep(s, ok)) ==> FlagLeft(LoopStep(s, ok).pc) < FlagLeft(s.pc)
  {
    hide LoopStep, Watch;
    if ToEspNowPc(s.pc) {
      ExitProgress(s, ok);
    } else {
      WatchStep(s, ok);
      FlagWatch(s, ok);
    }
  }

  lemma FlagEndingStep(s: State, e: Event)
    requires FlagEnding(s)
    ensures BackInEspNow(Step(s, e)) || FlagEnding(Step(s, e))
    ensures FlagEnding(Step(s, e)) ==> FlagLeft(Step(s, e).pc) <= FlagLeft(s.pc) - if e.Loop? then 1 else 0
  {
    hide LoopStep, TagAccess;
    if e.Loop? {
      FlagEndingLoop(s, e.ok);
    }
  }

  /**
   The switch flag ends BLE mode: wherever `loop()` stands when the flag is set,
   whoever is connected or connects meanwhile, and whatever interrupts,
   callbacks and reader accesses come between its statements, the next whole
   pass at the latest returns to ESP-NOW.
   */
  lemma {:induction false} FlagEndsBle(s: State, events: seq<Event>)
    requires FlagEnding(s) && Loops(events) >= FlagLeft(s.pc)
    ensures exists k :: 0 <= k <= |events| && BackInEspNow(Exec(s, events[..k]))
    decreases |events|
  {
    hide Step, BackInEspNow;
    assert FlagLeft(s.pc) > 0;
    var s', rest := Step(s, events[0]), events[1..];
    FlagEndingStep(s, events[0]);
    if BackInEspNow(s') {
      assert events[..1][1..] == [];
      assert BackInEspNow(Exec(s, events[..1]));
    } else {
      FlagEndsBle(s', rest);
      var k :| 0 <= k <= |rest| && BackInEspNow(Exec(s', rest[..k]));
      assert events[..k + 1][1..] == rest[..k];
      assert BackInEspNow(Exec(s, events[..k + 1]));
    }
  }

  /** A CTRL write, or a client that goes, ends BLE mode: from the callback on, whatever else happens. */
  lemma CallbackEndsBle(s: State, e: Event, events: seq<Event>)
    requires Inv(s) && s.ble && !s.pc.SetBle? && !s.pc.StampEntry? && !s.pc.ForgetFlag?
    requires (e == Ctrl || e == Disconnect) && Loops(events) >= 10
    ensures exists k :: 0 <= k <= |events| && BackInEspNow(Exec(Step(s, e), events[..k]))
  {
    hide Step, Inv;
    CallbackFlags(s, e);
    FlagEndsBle(Step(s, e), events);
  }

  lemma CallbackFlags(s: State, e: Event)
    requires Inv(s) && s.ble && !s.pc.SetBle? && !s.pc.StampEntry? && !s.pc.ForgetFlag?
    requires e == Ctrl || e == Disconnect
    ensures FlagEnding(Step(s, e)) && FlagLeft(Step(s, e).pc) <= 10
  {
    hide SessionInv, MailboxInv;
  }

  /** A client that goes before the entry is complete, its flag forgotten, leaves the session to the timeout. */
  lemma GoneClientLeavesUnclaimed(s: State)
    requires Inv(s) && s.ble && !s.pc.SetBle? && !s.pc.StampEntry?
    ensures Unclaimed(Step(s, Disconnect))
  {
  }

  /** BLE is up, somebody is connected, and no flag is waiting, but for one that the entry still forgets. */
  predicate Claimed(s: State) {
    && s.mode == Ble && s.ble && s.connected
    && ((Looks(s.pc) && !s.switchFlag) || s.pc.StampEntry? || s.pc.ForgetFlag?)
  }

  lemma ClaimedStep(s: State, e: Event)
    requires Claimed(s) && e != Disconnect && e != Ctrl
    ensures Claimed(Step(s, e))
  {
    hide EnterEspNow, Consume, Elapsed;
  }

  lemma {:induction false} ClaimedRun(s: State, events: seq<Event>)
    requires Claimed(s) && Disconnect !in events && Ctrl !in events
    ensures Claimed(Exec(s, events))
    decreases |events|
  {
    hide Step, Claimed;
    if events != [] {
      ClaimedStep(s, events[0]);
      ClaimedRun(Step(s, events[0]), events[1..]);
    }
  }

  /**
   A connection is noticed: once a client connects to a session with no flag
   waiting, BLE stays up and the client connected until it goes or writes CTRL,
   however long that takes.
   */
  lemma ConnectionLasts(s: State, events: seq<Event>)
    requires s.mode == Ble && s.ble && ((Looks(s.pc) && !s.switchFlag) || s.pc.StampEntry? || s.pc.ForgetFlag?)
    requires Disconnect !in events && Ctrl !in events
    ensures var r := Exec(s, [Connect] + events); r.ble && r.mode == Ble && r.connected && !ToEspNowPc(r.pc)
  {
    assert ([Connect] + events)[1..] == events;
    ClaimedRun(Step(s, Connect), events);
  }

  /** More than 20000 ms have passed since entry, counted from round `round` of the millisecond counter. */
  predicate Due(s: State, round: nat) {
    s.now - s.log.enteredTrue - round * MILLIS_WRAP > BLE_ADV_TIMEOUT_MS
  }

  predicate InRound(s: State, round: nat) {
    s.now - s.log.enteredTrue - round * MILLIS_WRAP < MILLIS_WRAP
  }

  /** Within a round of the counter the wrapping subtraction gives the real time passed in that round. */
  lemma ElapsedInRound(now: nat, at: nat, round: nat)
    requires at + round * MILLIS_WRAP <= now < at + round * MILLIS_WRAP + MILLIS_WRAP
    ensures Elapsed(now % MILLIS_WRAP, at % MILLIS_WRAP) == now - at - round * MILLIS_WRAP
  {
  }

  /** The session has its entry stamp and is not on its way out. */
  predicate Waits(s: State) {
    s.mode == Ble && (Looks(s.pc) || s.pc.ForgetFlag?)
  }

  /** A BLE session to which nobody is connected, or which is on its way out. */
  predicate Unclaimed(s: State) {
    (Waits(s) && !s.connected) || (s.mode == Ble && ToEspNowPc(s.pc))
  }

  /** The session is over, or somebody has connected to it in time. */
  predicate OverOrTaken(s: State) {
    BackInEspNow(s) || (Waits(s) && s.connected)
  }

  predicate TimeEnding(s: State, round: nat) {
    Unclaimed(s) && (Waits(s) ==> Due(s, round))
  }

  lemma UnclaimedLoop(s: State, ok: bool)
    requires Unclaimed(s)
    ensures BackInEspNow(LoopStep(s, ok)) || Unclaimed(LoopStep(s, ok))
    ensures LoopStep(s, ok).log.enteredTrue == s.log.enteredTrue && LoopStep(s, ok).now == s.now
    ensures Waits(LoopStep(s, ok)) ==> Waits(s)
  {
    hide LoopStep, Elapsed;
    if ToEspNowPc(s.pc) {
      ExitProgress(s, ok);
    } else if s.pc.ForgetFlag? {
      ForgetStep(s, ok);
    } else {
      WatchStep(s, ok);
    }
  }

  lemma ForgetStep(s: State, ok: bool)
    requires s.pc.ForgetFlag?
    ensures LoopStep(s, ok) == s.(switchFlag := false, pc := if s.pc.cdc then PollCdc else LoopEnd)
  {
    hide Watch, EnterEspNow, Consume;
  }

  lemma TimeEndingLoop(s: State, ok: bool, round: nat)
    requires SessionInv(s) && TimeEnding(s, round) && InRound(s, round)
    ensures Unclaimed(LoopStep(s, ok)) ==> TimeLeft(LoopStep(s, ok).pc) < TimeLeft(s.pc)
  {
    hide LoopStep, Watch;
    if ToEspNowPc(s.pc) {
      ExitProgress(s, ok);
    } else if s.pc.ForgetFlag? {
      ForgetStep(s, ok);
    } else {
      WatchStep(s, ok);
      TimeWatch(s, ok, round);
    }
  }

  lemma TimeWatch(s: State, ok: bool, round: nat)
    requires SessionInv(s) && s.mode == Ble && Looks(s.pc) && !s.connected && Due(s, round) && InRound(s, round)
    ensures TimeLeft(Watch(s, ok).pc) < TimeLeft(s.pc)
  {
    hide Elapsed;
    if s.pc == CheckTimer {
      ElapsedInRound(s.now, s.log.enteredTrue, round);
    }
  }

  lemma UnclaimedStep(s: State, e: Event)
    requires Unclaimed(s)
    ensures OverOrTaken(Step(s, e)) || Unclaimed(Step(s, e))
    ensures Step(s, e).log.enteredTrue == s.log.enteredTrue
    ensures Waits(Step(s, e)) ==> Waits(s)
    ensures !e.Loop? ==> Step(s, e).pc == s.pc
  {
    hide LoopStep, TagAccess;
    if e.Loop? {
      UnclaimedLoop(s, e.ok);
    }
  }

  lemma TimeEndingStep(s: State, e: Event, round: nat)
    requires SessionInv(s) && TimeEnding(s, round) && InRound(s, round)
    ensures OverOrTaken(Step(s, e)) || TimeEnding(Step(s, e), round)
    ensures TimeEnding(Step(s, e), round) ==> TimeLeft(Step(s, e).pc) <= TimeLeft(s.pc) - if e.Loop? then 1 else 0
  {
    hide Unclaimed, OverOrTaken, Waits, LoopStep, Callback, TagAccess;
    UnclaimedStep(s, e);
    if e.Loop? {
      TimeEndingLoop(s, e.ok, round);
    }
  }

  lemma {:induction false} NowGrows(s: State, events: seq<Event>)
    ensures Exec(s, events).now >= s.now
    decreases |events|
  {
    hide Step;
    if events != [] {
      NowGrows(Step(s, events[0]), events[1..]);
    }
  }

  lemma TimeLeftPositive(s: State)
    requires Unclaimed(s)
    ensures TimeLeft(s.pc) > 0
  {
  }

  /**
   The timeout ends BLE mode: a session to which nobody is connected, and more
   than 20000 ms old, ends with the next whole pass at the latest, unless
   somebody connects before that has decided. This holds in every round of the
   32-bit counter, for passes that end in the round they start in; each round
   begins with 20000 ms of grace.
   */
  lemma {:induction false} TimeoutEndsBle(s: State, events: seq<Event>, round: nat)
    requires Inv(s) && TimeEnding(s, round) && Loops(events) >= TimeLeft(s.pc)
    requires Exec(s, events).now - s.log.enteredTrue - round * MILLIS_WRAP < MILLIS_WRAP
    ensures exists k :: 0 <= k <= |events| && OverOrTaken(Exec(s, events[..k]))
    decreases |events|
  {
    hide Step, RadioInv, MailboxInv, SessionInv, Unclaimed, Waits, OverOrTaken;
    NowGrows(s, events);
    TimeLeftPositive(s);
    var s', rest := Step(s, events[0]), events[1..];
    NowGrows(s', rest);
    InvStep(s, events[0]);
    UnclaimedStep(s, events[0]);
    TimeEndingStep(s, events[0], round);
    if TimeEnding(s', round) {
      TimeoutEndsBle(s', rest, round);
      var k :| 0 <= k <= |rest| && OverOrTaken(Exec(s', rest[..k]));
      assert events[..k + 1][1..] == rest[..k];
      assert OverOrTaken(Exec(s, events[..k + 1]));
    } else {
      assert events[..1][1..] == [];
      assert OverOrTaken(Exec(s, events[..1]));
    }
  }

  /** A session nobody connects to is still there, or it has ended. */
  lemma {:induction false} SessionStays(s: State, events: seq<Event>)
    requires Inv(s) && Unclaimed(s)
    ensures (exists k :: 0 <= k <= |events| && OverOrTaken(Exec(s, events[..k])))
            || (Unclaimed(Exec(s, events)) && Exec(s, events).log.enteredTrue == s.log.enteredTrue)
    decreases |events|
  {
    hide Step, Inv, Unclaimed, OverOrTaken;
    if events != [] {
      var s', rest := Step(s, events[0]), events[1..];
      InvStep(s, events[0]);
      UnclaimedStep(s, events[0]);
      if OverOrTaken(s') {
        assert events[..1][1..] == [];
        assert OverOrTaken(Exec(s, events[..1]));
      } else {
        SessionStays(s', rest);
        if k :| 0 <= k <= |rest| && OverOrTaken(Exec(s', rest[..k])) {
          assert events[..k + 1][1..] == rest[..k];
          assert OverOrTaken(Exec(s, events[..k + 1]));
        }
      }
    }
  }

  /**
   A whole session: from any moment of a BLE session to which nobody is
   connected, let anything happen until more than 20000 ms have passed since
   its entry, and then eleven statements of `loop()` within the round, with
   anything between them. Along the way the session ended or somebody connected.
   */
  lemma SessionEnds(s: State, before: seq<Event>, after: seq<Event>, round: nat)
    requires Inv(s) && Unclaimed(s) && Loops(after) >= 11
    requires Exec(s, before).now - s.log.enteredTrue - round * MILLIS_WRAP > 20000
    requires Exec(s, before + after).now - s.log.enteredTrue - round * MILLIS_WRAP < 0x1_0000_0000
    ensures exists k :: 0 <= k <= |before + after| && OverOrTaken(Exec(s, (before + after)[..k]))
  {
    hide Step, Inv, Unclaimed, OverOrTaken, Exec, Waits;
    SessionStays(s, before);
    if k :| 0 <= k <= |before| && OverOrTaken(Exec(s, before[..k])) {
      assert (before + after)[..k] == before[..k];
    } else {
      var s1 := Exec(s, before);
      InvRun(s, before);
      ExecTwo(s, before, after);
      AtMostEleven(s1.pc);
      TimeoutEndsBle(s1, after, round);
      var k :| 0 <= k <= |after| && OverOrTaken(Exec(s1, after[..k]));
      ExecTwo(s, before, after[..k]);
      assert (before + after)[..|before| + k] == before + after[..k];
    }
  }

  lemma AtMostEleven(pc: Pc)
    ensures TimeLeft(pc) <= 11
  {
  }

  /**
   Wake counting: NFC-triggered entries, plus one while block 8 holds an
   unconsumed wake payload, never exceed the wake payloads that reached block 8
   plus an initial one plus the clears that were lost; and every OK answer to
   WAKE stands for a wake payload of its own that was read back.
   */
  lemma WakeCounting(size: nat, block8: seq<byte>, now: nat, events: seq<Event>)
    ensures var s := Exec(Boot(size, block8, now), events);
      && s.log.entries + Token(s.block8) <= s.log.wakes + Token(block8) + s.log.lostClears
      && s.log.okAnswers <= s.log.wakes
  {
    BootInv(size, block8, now);
    InvRun(Boot(size, block8, now), events);
    Token0Kept(Boot(size, block8, now), events);
  }

  /** A wake payload comes to nothing: it lands on one still pending, or a pending one is cleared from outside. */
  predicate Wasted(s: State, e: Event) {
    s.block8 == WAKE_PAYLOAD &&
    match e
    case TrigNfc(landed) => landed && s.pc == PollCdc
    case RfWake(outcome) => outcome != NotWritten && s.reader == Quiet
    case RfClear(outcome) => outcome != NotWritten && s.reader == Quiet
    case _ => false
  }

  /** An entry that takes no payload away: its clear is lost, or the block was cleared before it. */
  predicate Unpaid(s: State, e: Event) {
    e.Loop? && s.pc == ConsumeTrigger && !(e.ok && s.block8 == WAKE_PAYLOAD)
  }

  function WastedIn(s: State, events: seq<Event>): nat
    decreases |events|
  {
    if events == [] then 0 else (if Wasted(s, events[0]) then 1 else 0) + WastedIn(Step(s, events[0]), events[1..])
  }

  function UnpaidIn(s: State, events: seq<Event>): nat
    decreases |events|
  {
    if events == [] then 0 else (if Unpaid(s, events[0]) then 1 else 0) + UnpaidIn(Step(s, events[0]), events[1..])
  }

  /** Wake payloads written and not yet used. */
  function Slack(s: State): int {
    s.log.wakes - s.log.entries - Token(s.block8)
  }

  lemma SlackStep(s: State, e: Event)
    ensures Slack(Step(s, e)) == Slack(s) + (if Wasted(s, e) then 1 else 0) - (if Unpaid(s, e) then 1 else 0)
  {
    hide LoopStep, Callback, TagAccess;
    if e.Loop? {
      LoopSlack(s, e);
    } else {
      TagSlack(s, e);
    }
  }

  lemma LoopSlack(s: State, e: Event)
    requires e.Loop?
    ensures Slack(LoopStep(s, e.ok)) == Slack(s) - (if Unpaid(s, e) then 1 else 0) && !Wasted(s, e)
  {
    hide EnterBle, EnterEspNow, Watch;
  }

  lemma TagSlack(s: State, e: Event)
    requires !e.Loop?
    ensures Slack(TagAccess(s, e)) == Slack(s) + (if Wasted(s, e) then 1 else 0) && !Unpaid(s, e)
  {
  }

  lemma {:induction false} SlackRun(s: State, events: seq<Event>)
    ensures Slack(Exec(s, events)) == Slack(s) + WastedIn(s, events) - UnpaidIn(s, events)
    decreases |events|
  {
    hide Step, Wasted, Unpaid, Slack;
    if events != [] {
      SlackStep(s, events[0]);
      SlackRun(Step(s, events[0]), events[1..]);
    }
  }

  /**
   Entries and a pending wake exceed the wakes written and the initial one
   exactly when more entries took no payload away than payloads came to nothing.
   */
  lemma WakesExceededIff(size: nat, block8: seq<byte>, now: nat, events: seq<Event>)
    ensures var boot := Boot(size, block8, now);
      var s := Exec(boot, events);
      s.log.entries + Token(s.block8) > s.log.wakes + Token(block8) <==> UnpaidIn(boot, events) > WastedIn(boot, events)
  {
    SlackRun(Boot(size, block8, now), events);
  }

  /**
   A WAKE of the reader, with anything but further reader commands between its
   write and its read-back, is answered OK exactly when the write was
   acknowledged, the read succeeds and the payload is still there.
   */
  lemma WakeAnsweredIff(s: State, outcome: RfWrite, between: seq<Event>, readOk: bool)
    requires s.reader == Quiet
    requires forall e :: e in between ==> !e.RfWake? && !e.RfClear? && !e.RfVerify?
    ensures var r := Exec(Step(s, RfWake(outcome)), between);
      var answered := Step(r, RfVerify(readOk));
      && (outcome != NotWritten ==> Step(s, RfWake(outcome)).block8 == [0x46, 0x54, 0x57, 0x4B])
      && answered.reader == Quiet
      && answered.log.okAnswers == s.log.okAnswers
         + (if outcome == Acknowledged && readOk && r.block8 == WAKE_PAYLOAD then 1 else 0)
  {
    ReaderWaits(Step(s, RfWake(outcome)), between);
    hide Exec, LoopStep, Callback;
  }

  /** The same for CLEAR, whose payload is four zeros. */
  lemma ClearAnsweredIff(s: State, outcome: RfWrite, between: seq<Event>, readOk: bool)
    requires s.reader == Quiet
    requires forall e :: e in between ==> !e.RfWake? && !e.RfClear? && !e.RfVerify?
    ensures var r := Exec(Step(s, RfClear(outcome)), between);
      var answered := Step(r, RfVerify(readOk));
      && (outcome != NotWritten ==> Step(s, RfClear(outcome)).block8 == [0, 0, 0, 0])
      && answered.reader == Quiet && answered.log.okAnswers == s.log.okAnswers
      && answered.log.okClears == s.log.okClears
         + (if outcome == Acknowledged && readOk && r.block8 == CLEAR_PAYLOAD then 1 else 0)
  {
    ReaderWaits(Step(s, RfClear(outcome)), between);
    hide Exec, LoopStep, Callback;
  }

  lemma ReaderStep(s: State, e: Event)
    requires !e.RfWake? && !e.RfClear? && !e.RfVerify?
    ensures Step(s, e).reader == s.reader
    ensures Step(s, e).log.okAnswers == s.log.okAnswers && Step(s, e).log.okClears == s.log.okClears
  {
    hide LoopStep, Callback;
  }

  lemma {:induction false} ReaderWaits(s: State, events: seq<Event>)
    requires forall e :: e in events ==> !e.RfWake? && !e.RfClear? && !e.RfVerify?
    ensures Exec(s, events).reader == s.reader
    ensures Exec(s, events).log.okAnswers == s.log.okAnswers && Exec(s, events).log.okClears == s.log.okClears
    decreases |events|
  {
    hide Step;
    if events != [] {
      ReaderStep(s, events[0]);
      ReaderWaits(Step(s, events[0]), events[1..]);
    }
  }

  lemma {:induction false} Token0Kept(s: State, events: seq<Event>)
    ensures Exec(s, events).log.token0 == s.log.token0
    decreases |events|
  {
    hide Step;
    if events != [] {
      Token0Kept(Step(s, events[0]), events[1..]);
    }
  }

  /** Mode switches, interrupts, reader accesses and reads leave the embedding alone. */
  lemma {:induction false} MemoryKept(s: State, events: seq<Event>)
    requires forall e :: e in events ==> !e.EmbedWrite?
    ensures Exec(s, events).mem == s.mem
    decreases |events|
  {
    hide Step;
    if events != [] {
      MemoryKept(Step(s, events[0]), events[1..]);
    }
  }

  /** One wake write reaches a freshly booted wristband, and the next pass is about to read block 8. */
  lemma WakePending(events: seq<Event>)
    requires events == [RfWake(Acknowledged), Gpo] + [Loop(true), Loop(true)]
    ensures var s := Exec(Boot(0, CLEAR_PAYLOAD, 0), events);
      && s.pc == ReadTrigger && s.block8 == WAKE_PAYLOAD
      && s.log.entries == 0 && s.log.wakes == 1 && s.log.lostClears == 0
  {
    hide Exec, LoopStep;
    var boot := Boot(0, CLEAR_PAYLOAD, 0);
    var s1 := Step(boot, RfWake(Acknowledged));
    assert s1.block8 == WAKE_PAYLOAD && s1.log == boot.log.(wakes := 1) && s1.pc == PollCdc && s1.mode == EspNow;
    ExecOne(boot, RfWake(Acknowledged));
    ExecOne(s1, Gpo);
    ExecTwo(boot, [RfWake(Acknowledged)], [Gpo]);
    assert [RfWake(Acknowledged)] + [Gpo] == [RfWake(Acknowledged), Gpo];
    var s2 := s1.(gpo := true);
    hide Step, Boot, TagAccess;
    ExecPair(s2, true, true);
    PassStarts(s2);
    ExecTwo(boot, [RfWake(Acknowledged), Gpo], [Loop(true), Loop(true)]);
  }

  /**
   Such a run: the reader wrote one wake payload, one entry was triggered, its
   clear was lost, and block 8 still holds the payload.
   */
  lemma LostClearExceedsCount()
    ensures exists events :: var s := Exec(Boot(0, CLEAR_PAYLOAD, 0), events);
      s.log.entries + Token(s.block8) > s.log.wakes + Token(CLEAR_PAYLOAD) && s.log.lostClears == 1
  {
    hide Exec, Boot;
    var events := [RfWake(Acknowledged), Gpo] + [Loop(true), Loop(true)];
    var boot := Boot(0, CLEAR_PAYLOAD, 0);
    WakePending(events);
    TriggerChecked(Exec(boot, events), true, false);
    ExecTwo(boot, events, [Loop(true), Loop(false)]);
    assert Exec(boot, events + [Loop(true), Loop(false)]).log.entries == 1;
  }
}
