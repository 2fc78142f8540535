/**
 The server's three flows as whole commands of the runner: issue, entry and
 return over one session, the issue table, one BLE link and the wristbands'
 memories. Everything the environment decides - which wristband connects, which
 call fails and when - is part of the event, so a law over all event sequences
 covers every environment.
 */
module Flows {
  import opened Wrappers
  import opened Chunks
  import opened Embeddings
  import opened IssueTable
  import Firmware

  datatype Flow = Issuing | Entering | Returning

  /** States shown on the admin console. */
  datatype Screen = Idle | AwaitFace | AwaitTag | AwaitFaceEntry | Done

  datatype Session = Session(flow: Option<Flow>, seat: string, name: string, embedding: Option<Embedding>)

  const NO_SESSION := Session(None, "", "", None)

  /** Commands sent to the gate; a pass carries what it was decided on. */
  datatype Signal = PassSignal(source: Option<string>, stored: Embedding, live: Embedding) | DenySignal

  datatype System = System(
    session: Session,
    table: Table,
    bands: map<string, Firmware.State>,
    link: Option<string>,               // the wristband the BLE client is connected to
    trace: seq<Screen>,                 // states emitted to the console
    lingers: nat,                       // "done" screens that will still time out
    gate: seq<Signal>,
    source: Option<string>,             // history: the wristband the last stored face was read from
    issued: map<nat, Embedding>)        // history: the face each row was issued with

  // ---------------------------------------------------------- the environment

  datatype Connection = Unreachable | Connected(wristband: string)

  /** Waiting for the tag: the operator device, the wake poll and the BLE connection. */
  datatype TagEnv = TagEnv(device: bool, wake: bool, connection: Connection)

  /**
   How the broadcasts go that complete or abort a command; one fails when a
   console joins or leaves meanwhile. Stuck: the first one fails and the session
   stays as it is. Unshown: the last one fails, after an abort's reset.
   */
  datatype Closing = Closed | Stuck | Unshown

  /** `logRaises` is an exception of a log line after the row is recorded. */
  datatype IssueEnv = IssueEnv(
    tag: TagEnv, idRead: bool, write: Fault, database: bool, logRaises: bool, now: string, closing: Closing)

  /**
   `flag` is the contact flag read, if the read succeeds; `raises` any other
   exception before the face is stored, `showRaises` one after that.
   */
  datatype EntryEnv = EntryEnv(
    tag: TagEnv, read: Fault, flag: Option<bool>, raises: bool, showRaises: bool, closing: Closing)

  /**
   `logRaises` is an exception of the log line that follows the comparison,
   `raises` one later on, before the gate task is started.
   */
  datatype FaceEnv = FaceEnv(device: bool, logRaises: bool, raises: bool, closing: Closing)

  /** `logRaises` is an exception of the log line after the row is closed. */
  datatype ReturnEnv = ReturnEnv(
    tag: TagEnv, idRead: bool, write: Fault, database: bool, logRaises: bool, now: string, closing: Closing)

  /** `shown` and `out` tell whether the broadcasts of an issue's start, and at the end of a "done" screen, get out. */
  datatype Event =
    | IssueStart(seat: string, name: string, device: bool, shown: bool, closing: Closing)
    | FaceCaptured(live: Embedding, issue: IssueEnv, face: FaceEnv)
    | EntryStart(device: bool, entry: EntryEnv)
    | ReturnStart(device: bool, return_: ReturnEnv)
    | Cancel(closing: Closing)
    | LingerFires(out: bool)
    | Wristband(id: string, event: Firmware.Event)

  // ------------------------------------------------------------------ helpers

  function Emit(s: System, screen: Screen): System {
    s.(trace := s.trace + [screen])
  }

  function Abort(s: System, closing: Closing): (r: System)
    ensures r == s.(link := r.link, session := r.session, trace := r.trace, lingers := r.lingers)
  {
    match closing
    case Closed => Emit(s.(link := None, session := NO_SESSION), Idle)
    case Unshown => s.(link := None, session := NO_SESSION)
    case Stuck => s
  }

  function MarkDone(s: System, closing: Closing): (r: System)
    ensures r == s.(link := r.link, session := r.session, trace := r.trace, lingers := r.lingers)
  {
    if closing == Closed then Emit(s, Done).(session := NO_SESSION, lingers := s.lingers + 1) else s
  }

  predicate Busy(s: System) {
    s.session.flow.Some?
  }

  /** The wristband reached after a successful wake, if any. */
  function Reached(s: System, tag: TagEnv): Option<string> {
    if tag.device && tag.wake && tag.connection.Connected? && tag.connection.wristband in s.bands
    then Some(tag.connection.wristband) else None
  }

  function WriteBand(s: System, id: string, data: seq<byte>, fault: Fault): (r: (System, bool))
    requires id in s.bands
    ensures r.0 == s.(bands := r.0.bands)
  {
    var (mem, ok) := WriteRun(s.bands[id].mem, data, EMBED_CHUNK, fault, 0, 0);
    (s.(bands := s.bands[id := s.bands[id].(mem := mem)]), ok)
  }

  lemma WriteIgnoresLink(s: System, link: Option<string>, id: string, data: seq<byte>, fault: Fault)
    requires id in s.bands
    ensures WriteBand(s.(link := link), id, data, fault).0 == WriteBand(s, id, data, fault).0.(link := link)
    ensures WriteBand(s.(link := link), id, data, fault).1 == WriteBand(s, id, data, fault).1
  {
    hide WriteRun;
  }

  function ReadBand(s: System, id: string, fault: Fault): (r: (System, Option<Embedding>))
    requires id in s.bands
    ensures r.0 == s.(bands := r.0.bands)
    ensures r.1.Some? ==> |r.1.value| == EMBED_BYTES
  {
    var band := s.bands[id];
    var (bytes, off) := ReadRun(band.mem, band.readOff, CHUNK_MAX, Zeros(EMBED_BYTES), EMBED_CHUNK, fault, 0, 0);
    var face: Option<Embedding> := match bytes case Some(b) => Some(b) case None => None;
    (s.(bands := s.bands[id := band.(readOff := off)]), face)
  }

  lemma ReadIgnoresLink(s: System, link: Option<string>, id: string, fault: Fault)
    requires id in s.bands
    ensures ReadBand(s.(link := link), id, fault).0 == ReadBand(s, id, fault).0.(link := link)
    ensures ReadBand(s.(link := link), id, fault).1 == ReadBand(s, id, fault).1
  {
    hide ReadRun;
  }

  // -------------------------------------------------------------------- flows

  /** Tag step of an issue: check both columns, write the face, record the row. */
  function IssueOnTag(s: System, env: IssueEnv): (System, bool) {
    var reached := Reached(s, env.tag);
    if s.session.embedding.None? || reached.None? then (s, false)
    else
      var id, face, open := reached.value, s.session.embedding.value, s.(link := None);
      if !env.idRead || id == "" then (open, false)
      else if WristbandActive(s.table.rows, id) then (open, false)
      else if SeatActive(s.table.rows, s.session.seat) then (open, false)
      else
        var (written, ok) := WriteBand(open, id, face, env.write);
        if !ok || !env.database then (written, false)
        else
          var (table, r) := InsertIssue(s.table, id, s.session.seat, s.session.name, env.now);
          match r
          case Issued(row) => (written.(table := table, issued := s.issued[row := face]), !env.logRaises)
          case _ => (written, false)
  }

  /**
   Tag step of an entry: read the face and the contact flag, keep the face when
   both are good. It leaves the link open only when a face was stored.
   */
  function EntryOnTag(s: System, env: EntryEnv): (System, bool) {
    var reached := Reached(s, env.tag);
    if reached.None? then (s, false)
    else
      var (read, stored) := ReadBand(s.(link := None), reached.value, env.read);
      if env.raises || stored.None? then (read, false)
      else if env.flag != Some(false) then (read.(gate := s.gate + [DenySignal]), false)
      else if Unissued(stored.value) then (read, false)
      else
        var kept := read.(link := reached, source := reached, session := s.session.(embedding := stored));
        if env.showRaises then (kept, false) else (Emit(kept, AwaitFaceEntry), true)
  }

  /** Comparison step of an entry. A comparison or a log line that raises leaves before the link is closed. */
  function EntryOnFace(s: System, live: Embedding, env: FaceEnv): System {
    if s.session.embedding.None? then s
    else
      var stored := s.session.embedding.value;
      var verdict := Judge(stored, live);
      if verdict == Raise || env.logRaises then s
      else if verdict == Pass then
        s.(link := None,
           gate := if env.device && !env.raises then s.gate + [PassSignal(s.source, stored, live)] else s.gate)
      else s.(link := None, gate := if env.device then s.gate + [DenySignal] else s.gate)
  }

  /** Tag step of a return: clear the wristband, then close its row. A failed id read goes unnoticed. */
  function ReturnOnTag(s: System, env: ReturnEnv): (System, bool) {
    var reached := Reached(s, env.tag);
    if reached.None? then (s, false)
    else
      var id := if env.idRead then reached.value else "";
      var (cleared, _) := WriteBand(s.(link := None), reached.value, Zeros(EMBED_BYTES), env.write);
      if !env.database then (cleared, false)
      else (cleared.(table := UpdateReturn(s.table, id, env.now).0), !env.logRaises)
  }

  function Finish(s: System, ok: bool, closing: Closing): (r: System)
    ensures r == s.(link := r.link, session := r.session, trace := r.trace, lingers := r.lingers)
  {
    if ok then MarkDone(s, closing) else Abort(s, closing)
  }

  function StepIssueStart(
    s: System, seat: string, name: string, device: bool, shown: bool, closing: Closing): System
  {
    if Busy(s) then s
    else if !device then Abort(s, closing)
    else
      var started := s.(session := Session(Some(Issuing), seat, name, None));
      if shown then Emit(started, AwaitFace) else Abort(started, closing)
  }

  function StepFace(s: System, live: Embedding, issue: IssueEnv, face: FaceEnv): System {
    match s.session.flow
    case Some(Issuing) =>
      var (s', ok) := IssueOnTag(Emit(s.(session := s.session.(embedding := Some(live))), AwaitTag), issue);
      Finish(s', ok, issue.closing)
    case Some(Entering) => MarkDone(EntryOnFace(s, live, face), face.closing)
    case _ => s
  }

  function StepEntryStart(s: System, device: bool, env: EntryEnv): System {
    if Busy(s) then s
    else if !device then Abort(s, env.closing)
    else
      var (s', ok) := EntryOnTag(Emit(s.(session := Session(Some(Entering), "", "", None)), AwaitTag), env);
      if ok then s' else Abort(s', env.closing)
  }

  function StepReturnStart(s: System, device: bool, env: ReturnEnv): System {
    if Busy(s) then s
    else if !device then Abort(s, env.closing)
    else
      var (s', ok) := ReturnOnTag(Emit(s.(session := Session(Some(Returning), "", "", None)), AwaitTag), env);
      Finish(s', ok, env.closing)
  }

  function StepLinger(s: System, out: bool): System {
    if s.lingers == 0 then s
    else
      var s' := s.(lingers := s.lingers - 1);
      if Busy(s) || !out then s' else Emit(s', Idle)
  }

  /** Anything a wristband does on its own; embedding writes come only from the runner. */
  function StepWristband(s: System, id: string, event: Firmware.Event): System {
    if id !in s.bands || event.EmbedWrite? then s
    else s.(bands := s.bands[id := Firmware.Step(s.bands[id], event)])
  }

  function Step(s: System, e: Event): System {
    match e
    case IssueStart(seat, name, device, shown, closing) => StepIssueStart(s, seat, name, device, shown, closing)
    case FaceCaptured(live, issue, face) => StepFace(s, live, issue, face)
    case EntryStart(device, env) => StepEntryStart(s, device, env)
    case ReturnStart(device, env) => StepReturnStart(s, device, env)
    case Cancel(closing) => Abort(s, closing)
    case LingerFires(out) => StepLinger(s, out)
    case Wristband(id, event) => StepWristband(s, id, event)
  }

  function Run(s: System, events: seq<Event>): System
    decreases |events|
  {
    if events == [] then s else Run(Step(s, events[0]), events[1..])
  }

  /** A fresh server and freshly booted wristbands. */
  predicate Initial(s: System) {
    && s.session == NO_SESSION && s.table == EMPTY && s.link == None && s.trace == [] && s.lingers == 0
    && s.gate == [] && s.source == None && s.issued == map[]
    && forall id :: id in s.bands ==> s.bands[id].mem == Zeros(EMBED_BYTES)
  }
}
