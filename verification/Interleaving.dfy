/**
 The flows at the granularity of `await`: every coroutine is a task that runs
 from one suspension to the next, and tasks interleave freely with each other
 and with new commands. Results of BLE, device and NFC calls are arbitrary, and
 a call already in flight may complete after the link was dropped, because a
 failed disconnect is only logged.
 */
module Interleaving {
  import opened Wrappers
  import opened Embeddings
  import opened IssueTable
  import opened Flows
  import Chunks

  /**
   Where a coroutine is suspended. Awaits in a row between which nothing that is
   followed here is read or written are one suspension; the contents of memories
   are not followed. Issue tasks know the number of the session they were started in.
   */
  datatype Task =
    | Finished
    // issue
    | IssueShown
    | IssueEnter(own: nat) | IssueTag(own: nat) | IssueWake(own: nat) | IssueConnect(own: nat) | IssueLink(own: nat)
    | IssueId(own: nat) | IssueWrite(own: nat, id: string) | IssueSeat(own: nat, id: string) | IssueClose
    // entry
    | EntryEnter | EntryTag | EntryWake | EntryConnect | EntryLink | EntryRead
    | EntryReading(clients: seq<Option<string>>)
    | EntryFlag(face: Option<Embedding>, clients: seq<Option<string>>, flagFrom: Option<string>)
    | EntryShown | EntryFail
    // comparison and gate
    | Comparing(stored: Embedding, live: Embedding) | PassLed(stored: Embedding, live: Embedding)
    | OpenGate(stored: Embedding, live: Embedding) | FaceClose
    // return
    | ReturnEnter | ReturnTag | ReturnWake | ReturnConnect | ReturnLink | ReturnId | ReturnClear(id: string)
    // common endings
    | DoneReset | AbortReset(next: Next)

  /** After an abort: the end, or, when a start failed, the tag step that is called after it. */
  datatype Next = Ends | ToIssueTag(own: nat) | ToEntryTag | ToReturnTag

  /** A face read takes an offset write and an attribute read for each chunk; each looks the client up anew. */
  const READ_CALLS := 2 * (Chunks.EMBED_BYTES / Chunks.EMBED_CHUNK)

  /** A tag step that kept a stored face: the face, the flag it read, and the client each call went to. */
  datatype TagRead = TagRead(stored: Embedding, broken: bool, clients: seq<Option<string>>, flagFrom: Option<string>)

  datatype Opening = Opening(stored: Embedding, live: Embedding)

  datatype Seating = Seating(seat: string, name: string)

  type Seatings = s: seq<Seating> | |s| > 0 witness [Seating("", "")]

  /** A row as it was inserted, the session its issue task was started in, and the one it took seat and name from. */
  datatype Record = Record(row: Row, own: nat, used: nat)

  /**
   What all coroutines share. `client` is the connection made last; closing it
   does not change which one it is. The rest are histories: `sessions` has the
   seat and name of every session so far, an entry for each start and reset;
   `records` has an entry for each row.
   */
  datatype Shared = Shared(
    session: Session, table: Table, client: Option<string>,
    tagReads: seq<TagRead>, gate: seq<Opening>, sessions: Seatings, records: seq<Record>)

  datatype State = State(shared: Shared, tasks: seq<Task>)

  /** Result of the awaited call; each task looks at the part that concerns it. */
  datatype Outcome = Outcome(
    ok: bool, again: bool, device: bool, id: string, bytes: Embedding, broken: bool, now: string)

  datatype Event =
    | CallIssue(seat: string, name: string, device: bool)
    | CallEntry(device: bool)
    | CallReturn(device: bool)
    | CallFace(live: Embedding)
    | CallCancel
    | Resume(task: nat, outcome: Outcome)

  const INIT := State(Shared(NO_SESSION, EMPTY, None, [], [], [Seating("", "")], []), [])

  // ------------------------------------------------------------------- commands

  /** A start or a reset: the whole session is overwritten. */
  function Overwrite(s: Shared, session: Session): Shared {
    s.(session := session, sessions := s.sessions + [Seating(session.seat, session.name)])
  }

  /** Guard and session start have no suspension between them. */
  function Begin(s: State, session: Session, device: bool, next: Task, failed: Next): State {
    if s.shared.session.flow.Some? then s
    else if !device then s.(tasks := s.tasks + [AbortReset(failed)])
    else State(Overwrite(s.shared, session), s.tasks + [next])
  }

  /** A captured face is dispatched on the flow, and compared, without a suspension. */
  function Face(s: State, live: Embedding): State {
    var session := s.shared.session;
    match session.flow
    case Some(Issuing) =>
      State(s.shared.(session := session.(embedding := Some(live))),
            s.tasks + [IssueEnter(|s.shared.sessions| - 1)])
    case Some(Entering) =>
      var next :=
        if session.embedding.None? || Judge(session.embedding.value, live) == Raise then DoneReset
        else Comparing(session.embedding.value, live);
      s.(tasks := s.tasks + [next])
    case _ => s
  }

  // ---------------------------------------------------------------- resumption

  /**
   The scan for the wristband ends and the central keeps the new client, which
   it then connects. A failed connection may be tried again with another scan.
   */
  function Connect(s: Shared, o: Outcome, next: Task): (Shared, Task) {
    if o.ok then (s.(client := Some(o.id)), next) else (s, AbortReset(Ends))
  }

  function Linked(o: Outcome, next: Task, retry: Task): Task {
    if o.ok then next else if o.again then retry else AbortReset(Ends)
  }

  predicate IsIssue(t: Task) {
    t.IssueEnter? || t.IssueTag? || t.IssueWake? || t.IssueConnect? || t.IssueLink? || t.IssueId?
    || t.IssueWrite? || t.IssueSeat? || t.IssueClose?
  }

  predicate IsEntry(t: Task) {
    t.EntryEnter? || t.EntryTag? || t.EntryWake? || t.EntryConnect? || t.EntryLink? || t.EntryRead?
    || t.EntryReading? || t.EntryFlag? || t.EntryShown? || t.EntryFail?
  }

  predicate IsReturn(t: Task) {
    t.ReturnEnter? || t.ReturnTag? || t.ReturnWake? || t.ReturnConnect? || t.ReturnLink? || t.ReturnId?
    || t.ReturnClear?
  }

  predicate IsReset(t: Task) {
    t.DoneReset? || t.AbortReset?
  }

  /** An issue task, or the abort before one. */
  predicate Owned(t: Task) {
    (IsIssue(t) && t != IssueClose) || (t.AbortReset? && t.next.ToIssueTag?)
  }

  function OwnOf(t: Task): nat
    requires Owned(t)
  {
    if t.AbortReset? then t.next.own else t.own
  }

  /** The guard of a tag step and its look at the device; a missing device aborts. */
  function Guard(s: Shared, flow: Flow, o: Outcome, next: Task): Task {
    if s.session.flow != Some(flow) then Finished else if o.device then next else AbortReset(Ends)
  }

  function IssueGuard(s: Shared, own: nat, o: Outcome): Task {
    if s.session.flow == Some(Issuing) && s.session.embedding.None? then AbortReset(Ends)
    else Guard(s, Issuing, o, IssueWake(own))
  }

  /** The tag step after a failed start awaits the abort's last broadcast. */
  function After(next: Next): Task {
    match next
    case Ends => Finished
    case ToIssueTag(own) => IssueTag(own)
    case ToEntryTag => EntryTag
    case ToReturnTag => ReturnTag
  }

  /** The table, and the row's history, when an issue task reaches the database. */
  function RecordRow(s: Shared, own: nat, id: string, now: string): (Shared, Task) {
    var (table, r) := InsertIssue(s.table, id, s.session.seat, s.session.name, now);
    if r.Issued? then
      var row := Row(r.id, id, s.session.seat, s.session.name, now, None);
      (s.(table := table, records := s.records + [Record(row, own, |s.sessions| - 1)]), IssueClose)
    else (s, AbortReset(Ends))
  }

  /** Resumes a task of the issue flow. Nothing is awaited between the seat write and the row. */
  function Issue(s: Shared, t: Task, o: Outcome): (r: (Shared, Task))
    ensures r.0 == s.(table := r.0.table, client := r.0.client, records := r.0.records)
    ensures IsIssue(t) ==> IsIssue(r.1) || IsReset(r.1) || r.1 == Finished
  {
    match t
    case IssueEnter(own) => (s, if o.ok then IssueGuard(s, own, o) else AbortReset(ToIssueTag(own)))
    case IssueTag(own) => (s, if o.ok then IssueGuard(s, own, o) else Finished)
    case IssueWake(own) => (s, if o.ok then IssueConnect(own) else AbortReset(Ends))
    case IssueConnect(own) => Connect(s, o, IssueLink(own))
    case IssueLink(own) => (s, Linked(o, IssueId(own), IssueConnect(own)))
    case IssueId(own) =>
      if !o.ok || o.id == "" then (s, AbortReset(Ends))
      else if WristbandActive(s.table.rows, o.id) || SeatActive(s.table.rows, s.session.seat) then (s, AbortReset(Ends))
      else (s, IssueWrite(own, o.id))
    case IssueWrite(own, id) => (s, if o.ok then IssueSeat(own, id) else AbortReset(Ends))
    case IssueSeat(own, id) => if o.ok then RecordRow(s, own, id, o.now) else (s, AbortReset(Ends))
    case IssueClose => (s, DoneReset)
    case _ => (s, t)
  }

  /** Resumes a task of the entry flow's tag step. */
  function Entry(s: Shared, t: Task, o: Outcome): (r: (Shared, Task))
    ensures r.0 == s.(session := s.session.(embedding := r.0.session.embedding), client := r.0.client,
                      tagReads := r.0.tagReads)
    ensures IsEntry(t) ==> IsEntry(r.1) || (IsReset(r.1) && !Owned(r.1)) || r.1 == Finished
  {
    match t
    case EntryEnter => (s, if o.ok then Guard(s, Entering, o, EntryWake) else AbortReset(ToEntryTag))
    case EntryTag => (s, if o.ok then Guard(s, Entering, o, EntryWake) else Finished)
    case EntryWake => (s, if o.ok then EntryConnect else AbortReset(Ends))
    case EntryConnect => Connect(s, o, EntryLink)
    case EntryLink => (s, Linked(o, EntryRead, EntryConnect))
    case EntryRead => (s, if o.ok then EntryReading([s.client]) else EntryFail)
    case EntryReading(clients) => (s, ReadOn(s, clients, o))
    case EntryFlag(face, clients, flagFrom) =>
      var broken := !o.ok || o.broken;
      if face.None? || broken || Unissued(face.value) then (s, EntryFail)
      else
        var r := TagRead(face.value, broken, clients, flagFrom);
        (s.(session := s.session.(embedding := face), tagReads := s.tagReads + [r]), EntryShown)
    case EntryShown => (s, if o.ok then Finished else AbortReset(Ends))
    case EntryFail => (s, AbortReset(Ends))
    case _ => (s, t)
  }

  /** A call of the face read is back: the next, or after the last the flag read, goes to the client of the moment. */
  function ReadOn(s: Shared, clients: seq<Option<string>>, o: Outcome): Task {
    if !o.ok then EntryFlag(None, clients, s.client)
    else if |clients| < READ_CALLS then EntryReading(clients + [s.client])
    else EntryFlag(Some(o.bytes), clients, s.client)
  }

  /** Resumes the comparison, the gate task or a common ending. */
  function Ending(s: Shared, t: Task, o: Outcome): (r: (Shared, Task))
    ensures r.0 == s.(session := r.0.session, sessions := r.0.sessions, gate := r.0.gate)
    ensures !IsEntry(t) ==> !r.1.EntryReading? && !r.1.EntryFlag?
  {
    match t
    case Comparing(stored, live) =>
      (s, if !o.ok then DoneReset else if Judge(stored, live) == Pass then PassLed(stored, live) else FaceClose)
    case OpenGate(stored, live) => (s.(gate := s.gate + [Opening(stored, live)]), Finished)
    case FaceClose => (s, DoneReset)
    case IssueShown => (s, if o.ok then Finished else AbortReset(Ends))
    case DoneReset => (Overwrite(s, NO_SESSION), Finished)
    case AbortReset(next) => (Overwrite(s, NO_SESSION), After(next))
    case _ => (s, t)
  }

  /** Resumes a task of the return flow. */
  function Return_(s: Shared, t: Task, o: Outcome): (r: (Shared, Task))
    ensures r.0 == s.(table := r.0.table, client := r.0.client)
    ensures IsReturn(t) ==> IsReturn(r.1) || (IsReset(r.1) && !Owned(r.1)) || r.1 == Finished
  {
    match t
    case ReturnEnter => (s, if o.ok then Guard(s, Returning, o, ReturnWake) else AbortReset(ToReturnTag))
    case ReturnTag => (s, if o.ok then Guard(s, Returning, o, ReturnWake) else Finished)
    case ReturnWake => (s, if o.ok then ReturnConnect else AbortReset(Ends))
    case ReturnConnect => Connect(s, o, ReturnLink)
    case ReturnLink => (s, Linked(o, ReturnId, ReturnConnect))
    case ReturnId => (s, ReturnClear(if o.ok then o.id else ""))
    case ReturnClear(id) =>
      if o.ok then (s.(table := UpdateReturn(s.table, id, o.now).0), DoneReset) else (s, AbortReset(Ends))
    case _ => (s, t)
  }

  function Advance(s: Shared, t: Task, o: Outcome): (Shared, Task) {
    if IsIssue(t) then Issue(s, t, o)
    else if IsEntry(t) then Entry(s, t, o)
    else if IsReturn(t) then Return_(s, t, o)
    else Ending(s, t, o)
  }

  /** Resumes task `i`; a pass also starts the gate's own task, in the background. */
  function ResumeTask(s: State, i: nat, o: Outcome): State {
    if i >= |s.tasks| then s
    else if s.tasks[i].PassLed? then
      var gateTask := if o.ok then [OpenGate(s.tasks[i].stored, s.tasks[i].live)] else [];
      s.(tasks := s.tasks[i := FaceClose] + gateTask)
    else
      var (shared, t) := Advance(s.shared, s.tasks[i], o);
      State(shared, s.tasks[i := t])
  }

  function Step(s: State, e: Event): State {
    match e
    case CallIssue(seat, name, device) =>
      // the face arrives as a command of its own; only the start's broadcasts are left to await
      Begin(s, Session(Some(Issuing), seat, name, None), device, IssueShown, Ends)
    case CallEntry(device) => Begin(s, Session(Some(Entering), "", "", None), device, EntryEnter, ToEntryTag)
    case CallReturn(device) => Begin(s, Session(Some(Returning), "", "", None), device, ReturnEnter, ToReturnTag)
    case CallFace(live) => Face(s, live)
    case CallCancel => s.(tasks := s.tasks + [AbortReset(Ends)])
    case Resume(i, o) => ResumeTask(s, i, o)
  }

  function Run(s: State, events: seq<Event>): State
    decreases |events|
  {
    if events == [] then s else Run(Step(s, events[0]), events[1..])
  }

  // ------------------------------------------------------------- the invariant

  /** Some tag step read this face, with contact flag 0, and found it issued. */
  predicate Vouched(tagReads: seq<TagRead>, face: Embedding) {
    exists r :: r in tagReads && r.stored == face && !r.broken && !Unissued(r.stored)
  }

  predicate GateInv(s: Shared) {
    && (s.session.flow == Some(Entering) && s.session.embedding.Some? ==>
          Vouched(s.tagReads, s.session.embedding.value))
    && forall g :: g in s.gate ==> Vouched(s.tagReads, g.stored) && Judge(g.stored, g.live) == Pass
  }

  /** The session of the moment is the last one of the history. */
  predicate SessionInv(s: Shared) {
    s.sessions[|s.sessions| - 1] == Seating(s.session.seat, s.session.name)
  }

  /** The row is what became of the recorded one, which has the seat and name of session `used`. */
  predicate Documents(r: Record, row: Row, sessions: seq<Seating>) {
    && LaterRow(r.row, row)
    && r.own <= r.used < |sessions|
    && sessions[r.used] == Seating(row.seat, row.name)
  }

  ghost predicate TableInv(s: Shared) {
    && Sound(s.table)
    && |s.records| == |s.table.rows|
    && forall i :: 0 <= i < |s.records| ==> Documents(s.records[i], s.table.rows[i], s.sessions)
  }

  ghost predicate SharedInv(s: Shared) {
    GateInv(s) && SessionInv(s) && TableInv(s)
  }

  predicate TaskInv(s: Shared, t: Task) {
    && (t.Comparing? ==> Vouched(s.tagReads, t.stored))
    && (t.PassLed? || t.OpenGate? ==> Vouched(s.tagReads, t.stored) && Judge(t.stored, t.live) == Pass)
    && (Owned(t) ==> OwnOf(t) < |s.sessions|)
  }

  ghost predicate Inv(s: State) {
    SharedInv(s.shared) && forall t :: t in s.tasks ==> TaskInv(s.shared, t)
  }

  /** Histories only grow. */
  predicate Grows(s: Shared, s': Shared) {
    s.tagReads <= s'.tagReads && s.sessions <= s'.sessions
  }

  lemma VouchedGrows(tagReads: seq<TagRead>, more: seq<TagRead>, face: Embedding)
    requires Vouched(tagReads, face)
    ensures Vouched(tagReads + more, face)
  {
    var r :| r in tagReads && r.stored == face && !r.broken && !Unissued(r.stored);
    assert r in tagReads + more;
  }

  lemma LastVouched(tagReads: seq<TagRead>, r: TagRead)
    requires !r.broken && !Unissued(r.stored)
    ensures Vouched(tagReads + [r], r.stored)
  {
    assert r in tagReads + [r];
  }

  lemma OverwriteInv(s: Shared, session: Session)
    requires SharedInv(s) && session.embedding == None
    ensures SharedInv(Overwrite(s, session)) && Grows(s, Overwrite(s, session))
  {
    hide Judge, Vouched, Sound, LaterRow;
  }

  lemma RecordInv(s: Shared, own: nat, id: string, now: string)
    requires SharedInv(s) && own < |s.sessions|
    ensures var (s', t') := RecordRow(s, own, id, now); SharedInv(s') && Grows(s, s') && TaskInv(s', t')
  {
    hide Judge, Vouched, Sound, WristbandActive, SeatActive;
    MatchingKept(s.table, IssueTable.Issue(id, s.session.seat, s.session.name, now));
  }

  lemma ReturnInv(s: Shared, id: string, now: string)
    requires SharedInv(s)
    ensures SharedInv(s.(table := UpdateReturn(s.table, id, now).0))
  {
    hide Judge, Vouched, Sound, WristbandActive;
    MatchingKept(s.table, IssueTable.Return(id, now));
  }

  lemma IssueAdvance(s: Shared, t: Task, o: Outcome)
    requires SharedInv(s) && TaskInv(s, t) && IsIssue(t)
    ensures var (s', t') := Issue(s, t, o); SharedInv(s') && Grows(s, s') && TaskInv(s', t')
  {
    hide Judge, Vouched, SharedInv, RecordRow, WristbandActive, SeatActive;
    if t.IssueSeat? {
      RecordInv(s, t.own, t.id, o.now);
    } else if t.IssueConnect? {
      ClientIsFree(s, Some(o.id));
    }
  }

  lemma ClientIsFree(s: Shared, client: Option<string>)
    requires SharedInv(s)
    ensures SharedInv(s.(client := client))
  {
    hide Judge, Vouched, Sound, Documents;
  }

  lemma GateIsFree(s: Shared, gate: seq<Opening>)
    requires TableInv(s)
    ensures TableInv(s.(gate := gate))
  {
    hide Sound, Documents;
  }

  lemma ReturnSame(s: Shared, t: Task, o: Outcome)
    requires IsReturn(t)
    ensures var s' := Return_(s, t, o).0;
      && (!t.ReturnClear? ==> s' == s.(client := s'.client))
      && (t.ReturnClear? ==> s' == s || s' == s.(table := UpdateReturn(s.table, t.id, o.now).0))
  {
    hide UpdateReturn;
  }

  lemma ReturnAdvance(s: Shared, t: Task, o: Outcome)
    requires SharedInv(s) && IsReturn(t)
    ensures var (s', t') := Return_(s, t, o); SharedInv(s') && Grows(s, s') && TaskInv(s', t')
  {
    hide Judge, Vouched, SharedInv, UpdateReturn, Return_;
    ReturnSame(s, t, o);
    if t.ReturnClear? {
      ReturnInv(s, t.id, o.now);
    } else {
      ClientIsFree(s, Return_(s, t, o).0.client);
    }
  }

  /** A tag step keeps the face it read. */
  lemma KeepsFace(s: Shared, face: Embedding, r: TagRead)
    requires SharedInv(s) && r.stored == face && !r.broken && !Unissued(face)
    ensures var s' := s.(session := s.session.(embedding := Some(face)), tagReads := s.tagReads + [r]);
      SharedInv(s') && Grows(s, s')
  {
    hide Judge, Unissued, Vouched, Sound, Documents;
    LastVouched(s.tagReads, r);
    forall g | g in s.gate ensures Vouched(s.tagReads + [r], g.stored) {
      VouchedGrows(s.tagReads, [r], g.stored);
    }
  }

  /** Only a made connection and a kept face change what is shared. */
  lemma EntrySame(s: Shared, t: Task, o: Outcome)
    requires IsEntry(t)
    ensures var (s', t') := Entry(s, t, o);
      && (!t.EntryConnect? && !t.EntryFlag? ==> s' == s)
      && (t.EntryConnect? ==> s' == s.(client := s'.client) && !t'.EntryReading?)
      && (t.EntryFlag? ==> s' == s.(session := s'.session, tagReads := s'.tagReads))
  {
    hide Unissued, ReadOn;
  }

  lemma FlagAdvance(s: Shared, t: Task, o: Outcome)
    requires SharedInv(s) && t.EntryFlag?
    ensures var s' := Entry(s, t, o).0; SharedInv(s') && Grows(s, s')
  {
    hide Judge, Unissued, Vouched, SharedInv;
    if t.face.Some? && o.ok && !o.broken && !Unissued(t.face.value) {
      KeepsFace(s, t.face.value, TagRead(t.face.value, false, t.clients, t.flagFrom));
    }
  }

  lemma EntryAdvance(s: Shared, t: Task, o: Outcome)
    requires SharedInv(s) && IsEntry(t)
    ensures var (s', t') := Entry(s, t, o); SharedInv(s') && Grows(s, s') && TaskInv(s', t')
  {
    hide Judge, Vouched, SharedInv, Entry;
    EntrySame(s, t, o);
    if t.EntryFlag? {
      FlagAdvance(s, t, o);
    } else if t.EntryConnect? {
      ClientIsFree(s, Entry(s, t, o).0.client);
    }
  }

  lemma EndingAdvance(s: Shared, t: Task, o: Outcome)
    requires SharedInv(s) && TaskInv(s, t) && !IsIssue(t) && !IsEntry(t) && !IsReturn(t)
    ensures var (s', t') := Ending(s, t, o); SharedInv(s') && Grows(s, s') && TaskInv(s', t')
  {
    hide Judge, Vouched, Overwrite, TableInv;
    if IsReset(t) {
      OverwriteInv(s, NO_SESSION);
    } else if t.OpenGate? {
      GateIsFree(s, s.gate + [Opening(t.stored, t.live)]);
    }
  }

  lemma AdvanceInv(s: Shared, t: Task, o: Outcome)
    requires SharedInv(s) && TaskInv(s, t)
    ensures var (s', t') := Advance(s, t, o); SharedInv(s') && Grows(s, s') && TaskInv(s', t')
  {
    hide Issue, Entry, Return_, Ending, SharedInv, TaskInv, Grows;
    if IsIssue(t) {
      IssueAdvance(s, t, o);
    } else if IsEntry(t) {
      EntryAdvance(s, t, o);
    } else if IsReturn(t) {
      ReturnAdvance(s, t, o);
    } else {
      EndingAdvance(s, t, o);
    }
  }

  lemma TaskInvGrows(s: Shared, s': Shared, t: Task)
    requires Grows(s, s') && TaskInv(s, t)
    ensures TaskInv(s', t)
  {
    hide Judge, Vouched;
    assert s'.tagReads == s.tagReads + s'.tagReads[|s.tagReads|..];
    if t.Comparing? || t.PassLed? || t.OpenGate? {
      VouchedGrows(s.tagReads, s'.tagReads[|s.tagReads|..], t.stored);
    }
  }

  /** Resuming a task adds its next suspension, and perhaps a gate task, to tasks that stay good. */
  lemma TasksInv(s: State, s': State)
    requires Inv(s) && SharedInv(s'.shared) && Grows(s.shared, s'.shared)
    requires forall t :: t in s'.tasks && t !in s.tasks ==> TaskInv(s'.shared, t)
    ensures Inv(s')
  {
    hide SharedInv, TaskInv, Grows;
    forall t | t in s'.tasks ensures TaskInv(s'.shared, t) {
      if t in s.tasks {
        TaskInvGrows(s.shared, s'.shared, t);
      }
    }
  }

  lemma ResumeInv(s: State, i: nat, o: Outcome)
    requires Inv(s)
    ensures Inv(ResumeTask(s, i, o))
  {
    hide SharedInv, Advance, Judge, Vouched;
    if i < |s.tasks| {
      assert s.tasks[i] in s.tasks;
      if !s.tasks[i].PassLed? {
        AdvanceInv(s.shared, s.tasks[i], o);
      }
      TasksInv(s, ResumeTask(s, i, o));
    }
  }

  /** A captured face of an issue replaces the session's face, which no entry looks at. */
  lemma CaptureInv(s: Shared, live: Embedding)
    requires SharedInv(s) && s.session.flow == Some(Issuing)
    ensures SharedInv(s.(session := s.session.(embedding := Some(live))))
  {
    hide Judge, Vouched, Sound, Documents;
  }

  lemma FaceInv(s: State, live: Embedding)
    requires Inv(s)
    ensures Inv(Face(s, live))
  {
    hide Judge, Vouched, TableInv;
    if s.shared.session.flow == Some(Issuing) {
      CaptureInv(s.shared, live);
    }
    TasksInv(s, Face(s, live));
  }

  lemma BeginInv(s: State, session: Session, device: bool, next: Task, failed: Next)
    requires Inv(s) && session.embedding == None
    requires !Owned(next) && !next.Comparing? && !next.PassLed? && !next.OpenGate? && !failed.ToIssueTag?
    ensures Inv(Begin(s, session, device, next, failed))
  {
    hide SharedInv, Overwrite, Judge, Vouched;
    OverwriteInv(s.shared, session);
    TasksInv(s, Begin(s, session, device, next, failed));
  }

  lemma CancelInv(s: State)
    requires Inv(s)
    ensures Inv(s.(tasks := s.tasks + [AbortReset(Ends)]))
  {
    hide SharedInv, Judge, Vouched;
    TasksInv(s, s.(tasks := s.tasks + [AbortReset(Ends)]));
  }

  lemma StepInv(s: State, e: Event)
    requires Inv(s)
    ensures Inv(Step(s, e))
  {
    hide Inv, Begin, Face, ResumeTask;
    match e
    case CallIssue(seat, name, device) =>
      BeginInv(s, Session(Some(Issuing), seat, name, None), device, IssueShown, Ends);
    case CallEntry(device) => BeginInv(s, Session(Some(Entering), "", "", None), device, EntryEnter, ToEntryTag);
    case CallReturn(device) => BeginInv(s, Session(Some(Returning), "", "", None), device, ReturnEnter, ToReturnTag);
    case CallFace(live) => FaceInv(s, live);
    case CallCancel => CancelInv(s);
    case Resume(i, o) => ResumeInv(s, i, o);
  }

  lemma {:induction false} RunInv(s: State, events: seq<Event>)
    requires Inv(s)
    ensures Inv(Run(s, events))
    decreases |events|
  {
    hide Step, Inv;
    if events != [] {
      StepInv(s, events[0]);
      RunInv(Step(s, events[0]), events[1..]);
    }
  }

  // ------------------------------------------------------------- main results

  /**
   Under every interleaving of commands and resumptions, the gate opens only
   for a live face that matches a stored one, and that stored face was read by
   some entry tag step together with a contact flag of 0 and found issued.
   */
  lemma GateSafety(events: seq<Event>)
    ensures var s := Run(INIT, events).shared;
      forall g :: g in s.gate ==> Judge(g.stored, g.live) == Pass && Vouched(s.tagReads, g.stored)
  {
    RunInv(INIT, events);
  }

  /** Under every interleaving the active rows match wristbands and seats one to one. */
  lemma MatchingUnderInterleaving(events: seq<Event>)
    ensures Matching(Run(INIT, events).shared.table.rows)
  {
    RunInv(INIT, events);
  }

  // -------------------------------------------------- whose seat a row carries

  /** The command or resumption starts a session or resets it. */
  predicate Overwrites(s: State, e: Event) {
    match e
    case CallIssue(_, _, device) => s.shared.session.flow.None? && device
    case CallEntry(device) => s.shared.session.flow.None? && device
    case CallReturn(device) => s.shared.session.flow.None? && device
    case Resume(i, _) => i < |s.tasks| && IsReset(s.tasks[i])
    case _ => false
  }

  /** Starts and resets over a run. */
  function Overwritten(s: State, events: seq<Event>): nat
    decreases |events|
  {
    if events == [] then 0
    else (if Overwrites(s, events[0]) then 1 else 0) + Overwritten(Step(s, events[0]), events[1..])
  }

  lemma AdvanceSessions(s: Shared, t: Task, o: Outcome)
    ensures var (s', t') := Advance(s, t, o);
      && |s'.sessions| == |s.sessions| + (if IsReset(t) then 1 else 0)
      && s.sessions <= s'.sessions
  {
    hide Issue, Entry, Return_, Judge;
  }

  lemma SessionsStep(s: State, e: Event)
    ensures |Step(s, e).shared.sessions| == |s.shared.sessions| + if Overwrites(s, e) then 1 else 0
    ensures s.shared.sessions <= Step(s, e).shared.sessions
    ensures |s.tasks| <= |Step(s, e).tasks|
  {
    hide Judge, Advance;
    if e.Resume? && e.task < |s.tasks| {
      AdvanceSessions(s.shared, s.tasks[e.task], e.outcome);
    }
  }

  /** An issue task keeps the number of the session it was started in. */
  lemma AdvanceOwn(s: Shared, t: Task, o: Outcome)
    requires Owned(Advance(s, t, o).1)
    ensures Owned(t) && OwnOf(Advance(s, t, o).1) == OwnOf(t)
  {
    hide Issue, Entry, Return_, Ending, Owned, OwnOf;
    if IsIssue(t) {
      IssueOwn(s, t, o);
    } else {
      OthersOwn(s, t, o);
    }
  }

  lemma OthersOwn(s: Shared, t: Task, o: Outcome)
    requires !IsIssue(t)
    ensures IsEntry(t) ==> !Owned(Entry(s, t, o).1)
    ensures IsReturn(t) ==> !Owned(Return_(s, t, o).1)
    ensures !IsEntry(t) && !IsReturn(t) && Owned(Ending(s, t, o).1) ==> Owned(t) && OwnOf(Ending(s, t, o).1) == OwnOf(t)
  {
    hide Entry, Return_, Judge, Overwrite;
  }

  lemma IssueOwn(s: Shared, t: Task, o: Outcome)
    requires IsIssue(t) && Owned(Issue(s, t, o).1)
    ensures Owned(t) && OwnOf(Issue(s, t, o).1) == OwnOf(t)
  {
    hide InsertIssue, WristbandActive, SeatActive;
  }

  lemma OwnStep(s: State, e: Event, i: nat)
    requires i < |s.tasks| && i < |Step(s, e).tasks| && Owned(Step(s, e).tasks[i])
    ensures Owned(s.tasks[i]) && OwnOf(Step(s, e).tasks[i]) == OwnOf(s.tasks[i])
  {
    hide Judge, Advance;
    if e.Resume? && e.task == i && !s.tasks[i].PassLed? {
      AdvanceOwn(s.shared, s.tasks[i], e.outcome);
    }
  }

  lemma {:induction false} OwnRun(s: State, events: seq<Event>, i: nat)
    requires i < |s.tasks| <= |Run(s, events).tasks| && Owned(Run(s, events).tasks[i])
    ensures Owned(s.tasks[i]) && OwnOf(Run(s, events).tasks[i]) == OwnOf(s.tasks[i])
    decreases |events|
  {
    hide Step, Owned;
    if events != [] {
      SessionsStep(s, events[0]);
      SessionsRun(Step(s, events[0]), events[1..]);
      OwnRun(Step(s, events[0]), events[1..], i);
      OwnStep(s, events[0], i);
    }
  }

  lemma {:induction false} SessionsRun(s: State, events: seq<Event>)
    ensures |Run(s, events).shared.sessions| == |s.shared.sessions| + Overwritten(s, events)
    ensures |s.tasks| <= |Run(s, events).tasks|
    decreases |events|
  {
    hide Step, Overwrites;
    if events != [] {
      SessionsStep(s, events[0]);
      SessionsRun(Step(s, events[0]), events[1..]);
    }
  }

  /**
   Under every interleaving each row has the seat and name of the session that
   ran when it was recorded, which is the one its issue task was started in or
   a later one.
   */
  lemma RowsTellTheirSession(events: seq<Event>)
    ensures var s := Run(INIT, events).shared;
      && |s.records| == |s.table.rows|
      && forall i :: 0 <= i < |s.records| ==>
           var r, row := s.records[i], s.table.rows[i];
           && LaterRow(r.row, row) && r.own <= r.used < |s.sessions|
           && Seating(row.seat, row.name) == s.sessions[r.used]
  {
    hide Run, LaterRow;
    RunInv(INIT, events);
  }

  lemma SeatRecorded(s: State, task: nat, o: Outcome)
    requires SharedInv(s.shared) && task < |s.tasks| && s.tasks[task].IssueSeat?
    requires Step(s, Resume(task, o)).shared.table != s.shared.table
    ensures var s' := Step(s, Resume(task, o)).shared;
      && |s'.records| == |s.shared.records| + 1 == |s'.table.rows|
      && var r := s'.records[|s.shared.records|];
      && r.row == s'.table.rows[|s.shared.records|]
      && r.own == s.tasks[task].own && r.used == |s.shared.sessions| - 1 && s'.sessions == s.shared.sessions
      && Seating(r.row.seat, r.row.name) == s'.sessions[r.used]
  {
    hide Sound, WristbandActive, SeatActive, Documents;
  }

  /**
   A row carries its own start if nothing overwrote the session: take any run
   up to a captured face, any further run after which that issue task records
   its row. The session it records from is the one it was started in if and
   only if no start and no reset came in between; then seat and name are those
   of its start.
   */
  lemma OwnStartIff(before: seq<Event>, live: Embedding, during: seq<Event>, o: Outcome)
    requires Run(INIT, before).shared.session.flow == Some(Issuing)
    requires var s2 := Run(Step(Run(INIT, before), CallFace(live)), during);
      var task := |Run(INIT, before).tasks|;
      && task < |s2.tasks| && s2.tasks[task].IssueSeat?
      && Step(s2, Resume(task, o)).shared.table != s2.shared.table
    ensures var s0 := Run(INIT, before);
      var s1 := Step(s0, CallFace(live));
      var s3 := Step(Run(s1, during), Resume(|s0.tasks|, o)).shared;
      && |s3.records| == |s3.table.rows| > 0
      && var r, row := s3.records[|s3.records| - 1], s3.table.rows[|s3.records| - 1];
      && r.row == row
      && (r.used == r.own <==> Overwritten(s1, during) == 0)
      && (Overwritten(s1, during) == 0 ==> row.seat == s0.shared.session.seat && row.name == s0.shared.session.name)
  {
    InitInv();
    hide Inv, Overwritten;
    var s0 := Run(INIT, before);
    var s1 := Step(s0, CallFace(live));
    RunInv(INIT, before);
    StepInv(s0, CallFace(live));
    RunInv(s1, during);
    hide Run;
    var s2 := Run(s1, during);
    SessionsRun(s1, during);
    InvParts(s0);
    InvParts(s2);
    OwnRun(s1, during, |s0.tasks|);
    SeatRecorded(s2, |s0.tasks|, o);
    GrowsRun(s1, during);
  }

  lemma InitInv()
    ensures Inv(INIT)
  {
  }

  /** From an idle session an issue starts with the seat and name it was called with. */
  lemma CallStarts(s: State, seat: string, name: string)
    requires s.shared.session.flow == None
    ensures var s' := Step(s, CallIssue(seat, name, true)).shared;
      && s'.session == Session(Some(Issuing), seat, name, None)
      && s'.sessions == s.shared.sessions + [Seating(seat, name)]
  {
  }

  lemma StaysUnlessOverwritten(s: State, events: seq<Event>)
    requires Inv(s) && Overwritten(s, events) == 0
    ensures var s' := Run(s, events).shared;
      s'.session.seat == s.shared.session.seat && s'.session.name == s.shared.session.name
  {
    hide Inv, Overwritten, Run;
    RunInv(s, events);
    SessionsRun(s, events);
    GrowsRun(s, events);
    InvParts(s);
    InvParts(Run(s, events));
  }

  /**
   The row is the operator's: an issue called from an idle session with a seat
   and a name, whose face is captured later and which records later, with no
   start and no reset in between, adds a row with that seat and that name.
   */
  lemma RowAsCalled(before: seq<Event>, seat: string, name: string, waiting: seq<Event>,
                    live: Embedding, during: seq<Event>, o: Outcome)
    requires Run(INIT, before).shared.session.flow == None
    requires var s0 := Run(Step(Run(INIT, before), CallIssue(seat, name, true)), waiting);
      var s2 := Run(Step(s0, CallFace(live)), during);
      && Overwritten(Step(Run(INIT, before), CallIssue(seat, name, true)), waiting) == 0
      && Overwritten(Step(s0, CallFace(live)), during) == 0
      && |s0.tasks| < |s2.tasks| && s2.tasks[|s0.tasks|].IssueSeat?
      && Step(s2, Resume(|s0.tasks|, o)).shared.table != s2.shared.table
    ensures var s0 := Run(Step(Run(INIT, before), CallIssue(seat, name, true)), waiting);
      var rows := Step(Run(Step(s0, CallFace(live)), during), Resume(|s0.tasks|, o)).shared.table.rows;
      |rows| > 0 && rows[|rows| - 1].seat == seat && rows[|rows| - 1].name == name
  {
    InitInv();
    RunInv(INIT, before);
    hide Inv, Overwritten;
    var s := Run(INIT, before);
    var started := Step(s, CallIssue(seat, name, true));
    CallStarts(s, seat, name);
    StepInv(s, CallIssue(seat, name, true));
    StaysUnlessOverwritten(started, waiting);
    RunInv(started, waiting);
    hide Run;
    var s0 := Run(started, waiting);
    StepInv(s0, CallFace(live));
    FaceKeepsSeat(s0, live);
    StaysUnlessOverwritten(Step(s0, CallFace(live)), during);
    RunInv(Step(s0, CallFace(live)), during);
    var s2 := Run(Step(s0, CallFace(live)), during);
    InvParts(s2);
    SeatRecorded(s2, |s0.tasks|, o);
  }

  lemma FaceKeepsSeat(s: State, live: Embedding)
    ensures Step(s, CallFace(live)).shared.session == s.shared.session.(
              embedding := Step(s, CallFace(live)).shared.session.embedding)
  {
    hide Judge;
  }

  /** A return that gets through leaves the wristband of its id free, and the rows of all others as they were. */
  lemma ReturnGetsThrough(s: State, task: nat, o: Outcome, other: string)
    requires task < |s.tasks| && s.tasks[task].ReturnClear? && o.ok
    ensures var rows := Step(s, Resume(task, o)).shared.table.rows;
      && !WristbandActive(rows, s.tasks[task].id)
      && (other != s.tasks[task].id ==> (WristbandActive(rows, other) <==> WristbandActive(s.shared.table.rows, other)))
  {
    var rows, id := s.shared.table.rows, s.tasks[task].id;
    ReturnFrees(s.shared.table, id, o.now);
    if other != id {
      OthersStayActive(rows, id, o.now, other);
    }
    hide WristbandActive, MarkReturned;
  }

  lemma InvParts(s: State)
    requires Inv(s)
    ensures SharedInv(s.shared) && SessionInv(s.shared)
  {
  }

  lemma {:induction false} GrowsRun(s: State, events: seq<Event>)
    ensures s.shared.sessions <= Run(s, events).shared.sessions
    decreases |events|
  {
    hide Step;
    if events != [] {
      SessionsStep(s, events[0]);
      GrowsRun(Step(s, events[0]), events[1..]);
    }
  }

  // --------------------------------------------- whose memory and flag are read

  /** Every call of the tag step's reads went to this one client. */
  predicate From(clients: seq<Option<string>>, client: Option<string>) {
    forall c :: c in clients ==> c == client
  }

  /** Another connection is made while some tag step reads a face. */
  predicate Disturbs(s: State, e: Event) {
    Step(s, e).shared.client != s.shared.client && exists t :: t in Step(s, e).tasks && t.EntryReading?
  }

  predicate Undisturbed(s: State, events: seq<Event>)
    decreases |events|
  {
    events == [] || (!Disturbs(s, events[0]) && Undisturbed(Step(s, events[0]), events[1..]))
  }

  predicate ReadsFrom(client: Option<string>, t: Task) {
    && (t.EntryReading? ==> From(t.clients, client))
    && (t.EntryFlag? ==> From(t.clients, t.flagFrom))
  }

  predicate ReadsInv(s: State) {
    && (forall r :: r in s.shared.tagReads ==> From(r.clients, r.flagFrom))
    && forall t :: t in s.tasks ==> ReadsFrom(s.shared.client, t)
  }

  /** One more call keeps a face read on one wristband exactly when the client is still that of the earlier calls. */
  lemma ReadOnIff(s: Shared, clients: seq<Option<string>>, o: Outcome)
    requires clients != [] && From(clients, clients[0])
    ensures var t := ReadOn(s, clients, o);
      && (t.EntryReading? ==> (From(t.clients, t.clients[0]) <==> s.client == clients[0]))
      && (t.EntryFlag? ==> (From(t.clients, t.flagFrom) <==> s.client == clients[0]))
  {
    assert clients[0] in clients;
    if ReadOn(s, clients, o).EntryReading? {
      assert s.client in clients + [s.client];
      assert (clients + [s.client])[0] == clients[0];
    }
  }

  /** A tag step so far: its face read, or its face and flag, from one wristband. */
  predicate StraightTask(t: Task) {
    && (t.EntryReading? ==> t.clients != [] && From(t.clients, t.clients[0]))
    && (t.EntryFlag? ==> From(t.clients, t.flagFrom))
  }

  predicate Straight(s: State) {
    && (forall r :: r in s.shared.tagReads ==> From(r.clients, r.flagFrom))
    && forall t :: t in s.tasks ==> StraightTask(t)
  }

  /** The next call of a face read goes to another wristband than its first one did. */
  predicate Strays(s: State, e: Event) {
    && e.Resume? && e.task < |s.tasks| && s.tasks[e.task].EntryReading? && s.tasks[e.task].clients != []
    && s.shared.client != s.tasks[e.task].clients[0]
  }

  lemma AdvanceStraight(s: Shared, t: Task, o: Outcome)
    requires StraightTask(t) && forall r :: r in s.tagReads ==> From(r.clients, r.flagFrom)
    ensures var (s', t') := Advance(s, t, o);
      && (forall r :: r in s'.tagReads ==> From(r.clients, r.flagFrom))
      && (StraightTask(t') <==> !(t.EntryReading? && s.client != t.clients[0]))
  {
    hide Advance, Entry;
    if IsEntry(t) {
      EntryStraight(s, t, o);
      EntryOnly(s, t, o);
    } else {
      OthersReadNothing(s, t, o);
    }
  }

  lemma EntryStraight(s: Shared, t: Task, o: Outcome)
    requires IsEntry(t)
    requires StraightTask(t) && forall r :: r in s.tagReads ==> From(r.clients, r.flagFrom)
    ensures var (s', t') := Entry(s, t, o);
      && (forall r :: r in s'.tagReads ==> From(r.clients, r.flagFrom))
      && (StraightTask(t') <==> !(t.EntryReading? && s.client != t.clients[0]))
  {
    hide Unissued;
    if t.EntryReading? {
      hide From;
      ReadOnIff(s, t.clients, o);
    }
  }

  lemma EntryOnly(s: Shared, t: Task, o: Outcome)
    requires IsEntry(t)
    ensures Advance(s, t, o) == Entry(s, t, o)
  {
    hide Issue, Entry, Return_, Ending;
  }

  lemma OthersReadNothing(s: Shared, t: Task, o: Outcome)
    requires !IsEntry(t)
    ensures var (s', t') := Advance(s, t, o);
      s'.tagReads == s.tagReads && !t'.EntryReading? && !t'.EntryFlag?
  {
    hide Issue, Entry, Return_, Ending;
  }

  /** A step leaves every tag step on one wristband exactly when it is not a call that goes astray. */
  lemma StraightIff(s: State, e: Event)
    requires Straight(s)
    ensures Straight(Step(s, e)) <==> !Strays(s, e)
  {
    hide Judge, Advance, From, StraightTask;
    StraightKinds();
    var s' := Step(s, e);
    if e.Resume? && e.task < |s.tasks| && !s.tasks[e.task].PassLed? {
      assert s.tasks[e.task] in s.tasks;
      AdvanceStraight(s.shared, s.tasks[e.task], e.outcome);
      ReadingHasClient(s.tasks[e.task]);
      assert s'.tasks[e.task] in s'.tasks;
    }
  }

  lemma StraightKinds()
    ensures forall t: Task :: !t.EntryReading? && !t.EntryFlag? ==> StraightTask(t)
  {
  }

  lemma ReadingHasClient(t: Task)
    requires StraightTask(t)
    ensures t.EntryReading? ==> t.clients != []
  {
  }

  lemma EntryReadsFrom(s: Shared, t: Task, o: Outcome)
    requires IsEntry(t)
    requires ReadsFrom(s.client, t) && forall r :: r in s.tagReads ==> From(r.clients, r.flagFrom)
    ensures var (s', t') := Entry(s, t, o);
      ReadsFrom(s'.client, t') && forall r :: r in s'.tagReads ==> From(r.clients, r.flagFrom)
  {
    hide Unissued;
  }

  lemma AdvanceReads(s: Shared, t: Task, o: Outcome)
    requires ReadsFrom(s.client, t) && forall r :: r in s.tagReads ==> From(r.clients, r.flagFrom)
    ensures var (s', t') := Advance(s, t, o);
      ReadsFrom(s'.client, t') && forall r :: r in s'.tagReads ==> From(r.clients, r.flagFrom)
  {
    hide Advance, Entry;
    if IsEntry(t) {
      EntryReadsFrom(s, t, o);
      EntryOnly(s, t, o);
    } else {
      OthersReadNothing(s, t, o);
    }
  }

  lemma ReadsStep(s: State, e: Event)
    requires ReadsInv(s) && !Disturbs(s, e)
    ensures ReadsInv(Step(s, e))
  {
    hide Judge, Advance, From;
    if e.Resume? && e.task < |s.tasks| {
      assert s.tasks[e.task] in s.tasks;
      if !s.tasks[e.task].PassLed? {
        AdvanceReads(s.shared, s.tasks[e.task], e.outcome);
      }
    }
    var s' := Step(s, e);
    forall t | t in s'.tasks ensures ReadsFrom(s'.shared.client, t) {
      if t in s.tasks {
        assert ReadsFrom(s.shared.client, t);
      }
    }
  }

  lemma {:induction false} ReadsRun(s: State, events: seq<Event>)
    requires ReadsInv(s) && Undisturbed(s, events)
    ensures ReadsInv(Run(s, events))
    decreases |events|
  {
    hide Step, ReadsInv, Disturbs;
    if events != [] {
      ReadsStep(s, events[0]);
      ReadsRun(Step(s, events[0]), events[1..]);
    }
  }

  /** If no connection is made during a face read, each kept face and its flag come from one wristband. */
  lemma OneWristbandPerRead(events: seq<Event>)
    requires Undisturbed(INIT, events)
    ensures forall r :: r in Run(INIT, events).shared.tagReads ==> From(r.clients, r.flagFrom)
  {
    ReadsRun(INIT, events);
  }

  // --------------------------------------------------------- one after the other

  predicate Unfinished(t: Task) {
    !t.Finished? && !t.OpenGate?
  }

  /** Every call that takes effect is made when all earlier coroutines have ended, the gate's own task aside. */
  predicate Sequential(s: State, events: seq<Event>)
    decreases |events|
  {
    events == [] ||
    (&& (events[0].Resume? || Step(s, events[0]) == s || forall t :: t in s.tasks ==> !Unfinished(t))
     && Sequential(Step(s, events[0]), events[1..]))
  }

  /** An issue task runs in its own session, except that after a failed start none runs any more. */
  predicate OwnsSession(s: Shared, t: Task) {
    Owned(t) ==> OwnOf(t) == |s.sessions| - 1 || (t.IssueTag? && s.session.flow.None?)
  }

  predicate OneAtATime(s: State) {
    && (forall i, j :: 0 <= i < j < |s.tasks| ==> !Unfinished(s.tasks[i]) || !Unfinished(s.tasks[j]))
    && (forall i :: 0 <= i < |s.tasks| ==> OwnsSession(s.shared, s.tasks[i]))
    && (forall r :: r in s.shared.records ==> r.own == r.used)
  }

  /** What a task leaves behind for the others. */
  predicate LeavesWell(s: Shared, t: Task, s': Shared, t': Task) {
    && OwnsSession(s', t')
    && (forall r :: r in s'.records ==> r.own == r.used)
    && (!Unfinished(t) ==>
          !Unfinished(t') && s'.client == s.client && s'.sessions == s.sessions && s'.session == s.session)
    && (s'.client != s.client ==> !t'.EntryReading?)
  }

  lemma IssueAlone(s: Shared, t: Task, o: Outcome)
    requires IsIssue(t) && OwnsSession(s, t) && forall r :: r in s.records ==> r.own == r.used
    ensures var (s', t') := Issue(s, t, o); LeavesWell(s, t, s', t')
  {
    hide InsertIssue, WristbandActive, SeatActive;
  }

  lemma EntryAlone(s: Shared, t: Task, o: Outcome)
    requires IsEntry(t) && forall r :: r in s.records ==> r.own == r.used
    ensures var (s', t') := Entry(s, t, o); LeavesWell(s, t, s', t')
  {
    hide Entry;
    EntrySame(s, t, o);
  }

  lemma ReturnAlone(s: Shared, t: Task, o: Outcome)
    requires IsReturn(t) && forall r :: r in s.records ==> r.own == r.used
    ensures var (s', t') := Return_(s, t, o); LeavesWell(s, t, s', t')
  {
    hide UpdateReturn;
  }

  lemma EndingAlone(s: Shared, t: Task, o: Outcome)
    requires !IsIssue(t) && !IsEntry(t) && !IsReturn(t) && forall r :: r in s.records ==> r.own == r.used
    ensures var (s', t') := Ending(s, t, o); LeavesWell(s, t, s', t')
  {
    hide Judge;
  }

  lemma AdvanceAlone(s: Shared, t: Task, o: Outcome)
    requires OwnsSession(s, t) && forall r :: r in s.records ==> r.own == r.used
    ensures var (s', t') := Advance(s, t, o); LeavesWell(s, t, s', t')
  {
    hide Issue, Entry, Return_, Ending, LeavesWell, OwnsSession;
    if IsIssue(t) {
      IssueAlone(s, t, o);
    } else if IsEntry(t) {
      EntryAlone(s, t, o);
    } else if IsReturn(t) {
      ReturnAlone(s, t, o);
    } else {
      EndingAlone(s, t, o);
    }
  }

  lemma AloneResume(s: State, i: nat, o: Outcome)
    requires OneAtATime(s)
    ensures OneAtATime(ResumeTask(s, i, o)) && !Disturbs(s, Resume(i, o))
  {
    hide Judge, Advance;
    if i < |s.tasks| {
      if !s.tasks[i].PassLed? {
        AdvanceAlone(s.shared, s.tasks[i], o);
      }
    }
  }

  /** All have ended, and one begins. */
  lemma AloneBegins(s: State, s': State, t: Task)
    requires OneAtATime(s) && forall u :: u in s.tasks ==> !Unfinished(u)
    requires s'.tasks == s.tasks + [t] && s'.shared.records == s.shared.records && OwnsSession(s'.shared, t)
    ensures OneAtATime(s')
  {
    forall i | 0 <= i < |s'.tasks| ensures OwnsSession(s'.shared, s'.tasks[i]) {
      if i < |s.tasks| {
        assert s'.tasks[i] == s.tasks[i] && s.tasks[i] in s.tasks;
      }
    }
  }

  /** A command that takes effect adds a task, and makes no connection. */
  lemma CallAdds(s: State, e: Event)
    requires !e.Resume?
    ensures var s' := Step(s, e);
      && s'.shared.client == s.shared.client
      && (s' == s || (|s'.tasks| == |s.tasks| + 1 && s'.tasks == s.tasks + [s'.tasks[|s.tasks|]]
                      && s'.shared.records == s.shared.records && OwnsSession(s'.shared, s'.tasks[|s.tasks|])))
  {
    hide Judge, ResumeTask;
  }

  lemma AloneCall(s: State, e: Event)
    requires OneAtATime(s) && !e.Resume?
    requires Step(s, e) == s || forall t :: t in s.tasks ==> !Unfinished(t)
    ensures OneAtATime(Step(s, e)) && !Disturbs(s, e)
  {
    hide Step, OneAtATime, Unfinished, OwnsSession;
    CallAdds(s, e);
    if Step(s, e) != s {
      AloneBegins(s, Step(s, e), Step(s, e).tasks[|s.tasks|]);
    }
  }

  lemma AloneStep(s: State, e: Event)
    requires OneAtATime(s)
    requires e.Resume? || Step(s, e) == s || forall t :: t in s.tasks ==> !Unfinished(t)
    ensures OneAtATime(Step(s, e)) && !Disturbs(s, e)
  {
    hide OneAtATime, Unfinished, ResumeTask;
    if e.Resume? {
      AloneResume(s, e.task, e.outcome);
    } else {
      AloneCall(s, e);
    }
  }

  lemma {:induction false} AloneRun(s: State, events: seq<Event>)
    requires OneAtATime(s) && Sequential(s, events)
    ensures OneAtATime(Run(s, events)) && Undisturbed(s, events)
    decreases |events|
  {
    hide Step, OneAtATime, Disturbs, Unfinished;
    if events != [] {
      AloneStep(s, events[0]);
      AloneRun(Step(s, events[0]), events[1..]);
    }
  }

  /**
   When every call waits for the coroutines of the earlier ones, each kept face
   and its flag come from one wristband, and each row has the seat and name its
   own issue was started with.
   */
  lemma SequentialRuns(events: seq<Event>)
    requires Sequential(INIT, events)
    ensures var s := Run(INIT, events).shared;
      && (forall r :: r in s.tagReads ==> From(r.clients, r.flagFrom))
      && |s.records| == |s.table.rows|
      && forall i :: 0 <= i < |s.records| ==>
           s.records[i].own < |s.sessions|
           && Seating(s.table.rows[i].seat, s.table.rows[i].name) == s.sessions[s.records[i].own]
  {
    hide Run, Sequential;
    AloneRun(INIT, events);
    OneWristbandPerRead(events);
    RowsTellTheirSession(events);
  }

  // ------------------------------------------- what interleaving does not keep

  ghost predicate Reachable(s: State) {
    exists events :: Run(INIT, events) == s
  }

  lemma {:induction false} RunAppend(s: State, events: seq<Event>, e: Event)
    ensures Run(s, events + [e]) == Step(Run(s, events), e)
    decreases |events|
  {
    hide Step;
    if events != [] {
      assert (events + [e])[1..] == events[1..] + [e];
      RunAppend(Step(s, events[0]), events[1..], e);
    } else {
      assert ([] + [e])[1..] == [];
    }
  }

  lemma ReachStep(s: State, e: Event)
    requires Reachable(s)
    ensures Reachable(Step(s, e))
  {
    hide Step;
    var events :| Run(INIT, events) == s;
    RunAppend(INIT, events, e);
  }

  lemma ReachInit()
    ensures Reachable(INIT)
  {
    assert Run(INIT, []) == INIT;
  }

  function Good(id: string, bytes: Embedding): Outcome {
    Outcome(true, false, true, id, bytes, false, "t")
  }

  lemma Reach(s: State, e: Event, s': State)
    requires Reachable(s) && Step(s, e) == s'
    ensures Reachable(s')
  {
    ReachStep(s, e);
  }

  /** An issue of seat "A1" that has the wristband "W" connected. */
  lemma IssueLinks(face: Embedding) returns (s: State)
    ensures Reachable(s)
    ensures s == State(INIT.shared.(session := Session(Some(Issuing), "A1", "Kim", Some(face)), client := Some("W"),
                                    sessions := [Seating("", ""), Seating("A1", "Kim")]),
                       [IssueShown, IssueLink(1)])
  {
    hide Judge, Unissued, Reachable, Entry, Return_, Ending, RecordRow;
    ReachInit();
    var started := Overwrite(INIT.shared, Session(Some(Issuing), "A1", "Kim", None));
    var captured := started.(session := started.session.(embedding := Some(face)));
    var next := Resume(1, Good("W", face));
    var s1 := State(started, [IssueShown]);
    Reach(INIT, CallIssue("A1", "Kim", true), s1);
    var s2 := State(captured, [IssueShown, IssueEnter(1)]);
    Reach(s1, CallFace(face), s2);
    var s3 := State(captured, [IssueShown, IssueWake(1)]);
    Reach(s2, next, s3);
    var s4 := State(captured, [IssueShown, IssueConnect(1)]);
    Reach(s3, next, s4);
    s := State(captured.(client := Some("W")), [IssueShown, IssueLink(1)]);
    Reach(s4, next, s);
  }

  /** It goes on until it waits for its seat write, with only the row to come. */
  lemma IssueWrites(s: State, face: Embedding) returns (s': State)
    requires Reachable(s) && s.tasks == [IssueShown, IssueLink(1)] && s.shared.table == EMPTY
    ensures Reachable(s') && s' == State(s.shared, [IssueShown, IssueSeat(1, "W")])
  {
    hide Judge, Unissued, Reachable, Entry, Return_, Ending, RecordRow;
    var next := Resume(1, Good("W", face));
    var s1 := State(s.shared, [IssueShown, IssueId(1)]);
    Reach(s, next, s1);
    var s2 := State(s.shared, [IssueShown, IssueWrite(1, "W")]);
    Reach(s1, next, s2);
    s' := State(s.shared, [IssueShown, IssueSeat(1, "W")]);
    Reach(s2, next, s');
  }

  /** It is cancelled at that moment. */
  lemma IssueCancelled(s: State, face: Embedding) returns (s': State)
    requires Reachable(s) && s.tasks == [IssueShown, IssueSeat(1, "W")]
    ensures Reachable(s') && s' == State(Overwrite(s.shared, NO_SESSION), [IssueShown, IssueSeat(1, "W"), Finished])
  {
    hide Judge, Unissued, Reachable, Issue, Entry, Return_;
    var s1 := State(s.shared, [IssueShown, IssueSeat(1, "W"), AbortReset(Ends)]);
    Reach(s, CallCancel, s1);
    s' := State(Overwrite(s.shared, NO_SESSION), [IssueShown, IssueSeat(1, "W"), Finished]);
    Reach(s1, Resume(2, Good("W", face)), s');
  }

  lemma RecordsEmptied(s: Shared)
    requires s.table == EMPTY && s.session == NO_SESSION && s.records == [] && |s.sessions| == 3
    ensures var row := Row(1, "W", "", "", "t", None);
      RecordRow(s, 1, "W", "t") == (s.(table := Table([row], 1), records := [Record(row, 1, 2)]), IssueClose)
  {
    var row := Row(1, "W", "", "", "t", None);
    assert EMPTY.rows + [row] == [row];
    assert s.records + [Record(row, 1, 2)] == [Record(row, 1, 2)];
  }

  /**
   An issue cancelled while its seat is being written still records the row,
   with the seat and name the reset has emptied.
   */
  lemma CancelledIssueStillRecords(face: Embedding)
    ensures exists s :: (Reachable(s) && s.shared.session == NO_SESSION
                         && s.shared.table.rows == [Row(1, "W", "", "", "t", None)]
                         && s.shared.records == [Record(s.shared.table.rows[0], 1, 2)]
                         && s.shared.sessions == [Seating("", ""), Seating("A1", "Kim"), Seating("", "")])
  {
    var s1 := IssueLinks(face);
    var s2 := IssueWrites(s1, face);
    var s3 := IssueCancelled(s2, face);
    RecordsEmptied(s3.shared);
    hide Judge, Unissued, Reachable, Entry, Return_, Ending, RecordRow, Overwrites;
    var row := Row(1, "W", "", "", "t", None);
    var recorded := s3.shared.(table := Table([row], 1), records := [Record(row, 1, 2)]);
    var s4 := State(recorded, [IssueShown, IssueClose, Finished]);
    Reach(s3, Resume(1, Good("W", face)), s4);
    assert s4.shared.table.rows == [row];
  }

  /** `n` calls to one client. */
  function Calls(n: nat, client: Option<string>): (c: seq<Option<string>>)
    ensures |c| == n && From(c, client)
  {
    seq(n, _ => client)
  }

  /** A face read goes on while nothing else happens. */
  lemma {:induction false} Reading(s: State, before: seq<Option<string>>, n: nat, face: Embedding)
    returns (s': State)
    requires Reachable(s) && s.tasks != [] && s.tasks[0] == EntryReading(before) && |before| + n <= READ_CALLS
    ensures Reachable(s') && s' == s.(tasks := s.tasks[0 := EntryReading(before + Calls(n, s.shared.client))])
    decreases n
  {
    hide Judge, Unissued, Reachable, Issue, Return_, Ending;
    if n == 0 {
      s' := s;
      assert before + Calls(0, s.shared.client) == before;
    } else {
      var longer := before + [s.shared.client];
      var s1 := s.(tasks := s.tasks[0 := EntryReading(longer)]);
      Reach(s, Resume(0, Good("", face)), s1);
      s' := Reading(s1, longer, n - 1, face);
      assert longer + Calls(n - 1, s.shared.client) == before + Calls(n, s.shared.client);
    }
  }

  /** An entry that has the wristband "W1" connected and sends its first read call. */
  lemma EntryReads(face: Embedding) returns (s: State)
    ensures Reachable(s)
    ensures s == State(INIT.shared.(session := Session(Some(Entering), "", "", None), client := Some("W1"),
                                    sessions := [Seating("", ""), Seating("", "")]),
                       [EntryReading(Calls(1, Some("W1")))])
  {
    hide Judge, Unissued, Reachable, Issue, Return_, Ending;
    ReachInit();
    var entering := Overwrite(INIT.shared, Session(Some(Entering), "", "", None));
    var linked := entering.(client := Some("W1"));
    var next := Resume(0, Good("W1", face));
    var s1 := State(entering, [EntryEnter]);
    Reach(INIT, CallEntry(true), s1);
    var s2 := State(entering, [EntryWake]);
    Reach(s1, next, s2);
    var s3 := State(entering, [EntryConnect]);
    Reach(s2, next, s3);
    var s4 := State(linked, [EntryLink]);
    Reach(s3, next, s4);
    var s5 := State(linked, [EntryRead]);
    Reach(s4, next, s5);
    s := State(linked, [EntryReading([Some("W1")])]);
    Reach(s5, next, s);
    assert [Some("W1")] == Calls(1, Some("W1"));
  }

  /** While it reads it is cancelled, and a second entry starts. */
  lemma SecondEntryStarts(s: State, clients: seq<Option<string>>, face: Embedding) returns (s': State)
    requires Reachable(s) && s.tasks == [EntryReading(clients)]
    ensures Reachable(s')
    ensures s'.tasks == [EntryReading(clients), Finished, EntryEnter]
    ensures s'.shared == s.shared.(session := Session(Some(Entering), "", "", None),
                                   sessions := s.shared.sessions + [Seating("", ""), Seating("", "")])
  {
    hide Judge, Unissued, Reachable, Issue, Entry, Return_;
    var reading := EntryReading(clients);
    var reset := Overwrite(s.shared, NO_SESSION);
    var s1 := State(s.shared, [reading, AbortReset(Ends)]);
    Reach(s, CallCancel, s1);
    var s2 := State(reset, [reading, Finished]);
    Reach(s1, Resume(1, Good("", face)), s2);
    s' := State(Overwrite(reset, Session(Some(Entering), "", "", None)), [reading, Finished, EntryEnter]);
    Reach(s2, CallEntry(true), s');
  }

  /** The second entry's wristband is awake. */
  lemma SecondEntryWakes(s: State, clients: seq<Option<string>>, face: Embedding) returns (s': State)
    requires Reachable(s) && s.tasks == [EntryReading(clients), Finished, EntryEnter]
    requires s.shared.session.flow == Some(Entering)
    ensures Reachable(s') && s' == State(s.shared, [EntryReading(clients), Finished, EntryConnect])
  {
    hide Judge, Unissued, Reachable, Issue, Return_, Ending;
    var reading := EntryReading(clients);
    var next := Resume(2, Good("W2", face));
    var s1 := State(s.shared, [reading, Finished, EntryWake]);
    Reach(s, next, s1);
    s' := State(s.shared, [reading, Finished, EntryConnect]);
    Reach(s1, next, s');
  }

  /** The second entry is connected to "W2". */
  lemma SecondEntryConnects(s: State, clients: seq<Option<string>>, face: Embedding) returns (s': State)
    requires Reachable(s) && s.tasks == [EntryReading(clients), Finished, EntryConnect]
    ensures Reachable(s')
    ensures s' == State(s.shared.(client := Some("W2")), [EntryReading(clients), Finished, EntryRead])
  {
    hide Judge, Unissued, Reachable, Issue, Return_, Ending;
    var reading := EntryReading(clients);
    var next := Resume(2, Good("W2", face));
    var s1 := State(s.shared.(client := Some("W2")), [reading, Finished, EntryLink]);
    Reach(s, next, s1);
    s' := State(s1.shared, [reading, Finished, EntryRead]);
    Reach(s1, next, s');
  }

  /** The late tag step reads the flag of the moment's wristband and keeps the face. */
  lemma LateStepKeeps(s: State, clients: seq<Option<string>>, face: Embedding) returns (s': State)
    requires !Unissued(face) && s.shared.tagReads == []
    requires Reachable(s) && s.tasks == [EntryReading(clients), Finished, EntryRead] && |clients| == READ_CALLS
    ensures Reachable(s') && s'.tasks == [EntryShown, Finished, EntryRead]
    ensures s'.shared == s.shared.(session := s.shared.session.(embedding := Some(face)),
                                   tagReads := [TagRead(face, false, clients, s.shared.client)])
  {
    hide Judge, Unissued, Reachable, Issue, Return_, Ending;
    var kept := s.shared.(session := s.shared.session.(embedding := Some(face)),
                          tagReads := [TagRead(face, false, clients, s.shared.client)]);
    var s1 := State(s.shared, [EntryFlag(Some(face), clients, s.shared.client), Finished, EntryRead]);
    Reach(s, Resume(0, Good("", face)), s1);
    s' := State(kept, [EntryShown, Finished, EntryRead]);
    Reach(s1, Resume(0, Good("", face)), s');
  }

  /** The captured face passes against it. */
  lemma LateFaceOpens(s: State, face: Embedding) returns (s': State)
    requires Judge(face, face) == Pass && s.shared.session == Session(Some(Entering), "", "", Some(face))
    requires Reachable(s) && s.tasks == [EntryShown, Finished, EntryRead] && s.shared.gate == []
    ensures Reachable(s') && s'.shared == s.shared.(gate := [Opening(face, face)])
  {
    hide Judge, Unissued, Reachable, Issue, Return_, Entry;
    var s1 := State(s.shared, [EntryShown, Finished, EntryRead, Comparing(face, face)]);
    Reach(s, CallFace(face), s1);
    var s2 := State(s.shared, [EntryShown, Finished, EntryRead, PassLed(face, face)]);
    Reach(s1, Resume(3, Good("", face)), s2);
    var s3 := State(s.shared, [EntryShown, Finished, EntryRead, FaceClose, OpenGate(face, face)]);
    Reach(s2, Resume(3, Good("", face)), s3);
    s' := State(s.shared.(gate := [Opening(face, face)]), [EntryShown, Finished, EntryRead, FaceClose, Finished]);
    Reach(s3, Resume(4, Good("", face)), s');
  }

  /**
   "Together" means the same tag step, not the same wristband: when an entry is
   cancelled while its face is being read and a second one connects, the late
   tag step sends its remaining calls to the second wristband. For every number
   of calls made before, the gate can open on such a face and flag.
   */
  lemma FaceOfTwoWristbands(n: nat, face: Embedding)
    requires 1 <= n <= 16 && Judge(face, face) == Pass && !Unissued(face)
    ensures var clients := Calls(n, Some("W1")) + Calls(16 - n, Some("W2"));
      exists s :: (Reachable(s) && s.shared.gate == [Opening(face, face)]
                   && s.shared.tagReads == [TagRead(face, false, clients, Some("W2"))])
  {
    hide Judge, Unissued, Reachable, Step, Run;
    var s1 := EntryReads(face);
    var s2 := Reading(s1, Calls(1, Some("W1")), n - 1, face);
    assert Calls(1, Some("W1")) + Calls(n - 1, Some("W1")) == Calls(n, Some("W1"));
    var started := SecondEntryStarts(s2, Calls(n, Some("W1")), face);
    var awake := SecondEntryWakes(started, Calls(n, Some("W1")), face);
    var s3 := SecondEntryConnects(awake, Calls(n, Some("W1")), face);
    var s4 := Reading(s3, Calls(n, Some("W1")), READ_CALLS - n, face);
    var s5 := LateStepKeeps(s4, Calls(n, Some("W1")) + Calls(READ_CALLS - n, Some("W2")), face);
    var s6 := LateFaceOpens(s5, face);
  }

  // ------------------------------------------------------- what lets a task go on

  /** An issue task goes on exactly so: each suspension with the result it needs, and writes only after both checks. */
  lemma IssueGoesOn(s: Shared, t: Task, o: Outcome)
    requires IsIssue(t)
    ensures var (s', t') := Issue(s, t, o);
      && (t.IssueEnter? || t.IssueTag? ==>
            (t'.IssueWake? <==> o.ok && o.device && s.session.flow == Some(Issuing) && s.session.embedding.Some?))
      && (t.IssueWake? ==> (t'.IssueConnect? <==> o.ok))
      && (t.IssueConnect? ==> (t'.IssueLink? <==> o.ok) && s'.client == if o.ok then Some(o.id) else s.client)
      && (t.IssueLink? ==> (t'.IssueId? <==> o.ok) && (t'.IssueConnect? <==> !o.ok && o.again))
      && (t.IssueId? ==>
            (t'.IssueWrite? <==> o.ok && o.id != "" && forall row :: row in s.table.rows && row.Active() ==>
               row.wristband != o.id && row.seat != s.session.seat))
      && (t'.IssueWrite? && t.IssueId? ==> t'.id == o.id)
      && (t.IssueWrite? ==> (t'.IssueSeat? <==> o.ok))
      && (t'.IssueSeat? && t.IssueWrite? ==> t'.id == t.id)
      && (t.IssueSeat? ==>
            (s'.table != s.table <==> o.ok && forall row :: row in s.table.rows && row.Active() ==>
               row.wristband != t.id && row.seat != s.session.seat))
      && (!t.IssueSeat? ==> s'.table == s.table)
  {
    if t.IssueSeat? {
      hide WristbandActive, SeatActive;
      RecordsIff(s, t.own, t.id, o.now);
    }
  }

  lemma RecordsIff(s: Shared, own: nat, id: string, now: string)
    ensures RecordRow(s, own, id, now).0.table != s.table <==>
      forall row :: row in s.table.rows && row.Active() ==> row.wristband != id && row.seat != s.session.seat
  {
  }

  /** An entry likewise; it keeps the face exactly if it was read, the flag was read as 0, and the face is not empty. */
  lemma EntryGoesOn(s: Shared, t: Task, o: Outcome)
    requires IsEntry(t)
    ensures var (s', t') := Entry(s, t, o);
      && (t.EntryEnter? || t.EntryTag? ==> (t'.EntryWake? <==> o.ok && o.device && s.session.flow == Some(Entering)))
      && (t.EntryWake? ==> (t'.EntryConnect? <==> o.ok))
      && (t.EntryConnect? ==> (t'.EntryLink? <==> o.ok) && s'.client == if o.ok then Some(o.id) else s.client)
      && (t.EntryLink? ==> (t'.EntryRead? <==> o.ok) && (t'.EntryConnect? <==> !o.ok && o.again))
      && (t.EntryRead? ==> (t'.EntryReading? <==> o.ok))
      && (t.EntryReading? ==>
            (t'.EntryReading? <==> o.ok && |t.clients| < 16) && (t'.EntryFlag? && t'.face.Some? ==> o.ok))
      && (t.EntryFlag? ==>
            (t'.EntryShown? <==> t.face.Some? && o.ok && !o.broken && !Unissued(t.face.value)))
      && (t.EntryFlag? && t'.EntryShown? ==> s'.session.embedding == t.face)
  {
    hide Unissued;
  }

  /** A return likewise; it closes the row of the id it read, the empty one when the read failed. */
  lemma ReturnGoesOn(s: Shared, t: Task, o: Outcome)
    requires IsReturn(t)
    ensures var (s', t') := Return_(s, t, o);
      && (t.ReturnEnter? || t.ReturnTag? ==>
            (t'.ReturnWake? <==> o.ok && o.device && s.session.flow == Some(Returning)))
      && (t.ReturnWake? ==> (t'.ReturnConnect? <==> o.ok))
      && (t.ReturnConnect? ==> (t'.ReturnLink? <==> o.ok) && s'.client == if o.ok then Some(o.id) else s.client)
      && (t.ReturnLink? ==> (t'.ReturnId? <==> o.ok) && (t'.ReturnConnect? <==> !o.ok && o.again))
      && (t.ReturnId? ==> t' == ReturnClear(if o.ok then o.id else ""))
      && (!t.ReturnClear? ==> s'.table == s.table)
  {
    hide UpdateReturn;
  }

  /** A start without operator device aborts, and the tag step that follows it finds its flow not running. */
  lemma FailedStartGoesOn(s: State, o: Outcome, p: Outcome)
    requires s.shared.session.flow == None
    ensures var n := |s.tasks|;
      var s1 := Step(s, CallEntry(false));
      var s2 := Step(s1, Resume(n, o));
      && s1.tasks == s.tasks + [AbortReset(ToEntryTag)]
      && |s2.tasks| == n + 1 && s2.tasks[n] == EntryTag && s2.shared.session == NO_SESSION
      && Step(s2, Resume(n, p)).tasks[n] == Finished
  {
    hide Judge, Issue, Return_;
  }

  lemma FailedReturnGoesOn(s: State, o: Outcome)
    requires s.shared.session.flow == None
    ensures var n := |s.tasks|;
      var s1 := Step(s, CallReturn(false));
      && s1.tasks == s.tasks + [AbortReset(ToReturnTag)]
      && Step(s1, Resume(n, o)).tasks[n] == ReturnTag
  {
    hide Judge, Issue, Entry;
  }

  /** The guard of a tag step finds another flow, or none, running. */
  predicate GuardStops(s: Shared, t: Task) {
    || ((t.IssueEnter? || t.IssueTag?) && s.session.flow != Some(Issuing))
    || ((t.EntryEnter? || t.EntryTag?) && s.session.flow != Some(Entering))
    || ((t.ReturnEnter? || t.ReturnTag?) && s.session.flow != Some(Returning))
  }

  predicate Ended(s: Shared, t: Task, o: Outcome) {
    || t == DoneReset || t == AbortReset(Ends) || t.OpenGate?
    || ((t.EntryShown? || t.IssueShown?) && o.ok)
    || ((t.IssueTag? || t.EntryTag? || t.ReturnTag?) && !o.ok)
    || (o.ok && GuardStops(s, t))
  }

  lemma IssueEnded(s: Shared, t: Task, o: Outcome)
    requires IsIssue(t)
    ensures Issue(s, t, o).1 == Finished <==> Ended(s, t, o)
  {
    hide InsertIssue, WristbandActive, SeatActive;
  }

  lemma EntryEnded(s: Shared, t: Task, o: Outcome)
    requires IsEntry(t)
    ensures Entry(s, t, o).1 == Finished <==> Ended(s, t, o)
  {
    hide Unissued;
  }

  lemma ReturnEnded(s: Shared, t: Task, o: Outcome)
    requires IsReturn(t)
    ensures Return_(s, t, o).1 == Finished <==> Ended(s, t, o)
  {
    hide UpdateReturn;
  }

  lemma EndingEnded(s: Shared, t: Task, o: Outcome)
    requires t != Finished && !t.PassLed? && !IsIssue(t) && !IsEntry(t) && !IsReturn(t)
    ensures Ending(s, t, o).1 == Finished <==> Ended(s, t, o)
  {
    hide Judge, Overwrite;
  }

  /**
   A coroutine ends only so: behind its reset, its gate signal, broadcasts that
   got out, or a guard that stops it; or when the broadcasts of an abort fail.
   */
  lemma EndsOnlySo(s: Shared, t: Task, o: Outcome)
    requires t != Finished && !t.PassLed?
    ensures Advance(s, t, o).1 == Finished <==> Ended(s, t, o)
  {
    hide Issue, Entry, Return_, Ending, Ended;
    if IsIssue(t) {
      IssueEnded(s, t, o);
    } else if IsEntry(t) {
      EntryEnded(s, t, o);
    } else if IsReturn(t) {
      ReturnEnded(s, t, o);
    } else {
      EndingEnded(s, t, o);
    }
  }

  /** What coroutines come to: a finished one resets as done, a failed one aborts, a failed start goes on. */
  lemma EndsInReset(s: Shared, t: Task, o: Outcome)
    ensures t.IssueClose? || t.FaceClose? ==> Advance(s, t, o).1 == DoneReset
    ensures t.EntryFail? ==> Advance(s, t, o).1 == AbortReset(Ends)
    ensures (t.EntryShown? || t.IssueShown?) && !o.ok ==> Advance(s, t, o).1 == AbortReset(Ends)
    ensures t.IssueEnter? && !o.ok ==> Advance(s, t, o).1 == AbortReset(ToIssueTag(t.own))
    ensures t.EntryEnter? && !o.ok ==> Advance(s, t, o).1 == AbortReset(ToEntryTag)
    ensures t.ReturnEnter? && !o.ok ==> Advance(s, t, o).1 == AbortReset(ToReturnTag)
    ensures t.ReturnClear? ==> Advance(s, t, o).1 == if o.ok then DoneReset else AbortReset(Ends)
  {
    hide Judge, Unissued, InsertIssue, WristbandActive, SeatActive, UpdateReturn;
  }

  /** A face captured in an entry is compared with the stored one; without one, or if that raises, the entry is over. */
  lemma FaceIsCompared(s: State, live: Embedding)
    requires s.shared.session.flow == Some(Entering)
    ensures var stored := s.shared.session.embedding;
      Step(s, CallFace(live)) == s.(tasks := s.tasks +
        [if stored.Some? && Judge(stored.value, live) != Raise then Comparing(stored.value, live) else DoneReset])
  {
    hide Judge;
  }
}
