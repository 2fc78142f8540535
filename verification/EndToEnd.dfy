/**
 The whole life of a ticket: the face written by an issue opens the gate at
 entry, whatever else happens in between, and nothing opens it after a return.
 */
module EndToEnd {
  import opened Wrappers
  import opened Chunks
  import opened Embeddings
  import opened IssueTable
  import opened Flows
  import opened FlowLaws
  import Firmware

  // ------------------------------------------------------------ what a run avoids

  /** This event is a return that reaches the wristband, whether or not it succeeds. */
  predicate ReturnReaches(s: System, e: Event, id: string) {
    RunsReturn(s, e) && Reached(s, e.return_.tag) == Some(id)
  }

  /** This event is an issue that reaches the wristband, whether or not it succeeds. */
  predicate IssueReaches(s: System, e: Event, id: string) {
    RunsIssue(s, e) && Reached(s, e.issue.tag) == Some(id)
  }

  predicate NoReturn(s: System, events: seq<Event>, id: string)
    decreases |events|
  {
    events == [] || (!ReturnReaches(s, events[0], id) && NoReturn(Step(s, events[0]), events[1..], id))
  }

  predicate NoIssue(s: System, events: seq<Event>, id: string)
    decreases |events|
  {
    events == [] || (!IssueReaches(s, events[0], id) && NoIssue(Step(s, events[0]), events[1..], id))
  }

  // -------------------------------------------------------------- issue to entry

  /** The wristband has an active row and holds this face. */
  predicate Ticketed(s: System, id: string, face: Embedding) {
    id != "" && id in s.bands && s.bands[id].mem == face && WristbandActive(s.table.rows, id)
  }

  lemma WriteElsewhere(s: System, id: string, data: seq<byte>, fault: Fault, other: string)
    requires id in s.bands && other in s.bands && other != id
    ensures other in WriteBand(s, id, data, fault).0.bands
    ensures WriteBand(s, id, data, fault).0.bands[other] == s.bands[other]
  {
    hide WriteRun;
  }

  lemma InsertKeepsActive(t: Table, wristband: string, seat: string, name: string, now: string, id: string)
    requires WristbandActive(t.rows, id)
    ensures WristbandActive(InsertIssue(t, wristband, seat, name, now).0.rows, id)
  {
    var row :| row in t.rows && row.Active() && row.wristband == id;
    assert row in InsertIssue(t, wristband, seat, name, now).0.rows;
  }

  lemma IssueKeepsTicket(s: System, env: IssueEnv, id: string, face: Embedding)
    requires Ticketed(s, id, face)
    ensures Ticketed(IssueOnTag(s, env).0, id, face)
  {
    hide WriteBand, InsertIssue, WristbandActive, SeatActive;
    var reached := Reached(s, env.tag);
    if s.session.embedding.Some? && reached.Some? && reached != Some(id) {
      WriteElsewhere(s.(link := None), reached.value, s.session.embedding.value, env.write, id);
    }
    if reached.Some? {
      InsertKeepsActive(s.table, reached.value, s.session.seat, s.session.name, env.now, id);
    }
  }

  lemma CloseKeepsActive(rows: seq<Row>, closed: string, now: string, id: string)
    requires WristbandActive(rows, id) && closed != id
    ensures WristbandActive(MarkReturned(rows, closed, now), id)
  {
    var row :| row in rows && row.Active() && row.wristband == id;
    ClosedRows(rows, closed, now, row);
  }

  lemma ReturnKeepsTicket(s: System, env: ReturnEnv, id: string, face: Embedding)
    requires Ticketed(s, id, face) && Reached(s, env.tag) != Some(id)
    ensures Ticketed(ReturnOnTag(s, env).0, id, face)
  {
    hide WriteBand, MarkReturned, WristbandActive;
    var reached := Reached(s, env.tag);
    if reached.Some? {
      WriteElsewhere(s.(link := None), reached.value, Zeros(EMBED_BYTES), env.write, id);
      CloseKeepsActive(s.table.rows, if env.idRead then reached.value else "", env.now, id);
    }
  }

  lemma TicketStep(s: System, e: Event, id: string, face: Embedding)
    requires Ticketed(s, id, face) && !ReturnReaches(s, e, id)
    ensures Ticketed(Step(s, e), id, face)
  {
    hide Step, IssueOnTag, ReturnOnTag, WristbandActive;
    if RunsIssue(s, e) {
      IssueData(s, e);
      IssueKeepsTicket(IssueBegun(s, e.live), e.issue, id, face);
    } else if RunsReturn(s, e) {
      ReturnData(s, e);
      ReturnKeepsTicket(ReturnBegun(s), e.return_, id, face);
    } else {
      OtherData(s, e);
    }
  }

  lemma {:induction false} TicketKept(s: System, events: seq<Event>, id: string, face: Embedding)
    requires Ticketed(s, id, face) && NoReturn(s, events, id)
    ensures Ticketed(Run(s, events), id, face)
    decreases |events|
  {
    hide Step, Ticketed, ReturnReaches;
    if events != [] {
      TicketStep(s, events[0], id, face);
      TicketKept(Step(s, events[0]), events[1..], id, face);
    }
  }

  /** The tag step records a row, whether or not it then reports success. */
  predicate Records(s: System, env: IssueEnv) {
    IssueOnTag(s, env).0.table != s.table
  }

  /** An issue that records its row leaves the wristband ticketed with the captured face. */
  lemma IssueTickets(s: System, face: Embedding, env: IssueEnv, faceEnv: FaceEnv)
    requires Sized(s) && s.session.flow == Some(Issuing) && |face| == EMBED_BYTES
    requires Records(IssueBegun(s, face), env)
    ensures var s1 := Step(s, FaceCaptured(face, env, faceEnv));
      && Reached(s, env.tag).Some?
      && Ticketed(s1, Reached(s, env.tag).value, face)
      && Documented(s1, Reached(s, env.tag).value, face)
  {
    hide Step, IssueOnTag, WristbandActive;
    IssueData(s, FaceCaptured(face, env, faceEnv));
    IssueSuccess(IssueBegun(s, face), env);
  }

  /** Some active row of the wristband was issued with this face. */
  predicate Documented(s: System, id: string, face: Embedding) {
    exists row :: row in s.table.rows && row.Active() && row.wristband == id
                  && row.id in s.issued && s.issued[row.id] == face
  }

  lemma IssueSuccess(s: System, env: IssueEnv)
    requires Records(s, env) && s.session.embedding.Some? && |s.session.embedding.value| == EMBED_BYTES
    requires Sized(s)
    ensures Reached(s, env.tag).Some?
    ensures Ticketed(IssueOnTag(s, env).0, Reached(s, env.tag).value, s.session.embedding.value)
    ensures Documented(IssueOnTag(s, env).0, Reached(s, env.tag).value, s.session.embedding.value)
  {
    hide WriteBand, WristbandActive, SeatActive, InsertIssue;
    var id, face := Reached(s, env.tag).value, s.session.embedding.value;
    WriteWhole(s.(link := None), id, face, env.write);
    IssuedIsActive(s.table, id, s.session.seat, s.session.name, env.now);
    var (table, r) := InsertIssue(s.table, id, s.session.seat, s.session.name, env.now);
    IssuedRowLast(s.table, id, s.session.seat, s.session.name, env.now);
    assert table.rows[|table.rows| - 1] in IssueOnTag(s, env).0.table.rows;
  }

  lemma IssuedRowLast(t: Table, wristband: string, seat: string, name: string, now: string)
    ensures var (u, r) := InsertIssue(t, wristband, seat, name, now);
      && (r.Issued? ==> |u.rows| > 0 && u.rows[|u.rows| - 1] == Row(r.id, wristband, seat, name, now, None))
      && (!r.Issued? ==> u == t)
  {
  }

  /**
   An issue that has a face records its row exactly when the wristband is
   reached and its id read, wristband and seat are free, no chunk fails and the
   database takes the row; it reports success exactly when the log lines that
   follow get out as well.
   */
  lemma IssueSucceedsIff(s: System, env: IssueEnv)
    requires s.session.embedding.Some? && |s.session.embedding.value| <= 0x1_0000
    ensures Records(s, env) <==>
      && env.tag.connection.Connected? && Meets(s, env.tag, env.tag.connection.wristband)
      && env.idRead && env.tag.connection.wristband != ""
      && (forall row :: row in s.table.rows && row.Active() ==>
            row.wristband != env.tag.connection.wristband && row.seat != s.session.seat)
      && (env.write.NoFault? || env.write.call * EMBED_CHUNK >= |s.session.embedding.value|)
      && env.database
    ensures IssueOnTag(s, env).1 <==> Records(s, env) && !env.logRaises
  {
    hide WriteRun, ChunkStart;
    var reached, face := Reached(s, env.tag), s.session.embedding.value;
    if reached.Some? {
      WriteLeavesPrefix(s.bands[reached.value].mem, face, EMBED_CHUNK, env.write);
      if env.write.FaultAt? {
        ChunkStartIsProduct(env.write.call, EMBED_CHUNK);
      }
    }
  }

  lemma WriteWhole(s: System, id: string, face: Embedding, fault: Fault)
    requires id in s.bands && |s.bands[id].mem| == |face|
    ensures var (r, ok) := WriteBand(s, id, face, fault);
      id in r.bands && (ok ==> r.bands[id].mem == face)
  {
    hide WriteRun;
    WriteOk(s.bands[id].mem, face, EMBED_CHUNK, fault);
  }

  lemma IssuedIsActive(t: Table, wristband: string, seat: string, name: string, now: string)
    ensures var (u, r) := InsertIssue(t, wristband, seat, name, now); r.Issued? ==> WristbandActive(u.rows, wristband)
  {
    var (u, r) := InsertIssue(t, wristband, seat, name, now);
    if r.Issued? {
      assert u.rows[|u.rows| - 1] in u.rows;
    }
  }

  /** An entry whose environment is good: the wristband is reached, its flag is 0 and its face can be read. */
  predicate GoodEntry(s: System, env: EntryEnv, id: string) {
    && Meets(s, env.tag, id)
    && env.flag == Some(false) && !env.raises
    && ReadsThrough(env.read)
  }

  /** The operator device is there, the tag was woken, and this wristband is the one that connects. */
  predicate Meets(s: System, tag: TagEnv, id: string) {
    tag.device && tag.wake && tag.connection == Connected(id) && id in s.bands
  }

  /** None of the sixteen calls of a face read raises. */
  predicate ReadsThrough(read: Fault) {
    read.NoFault? || read.call >= 16
  }

  lemma ReadWhole(s: System, id: string, fault: Fault)
    requires id in s.bands && |s.bands[id].mem| == EMBED_BYTES
    ensures var r := ReadBand(s, id, fault).1; r.Some? ==> r.value == s.bands[id].mem
    ensures ReadBand(s, id, fault).1.Some? <==> ReadsThrough(fault)
  {
    hide ReadRun;
    ReadIsExact(s.bands[id].mem, s.bands[id].readOff, CHUNK_MAX, EMBED_CHUNK, fault);
    ReadSucceedsIff(s.bands[id].mem, s.bands[id].readOff, CHUNK_MAX, EMBED_BYTES, EMBED_CHUNK, fault);
  }

  /**
   The tag step of an entry keeps the memory as stored face, with the link open,
   exactly when the entry is good and the memory not empty; it succeeds exactly
   when the console is told as well. It signals one deny exactly when it read a
   face but no contact flag of 0.
   */
  lemma EntryReadsFace(s: System, env: EntryEnv, id: string)
    requires env.tag.connection == Connected(id) && id in s.bands && |s.bands[id].mem| == EMBED_BYTES
    requires s.session.embedding.None?
    ensures var (r, ok) := EntryOnTag(s, env);
      var stored := GoodEntry(s, env, id) && !Unissued(s.bands[id].mem);
      && (ok <==> stored && !env.showRaises)
      && r.session == s.session.(embedding := if stored then Some(s.bands[id].mem) else None)
      && (stored ==> r.link == Some(id) && r.source == Some(id))
      && (!stored && Meets(s, env.tag, id) ==> r.link == None)
      && r.gate == s.gate + if Rejects(s, env, id) then [DenySignal] else []
  {
    ReadWhole(s, id, env.read);
    ReadIgnoresLink(s, None, id, env.read);
    hide ReadBand, Unissued;
  }

  /** The face is read, nothing raises, and the contact flag is set or cannot be read. */
  predicate Rejects(s: System, env: EntryEnv, id: string) {
    Meets(s, env.tag, id) && ReadsThrough(env.read) && !env.raises && env.flag != Some(false)
  }

  /** Nothing but wristbands of their own accord and "done" screens that time out. */
  predicate OnlyWaits(events: seq<Event>) {
    forall e :: e in events ==> e.Wristband? || e.LingerFires?
  }

  lemma {:induction false} WaitingKeeps(s: System, waiting: seq<Event>)
    requires OnlyWaits(waiting)
    ensures var r := Run(s, waiting);
      && r.session == s.session && r.link == s.link && r.gate == s.gate && r.source == s.source
      && r.table == s.table && r.issued == s.issued
    decreases |waiting|
  {
    hide Firmware.Step;
    if waiting != [] {
      assert waiting[0] in waiting;
      WaitingKeeps(Step(s, waiting[0]), waiting[1..]);
    }
  }

  /** Nothing raises between a comparison and the gate. */
  predicate Undisturbed(env: FaceEnv) {
    env.device && !env.logRaises && !env.raises
  }

  /** The entry is still there, with a stored face, when its command has ended. */
  predicate Stays(s: System, device: bool, entry: EntryEnv, id: string)
    requires id in s.bands && |s.bands[id].mem| == EMBED_BYTES
  {
    && device && GoodEntry(s, entry, id) && !Unissued(s.bands[id].mem)
    && (entry.showRaises ==> entry.closing == Stuck)
  }

  /**
   An entry that reaches a wristband, and the face captured some time later,
   signal a pass exactly when the face was read with contact flag 0, is not
   empty and matches, and no exception comes between; and then one pass, for
   that wristband and on the memory read.
   */
  lemma PassIff(s: System, device: bool, entry: EntryEnv, id: string, waiting: seq<Event>,
                live: Embedding, issueEnv: IssueEnv, env: FaceEnv)
    requires !Busy(s) && entry.tag.connection == Connected(id) && id in s.bands && |s.bands[id].mem| == EMBED_BYTES
    requires OnlyWaits(waiting)
    ensures var s' := Step(Run(Step(s, EntryStart(device, entry)), waiting), FaceCaptured(live, issueEnv, env));
      var passes := Stays(s, device, entry, id) && Judge(s.bands[id].mem, live) == Pass && Undisturbed(env);
      && (passes <==> exists i :: |s.gate| <= i < |s'.gate| && s'.gate[i].PassSignal?)
      && (passes ==> s'.gate == s.gate + [PassSignal(Some(id), s.bands[id].mem, live)])
  {
    var s1 := Step(s, EntryStart(device, entry));
    EntryStarts(s, device, entry, id);
    WaitingKeeps(s1, waiting);
    hide Unissued, Judge, ReadBand, EntryOnTag, IssueOnTag, Stays, Run, StepEntryStart;
    var s2 := Run(s1, waiting);
    var s' := Step(s2, FaceCaptured(live, issueEnv, env));
    if Stays(s, device, entry, id) {
      FaceSignals(s2, FaceCaptured(live, issueEnv, env));
      if Judge(s.bands[id].mem, live) == Pass && Undisturbed(env) {
        assert s'.gate[|s.gate|].PassSignal?;
      }
    } else {
      assert s'.gate == s1.gate;
    }
  }

  /** What a captured face makes of a stored one: a pass, a deny, or nothing if the device is gone or a line raises. */
  lemma FaceSignals(s: System, e: Event)
    requires e.FaceCaptured? && HoldsFace(s)
    ensures var face := s.session.embedding.value;
      Step(s, e).gate == s.gate +
        if Judge(face, e.live) == Pass && Undisturbed(e.face) then [PassSignal(s.source, face, e.live)]
        else if Judge(face, e.live) == Deny && e.face.device && !e.face.logRaises then [DenySignal]
        else []
  {
    hide Judge, MarkDone;
  }

  /** The entry runs with the memory as its face, or without one, or is over; a deny may have been signalled. */
  lemma EntryStarts(s: System, device: bool, entry: EntryEnv, id: string)
    requires !Busy(s) && entry.tag.connection == Connected(id) && id in s.bands && |s.bands[id].mem| == EMBED_BYTES
    ensures var s1 := Step(s, EntryStart(device, entry));
      && s1.gate == s.gate + (if device && Rejects(s, entry, id) then [DenySignal] else [])
      && if Stays(s, device, entry, id) then
        && s1.session == Session(Some(Entering), "", "", Some(s.bands[id].mem))
        && s1.source == Some(id)
      else
        s1.session == s.session || s1.session == NO_SESSION || s1.session == Session(Some(Entering), "", "", None)
  {
    hide Unissued, ReadBand, EntryOnTag;
    EntryReadsFace(EntryBegun(s), entry, id);
    EntryOnTagFrame(EntryBegun(s), entry);
  }

  lemma GoodEntryReaches(s: System, env: EntryEnv, id: string)
    requires GoodEntry(s, env, id)
    ensures env.tag.connection == Connected(id) && id in s.bands
  {
  }

  /**
   End to end: after an issue that recorded its row, with a normalized, non-zero
   face, and any further commands, failures, mode switches and NFC traffic in
   which no return reaches the wristband, an entry that reads the wristband with
   contact flag 0 lets exactly that face through, however long it takes to be captured.
   */
  lemma IssuedFacePasses(
    s: System, face: Embedding, issueEnv: IssueEnv, faceEnv: FaceEnv, events: seq<Event>,
    entry: EntryEnv, waiting: seq<Event>, passEnv: FaceEnv)
    requires Sized(s) && s.session.flow == Some(Issuing) && |face| == EMBED_BYTES
    requires Values(face).Some? && SumSq(Values(face).value) >= GUARD
    requires Records(IssueBegun(s, face), issueEnv)
    requires Reached(s, issueEnv.tag).Some?
    requires NoReturn(Step(s, FaceCaptured(face, issueEnv, faceEnv)), events, Reached(s, issueEnv.tag).value)
    requires var s2 := Run(Step(s, FaceCaptured(face, issueEnv, faceEnv)), events);
      !Busy(s2) && GoodEntry(s2, entry, Reached(s, issueEnv.tag).value)
    requires !entry.showRaises && OnlyWaits(waiting) && Undisturbed(passEnv)
    ensures var id := Reached(s, issueEnv.tag).value;
      var s2 := Run(Step(s, FaceCaptured(face, issueEnv, faceEnv)), events);
      var s3 := Run(Step(s2, EntryStart(true, entry)), waiting);
      Step(s3, FaceCaptured(face, issueEnv, passEnv)).gate == s2.gate + [PassSignal(Some(id), face, face)]
  {
    hide Step, Records, Sized, GoodEntry, Unissued, Judge, Values, Documented;
    var id := Reached(s, issueEnv.tag).value;
    var s1 := Step(s, FaceCaptured(face, issueEnv, faceEnv));
    IssueTickets(s, face, issueEnv, faceEnv);
    TicketKept(s1, events, id, face);
    SameFacePassesIff(face);
    GoodEntryReaches(Run(s1, events), entry, id);
    PassIff(Run(s1, events), true, entry, id, waiting, face, issueEnv, passEnv);
  }

  // --------------------------------------------------------------- after a return

  /** The wristband is blank and no entry holds a face that was read from it. */
  predicate Blank(s: System, id: string) {
    id in s.bands && s.bands[id].mem == Zeros(EMBED_BYTES) && (HoldsFace(s) ==> s.source != Some(id))
  }

  /** No pass for the wristband was signalled from position `from` on. */
  predicate NoPassFrom(gate: seq<Signal>, from: nat, id: string) {
    forall i :: from <= i < |gate| ==> !(gate[i].PassSignal? && gate[i].source == Some(id))
  }

  lemma ClearedReadsUnissued(s: System, env: EntryEnv, id: string)
    requires id in s.bands && s.bands[id].mem == Zeros(EMBED_BYTES) && Reached(s, env.tag) == Some(id)
    ensures EntryOnTag(s, env).0.session == s.session
    ensures var g := EntryOnTag(s, env).0.gate; g == s.gate || g == s.gate + [DenySignal]
  {
    ReadWhole(s.(link := Some(id)), id, env.read);
    ZeroBytesAreUnissued(Zeros(EMBED_BYTES), []);
    hide ReadBand, Unissued;
  }

  lemma EntryNeverPasses(s: System, env: EntryEnv)
    ensures var (r, ok) := EntryOnTag(s, env);
      r.gate == s.gate || r.gate == s.gate + [DenySignal]
  {
    hide ReadBand, Unissued;
  }

  lemma IssueBlank(s: System, env: IssueEnv, id: string)
    requires id in s.bands && s.bands[id].mem == Zeros(EMBED_BYTES) && Reached(s, env.tag) != Some(id)
    ensures var r := IssueOnTag(s, env).0; id in r.bands && r.bands[id].mem == Zeros(EMBED_BYTES)
  {
    hide WriteBand, InsertIssue, WristbandActive, SeatActive;
    var reached := Reached(s, env.tag);
    if s.session.embedding.Some? && reached.Some? {
      WriteElsewhere(s.(link := None), reached.value, s.session.embedding.value, env.write, id);
    }
  }

  lemma ClearBlank(s: System, id: string, fault: Fault)
    requires id in s.bands && s.bands[id].mem == Zeros(EMBED_BYTES)
    ensures var r := WriteBand(s, id, Zeros(EMBED_BYTES), fault).0;
      id in r.bands && r.bands[id].mem == Zeros(EMBED_BYTES)
  {
    hide WriteRun, Written;
    WriteLeavesPrefix(Zeros(EMBED_BYTES), Zeros(EMBED_BYTES), EMBED_CHUNK, fault);
    WrittenAtMost(EMBED_BYTES, EMBED_CHUNK, fault);
  }

  lemma ReturnBlank(s: System, env: ReturnEnv, id: string)
    requires id in s.bands && s.bands[id].mem == Zeros(EMBED_BYTES)
    ensures var r := ReturnOnTag(s, env).0; id in r.bands && r.bands[id].mem == Zeros(EMBED_BYTES)
  {
    hide WriteBand, MarkReturned, WristbandActive;
    var reached := Reached(s, env.tag);
    if reached.Some? {
      if reached.value == id {
        ClearBlank(s.(link := None), id, env.write);
      } else {
        WriteElsewhere(s.(link := None), reached.value, Zeros(EMBED_BYTES), env.write, id);
      }
    }
  }

  lemma BlankMemory(s: System, e: Event, id: string)
    requires id in s.bands && s.bands[id].mem == Zeros(EMBED_BYTES) && !IssueReaches(s, e, id)
    ensures id in Step(s, e).bands && Step(s, e).bands[id].mem == Zeros(EMBED_BYTES)
  {
    hide Step, IssueOnTag, ReturnOnTag;
    if RunsIssue(s, e) {
      IssueData(s, e);
      IssueBlank(IssueBegun(s, e.live), e.issue, id);
    } else if RunsReturn(s, e) {
      ReturnData(s, e);
      ReturnBlank(ReturnBegun(s), e.return_, id);
    } else {
      OtherData(s, e);
    }
  }

  /** An entry that begins takes no face from a blank wristband. */
  lemma BlankEntry(s: System, e: Event, id: string)
    requires Blank(s, id) && e.EntryStart?
    ensures HoldsFace(Step(s, e)) ==> Step(s, e).source != Some(id)
    ensures Step(s, e).gate == s.gate || Step(s, e).gate == s.gate + [DenySignal]
  {
    hide EntryOnTag;
    EntryOnTagFrame(EntryBegun(s), e.entry);
    EntryNeverPasses(EntryBegun(s), e.entry);
    if Reached(EntryBegun(s), e.entry.tag) == Some(id) {
      ClearedReadsUnissued(EntryBegun(s), e.entry, id);
    }
  }

  /** A captured face compared with another wristband's, or with none, signals no pass for this one. */
  lemma BlankFace(s: System, e: Event, id: string)
    requires Blank(s, id) && e.FaceCaptured? && !RunsIssue(s, e)
    ensures HoldsFace(Step(s, e)) ==> Step(s, e).source != Some(id)
    ensures s.gate <= Step(s, e).gate && NoPassFrom(Step(s, e).gate, |s.gate|, id)
  {
    hide EntryOnFace, IssueOnTag;
    EntryOnFaceFrame(s, e.live, e.face);
    if HoldsFace(s) {
      FaceSignals(s, e);
    }
  }

  /** Nothing else adds to the gate or makes an entry hold a face. */
  lemma BlankRest(s: System, e: Event)
    requires !e.EntryStart? && (e.FaceCaptured? ==> RunsIssue(s, e))
    ensures HoldsFace(Step(s, e)) ==> HoldsFace(s) && Step(s, e).source == s.source
    ensures Step(s, e).gate == s.gate
  {
    hide IssueOnTag, ReturnOnTag, Firmware.Step;
    if e.FaceCaptured? {
      IssueOnTagFrame(IssueBegun(s, e.live), e.issue);
    } else if e.ReturnStart? {
      ReturnOnTagFrame(ReturnBegun(s), e.return_);
    }
  }

  lemma BlankStep(s: System, e: Event, id: string)
    requires Blank(s, id) && !IssueReaches(s, e, id)
    ensures Blank(Step(s, e), id)
    ensures s.gate <= Step(s, e).gate && NoPassFrom(Step(s, e).gate, |s.gate|, id)
  {
    hide Step, RunsIssue;
    BlankMemory(s, e, id);
    if e.EntryStart? {
      BlankEntry(s, e, id);
    } else if e.FaceCaptured? && !RunsIssue(s, e) {
      BlankFace(s, e, id);
    } else {
      BlankRest(s, e);
    }
  }

  lemma {:induction false} BlankKept(s: System, events: seq<Event>, id: string)
    requires Blank(s, id) && NoIssue(s, events, id)
    ensures Blank(Run(s, events), id)
    ensures s.gate <= Run(s, events).gate && NoPassFrom(Run(s, events).gate, |s.gate|, id)
    decreases |events|
  {
    hide Step, Blank, IssueReaches;
    if events != [] {
      BlankStep(s, events[0], id);
      BlankKept(Step(s, events[0]), events[1..], id);
    }
  }

  lemma ReturnClears(s: System, env: ReturnEnv, id: string)
    requires Sized(s) && !Busy(s) && Reached(s, env.tag) == Some(id)
    requires WriteBand(s, id, Zeros(EMBED_BYTES), env.write).1
    ensures Blank(Step(s, ReturnStart(true, env)), id) && Step(s, ReturnStart(true, env)).gate == s.gate
  {
    hide WriteRun, MarkReturned, WristbandActive;
    var s1 := ReturnBegun(s);
    WriteWhole(s1.(link := None), id, Zeros(EMBED_BYTES), env.write);
    assert WriteBand(s1.(link := None), id, Zeros(EMBED_BYTES), env.write).1;
    ReturnData(s, ReturnStart(true, env));
    BlankRest(s, ReturnStart(true, env));
  }

  /**
   End to end: after a return whose clear was written in full, no face passes
   on that wristband, whatever else happens, until a later issue reaches it.
   */
  lemma NothingPassesAfterReturn(s: System, env: ReturnEnv, id: string, events: seq<Event>)
    requires Sized(s) && !Busy(s) && Reached(s, env.tag) == Some(id)
    requires WriteBand(s, id, Zeros(EMBED_BYTES), env.write).1
    requires NoIssue(Step(s, ReturnStart(true, env)), events, id)
    ensures var s' := Run(Step(s, ReturnStart(true, env)), events);
      s.gate <= s'.gate && NoPassFrom(s'.gate, |s.gate|, id)
  {
    hide Step, WriteBand, Sized;
    ReturnClears(s, env, id);
    BlankKept(Step(s, ReturnStart(true, env)), events, id);
  }

  // ------------------------------------------------------ a clear that stops midway

  /** What a clear leaves of the memory: zeros as far as it got, the old bytes behind. */
  function Leftover(mem: seq<byte>, fault: Fault): (r: seq<byte>)
    ensures |r| == |mem|
  {
    Overlay(mem, Zeros(EMBED_BYTES)[..Written(EMBED_BYTES, EMBED_CHUNK, fault)])
  }

  lemma ClearLeaves(s: System, id: string, fault: Fault)
    requires id in s.bands
    ensures var r := WriteBand(s, id, Zeros(EMBED_BYTES), fault).0;
      id in r.bands && r.bands[id].mem == Leftover(s.bands[id].mem, fault)
  {
    hide WriteRun, Written, Overlay;
    WriteLeavesPrefix(s.bands[id].mem, Zeros(EMBED_BYTES), EMBED_CHUNK, fault);
  }

  lemma ReturnLeaves(s: System, env: ReturnEnv, id: string)
    requires !Busy(s) && Reached(s, env.tag) == Some(id)
    ensures var r := Step(s, ReturnStart(true, env));
      id in r.bands && r.bands[id].mem == Leftover(s.bands[id].mem, env.write) && r.gate == s.gate
  {
    ReturnData(s, ReturnStart(true, env));
    ClearLeaves(ReturnBegun(s).(link := None), id, env.write);
    hide WriteBand, MarkReturned, WristbandActive, Leftover, Step;
  }

  lemma IssueMemory(s: System, env: IssueEnv, id: string)
    requires id in s.bands && Reached(s, env.tag) != Some(id)
    ensures var r := IssueOnTag(s, env).0; id in r.bands && r.bands[id].mem == s.bands[id].mem
  {
    hide WriteBand, InsertIssue, WristbandActive, SeatActive;
    var reached := Reached(s, env.tag);
    if s.session.embedding.Some? && reached.Some? {
      WriteElsewhere(s.(link := None), reached.value, s.session.embedding.value, env.write, id);
    }
  }

  lemma ReturnMemory(s: System, env: ReturnEnv, id: string)
    requires id in s.bands && Reached(s, env.tag) != Some(id)
    ensures var r := ReturnOnTag(s, env).0; id in r.bands && r.bands[id].mem == s.bands[id].mem
  {
    hide WriteBand, UpdateReturn;
    var reached := Reached(s, env.tag);
    if reached.Some? {
      WriteElsewhere(s.(link := None), reached.value, Zeros(EMBED_BYTES), env.write, id);
    }
  }

  lemma MemoryStep(s: System, e: Event, id: string)
    requires id in s.bands && !IssueReaches(s, e, id) && !ReturnReaches(s, e, id)
    ensures id in Step(s, e).bands && Step(s, e).bands[id].mem == s.bands[id].mem
  {
    hide Step, IssueOnTag, ReturnOnTag;
    if RunsIssue(s, e) {
      IssueData(s, e);
      IssueMemory(IssueBegun(s, e.live), e.issue, id);
    } else if RunsReturn(s, e) {
      ReturnData(s, e);
      ReturnMemory(ReturnBegun(s), e.return_, id);
    } else {
      OtherData(s, e);
    }
  }

  lemma {:induction false} MemoryRun(s: System, events: seq<Event>, id: string)
    requires id in s.bands && NoIssue(s, events, id) && NoReturn(s, events, id)
    ensures id in Run(s, events).bands && Run(s, events).bands[id].mem == s.bands[id].mem
    decreases |events|
  {
    hide Step, IssueReaches, ReturnReaches;
    if events != [] {
      MemoryStep(s, events[0], id);
      MemoryRun(Step(s, events[0]), events[1..], id);
    }
  }

  /**
   A return, however far its clear got and whatever it reported, and any
   further commands without an issue or return that reaches the wristband: an
   entry then lets a face through exactly when what the clear left is not empty
   and matches that face.
   */
  lemma PassAfterReturnIff(s: System, env: ReturnEnv, id: string, events: seq<Event>,
                           entry: EntryEnv, waiting: seq<Event>, live: Embedding, issueEnv: IssueEnv, passEnv: FaceEnv)
    requires Sized(s) && !Busy(s) && Reached(s, env.tag) == Some(id)
    requires var s1 := Step(s, ReturnStart(true, env));
      && NoIssue(s1, events, id) && NoReturn(s1, events, id)
      && !Busy(Run(s1, events)) && GoodEntry(Run(s1, events), entry, id) && !entry.showRaises
    requires OnlyWaits(waiting) && Undisturbed(passEnv)
    ensures var s2 := Run(Step(s, ReturnStart(true, env)), events);
      var s3 := Step(Run(Step(s2, EntryStart(true, entry)), waiting), FaceCaptured(live, issueEnv, passEnv));
      var left := Leftover(s.bands[id].mem, env.write);
      (exists i :: |s2.gate| <= i < |s3.gate| && s3.gate[i].PassSignal?)
      <==> !Unissued(left) && Judge(left, live) == Pass
  {
    hide Step, Leftover, Unissued, Judge, GoodEntry, ReturnReaches, IssueReaches;
    var s1 := Step(s, ReturnStart(true, env));
    ReturnLeaves(s, env, id);
    MemoryRun(s1, events, id);
    var s2 := Run(s1, events);
    GoodEntryReaches(s2, entry, id);
    PassIff(s2, true, entry, id, waiting, live, issueEnv, passEnv);
  }

  // ------------------------------------------------------- a pass and its active row

  /** Every wristband whose memory is not empty has an active row. */
  ghost predicate Backed(s: System) {
    && Sized(s)
    && !WristbandActive(s.table.rows, "")
    && forall id :: id in s.bands && !Unissued(s.bands[id].mem) ==> WristbandActive(s.table.rows, id)
  }

  /** An issue that leaves a face, or part of one, on the wristband but records no row. */
  predicate IssueStrands(s: System, env: IssueEnv)
    requires Sized(s)
  {
    var reached := Reached(s, env.tag);
    && s.session.embedding.Some? && reached.Some? && env.idRead && reached.value != ""
    && !WristbandActive(s.table.rows, reached.value) && !SeatActive(s.table.rows, s.session.seat)
    && var (left, ok) := WriteRun(s.bands[reached.value].mem, s.session.embedding.value, EMBED_CHUNK, env.write, 0, 0);
    !(ok && env.database) && !Unissued(left)
  }

  /** A return that leaves part of the face on the wristband and closes its row, or finds none. */
  predicate ReturnStrands(s: System, env: ReturnEnv)
    requires Sized(s)
  {
    var reached := Reached(s, env.tag);
    && reached.Some?
    && !Unissued(Leftover(s.bands[reached.value].mem, env.write))
    && !(WristbandActive(s.table.rows, reached.value) && !(env.idRead && env.database))
  }

  lemma BackedIgnoresRest(s: System, s': System)
    requires SameData(s, s')
    ensures Backed(s') <==> Backed(s)
  {
    hide Unissued, WristbandActive;
    if Backed(s) {
      forall id | id in s'.bands && |s'.bands[id].mem| == EMBED_BYTES && !Unissued(s'.bands[id].mem)
        ensures WristbandActive(s'.table.rows, id)
      {
        assert s'.bands[id].mem == s.bands[id].mem;
      }
    }
    if Backed(s') {
      forall id | id in s.bands && |s.bands[id].mem| == EMBED_BYTES && !Unissued(s.bands[id].mem)
        ensures WristbandActive(s.table.rows, id)
      {
        assert s'.bands[id].mem == s.bands[id].mem;
      }
    }
  }

  /** New memory on one wristband: the others stay backed, so all depends on this one. */
  lemma BackedAfterWrite(s: System, s': System, id: string)
    requires Backed(s) && Sized(s') && id in s.bands && s'.bands.Keys == s.bands.Keys
    requires forall other :: other in s.bands && other != id ==> s'.bands[other].mem == s.bands[other].mem
    requires forall other :: other != id ==>
      (WristbandActive(s'.table.rows, other) <==> WristbandActive(s.table.rows, other))
    requires id == "" ==> !WristbandActive(s'.table.rows, "")
    ensures Backed(s') <==> Unissued(s'.bands[id].mem) || WristbandActive(s'.table.rows, id)
  {
    hide Unissued, WristbandActive;
    if Unissued(s'.bands[id].mem) || WristbandActive(s'.table.rows, id) {
      forall other | other in s'.bands && !Unissued(s'.bands[other].mem) ensures WristbandActive(s'.table.rows, other) {
        if other != id {
          assert s'.bands[other].mem == s.bands[other].mem;
        }
      }
    }
  }

  lemma InsertActive(t: Table, wristband: string, seat: string, name: string, now: string)
    ensures var (u, r) := InsertIssue(t, wristband, seat, name, now);
      && (forall other :: other != wristband ==> (WristbandActive(u.rows, other) <==> WristbandActive(t.rows, other)))
      && (r.Issued? ==> WristbandActive(u.rows, wristband))
      && (r.Issued? <==> !WristbandActive(t.rows, wristband) && !SeatActive(t.rows, seat))
  {
    IssuedIsActive(t, wristband, seat, name, now);
    var u := InsertIssue(t, wristband, seat, name, now).0;
    forall other | other != wristband ensures WristbandActive(u.rows, other) <==> WristbandActive(t.rows, other) {
      if WristbandActive(t.rows, other) {
        InsertKeepsActive(t, wristband, seat, name, now, other);
      }
      if WristbandActive(u.rows, other) {
        var row :| row in u.rows && row.Active() && row.wristband == other;
        assert row in t.rows;
      }
    }
  }

  lemma IssueBackedIff(s: System, env: IssueEnv)
    requires Backed(s)
    ensures Backed(IssueOnTag(s, env).0) <==> !IssueStrands(s, env)
  {
    hide WriteRun, Unissued, InsertIssue, WristbandActive, SeatActive;
    var reached, r := Reached(s, env.tag), IssueOnTag(s, env).0;
    if s.session.embedding.Some? && reached.Some? {
      var id := reached.value;
      InsertActive(s.table, id, s.session.seat, s.session.name, env.now);
      if env.idRead && id != "" && !WristbandActive(s.table.rows, id) && !SeatActive(s.table.rows, s.session.seat) {
        BackedAfterWrite(s, r, id);
      } else {
        BackedIgnoresRest(s, r);
      }
    }
  }

  lemma CloseActive(rows: seq<Row>, closed: string, now: string)
    ensures !WristbandActive(MarkReturned(rows, closed, now), closed)
    ensures forall other :: other != closed ==>
      (WristbandActive(MarkReturned(rows, closed, now), other) <==> WristbandActive(rows, other))
  {
    var rows' := MarkReturned(rows, closed, now);
    forall row ensures row in rows' && row.Active() <==> row in rows && row.Active() && row.wristband != closed {
      ClosedRows(rows, closed, now, row);
    }
    forall other | other != closed ensures WristbandActive(rows', other) <==> WristbandActive(rows, other) {
      if WristbandActive(rows, other) {
        CloseKeepsActive(rows, closed, now, other);
      }
    }
  }

  lemma ReturnBackedIff(s: System, env: ReturnEnv)
    requires Backed(s)
    ensures Backed(ReturnOnTag(s, env).0) <==> !ReturnStrands(s, env)
  {
    hide WriteBand, Leftover, Unissued, MarkReturned, WristbandActive;
    var reached, r := Reached(s, env.tag), ReturnOnTag(s, env).0;
    if reached.Some? {
      var id := reached.value;
      ClearLeaves(s.(link := None), id, env.write);
      ClearElsewhere(s.(link := None), id, env.write);
      CloseActive(s.table.rows, if env.idRead then id else "", env.now);
      BackedAfterWrite(s, r, id);
    }
  }

  lemma ClearElsewhere(s: System, id: string, fault: Fault)
    requires Sized(s) && id in s.bands
    ensures var r := WriteBand(s, id, Zeros(EMBED_BYTES), fault).0;
      && Sized(r) && r.bands.Keys == s.bands.Keys
      && forall other :: other in s.bands && other != id ==> r.bands[other] == s.bands[other]
  {
    hide WriteRun;
  }

  ghost predicate Strands(s: System, e: Event)
    requires Sized(s)
  {
    || (RunsIssue(s, e) && IssueStrands(s.(session := s.session.(embedding := Some(e.live))), e.issue))
    || (RunsReturn(s, e) && ReturnStrands(s, e.return_))
  }

  /**
   A command keeps every non-empty wristband backed by an active row exactly
   when it is neither an issue that leaves bytes of a face but records no row,
   nor a return that leaves bytes of a face but no active row.
   */
  lemma BackedIff(s: System, e: Event)
    requires Backed(s)
    ensures Backed(Step(s, e)) <==> !Strands(s, e)
  {
    hide Step, IssueOnTag, ReturnOnTag, Backed, IssueStrands, ReturnStrands;
    BackedSized(s);
    if RunsIssue(s, e) {
      var s1 := IssueBegun(s, e.live);
      IssueData(s, e);
      BackedIgnoresRest(s, s1);
      IssueBackedIff(s1, e.issue);
      StrandsIgnoreTrace(s.(session := s1.session), s1, e.issue);
      BackedIgnoresRest(IssueOnTag(s1, e.issue).0, Step(s, e));
    } else if RunsReturn(s, e) {
      var s1 := ReturnBegun(s);
      ReturnData(s, e);
      BackedIgnoresRest(s, s1);
      ReturnBackedIff(s1, e.return_);
      ReturnStrandsIgnoreRest(s, s1, e.return_);
      BackedIgnoresRest(ReturnOnTag(s1, e.return_).0, Step(s, e));
    } else {
      OtherData(s, e);
      BackedIgnoresRest(s, Step(s, e));
    }
  }

  lemma BackedSized(s: System)
    requires Backed(s)
    ensures Sized(s)
  {
  }

  lemma StrandsIgnoreTrace(s: System, s': System, env: IssueEnv)
    requires Sized(s) && s' == s.(trace := s'.trace)
    ensures Sized(s') && (IssueStrands(s, env) <==> IssueStrands(s', env))
  {
    hide WriteRun, Unissued;
  }

  lemma ReturnStrandsIgnoreRest(s: System, s': System, env: ReturnEnv)
    requires Sized(s) && s'.table == s.table && s'.bands == s.bands
    ensures Sized(s') && (ReturnStrands(s, env) <==> ReturnStrands(s', env))
  {
    hide Leftover, Unissued;
  }

  ghost predicate NoneStranded(s: System, events: seq<Event>)
    requires Sized(s)
    decreases |events|
  {
    events == [] || (!Strands(s, events[0]) && (SizedStep(s, events[0]); NoneStranded(Step(s, events[0]), events[1..])))
  }

  lemma {:induction false} BackedRun(s: System, events: seq<Event>)
    requires Backed(s) && NoneStranded(s, events)
    ensures Backed(Run(s, events))
    decreases |events|
  {
    hide Step, Backed, Strands;
    if events != [] {
      BackedIff(s, events[0]);
      BackedSized(Step(s, events[0]));
      BackedRun(Step(s, events[0]), events[1..]);
    }
  }

  /**
   A pass means an active row: from wristbands that are all backed, as those of
   a fresh server are, after any run in which no command stranded a face, an
   entry and a later live face signal a pass only for a wristband that has an active row, then and still.
   */
  lemma PassHasRow(s: System, events: seq<Event>, device: bool, entry: EntryEnv, id: string, waiting: seq<Event>,
                   live: Embedding, issueEnv: IssueEnv, env: FaceEnv)
    requires Backed(s) && NoneStranded(s, events)
    requires var s1 := Run(s, events); !Busy(s1) && entry.tag.connection == Connected(id) && id in s1.bands
    requires OnlyWaits(waiting)
    ensures var s1 := Run(s, events);
      var s2 := Step(Run(Step(s1, EntryStart(device, entry)), waiting), FaceCaptured(live, issueEnv, env));
      (exists i :: |s1.gate| <= i < |s2.gate| && s2.gate[i].PassSignal?) ==>
        WristbandActive(s1.table.rows, id) && s2.table == s1.table
  {
    BackedRun(s, events);
    var s1 := Run(s, events);
    BackedSized(s1);
    PassIff(s1, device, entry, id, waiting, live, issueEnv, env);
    EntryKeepsTable(s1, device, entry, waiting, live, issueEnv, env);
    hide Run, Step, Unissued, GoodEntry, Judge, WristbandActive, NoneStranded;
  }

  lemma EntryKeepsTable(s: System, device: bool, entry: EntryEnv, waiting: seq<Event>,
                        live: Embedding, issueEnv: IssueEnv, env: FaceEnv)
    requires !Busy(s) && OnlyWaits(waiting)
    ensures Step(Run(Step(s, EntryStart(device, entry)), waiting), FaceCaptured(live, issueEnv, env)).table == s.table
  {
    var s1 := Step(s, EntryStart(device, entry));
    WaitingKeeps(s1, waiting);
    EntryOnTagFrame(EntryBegun(s), entry);
    OtherData(s, EntryStart(device, entry));
    NeverIssues(s, device, entry);
    hide Run, Step;
    OtherData(Run(s1, waiting), FaceCaptured(live, issueEnv, env));
  }

  lemma NeverIssues(s: System, device: bool, entry: EntryEnv)
    requires !Busy(s)
    ensures Step(s, EntryStart(device, entry)).session.flow != Some(Issuing)
  {
    hide EntryOnTag;
    EntryOnTagFrame(EntryBegun(s), entry);
  }

  /** A fresh server has every wristband backed, none being issued. */
  lemma InitialBacked(s: System)
    requires Initial(s)
    ensures Backed(s)
  {
    forall id | id in s.bands ensures Unissued(s.bands[id].mem) {
      ZeroBytesAreUnissued(s.bands[id].mem, []);
    }
  }

  /**
   A wiped wristband can be one the table still counts as issued: right after an
   issue that recorded its row and ended, a return that cannot read the id
   breaks the agreement.
   */
  lemma UnreadReturnAfterIssue(s: System, face: Embedding, env: IssueEnv, faceEnv: FaceEnv)
    requires Agreement(s) && s.session.flow == Some(Issuing) && |face| == EMBED_BYTES && face[0] != 0
    requires Records(IssueBegun(s, face), env) && env.closing == Closed
    ensures var s1 := Step(s, FaceCaptured(face, env, faceEnv));
      var e := ReturnStart(true, ReturnEnv(env.tag, false, NoFault, true, false, "", Closed));
      Agreement(s1) && Breaks(s1, e) && !Agreement(Step(s1, e)) && Showing(Step(s1, e)) == Done
  {
    var s1 := Step(s, FaceCaptured(face, env, faceEnv));
    IssueTickets(s, face, env, faceEnv);
    IssueEnds(s, face, env, faceEnv);
    AgreementIff(s, FaceCaptured(face, env, faceEnv));
    hide Step, IssueOnTag, Agreement, Breaks, Ticketed;
    var id := Reached(s, env.tag).value;
    var row :| row in s1.table.rows && row.Active() && row.wristband == id
               && row.id in s1.issued && s1.issued[row.id] == face;
    UnreadReturnBreaks(s1, env.tag, row);
  }

  lemma IssueEnds(s: System, face: Embedding, env: IssueEnv, faceEnv: FaceEnv)
    requires s.session.flow == Some(Issuing) && env.closing == Closed
    ensures var s1 := Step(s, FaceCaptured(face, env, faceEnv)); !Busy(s1) && s1.bands.Keys == s.bands.Keys
  {
    hide WriteRun, InsertIssue, WristbandActive, SeatActive;
  }

  lemma CutClearLeavesAll(mem: seq<byte>)
    ensures Leftover(mem, FaultAt(0, false)) == mem
  {
    assert ChunkStart(0, EMBED_CHUNK) == 0;
  }

  /** A return whose clear is cut at its first chunk. */
  function CutReturn(tag: TagEnv): ReturnEnv {
    ReturnEnv(tag, true, FaultAt(0, false), true, false, "", Closed)
  }

  /** It closes the row and reports success, with the face still on the wristband. */
  lemma CutReturnStrands(s: System, tag: TagEnv, id: string)
    requires Sized(s) && !Busy(s) && Reached(s, tag) == Some(id) && !Unissued(s.bands[id].mem)
    ensures var e := ReturnStart(true, CutReturn(tag));
      var s1 := Step(s, e);
      && Strands(s, e) && Showing(s1) == Done && !Busy(s1) && s1.gate == s.gate
      && !WristbandActive(s1.table.rows, id) && id in s1.bands && s1.bands[id].mem == s.bands[id].mem
  {
    var env := CutReturn(tag);
    CutClearLeavesAll(s.bands[id].mem);
    ReturnLeaves(s, env, id);
    UnreadReturnDone(s, env);
    CutReturnCloses(s, env, id);
    hide Step, Unissued, WristbandActive, Leftover, IssueStrands;
  }

  /**
   Such a pass without an active row: from every wristband whose memory passes
   against itself, a return that is cut at its first chunk closes the row and
   reports success, and the face on the wristband still opens the gate.
   */
  lemma PassWithoutRow(s: System, tag: TagEnv, id: string, entry: EntryEnv, waiting: seq<Event>,
                       issueEnv: IssueEnv, passEnv: FaceEnv)
    requires Sized(s) && !Busy(s) && Reached(s, tag) == Some(id)
    requires Judge(s.bands[id].mem, s.bands[id].mem) == Pass
    requires GoodEntry(Step(s, ReturnStart(true, CutReturn(tag))), entry, id)
    requires !entry.showRaises && OnlyWaits(waiting) && Undisturbed(passEnv)
    ensures var e := ReturnStart(true, CutReturn(tag));
      var s1 := Step(s, e);
      var mem := s.bands[id].mem;
      var s2 := Step(Run(Step(s1, EntryStart(true, entry)), waiting), FaceCaptured(mem, issueEnv, passEnv));
      && Strands(s, e) && Showing(s1) == Done && !WristbandActive(s1.table.rows, id)
      && s2.gate == s.gate + [PassSignal(Some(id), mem, mem)]
  {
    hide Step, GoodEntry, Unissued, Judge, WristbandActive, CutReturn, Strands;
    var s1 := Step(s, ReturnStart(true, CutReturn(tag)));
    SameFacePassesIff(s.bands[id].mem);
    CutReturnStrands(s, tag, id);
    GoodEntryReaches(s1, entry, id);
    PassIff(s1, true, entry, id, waiting, s.bands[id].mem, issueEnv, passEnv);
  }

  lemma CutReturnCloses(s: System, env: ReturnEnv, id: string)
    requires !Busy(s) && Reached(s, env.tag) == Some(id) && env.idRead && env.database
    ensures !WristbandActive(Step(s, ReturnStart(true, env)).table.rows, id)
  {
    ReturnData(s, ReturnStart(true, env));
    CloseActive(s.table.rows, id, env.now);
    hide WriteRun, MarkReturned, WristbandActive, Step;
  }

  // ------------------------------------------------------- what a command writes down

  /**
   The tag step of a return, whichever wristband connects: it does nothing at all
   without operator device and wake; else it clears the memory as far as it gets,
   and if the database answers it closes exactly the active rows of the id it
   read, the empty id when it read none, stamping them with the time.
   */
  lemma ReturnEffect(s: System, env: ReturnEnv, id: string, i: nat)
    requires env.tag.connection == Connected(id) && id in s.bands && i < |s.table.rows|
    ensures var (r, ok) := ReturnOnTag(s, env);
      var read := if env.idRead then id else "";
      var row := s.table.rows[i];
      if !(env.tag.device && env.tag.wake) then r == s && !ok
      else
        && id in r.bands && r.bands[id].mem == Leftover(s.bands[id].mem, env.write)
        && (forall other :: other in s.bands && other != id ==> other in r.bands && r.bands[other] == s.bands[other])
        && |r.table.rows| == |s.table.rows| && r.table.lastId == s.table.lastId
        && r.table.rows[i] ==
           (if env.database && row.Active() && row.wristband == read then row.(returnedAt := Some(env.now)) else row)
        && (ok <==> env.database && !env.logRaises)
  {
    ClearLeaves(s.(link := None), id, env.write);
    hide WriteRun, Leftover, WristbandActive;
  }

  /**
   The row an issue records is the operator's: after the start of an issue with
   seat and name, and any waiting, the captured face that records adds one row,
   of the wristband that connects, with that seat, that name and the time.
   */
  lemma RowAsGiven(s: System, seat: string, name: string, closing: Closing, waiting: seq<Event>,
                   live: Embedding, env: IssueEnv, faceEnv: FaceEnv)
    requires !Busy(s) && OnlyWaits(waiting)
    requires var s1 := Run(Step(s, IssueStart(seat, name, true, true, closing)), waiting);
      Step(s1, FaceCaptured(live, env, faceEnv)).table != s1.table
    ensures var s1 := Run(Step(s, IssueStart(seat, name, true, true, closing)), waiting);
      var rows := Step(s1, FaceCaptured(live, env, faceEnv)).table.rows;
      && env.tag.connection.Connected?
      && rows == s.table.rows + [Row(s.table.lastId + 1, env.tag.connection.wristband, seat, name, env.now, None)]
  {
    hide Step, Run;
    var started := Step(s, IssueStart(seat, name, true, true, closing));
    IssueStarts(s, seat, name, true, closing);
    WaitingKeeps(started, waiting);
    RowOfSession(Run(started, waiting), live, env, faceEnv);
  }

  lemma RowOfSession(s: System, live: Embedding, env: IssueEnv, faceEnv: FaceEnv)
    requires s.session.flow == Some(Issuing) && Step(s, FaceCaptured(live, env, faceEnv)).table != s.table
    ensures env.tag.connection.Connected?
    ensures Step(s, FaceCaptured(live, env, faceEnv)).table.rows ==
      s.table.rows + [Row(s.table.lastId + 1, env.tag.connection.wristband,
                          s.session.seat, s.session.name, env.now, None)]
  {
    hide Step, IssueOnTag;
    IssueData(s, FaceCaptured(live, env, faceEnv));
    RowRecorded(IssueBegun(s, live), env);
  }

  lemma RowRecorded(s: System, env: IssueEnv)
    requires Records(s, env)
    ensures env.tag.connection.Connected?
    ensures IssueOnTag(s, env).0.table.rows ==
      s.table.rows + [Row(s.table.lastId + 1, env.tag.connection.wristband,
                          s.session.seat, s.session.name, env.now, None)]
  {
    hide WriteBand, WristbandActive, SeatActive;
  }

  /** A start asks for the face exactly from an idle session with the device there, and runs with what was given. */
  lemma IssueStarts(s: System, seat: string, name: string, device: bool, closing: Closing)
    requires !Busy(s)
    ensures var s1 := Step(s, IssueStart(seat, name, device, true, closing));
      && (device ==> s1 == s.(session := Session(Some(Issuing), seat, name, None), trace := s.trace + [AwaitFace]))
      && (!device ==> s1.session in {s.session, NO_SESSION} && s1.table == s.table && s1.bands == s.bands)
  {
  }

  /** A face that nobody waits for is ignored. */
  lemma StrayFaceIsIgnored(s: System, live: Embedding, issueEnv: IssueEnv, env: FaceEnv)
    requires s.session.flow.None? || s.session.flow == Some(Returning)
    ensures Step(s, FaceCaptured(live, issueEnv, env)) == s
  {
  }
}
