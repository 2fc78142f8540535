/** Laws of the three flows over every sequence of commands and every environment. */
module FlowLaws {
  import opened Wrappers
  import opened Chunks
  import opened Embeddings
  import opened IssueTable
  import opened Flows
  import Firmware

  // ----------------------------------------------------------------- console

  function Showing(s: System): Screen {
    if s.trace == [] then Idle else s.trace[|s.trace| - 1]
  }

  /** The console tells the truth, and a command rests only where a face is awaited or nothing runs. */
  predicate ConsoleInv(s: System) {
    match s.session.flow
    case None => s.session == NO_SESSION && (Showing(s) == Idle || (Showing(s) == Done && s.lingers > 0))
    case Some(Issuing) => Showing(s) == AwaitFace && s.session.embedding.None?
    case Some(Entering) =>
      Showing(s) == AwaitFaceEntry && s.session.embedding.Some? && |s.session.embedding.value| == EMBED_BYTES
    case Some(Returning) => false
  }

  lemma IssueOnTagFrame(s: System, env: IssueEnv)
    ensures var r := IssueOnTag(s, env).0;
      && r == s.(link := r.link, bands := r.bands, table := r.table, issued := r.issued)
      && (r.link == None || r.link == s.link)
      && (s.session.embedding.Some? && Reached(s, env.tag).Some? ==> r.link == None)
  {
    hide WriteBand;
  }

  lemma EntryOnTagFrame(s: System, env: EntryEnv)
    ensures var (r, ok) := EntryOnTag(s, env);
      && r == s.(link := r.link, bands := r.bands, session := s.session.(embedding := r.session.embedding),
                 trace := r.trace, gate := r.gate, source := r.source)
      && (s.link.None? && s.session.embedding.None? ==> (r.link.Some? <==> r.session.embedding.Some?))
      && (r.session.embedding == s.session.embedding
          || (r.session.embedding.Some? && |r.session.embedding.value| == EMBED_BYTES
              && r.source == Reached(s, env.tag)))
      && (ok ==> r.session.embedding.Some? && |r.session.embedding.value| == EMBED_BYTES
                 && Showing(r) == AwaitFaceEntry)
      && (!ok ==> r.trace == s.trace)
  {
    hide ReadBand, Unissued;
  }

  lemma EntryOnFaceFrame(s: System, live: Embedding, env: FaceEnv)
    ensures var r := EntryOnFace(s, live, env);
      && r == s.(link := r.link, gate := r.gate)
      && (s.session.embedding.Some? ==>
            r.link == if Judge(s.session.embedding.value, live) == Raise || env.logRaises then s.link else None)
      && (s.session.embedding.None? ==> r == s)
  {
    hide Judge;
  }

  lemma ReturnOnTagFrame(s: System, env: ReturnEnv)
    ensures var r := ReturnOnTag(s, env).0;
      && r == s.(link := r.link, bands := r.bands, table := r.table)
      && (r.link == None || r.link == s.link)
  {
    hide WriteBand;
  }

  // ------------------------------------------- commands on table and memories

  /** The system when the tag step of an issue, an entry or a return begins. */
  function IssueBegun(s: System, live: Embedding): System {
    Emit(s.(session := s.session.(embedding := Some(live))), AwaitTag)
  }

  function EntryBegun(s: System): System {
    Emit(s.(session := Session(Some(Entering), "", "", None)), AwaitTag)
  }

  function ReturnBegun(s: System): System {
    Emit(s.(session := Session(Some(Returning), "", "", None)), AwaitTag)
  }

  /** The command runs the tag step of an issue, of a return. */
  predicate RunsIssue(s: System, e: Event) {
    e.FaceCaptured? && s.session.flow == Some(Issuing)
  }

  predicate RunsReturn(s: System, e: Event) {
    e.ReturnStart? && !Busy(s) && e.device
  }

  /** Same table, same faces issued, same memories. */
  predicate SameData(s: System, s': System) {
    && s'.table == s.table && s'.issued == s.issued && s'.bands.Keys == s.bands.Keys
    && forall id :: id in s.bands ==> s'.bands[id].mem == s.bands[id].mem
  }

  lemma IssueData(s: System, e: Event)
    requires RunsIssue(s, e)
    ensures var r := IssueOnTag(IssueBegun(s, e.live), e.issue).0;
      SameData(r, Step(s, e)) && Step(s, e).gate == r.gate == s.gate
  {
    hide IssueOnTag, EntryOnFace, Finish;
    IssueOnTagFrame(IssueBegun(s, e.live), e.issue);
  }

  lemma ReturnData(s: System, e: Event)
    requires RunsReturn(s, e)
    ensures var r := ReturnOnTag(ReturnBegun(s), e.return_).0;
      SameData(r, Step(s, e)) && Step(s, e).gate == r.gate == s.gate
  {
    hide ReturnOnTag, Finish, Abort;
    ReturnOnTagFrame(ReturnBegun(s), e.return_);
  }

  lemma EntryData(s: System, e: Event)
    requires e.EntryStart?
    ensures SameData(s, Step(s, e))
  {
    hide EntryOnTag, Abort;
    EntryMemory(EntryBegun(s), e.entry);
  }

  lemma FaceData(s: System, e: Event)
    requires e.FaceCaptured? && s.session.flow != Some(Issuing)
    ensures SameData(s, Step(s, e))
  {
    hide IssueOnTag, EntryOnFace, MarkDone;
    EntryOnFaceFrame(s, e.live, e.face);
  }

  /** No other command touches table or memories. */
  lemma OtherData(s: System, e: Event)
    requires !RunsIssue(s, e) && !RunsReturn(s, e)
    ensures SameData(s, Step(s, e))
  {
    hide StepFace, StepEntryStart, ReturnOnTag, Firmware.Step, Abort;
    if e.FaceCaptured? {
      hide *;
      FaceData(s, e);
    } else if e.EntryStart? {
      hide *;
      EntryData(s, e);
    }
  }

  lemma EntryMemory(s: System, env: EntryEnv)
    ensures SameData(s, EntryOnTag(s, env).0)
  {
    hide ReadRun, Unissued;
  }

  // ------------------------------------------------------- closing broadcasts

  /**
   A broadcast that ends the command fails, and leaves a session the console does
   not show, or shows one that is over: the abort of an issue's start, an issue or
   a return in either outcome, an entry whose tag step fails, a cancelled command
   after its reset, the last "done" screen.
   */
  predicate Garbles(s: System, e: Event) {
    match e
    case IssueStart(_, _, device, shown, closing) => !Busy(s) && device && !shown && closing == Stuck
    case FaceCaptured(_, issue, _) => s.session.flow == Some(Issuing) && issue.closing != Closed
    case EntryStart(device, entry) =>
      !Busy(s) && device && entry.closing != Closed
      && !EntryOnTag(EntryBegun(s), entry).1
    case ReturnStart(device, return_) => !Busy(s) && device && return_.closing != Closed
    case Cancel(closing) => Busy(s) && closing == Unshown
    case LingerFires(out) => !out && !Busy(s) && s.lingers == 1 && Showing(s) == Done
    case _ => false
  }

  lemma ConsoleIssue(s: System, e: Event)
    requires ConsoleInv(s) && RunsIssue(s, e)
    ensures ConsoleInv(Step(s, e)) <==> !Garbles(s, e)
  {
    hide IssueOnTag, EntryOnFace;
    IssueOnTagFrame(IssueBegun(s, e.live), e.issue);
  }

  lemma ConsoleFace(s: System, e: Event)
    requires ConsoleInv(s) && e.FaceCaptured? && !RunsIssue(s, e)
    ensures ConsoleInv(Step(s, e)) && !Garbles(s, e)
  {
    hide IssueOnTag, EntryOnFace;
    EntryOnFaceFrame(s, e.live, e.face);
  }

  lemma ConsoleEntry(s: System, e: Event)
    requires ConsoleInv(s) && e.EntryStart?
    ensures ConsoleInv(Step(s, e)) <==> !Garbles(s, e)
  {
    hide EntryOnTag;
    EntryOnTagFrame(EntryBegun(s), e.entry);
  }

  lemma ConsoleReturn(s: System, e: Event)
    requires ConsoleInv(s) && e.ReturnStart?
    ensures ConsoleInv(Step(s, e)) <==> !Garbles(s, e)
  {
    hide ReturnOnTag;
    ReturnOnTagFrame(ReturnBegun(s), e.return_);
  }

  /** A command leaves the console right exactly when its closing broadcasts do not fail on it. */
  lemma ConsoleIff(s: System, e: Event)
    requires ConsoleInv(s)
    ensures ConsoleInv(Step(s, e)) <==> !Garbles(s, e)
  {
    if RunsIssue(s, e) {
      hide *;
      ConsoleIssue(s, e);
    } else if e.FaceCaptured? {
      hide *;
      ConsoleFace(s, e);
    } else if e.EntryStart? {
      hide *;
      ConsoleEntry(s, e);
    } else if e.ReturnStart? {
      hide *;
      ConsoleReturn(s, e);
    }
  }

  predicate NoneGarbled(s: System, events: seq<Event>)
    decreases |events|
  {
    events == [] || (!Garbles(s, events[0]) && NoneGarbled(Step(s, events[0]), events[1..]))
  }

  /**
   After every sequence of commands whose closing broadcasts get out, the console
   shows idle or done exactly when no session runs; a running session awaits a
   face, for an issue or for an entry whose stored face was read.
   */
  lemma {:induction false} ConsoleAgrees(s: System, events: seq<Event>)
    requires ConsoleInv(s) && NoneGarbled(s, events)
    ensures ConsoleInv(Run(s, events))
    ensures Showing(Run(s, events)) in {Idle, Done} <==> !Busy(Run(s, events))
    decreases |events|
  {
    hide Step, Garbles;
    if events != [] {
      ConsoleIff(s, events[0]);
      ConsoleAgrees(Step(s, events[0]), events[1..]);
    }
  }

  /** Once every pending "done" screen has timed out with nothing new started, the console shows idle. */
  lemma {:induction false} LingersEndIdle(s: System, timeouts: seq<Event>)
    requires ConsoleInv(s) && !Busy(s)
    requires |timeouts| >= s.lingers && forall e :: e in timeouts ==> e == LingerFires(true)
    ensures Run(s, timeouts).lingers == 0 && Showing(Run(s, timeouts)) == Idle && !Busy(Run(s, timeouts))
    decreases |timeouts|
  {
    if timeouts != [] {
      assert timeouts[0] in timeouts && forall e :: e in timeouts[1..] ==> e in timeouts;
      LingersEndIdle(Step(s, timeouts[0]), timeouts[1..]);
    }
  }

  // -------------------------------------------------------------------- link

  /** An entry session holds a stored face. */
  predicate HoldsFace(s: System) {
    s.session.flow == Some(Entering) && s.session.embedding.Some?
  }

  /** The BLE link is open exactly while an entry session holds a stored face. */
  predicate LinkInv(s: System) {
    s.link.Some? <==> HoldsFace(s)
  }

  /** The half of it that keeps idle sessions unlinked. */
  predicate LinkOnlyInEntry(s: System) {
    s.link.Some? ==> HoldsFace(s)
  }

  /** Two faces the cosine cannot compare: of different sizes, and the guard on the norms does not answer first. */
  predicate Mismatched(stored: Embedding, live: Embedding) {
    && |stored| != |live|
    && !(Values(stored).Some? && Values(live).Some?
         && SumSq(Values(stored).value) * SumSq(Values(live).value) < GUARD * GUARD)
  }

  lemma JudgeRaisesIff(stored: Embedding, live: Embedding)
    ensures Judge(stored, live) == Raise <==> Mismatched(stored, live)
  {
  }

  /** The command leaves the comparison step of an entry before the block that closes the link. */
  predicate LeavesEarly(s: System, e: Event) {
    e.FaceCaptured? && HoldsFace(s) && (e.face.logRaises || Mismatched(s.session.embedding.value, e.live))
  }

  /** The command compares faces and ends: it is completed, and the session reset. */
  predicate CompletesEntry(s: System, e: Event) {
    e.FaceCaptured? && HoldsFace(s) && e.face.closing == Closed
  }

  /** What a captured face does to link and session of an entry. */
  lemma FaceLink(s: System, e: Event)
    requires e.FaceCaptured? && HoldsFace(s)
    ensures var r := Step(s, e);
      && r.link == (if LeavesEarly(s, e) then s.link else None)
      && r.session == if CompletesEntry(s, e) then NO_SESSION else s.session
  {
    hide EntryOnFace, Mismatched;
    EntryOnFaceFrame(s, e.live, e.face);
    JudgeRaisesIff(s.session.embedding.value, e.live);
  }

  lemma IssueLinks(s: System, e: Event)
    requires e.FaceCaptured? && !HoldsFace(s) && LinkOnlyInEntry(s)
    ensures Step(s, e).link == None && !HoldsFace(Step(s, e))
  {
    hide IssueOnTag, EntryOnFace;
    IssueOnTagFrame(IssueBegun(s, e.live), e.issue);
    EntryOnFaceFrame(s, e.live, e.face);
  }

  lemma EntryLinks(s: System, e: Event)
    requires e.EntryStart? && !Busy(s) && LinkOnlyInEntry(s)
    ensures LinkInv(Step(s, e))
  {
    hide EntryOnTag;
    EntryOnTagFrame(EntryBegun(s), e.entry);
  }

  lemma ReturnLinks(s: System, e: Event)
    requires e.ReturnStart? && !Busy(s) && LinkOnlyInEntry(s)
    ensures LinkInv(Step(s, e))
  {
    hide ReturnOnTag;
    ReturnOnTagFrame(ReturnBegun(s), e.return_);
  }

  lemma RestLinks(s: System, e: Event)
    requires !e.FaceCaptured? && (e.EntryStart? || e.ReturnStart? ==> Busy(s))
    ensures LinkInv(s) ==> LinkInv(Step(s, e))
    ensures LinkOnlyInEntry(s) ==> LinkOnlyInEntry(Step(s, e))
  {
    hide Firmware.Step, EntryOnTag, ReturnOnTag;
  }

  /** Every other command keeps the link as it should be, for either half. */
  lemma OtherLinks(s: System, e: Event)
    requires !(e.FaceCaptured? && HoldsFace(s))
    ensures LinkInv(s) ==> LinkInv(Step(s, e))
    ensures LinkOnlyInEntry(s) ==> LinkOnlyInEntry(Step(s, e))
  {
    hide Step;
    if LinkOnlyInEntry(s) {
      if e.FaceCaptured? {
        IssueLinks(s, e);
      } else if e.EntryStart? && !Busy(s) {
        EntryLinks(s, e);
      } else if e.ReturnStart? && !Busy(s) {
        ReturnLinks(s, e);
      } else {
        RestLinks(s, e);
      }
    }
  }

  /**
   A command keeps the link balanced exactly when it is not a captured face that
   either leaves the comparison early and is completed all the same, or closes
   the link and is then not completed, because that broadcast fails.
   */
  lemma LinkBalanceIff(s: System, e: Event)
    requires LinkInv(s)
    ensures LinkInv(Step(s, e)) <==>
      (e.FaceCaptured? && HoldsFace(s) ==> (LeavesEarly(s, e) <==> !CompletesEntry(s, e)))
  {
    hide Step, Mismatched;
    if e.FaceCaptured? && HoldsFace(s) {
      FaceLink(s, e);
    } else {
      OtherLinks(s, e);
    }
  }

  /** An open link outlives its entry exactly when the comparison is left early and the command completed. */
  lemma LinkOutlivesIff(s: System, e: Event)
    requires LinkOnlyInEntry(s)
    ensures LinkOnlyInEntry(Step(s, e)) <==> !(LeavesEarly(s, e) && CompletesEntry(s, e) && s.link.Some?)
  {
    hide Step, Mismatched;
    if e.FaceCaptured? && HoldsFace(s) {
      FaceLink(s, e);
    } else {
      OtherLinks(s, e);
    }
  }

  /** A stored face has the wristband's size. */
  predicate StoredSized(s: System) {
    HoldsFace(s) ==> |s.session.embedding.value| == EMBED_BYTES
  }

  lemma StoredSizedStep(s: System, e: Event)
    requires StoredSized(s)
    ensures StoredSized(Step(s, e))
  {
    if e.FaceCaptured? {
      hide *;
      StoredSizedFace(s, e);
    } else if e.EntryStart? {
      hide EntryOnTag;
      EntryOnTagFrame(EntryBegun(s), e.entry);
    } else if e.ReturnStart? {
      hide ReturnOnTag;
      ReturnOnTagFrame(ReturnBegun(s), e.return_);
    }
  }

  lemma StoredSizedFace(s: System, e: Event)
    requires StoredSized(s) && e.FaceCaptured?
    ensures StoredSized(Step(s, e))
  {
    hide IssueOnTag, EntryOnFace;
    IssueOnTagFrame(IssueBegun(s, e.live), e.issue);
    EntryOnFaceFrame(s, e.live, e.face);
  }

  lemma SameSizeStays(s: System, e: Event)
    requires StoredSized(s) && (e.FaceCaptured? ==> |e.live| == EMBED_BYTES && !e.face.logRaises)
    ensures !LeavesEarly(s, e)
  {
  }

  /**
   While every captured face has the wristband's size and the log line after
   the comparison gets out, the link is open only in an entry that holds a
   stored face, after any sequence of commands and failures; so an idle session
   has it closed.
   */
  lemma {:induction false} LinkBalance(s: System, events: seq<Event>)
    requires LinkOnlyInEntry(s) && StoredSized(s)
    requires forall e :: e in events && e.FaceCaptured? ==> |e.live| == EMBED_BYTES && !e.face.logRaises
    ensures LinkOnlyInEntry(Run(s, events))
    ensures !Busy(Run(s, events)) ==> Run(s, events).link == None
    decreases |events|
  {
    hide Step, StoredSized, LeavesEarly;
    if events != [] {
      assert events[0] in events;
      SameSizeStays(s, events[0]);
      LinkOutlivesIff(s, events[0]);
      StoredSizedStep(s, events[0]);
      LinkBalance(Step(s, events[0]), events[1..]);
    }
  }

  /** And it is open all the time such an entry lasts, if completing a comparison never fails. */
  lemma {:induction false} LinkLastsEntry(s: System, events: seq<Event>)
    requires LinkInv(s) && StoredSized(s)
    requires forall e :: e in events && e.FaceCaptured? ==>
      |e.live| == EMBED_BYTES && !e.face.logRaises && e.face.closing == Closed
    ensures LinkInv(Run(s, events))
    decreases |events|
  {
    hide Step, StoredSized, LeavesEarly;
    if events != [] {
      assert events[0] in events;
      SameSizeStays(s, events[0]);
      LinkBalanceIff(s, events[0]);
      StoredSizedStep(s, events[0]);
      LinkLastsEntry(Step(s, events[0]), events[1..]);
    }
  }

  /** The one way: an entry that leaves early and is completed ends idle with the link still open, whatever the face. */
  lemma EarlyExitLeaksLink(s: System, live: Embedding, issue: IssueEnv, face: FaceEnv)
    requires LinkInv(s) && HoldsFace(s) && face.closing == Closed
    requires face.logRaises || Mismatched(s.session.embedding.value, live)
    ensures var s' := Step(s, FaceCaptured(live, issue, face)); !Busy(s') && s'.link == s.link && s'.link.Some?
  {
    hide Step, Mismatched;
    FaceLink(s, FaceCaptured(live, issue, face));
  }

  /**
   The other way: a comparison that closes the link and is not completed leaves
   the entry with its face, and a further captured face is compared with it.
   */
  lemma UncompletedEntryGoesOn(s: System, live: Embedding, issue: IssueEnv, face: FaceEnv)
    requires LinkInv(s) && HoldsFace(s) && face.closing != Closed
    requires !face.logRaises && !Mismatched(s.session.embedding.value, live)
    ensures var s' := Step(s, FaceCaptured(live, issue, face)); s'.session == s.session && s'.link == None
  {
    hide Step, Mismatched;
    FaceLink(s, FaceCaptured(live, issue, face));
  }

  // --------------------------------------------------------------- agreement

  /** The wristband of an active row still holds the face the row was issued with. */
  ghost predicate RowHolds(s: System, row: Row) {
    && row.wristband != ""
    && row.wristband in s.bands
    && row.id in s.issued
    && Overlay(s.bands[row.wristband].mem, s.issued[row.id]) == s.bands[row.wristband].mem
  }

  /** Every wristband's memory has the embedding's size. */
  predicate Sized(s: System) {
    forall id :: id in s.bands ==> |s.bands[id].mem| == EMBED_BYTES
  }

  ghost predicate Agreement(s: System) {
    && Sound(s.table)
    && Sized(s)
    && forall row :: row in s.table.rows && row.Active() ==> RowHolds(s, row)
  }

  /** For a face of the wristband's size, holding it means equality byte for byte. */
  lemma HoldsIsEquality(mem: seq<byte>, face: seq<byte>)
    requires |mem| == |face|
    ensures Overlay(mem, face) == mem <==> mem == face
  {
  }

  lemma OverlayTwice(mem: seq<byte>, face: seq<byte>)
    ensures Overlay(Overlay(mem, face), face) == Overlay(mem, face)
  {
  }

  /** Writing to a wristband without an active row keeps the agreement. */
  lemma WriteKeeps(s: System, id: string, data: seq<byte>, fault: Fault)
    requires Agreement(s) && id in s.bands && !WristbandActive(s.table.rows, id)
    ensures Agreement(WriteBand(s, id, data, fault).0)
    ensures WriteBand(s, id, data, fault).1 ==>
      Overlay(WriteBand(s, id, data, fault).0.bands[id].mem, data) == WriteBand(s, id, data, fault).0.bands[id].mem
    ensures WriteBand(s, id, data, fault).0.bands.Keys == s.bands.Keys
  {
    hide WriteRun, Overlay, Sound;
    WriteOk(s.bands[id].mem, data, EMBED_CHUNK, fault);
    OverlayTwice(s.bands[id].mem, data);
    var s' := WriteBand(s, id, data, fault).0;
    forall row | row in s'.table.rows && row.Active() ensures RowHolds(s', row) {
      assert RowHolds(s, row);
    }
  }

  lemma InsertKeeps(s: System, id: string, seat: string, name: string, now: string, face: Embedding)
    requires Agreement(s) && id != "" && id in s.bands && Overlay(s.bands[id].mem, face) == s.bands[id].mem
    ensures var (table, r) := InsertIssue(s.table, id, seat, name, now);
      r.Issued? ==> Agreement(s.(table := table, issued := s.issued[r.id := face]))
  {
    hide Overlay;
    var (table, r) := InsertIssue(s.table, id, seat, name, now);
    MatchingKept(s.table, Issue(id, seat, name, now));
    if r.Issued? {
      var s' := s.(table := table, issued := s.issued[r.id := face]);
      forall row | row in s'.table.rows && row.Active() ensures RowHolds(s', row) {
        if row in s.table.rows {
          assert RowHolds(s, row);
        }
      }
    }
  }

  lemma IssueKeeps(s: System, env: IssueEnv)
    requires Agreement(s)
    ensures Agreement(IssueOnTag(s, env).0)
  {
    hide WriteBand, InsertIssue, Agreement, WristbandActive, SeatActive;
    var reached := Reached(s, env.tag);
    if s.session.embedding.Some? && reached.Some? {
      var id, face, open := reached.value, s.session.embedding.value, s.(link := None);
      AgreementIgnoresRest(s, open);
      if env.idRead && id != "" && !WristbandActive(s.table.rows, id) && !SeatActive(s.table.rows, s.session.seat) {
        WriteKeeps(open, id, face, env.write);
        var (written, ok) := WriteBand(open, id, face, env.write);
        if ok && env.database {
          InsertKeeps(written, id, s.session.seat, s.session.name, env.now, face);
        }
      }
    }
  }

  lemma AgreementIgnoresRest(s: System, s': System)
    requires SameData(s, s')
    ensures Agreement(s') <==> Agreement(s)
  {
    hide Overlay, Sound;
    if Agreement(s) {
      forall row | row in s'.table.rows && row.Active() ensures RowHolds(s', row) {
        assert RowHolds(s, row);
      }
    }
    if Agreement(s') {
      forall row | row in s.table.rows && row.Active() ensures RowHolds(s, row) {
        assert RowHolds(s', row);
      }
    }
  }

  /** The delivered part of the clear reaches a nonzero byte of the face. */
  ghost predicate ClearTouches(face: Embedding, fault: Fault) {
    exists i :: 0 <= i < Min(|face|, Written(EMBED_BYTES, EMBED_CHUNK, fault)) && face[i] != 0
  }

  lemma ClearedHolds(mem: seq<byte>, face: Embedding, fault: Fault)
    requires |mem| == EMBED_BYTES && Overlay(mem, face) == mem
    ensures var mem' := WriteRun(mem, Zeros(EMBED_BYTES), EMBED_CHUNK, fault, 0, 0).0;
      Overlay(mem', face) == mem' <==> !ClearTouches(face, fault)
  {
    hide WriteRun, Overlay, Written;
    var n := Written(EMBED_BYTES, EMBED_CHUNK, fault);
    WriteLeavesPrefix(mem, Zeros(EMBED_BYTES), EMBED_CHUNK, fault);
    WrittenAtMost(EMBED_BYTES, EMBED_CHUNK, fault);
    var mem' := WriteRun(mem, Zeros(EMBED_BYTES), EMBED_CHUNK, fault, 0, 0).0;
    assert forall i :: 0 <= i < EMBED_BYTES ==> mem'[i] == if i < n then 0 else mem[i];
    forall i | 0 <= i < EMBED_BYTES && i < |face| ensures mem[i] == face[i] {
      assert Overlay(mem, face)[i] == face[i];
    }
    if Overlay(mem', face) == mem' {
      forall i | 0 <= i < Min(|face|, n) ensures face[i] == 0 {
        assert Overlay(mem', face)[i] == face[i];
      }
    }
  }

  lemma WrittenAtMost(size: nat, step: nat, fault: Fault)
    ensures Written(size, step, fault) <= size
  {
  }

  /** A return that clears the wristband of an active row but does not close the row. */
  ghost predicate Orphans(s: System, env: ReturnEnv) {
    && Reached(s, env.tag).Some?
    && (!env.idRead || !env.database)
    && exists row :: row in s.table.rows && row.Active() && row.wristband == Reached(s, env.tag).value
                     && row.id in s.issued && ClearTouches(s.issued[row.id], env.write)
  }

  /** The return's clear, before its row is closed. */
  lemma ClearEffect(s: System, id: string, fault: Fault, row: Row)
    requires Agreement(s) && id in s.bands && row in s.table.rows && row.Active()
    ensures var s' := WriteBand(s, id, Zeros(EMBED_BYTES), fault).0;
      && |s'.bands[id].mem| == EMBED_BYTES
      && (RowHolds(s', row) <==> !(row.wristband == id && ClearTouches(s.issued[row.id], fault)))
  {
    hide WriteRun, Overlay, Sound, ClearTouches;
    assert RowHolds(s, row);
    if row.wristband == id {
      ClearedHolds(s.bands[id].mem, s.issued[row.id], fault);
    }
  }

  lemma ClosedRows(rows: seq<Row>, id: string, now: string, row: Row)
    ensures row in MarkReturned(rows, id, now) && row.Active() <==> row in rows && row.Active() && row.wristband != id
  {
    var rows' := MarkReturned(rows, id, now);
    if row in rows && row.Active() && row.wristband != id {
      var i :| 0 <= i < |rows| && rows[i] == row;
      assert rows'[i] == row;
    }
    if row in rows' && row.Active() {
      var i :| 0 <= i < |rows'| && rows'[i] == row;
      assert rows[i] == row;
    }
  }

  lemma ReturnTable(s: System, env: ReturnEnv)
    requires Agreement(s) && Reached(s, env.tag).Some?
    ensures var (r, ok) := ReturnOnTag(s, env);
      && Sound(r.table) && r.issued == s.issued
      && r.bands == WriteBand(s, Reached(s, env.tag).value, Zeros(EMBED_BYTES), env.write).0.bands
      && forall row :: row in r.table.rows && row.Active() <==>
           row in s.table.rows && row.Active()
           && !(env.idRead && env.database && row.wristband == Reached(s, env.tag).value)
  {
    hide WriteRun, Overlay, RowHolds;
    var id := if env.idRead then Reached(s, env.tag).value else "";
    MatchingKept(s.table, Return(id, env.now));
    forall row ensures row in MarkReturned(s.table.rows, id, env.now) && row.Active() <==>
                       row in s.table.rows && row.Active() && row.wristband != id {
      ClosedRows(s.table.rows, id, env.now, row);
    }
    forall row | row in s.table.rows && row.Active() ensures row.wristband != "" {
      NamedRow(s, row);
    }
  }

  lemma NamedRow(s: System, row: Row)
    requires Agreement(s) && row in s.table.rows && row.Active()
    ensures row.wristband != "" && row.id in s.issued && RowHolds(s, row)
  {
  }

  lemma ReturnKeepsIff(s: System, env: ReturnEnv)
    requires Agreement(s)
    ensures Agreement(ReturnOnTag(s, env).0) <==> !Orphans(s, env)
  {
    hide ReturnOnTag, WriteBand, RowHolds, ClearTouches, Sound;
    var reached, r := Reached(s, env.tag), ReturnOnTag(s, env).0;
    if reached.None? {
      ReturnUnreached(s, env);
    } else {
      ReturnTable(s, env);
      var cleared := WriteBand(s, reached.value, Zeros(EMBED_BYTES), env.write).0;
      WriteBandSize(s, reached.value, env.write);
      forall row | row in s.table.rows && row.Active()
        ensures row.id in s.issued
        ensures RowHolds(r, row) <==> !(row.wristband == reached.value && ClearTouches(s.issued[row.id], env.write))
      {
        NamedRow(s, row);
        ClearEffect(s, reached.value, env.write, row);
        RowHoldsLocal(r, cleared, row);
      }
    }
  }

  lemma ReturnUnreached(s: System, env: ReturnEnv)
    requires Reached(s, env.tag).None?
    ensures ReturnOnTag(s, env) == (s, false)
  {
  }

  lemma WriteBandSize(s: System, id: string, fault: Fault)
    requires Agreement(s) && id in s.bands
    ensures forall b :: b in WriteBand(s, id, Zeros(EMBED_BYTES), fault).0.bands ==>
      |WriteBand(s, id, Zeros(EMBED_BYTES), fault).0.bands[b].mem| == EMBED_BYTES
  {
    hide WriteRun;
  }

  lemma RowHoldsLocal(s: System, s': System, row: Row)
    requires s.bands == s'.bands && s.issued == s'.issued
    ensures RowHolds(s, row) <==> RowHolds(s', row)
  {
    hide Overlay;
  }

  ghost predicate Breaks(s: System, e: Event) {
    RunsReturn(s, e) && Orphans(s, e.return_)
  }

  /**
   A command keeps table and wristbands in agreement exactly when it is not a
   return that cleared an active wristband without closing its row - because
   the id read or the database failed - and whose delivered clear changed the face.
   */
  lemma AgreementIff(s: System, e: Event)
    requires Agreement(s)
    ensures Agreement(Step(s, e)) <==> !Breaks(s, e)
  {
    hide Step, IssueOnTag, ReturnOnTag, Agreement, Orphans;
    if RunsIssue(s, e) {
      IssueData(s, e);
      AgreementIgnoresRest(s, IssueBegun(s, e.live));
      IssueKeeps(IssueBegun(s, e.live), e.issue);
      AgreementIgnoresRest(IssueOnTag(IssueBegun(s, e.live), e.issue).0, Step(s, e));
    } else if RunsReturn(s, e) {
      ReturnData(s, e);
      AgreementIgnoresRest(s, ReturnBegun(s));
      OrphansIgnoreRest(s, ReturnBegun(s), e.return_);
      ReturnKeepsIff(ReturnBegun(s), e.return_);
      AgreementIgnoresRest(ReturnOnTag(ReturnBegun(s), e.return_).0, Step(s, e));
    } else {
      OtherData(s, e);
      AgreementIgnoresRest(s, Step(s, e));
    }
  }

  /**
   Such a return is possible from every active wristband that holds a face with
   a nonzero first byte: the flow clears it, reads no id, closes no row and
   reports success.
   */
  lemma UnreadReturnBreaks(s: System, tag: TagEnv, row: Row)
    requires Agreement(s) && !Busy(s)
    requires row in s.table.rows && row.Active() && Reached(s, tag) == Some(row.wristband)
    requires row.id in s.issued && s.issued[row.id] != [] && s.issued[row.id][0] != 0
    ensures var e := ReturnStart(true, ReturnEnv(tag, false, NoFault, true, false, "", Closed));
      Breaks(s, e) && !Agreement(Step(s, e)) && Showing(Step(s, e)) == Done
  {
    hide Step, RowHolds, Sound;
    NamedRow(s, row);
    var env := ReturnEnv(tag, false, NoFault, true, false, "", Closed);
    var face := s.issued[row.id];
    assert face[0] != 0 && 0 < Min(|face|, Written(EMBED_BYTES, EMBED_CHUNK, env.write));
    assert ClearTouches(face, env.write);
    AgreementIff(s, ReturnStart(true, env));
    UnreadReturnDone(s, env);
  }

  /** A return whose wristband is reached, and from there on nothing raises, reports success, with or without the id. */
  lemma UnreadReturnDone(s: System, env: ReturnEnv)
    requires !Busy(s) && Reached(s, env.tag).Some? && env.database && !env.logRaises && env.closing == Closed
    ensures Showing(Step(s, ReturnStart(true, env))) == Done && !Busy(Step(s, ReturnStart(true, env)))
  {
    hide WriteBand, UpdateReturn;
  }

  lemma OrphansIgnoreRest(s: System, s': System, env: ReturnEnv)
    requires s'.table == s.table && s'.issued == s.issued && s'.bands == s.bands
    ensures Orphans(s, env) <==> Orphans(s', env)
  {
    hide ClearTouches;
  }

  /**
   From any state in agreement, after any sequence of commands with any BLE and
   device failures, every active row's wristband still holds the face the row
   was issued with - as long as returns read the wristband's id and reach the table.
   */
  lemma {:induction false} AgreementHolds(s: System, events: seq<Event>)
    requires Agreement(s)
    requires forall e :: e in events && e.ReturnStart? ==> e.return_.idRead && e.return_.database
    ensures Agreement(Run(s, events))
    ensures ByteForByte(Run(s, events))
    decreases |events|
  {
    hide Step, Agreement;
    if events != [] {
      AgreementIff(s, events[0]);
      AgreementHolds(Step(s, events[0]), events[1..]);
    } else {
      AgreementIsEquality(s);
    }
  }

  /** The wristband of an active row that was issued with a face of its size has that face in memory. */
  ghost predicate ByteForByte(s: System) {
    forall row :: row in s.table.rows && row.Active() && row.id in s.issued && |s.issued[row.id]| == EMBED_BYTES ==>
                    row.wristband in s.bands && s.bands[row.wristband].mem == s.issued[row.id]
  }

  lemma AgreementIsEquality(s: System)
    requires Agreement(s)
    ensures ByteForByte(s)
  {
    hide Overlay, Sound;
    forall row | row in s.table.rows && row.Active() && row.id in s.issued && |s.issued[row.id]| == EMBED_BYTES
      ensures row.wristband in s.bands && s.bands[row.wristband].mem == s.issued[row.id]
    {
      assert RowHolds(s, row);
      HoldsIsEquality(s.bands[row.wristband].mem, s.issued[row.id]);
    }
  }

  lemma WriteSized(s: System, id: string, data: seq<byte>, fault: Fault)
    requires Sized(s) && id in s.bands
    ensures Sized(WriteBand(s, id, data, fault).0)
  {
    hide WriteRun;
  }

  lemma IssueSized(s: System, env: IssueEnv)
    requires Sized(s)
    ensures Sized(IssueOnTag(s, env).0)
  {
    hide WriteBand, InsertIssue, WristbandActive, SeatActive;
    var id := Reached(s, env.tag);
    if id.Some? && s.session.embedding.Some? {
      WriteSized(s.(link := None), id.value, s.session.embedding.value, env.write);
    }
  }

  lemma ReturnSized(s: System, env: ReturnEnv)
    requires Sized(s)
    ensures Sized(ReturnOnTag(s, env).0)
  {
    hide WriteBand, UpdateReturn;
    var id := Reached(s, env.tag);
    if id.Some? {
      WriteSized(s.(link := None), id.value, Zeros(EMBED_BYTES), env.write);
    }
  }

  lemma SizedStep(s: System, e: Event)
    requires Sized(s)
    ensures Sized(Step(s, e))
  {
    hide Step, IssueOnTag, ReturnOnTag;
    if RunsIssue(s, e) {
      IssueData(s, e);
      IssueSized(IssueBegun(s, e.live), e.issue);
    } else if RunsReturn(s, e) {
      ReturnData(s, e);
      ReturnSized(ReturnBegun(s), e.return_);
    } else {
      OtherData(s, e);
    }
  }

  lemma {:induction false} SizedRun(s: System, events: seq<Event>)
    requires Sized(s)
    ensures Sized(Run(s, events))
    decreases |events|
  {
    hide Step, Sized;
    if events != [] {
      SizedStep(s, events[0]);
      SizedRun(Step(s, events[0]), events[1..]);
    }
  }

  /** The start state satisfies the console, link and agreement laws. */
  lemma InitialLaws(s: System)
    requires Initial(s)
    ensures ConsoleInv(s) && LinkInv(s) && Agreement(s)
  {
  }

  // ------------------------------------------------------------- row history

  lemma ExtendsReflexive(t: Table)
    ensures Extends(t, t)
  {
  }

  lemma IssueHistory(s: System, env: IssueEnv)
    requires Sound(s.table)
    ensures Sound(IssueOnTag(s, env).0.table) && Extends(s.table, IssueOnTag(s, env).0.table)
  {
    hide WriteBand, Sound, Extends, InsertIssue, WristbandActive, SeatActive;
    ExtendsReflexive(s.table);
    if env.tag.connection.Connected? {
      MatchingKept(s.table, Issue(env.tag.connection.wristband, s.session.seat, s.session.name, env.now));
    }
  }

  lemma ReturnHistory(s: System, env: ReturnEnv)
    requires Sound(s.table)
    ensures Sound(ReturnOnTag(s, env).0.table) && Extends(s.table, ReturnOnTag(s, env).0.table)
  {
    hide WriteBand, Sound, Extends, MarkReturned, WristbandActive;
    ExtendsReflexive(s.table);
    MatchingKept(s.table, Return("", env.now));
    if env.tag.connection.Connected? {
      MatchingKept(s.table, Return(env.tag.connection.wristband, env.now));
    }
  }

  lemma HistoryStep(s: System, e: Event)
    requires Sound(s.table)
    ensures Sound(Step(s, e).table) && Extends(s.table, Step(s, e).table)
  {
    hide Step, IssueOnTag, ReturnOnTag, Sound, Extends;
    ExtendsReflexive(s.table);
    if RunsIssue(s, e) {
      IssueData(s, e);
      IssueHistory(IssueBegun(s, e.live), e.issue);
    } else if RunsReturn(s, e) {
      ReturnData(s, e);
      ReturnHistory(ReturnBegun(s), e.return_);
    } else {
      OtherData(s, e);
    }
  }

  /** Over every run of commands the rows keep their matching and order, and none is deleted or rewritten. */
  lemma {:induction false} RowHistory(s: System, events: seq<Event>)
    requires Sound(s.table)
    ensures Sound(Run(s, events).table) && Extends(s.table, Run(s, events).table)
    decreases |events|
  {
    hide Step, Sound, Extends;
    ExtendsReflexive(s.table);
    if events != [] {
      HistoryStep(s, events[0]);
      RowHistory(Step(s, events[0]), events[1..]);
      ExtendsTransitive(s.table, Step(s, events[0]).table, Run(s, events).table);
    }
  }

  /** What a command did to the table: recorded an issue (a new id was given out), closed a row, or nothing. */
  function Net(before: Table, after: Table): int {
    if after.lastId > before.lastId then 1 else if after != before then -1 else 0
  }

  /** Issues recorded minus returns that closed a row, over a run. */
  function NetIssues(s: System, events: seq<Event>): int
    decreases |events|
  {
    if events == [] then 0 else Net(s.table, Step(s, events[0]).table) + NetIssues(Step(s, events[0]), events[1..])
  }

  lemma NetIsBalance(t: Table, op: Op)
    requires Sound(t)
    ensures |ActiveRows(Do(t, op).rows)| == |ActiveRows(t.rows)| + Net(t, Do(t, op))
  {
    hide Sound, ActiveRows, MarkReturned, WristbandActive, SeatActive;
    BalanceStep(t, op);
    if op.Return? {
      ReturnFrees(t, op.wristband, op.at);
    }
  }

  predicate NetFits(before: Table, after: Table) {
    |ActiveRows(after.rows)| == |ActiveRows(before.rows)| + Net(before, after)
  }

  lemma IssueNet(s: System, env: IssueEnv)
    requires Sound(s.table)
    ensures NetFits(s.table, IssueOnTag(s, env).0.table)
  {
    hide WriteBand, Sound, InsertIssue, WristbandActive, SeatActive, ActiveRows;
    if env.tag.connection.Connected? {
      NetIsBalance(s.table, Issue(env.tag.connection.wristband, s.session.seat, s.session.name, env.now));
    }
  }

  lemma ReturnNet(s: System, env: ReturnEnv)
    requires Sound(s.table)
    ensures NetFits(s.table, ReturnOnTag(s, env).0.table)
  {
    hide WriteBand, Sound, MarkReturned, WristbandActive, ActiveRows;
    NetIsBalance(s.table, Return("", env.now));
    if env.tag.connection.Connected? {
      NetIsBalance(s.table, Return(env.tag.connection.wristband, env.now));
    }
  }

  lemma NoNet(t: Table)
    ensures NetFits(t, t)
  {
  }

  lemma NetStep(s: System, e: Event)
    requires Sound(s.table)
    ensures NetFits(s.table, Step(s, e).table)
  {
    hide Step, IssueOnTag, ReturnOnTag, NetFits;
    NoNet(s.table);
    if RunsIssue(s, e) {
      IssueData(s, e);
      IssueNet(IssueBegun(s, e.live), e.issue);
    } else if RunsReturn(s, e) {
      ReturnData(s, e);
      ReturnNet(ReturnBegun(s), e.return_);
    } else {
      OtherData(s, e);
    }
  }

  /** Conservation: over every run the active rows grow by the issues recorded minus the returns that closed a row. */
  lemma {:induction false} ActiveRowsBalance(s: System, events: seq<Event>)
    requires Sound(s.table)
    ensures |ActiveRows(Run(s, events).table.rows)| == |ActiveRows(s.table.rows)| + NetIssues(s, events)
    decreases |events|
  {
    hide Step, Sound, ActiveRows, Net;
    if events != [] {
      NetStep(s, events[0]);
      HistoryStep(s, events[0]);
      ActiveRowsBalance(Step(s, events[0]), events[1..]);
    }
  }

  // ------------------------------------------------ what the console sees of a command

  /** Busy while the tag is awaited, then done and a pause pending if the tag step succeeded, else idle and unlinked. */
  predicate Shows(s: System, s': System, ok: bool) {
    && s'.session == NO_SESSION
    && s'.trace == s.trace + [AwaitTag, if ok then Done else Idle]
    && s'.lingers == s.lingers + (if ok then 1 else 0)
    && (!ok ==> s'.link == None)
  }

  lemma Shown(s: System, begun: System, after: System, ok: bool)
    requires begun.trace == s.trace + [AwaitTag] && after.trace == begun.trace && after.lingers == s.lingers
    ensures Shows(s, Finish(after, ok, Closed), ok)
  {
    assert (s.trace + [AwaitTag]) + [Done] == s.trace + [AwaitTag, Done];
    assert (s.trace + [AwaitTag]) + [Idle] == s.trace + [AwaitTag, Idle];
  }

  /** An issue whose closing broadcasts get out ends done or idle as its tag step succeeded or failed. */
  lemma IssueShows(s: System, e: Event)
    requires RunsIssue(s, e) && e.issue.closing == Closed
    ensures Shows(s, Step(s, e), IssueOnTag(IssueBegun(s, e.live), e.issue).1)
  {
    hide IssueOnTag, EntryOnFace, Finish;
    IssueOnTagFrame(IssueBegun(s, e.live), e.issue);
    var (r, ok) := IssueOnTag(IssueBegun(s, e.live), e.issue);
    Shown(s, IssueBegun(s, e.live), r, ok);
  }

  /** So does a return. */
  lemma ReturnShows(s: System, e: Event)
    requires RunsReturn(s, e) && e.return_.closing == Closed
    ensures Shows(s, Step(s, e), ReturnOnTag(ReturnBegun(s), e.return_).1)
  {
    hide ReturnOnTag, Finish;
    ReturnOnTagFrame(ReturnBegun(s), e.return_);
    var (r, ok) := ReturnOnTag(ReturnBegun(s), e.return_);
    Shown(s, ReturnBegun(s), r, ok);
  }

  /** An entry asks for the face if its tag step succeeds, and else ends idle. */
  lemma EntryShows(s: System, e: Event)
    requires e.EntryStart? && !Busy(s) && e.device && e.entry.closing == Closed
    ensures var s' := Step(s, e);
      if EntryOnTag(EntryBegun(s), e.entry).1 then
        && s'.session.flow == Some(Entering) && s'.session.embedding.Some?
        && s'.trace == s.trace + [AwaitTag, AwaitFaceEntry] && s'.lingers == s.lingers
      else Shows(s, s', false)
  {
    EntryTrace(EntryBegun(s), e.entry);
    hide EntryOnTag;
    EntryOnTagFrame(EntryBegun(s), e.entry);
    assert (s.trace + [AwaitTag]) + [AwaitFaceEntry] == s.trace + [AwaitTag, AwaitFaceEntry];
    assert (s.trace + [AwaitTag]) + [Idle] == s.trace + [AwaitTag, Idle];
  }

  lemma EntryTrace(s: System, env: EntryEnv)
    ensures var (r, ok) := EntryOnTag(s, env); r.trace == s.trace + if ok then [AwaitFaceEntry] else []
  {
    hide ReadBand, Unissued;
  }

  /** A compared face ends the entry done, passed or denied. */
  lemma FaceShows(s: System, e: Event)
    requires e.FaceCaptured? && HoldsFace(s) && e.face.closing == Closed
    ensures var s' := Step(s, e);
      s'.session == NO_SESSION && s'.trace == s.trace + [Done] && s'.lingers == s.lingers + 1
  {
    hide EntryOnFace, IssueOnTag;
    EntryOnFaceFrame(s, e.live, e.face);
  }

  /** A wristband moves by its own steps, and by nothing but them is written to from outside the commands. */
  lemma WristbandMoves(s: System, id: string, event: Firmware.Event)
    requires id in s.bands && !event.EmbedWrite?
    ensures Step(s, Wristband(id, event)) == s.(bands := s.bands[id := Firmware.Step(s.bands[id], event)])
  {
  }

  /** A face that was read leaves the wristband's read offset in the last chunk and all else of it alone. */
  lemma ReadTouchesOffset(s: System, id: string, fault: Fault)
    requires id in s.bands
    ensures var (r, face) := ReadBand(s, id, fault);
      && r == s.(bands := s.bands[id := s.bands[id].(readOff := r.bands[id].readOff)])
      && (face.Some? ==> EMBED_BYTES - EMBED_CHUNK <= r.bands[id].readOff < EMBED_BYTES)
  {
    hide ReadRun;
    ReadLeavesOffset(s.bands[id].mem, s.bands[id].readOff, CHUNK_MAX, EMBED_BYTES, EMBED_CHUNK, fault);
  }
}
