/**
 The runner and its flows as the objects that mutate session, table and link in
 place. Every command does to the state exactly what `Flows.Step` says.
 */
module FlowRunner {
  import opened Wrappers
  import opened Embeddings
  import Chunks
  import Firmware
  import Flows
  import IssueTable

  class SessionData {
    var flow: Option<Flows.Flow>
    var seat: string
    var name: string
    var embedding: Option<Embedding>

    ghost function State(): Flows.Session
      reads this
    {
      Flows.Session(flow, seat, name, embedding)
    }

    constructor ()
      ensures State() == Flows.NO_SESSION
    {
      flow, seat, name, embedding := None, "", "", None;
    }

    predicate Busy()
      reads this
    {
      flow.Some?
    }

    method Start(flow: Flows.Flow, seat: string := "", name: string := "")
      modifies this
      ensures State() == Flows.Session(Some(flow), seat, name, None)
    {
      this.flow := Some(flow);
      this.seat := seat;
      this.name := name;
      this.embedding := None;
    }

    method Reset()
      modifies this
      ensures State() == Flows.NO_SESSION
    {
      flow := None;
      seat := "";
      name := "";
      embedding := None;
    }
  }

  class Runner {
    const session: SessionData
    const repo: IssueTable.IssueRepository
    var bands: map<string, Firmware.State>
    var link: Option<string>
    var trace: seq<Flows.Screen>
    var lingers: nat
    var gate: seq<Flows.Signal>
    var source: Option<string>
    ghost var issued: map<nat, Embedding>

    ghost function State(): Flows.System
      reads this, session, repo
    {
      Flows.System(session.State(), repo.State(), bands, link, trace, lingers, gate, source, issued)
    }

    constructor (bands: map<string, Firmware.State>)
      ensures fresh(session) && fresh(repo)
      ensures State() == Flows.System(Flows.NO_SESSION, IssueTable.EMPTY, bands, None, [], 0, [], None, map[])
    {
      session := new SessionData();
      repo := new IssueTable.IssueRepository();
      this.bands, link, trace, lingers, gate, source, issued := bands, None, [], 0, [], None, map[];
    }

    // ------------------------------------------------------------- commands

    method IssueStart(seat: string, name: string, device: bool, shown: bool, closing: Flows.Closing)
      modifies this, session
      ensures State() == Flows.Step(old(State()), Flows.IssueStart(seat, name, device, shown, closing))
    {
      if session.Busy() {
        return;
      }
      if !device {
        Abort(closing);
        return;
      }
      session.Start(Flows.Issuing, seat, name);
      if !shown {
        Abort(closing);
        return;
      }
      EmitState(Flows.AwaitFace);
    }

    method FaceCaptured(live: Embedding, issue: Flows.IssueEnv, face: Flows.FaceEnv)
      modifies this, session, repo
      ensures State() == Flows.Step(old(State()), Flows.FaceCaptured(live, issue, face))
    {
      hide Flows.IssueOnTag, Flows.EntryOnFace;
      if session.flow == Some(Flows.Issuing) {
        session.embedding := Some(live);
        EmitState(Flows.AwaitTag);
        var ok := IssueOnTag(issue);
        Finish(ok, issue.closing);
      } else if session.flow == Some(Flows.Entering) {
        EntryOnFace(live, face);
        MarkDone(face.closing);
      }
    }

    method EntryStart(device: bool, env: Flows.EntryEnv)
      modifies this, session
      ensures State() == Flows.Step(old(State()), Flows.EntryStart(device, env))
    {
      hide Flows.EntryOnTag;
      if session.Busy() {
        return;
      }
      if !device {
        Abort(env.closing);
        return;
      }
      session.Start(Flows.Entering);
      EmitState(Flows.AwaitTag);
      var ok := EntryOnTag(env);
      if !ok {
        Abort(env.closing);
      }
    }

    method ReturnStart(device: bool, env: Flows.ReturnEnv)
      modifies this, session, repo
      ensures State() == Flows.Step(old(State()), Flows.ReturnStart(device, env))
    {
      hide Flows.ReturnOnTag;
      if session.Busy() {
        return;
      }
      if !device {
        Abort(env.closing);
        return;
      }
      session.Start(Flows.Returning);
      EmitState(Flows.AwaitTag);
      var ok := ReturnOnTag(env);
      Finish(ok, env.closing);
    }

    method Cancel(closing: Flows.Closing)
      modifies this, session
      ensures State() == Flows.Step(old(State()), Flows.Cancel(closing))
    {
      Abort(closing);
    }

    /** The end of one "done" screen's pause. */
    method LingerFires(out: bool)
      modifies this
      ensures State() == Flows.Step(old(State()), Flows.LingerFires(out))
    {
      if lingers > 0 {
        lingers := lingers - 1;
        if !session.Busy() && out {
          EmitState(Flows.Idle);
        }
      }
    }

    method ListActive() returns (rows: seq<IssueTable.Row>)
      ensures rows == IssueTable.ListActive(repo.rows)
    {
      rows := repo.List();
    }

    // ---------------------------------------------------------- flow steps

    method IssueOnTag(env: Flows.IssueEnv) returns (ok: bool)
      modifies this, repo
      ensures (State(), ok) == Flows.IssueOnTag(old(State()), env)
    {
      hide Flows.WriteBand, IssueTable.WristbandActive, IssueTable.SeatActive;
      var reached := Reached(env.tag);
      if session.embedding.None? || reached.None? {
        return false;
      }
      var id := reached.value;
      link := Some(id);
      if !env.idRead || id == "" {
        link := None;
        return false;
      }
      if IssueTable.WristbandActive(repo.rows, id) || IssueTable.SeatActive(repo.rows, session.seat) {
        link := None;
        return false;
      }
      Flows.WriteIgnoresLink(State(), None, id, session.embedding.value, env.write);
      var written := WriteEmbedding(id, session.embedding.value, env.write);
      if !written || !env.database {
        link := None;
        return false;
      }
      var r := repo.RecordIssue(id, session.seat, session.name, env.now);
      link := None;
      if r.Issued? {
        issued := issued[r.id := session.embedding.value];
        return !env.logRaises;
      }
      ok := false;
    }

    method EntryOnTag(env: Flows.EntryEnv) returns (ok: bool)
      modifies this, session
      ensures (State(), ok) == Flows.EntryOnTag(old(State()), env)
    {
      hide Flows.ReadBand, Unissued;
      var reached := Reached(env.tag);
      if reached.None? {
        return false;
      }
      Flows.ReadIgnoresLink(State(), None, reached.value, env.read);
      Flows.ReadIgnoresLink(State(), reached, reached.value, env.read);
      link := reached;
      var stored := ReadEmbedding(reached.value, env.read);
      if env.raises || stored.None? {
        link := None;
        return false;
      }
      if env.flag != Some(false) {
        gate := gate + [Flows.DenySignal];
        link := None;
        return false;
      }
      if Unissued(stored.value) {
        link := None;
        return false;
      }
      session.embedding := stored;
      source := reached;
      if env.showRaises {
        return false;
      }
      EmitState(Flows.AwaitFaceEntry);
      ok := true;
    }

    method EntryOnFace(live: Embedding, env: Flows.FaceEnv)
      modifies this
      ensures State() == Flows.EntryOnFace(old(State()), live, env)
    {
      hide Judge;
      if session.embedding.None? {
        return;
      }
      var stored := session.embedding.value;
      var verdict := Judge(stored, live);
      if verdict == Raise || env.logRaises {
        return;
      }
      if verdict == Pass {
        if env.device && !env.raises {
          gate := gate + [Flows.PassSignal(source, stored, live)];
        }
      } else if env.device {
        gate := gate + [Flows.DenySignal];
      }
      link := None;
    }

    method ReturnOnTag(env: Flows.ReturnEnv) returns (ok: bool)
      modifies this, repo
      ensures (State(), ok) == Flows.ReturnOnTag(old(State()), env)
    {
      hide Flows.WriteBand, IssueTable.UpdateReturn;
      var reached := Reached(env.tag);
      if reached.None? {
        return false;
      }
      var id := if env.idRead then reached.value else "";
      link := reached;
      Flows.WriteIgnoresLink(State(), None, reached.value, Chunks.Zeros(Chunks.EMBED_BYTES), env.write);
      var _ := WriteEmbedding(reached.value, Chunks.Zeros(Chunks.EMBED_BYTES), env.write);
      link := None;
      if !env.database {
        return false;
      }
      var _ := repo.RecordReturn(id, env.now);
      ok := !env.logRaises;
    }

    // ------------------------------------------------------------- helpers

    function Reached(tag: Flows.TagEnv): Option<string>
      reads this
    {
      if tag.device && tag.wake && tag.connection.Connected? && tag.connection.wristband in bands
      then Some(tag.connection.wristband) else None
    }

    method WriteEmbedding(id: string, data: Embedding, fault: Chunks.Fault) returns (ok: bool)
      requires id in bands
      modifies this`bands
      ensures (State(), ok) == Flows.WriteBand(old(State()), id, data, fault)
    {
      hide Chunks.WriteRun;
      var (mem, done) := Chunks.WriteRun(bands[id].mem, data, Chunks.EMBED_CHUNK, fault, 0, 0);
      bands := bands[id := bands[id].(mem := mem)];
      ok := done;
    }

    method ReadEmbedding(id: string, fault: Chunks.Fault) returns (face: Option<Embedding>)
      requires id in bands
      modifies this`bands
      ensures (State(), face) == Flows.ReadBand(old(State()), id, fault)
    {
      hide Chunks.ReadRun;
      var band := bands[id];
      var (bytes, off) := Chunks.ReadRun(band.mem, band.readOff, Chunks.CHUNK_MAX, Chunks.Zeros(Chunks.EMBED_BYTES),
                                         Chunks.EMBED_CHUNK, fault, 0, 0);
      bands := bands[id := band.(readOff := off)];
      face := match bytes case Some(b) => Some(b) case None => None;
    }

    method EmitState(screen: Flows.Screen)
      modifies this`trace
      ensures trace == old(trace) + [screen]
    {
      trace := trace + [screen];
    }

    method Abort(closing: Flows.Closing)
      modifies this, session
      ensures State() == Flows.Abort(old(State()), closing)
    {
      if closing == Flows.Stuck {
        return;
      }
      link := None;
      session.Reset();
      if closing == Flows.Closed {
        EmitState(Flows.Idle);
      }
    }

    method MarkDone(closing: Flows.Closing)
      modifies this, session
      ensures State() == Flows.MarkDone(old(State()), closing)
    {
      if closing != Flows.Closed {
        return;
      }
      EmitState(Flows.Done);
      session.Reset();
      lingers := lingers + 1;
    }

    method Finish(ok: bool, closing: Flows.Closing)
      modifies this, session
      ensures State() == Flows.Finish(old(State()), ok, closing)
    {
      if ok {
        MarkDone(closing);
      } else {
        Abort(closing);
      }
    }
  }
}
