/**
 The table of issue rows. A row is active while it has no return time; ids come
 from an AUTOINCREMENT counter. The matching, history and conservation laws
 hold for every sequence of operations on the table.
 */
module IssueTable {
  import opened Wrappers

  datatype Row = Row(
    id: nat, wristband: string, seat: string, name: string, issuedAt: string, returnedAt: Option<string>)
  {
    predicate Active() { returnedAt.None? }
  }

  /** Rows in insertion order, and the highest id ever given out. */
  datatype Table = Table(rows: seq<Row>, lastId: nat)

  const EMPTY := Table([], 0)

  datatype IssueResult = Issued(id: nat) | WristbandTaken | SeatTaken

  predicate WristbandActive(rows: seq<Row>, wristband: string) {
    exists r :: r in rows && r.Active() && r.wristband == wristband
  }

  predicate SeatActive(rows: seq<Row>, seat: string) {
    exists r :: r in rows && r.Active() && r.seat == seat
  }

  function InsertIssue(t: Table, wristband: string, seat: string, name: string, now: string): (Table, IssueResult) {
    if WristbandActive(t.rows, wristband) then (t, WristbandTaken)
    else if SeatActive(t.rows, seat) then (t, SeatTaken)
    else
      var id := t.lastId + 1;
      (Table(t.rows + [Row(id, wristband, seat, name, now, None)], id), Issued(id))
  }

  /** The UPDATE statement: every active row of the wristband gets the return time. */
  function MarkReturned(rows: seq<Row>, wristband: string, now: string): (r: seq<Row>)
    ensures |r| == |rows|
    ensures forall i :: 0 <= i < |rows| ==>
              r[i] == if rows[i].Active() && rows[i].wristband == wristband then rows[i].(returnedAt := Some(now))
                      else rows[i]
  {
    seq(|rows|, i requires 0 <= i < |rows| =>
      if rows[i].Active() && rows[i].wristband == wristband then rows[i].(returnedAt := Some(now)) else rows[i])
  }

  function UpdateReturn(t: Table, wristband: string, now: string): (Table, bool) {
    (t.(rows := MarkReturned(t.rows, wristband, now)), WristbandActive(t.rows, wristband))
  }

  function ActiveRows(rows: seq<Row>): seq<Row> {
    if rows == [] then []
    else
      var n := |rows| - 1;
      if rows[n].Active() then ActiveRows(rows[..n]) + [rows[n]] else ActiveRows(rows[..n])
  }

  /** The SELECT of active rows, newest id first. */
  function ListActive(rows: seq<Row>): seq<Row> {
    if rows == [] then []
    else
      var n := |rows| - 1;
      if rows[n].Active() then [rows[n]] + ListActive(rows[..n]) else ListActive(rows[..n])
  }

  // ---------------------------------------------------------------- the laws

  /** Active rows pair wristbands and seats one to one. */
  ghost predicate Matching(rows: seq<Row>) {
    forall i, j :: 0 <= i < j < |rows| && rows[i].Active() && rows[j].Active() ==>
      rows[i].wristband != rows[j].wristband && rows[i].seat != rows[j].seat
  }

  ghost predicate Ordered(t: Table) {
    && (forall i, j :: 0 <= i < j < |t.rows| ==> t.rows[i].id < t.rows[j].id)
    && (forall i :: 0 <= i < |t.rows| ==> 1 <= t.rows[i].id <= t.lastId)
  }

  /** `b` is a later state of row `a`: only an unset return time may have been filled in. */
  predicate LaterRow(a: Row, b: Row) {
    b == a.(returnedAt := b.returnedAt) && (a.returnedAt.Some? ==> b == a)
  }

  /** No row of `t` was deleted or rewritten on the way to `u`. */
  ghost predicate Extends(t: Table, u: Table) {
    && t.lastId <= u.lastId
    && |t.rows| <= |u.rows|
    && forall i :: 0 <= i < |t.rows| ==> LaterRow(t.rows[i], u.rows[i])
  }

  ghost predicate Sound(t: Table) {
    Matching(t.rows) && Ordered(t)
  }

  /** Operations on the table: an issue attempt or a return, in the order the lock admits them. */
  datatype Op =
    | Issue(wristband: string, seat: string, name: string, at: string)
    | Return(wristband: string, at: string)

  function Do(t: Table, op: Op): Table {
    match op
    case Issue(w, s, n, at) => InsertIssue(t, w, s, n, at).0
    case Return(w, at) => UpdateReturn(t, w, at).0
  }

  /** What one operation adds to (issues recorded) minus (returns reported). */
  function Balance(t: Table, op: Op): int {
    match op
    case Issue(w, s, n, at) => if InsertIssue(t, w, s, n, at).1.Issued? then 1 else 0
    case Return(w, at) => if UpdateReturn(t, w, at).1 then -1 else 0
  }

  function DoAll(t: Table, ops: seq<Op>): Table {
    if ops == [] then t else Do(DoAll(t, ops[..|ops| - 1]), ops[|ops| - 1])
  }

  function BalanceAll(t: Table, ops: seq<Op>): int {
    if ops == [] then 0
    else BalanceAll(t, ops[..|ops| - 1]) + Balance(DoAll(t, ops[..|ops| - 1]), ops[|ops| - 1])
  }

  lemma MatchingKept(t: Table, op: Op)
    requires Sound(t)
    ensures Sound(Do(t, op)) && Extends(t, Do(t, op))
  {
    if op.Issue? && InsertIssue(t, op.wristband, op.seat, op.name, op.at).1.Issued? {
      var u := Do(t, op);
      forall i | 0 <= i < |t.rows| && t.rows[i].Active()
        ensures t.rows[i].wristband != op.wristband && t.rows[i].seat != op.seat
      {
        assert t.rows[i] in t.rows;
      }
      assert forall i :: 0 <= i < |t.rows| ==> u.rows[i] == t.rows[i];
    }
  }

  /** Under the matching at most one row belongs to a return. */
  lemma ReturnTouchesAtMostOne(t: Table, wristband: string, now: string, i: nat, j: nat)
    requires Sound(t) && i < |t.rows| && j < |t.rows|
    requires UpdateReturn(t, wristband, now).0.rows[i] != t.rows[i]
    requires UpdateReturn(t, wristband, now).0.rows[j] != t.rows[j]
    ensures i == j
  {
  }

  lemma NoneReturned(rows: seq<Row>, wristband: string, now: string)
    requires !WristbandActive(rows, wristband)
    ensures MarkReturned(rows, wristband, now) == rows
  {
    forall i | 0 <= i < |rows| ensures MarkReturned(rows, wristband, now)[i] == rows[i] {
      assert rows[i] in rows;
    }
  }

  lemma {:induction false} OneReturned(rows: seq<Row>, wristband: string, now: string)
    requires Matching(rows) && WristbandActive(rows, wristband)
    ensures |ActiveRows(MarkReturned(rows, wristband, now))| == |ActiveRows(rows)| - 1
  {
    var n := |rows| - 1;
    var r :| r in rows && r.Active() && r.wristband == wristband;
    assert MarkReturned(rows, wristband, now)[..n] == MarkReturned(rows[..n], wristband, now);
    if rows[n].Active() && rows[n].wristband == wristband {
      forall q | q in rows[..n] && q.Active() ensures q.wristband != wristband {
        var i :| 0 <= i < n && rows[i] == q;
      }
      NoneReturned(rows[..n], wristband, now);
    } else {
      assert r in rows[..n];
      OneReturned(rows[..n], wristband, now);
    }
  }

  lemma BalanceStep(t: Table, op: Op)
    requires Sound(t)
    ensures |ActiveRows(Do(t, op).rows)| == |ActiveRows(t.rows)| + Balance(t, op)
  {
    match op
    case Issue(w, s, n, at) =>
      if InsertIssue(t, w, s, n, at).1.Issued? {
        assert Do(t, op).rows[..|t.rows|] == t.rows;
      }
    case Return(w, at) =>
      if WristbandActive(t.rows, w) {
        OneReturned(t.rows, w, at);
      } else {
        NoneReturned(t.rows, w, at);
      }
  }

  lemma ExtendsTransitive(a: Table, b: Table, c: Table)
    requires Extends(a, b) && Extends(b, c)
    ensures Extends(a, c)
  {
    forall i | 0 <= i < |a.rows| ensures LaterRow(a.rows[i], c.rows[i]) {
      assert LaterRow(a.rows[i], b.rows[i]) && LaterRow(b.rows[i], c.rows[i]);
    }
  }

  /**
   After any sequence of operations the active rows are a one-to-one matching,
   ids strictly increase, no row was deleted or returned twice, and issues
   recorded minus returns reported is the change in the number of active rows.
   */
  lemma {:induction false} TableHistory(t: Table, ops: seq<Op>)
    requires Sound(t)
    ensures Sound(DoAll(t, ops)) && Extends(t, DoAll(t, ops))
    ensures |ActiveRows(DoAll(t, ops).rows)| == |ActiveRows(t.rows)| + BalanceAll(t, ops)
  {
    if ops != [] {
      var earlier := ops[..|ops| - 1];
      TableHistory(t, earlier);
      MatchingKept(DoAll(t, earlier), ops[|ops| - 1]);
      BalanceStep(DoAll(t, earlier), ops[|ops| - 1]);
      ExtendsTransitive(t, DoAll(t, earlier), DoAll(t, ops));
    }
  }

  /** An accepted issue is active afterwards under a new id, and a refused one has the reason it names. */
  lemma IssueOutcome(t: Table, wristband: string, seat: string, name: string, now: string)
    requires Sound(t)
    ensures var (u, r) := InsertIssue(t, wristband, seat, name, now);
      match r
      case Issued(id) =>
        && Row(id, wristband, seat, name, now, None) in u.rows
        && (forall row :: row in t.rows ==> row in u.rows && row.id < id)
      case WristbandTaken => u == t && WristbandActive(t.rows, wristband)
      case SeatTaken => u == t && SeatActive(t.rows, seat) && !WristbandActive(t.rows, wristband)
  {
  }

  /** A return ends with the wristband free, whether or not a row changed. */
  lemma ReturnFrees(t: Table, wristband: string, now: string)
    ensures !WristbandActive(UpdateReturn(t, wristband, now).0.rows, wristband)
    ensures UpdateReturn(t, wristband, now).1 <==> UpdateReturn(t, wristband, now).0 != t
  {
    var rows := t.rows;
    var rows' := MarkReturned(rows, wristband, now);
    if WristbandActive(rows, wristband) {
      var r :| r in rows && r.Active() && r.wristband == wristband;
      var i :| 0 <= i < |rows| && rows[i] == r;
      assert rows'[i] != rows[i];
    } else {
      NoneReturned(rows, wristband, now);
    }
  }

  /** And leaves every other wristband as it was. */
  lemma OthersStayActive(rows: seq<Row>, wristband: string, now: string, other: string)
    requires other != wristband
    ensures WristbandActive(MarkReturned(rows, wristband, now), other) <==> WristbandActive(rows, other)
  {
    var rows' := MarkReturned(rows, wristband, now);
    if WristbandActive(rows, other) {
      var r :| r in rows && r.Active() && r.wristband == other;
      var i :| 0 <= i < |rows| && rows[i] == r;
      assert rows'[i] == r;
    }
    if WristbandActive(rows', other) {
      var r :| r in rows' && r.Active() && r.wristband == other;
      var i :| 0 <= i < |rows'| && rows'[i] == r;
      assert rows[i] == r;
    }
  }

  lemma {:induction false} ListIsActive(rows: seq<Row>)
    ensures forall r :: r in ListActive(rows) <==> r in rows && r.Active()
    ensures |ListActive(rows)| == |ActiveRows(rows)|
  {
    if rows != [] {
      var n := |rows| - 1;
      ListIsActive(rows[..n]);
      assert rows == rows[..n] + [rows[n]];
    }
  }

  /** The listing holds exactly the active rows, in strictly descending id order. */
  lemma {:induction false} ListIsDescending(t: Table)
    requires Ordered(t)
    ensures forall r :: r in ListActive(t.rows) <==> r in t.rows && r.Active()
    ensures forall i, j :: 0 <= i < j < |ListActive(t.rows)| ==> ListActive(t.rows)[i].id > ListActive(t.rows)[j].id
    ensures |ListActive(t.rows)| == |ActiveRows(t.rows)|
    decreases |t.rows|
  {
    ListIsActive(t.rows);
    if t.rows != [] {
      var n := |t.rows| - 1;
      var earlier := t.rows[..n];
      ListIsDescending(t.(rows := earlier));
      forall i | 0 <= i < |ListActive(earlier)| ensures ListActive(earlier)[i].id < t.rows[n].id {
        assert ListActive(earlier)[i] in earlier;
      }
    }
  }

  // -------------------------------------------------------------- the repository

  class IssueRepository {
    var rows: seq<Row>
    var lastId: nat

    ghost function State(): Table
      reads this
    {
      Table(rows, lastId)
    }

    constructor ()
      ensures State() == EMPTY
    {
      rows, lastId := [], 0;
    }

    method RecordIssue(wristband: string, seat: string, name: string, now: string) returns (r: IssueResult)
      modifies this
      ensures (State(), r) == InsertIssue(old(State()), wristband, seat, name, now)
      ensures Sound(old(State())) ==> Sound(State()) && Extends(old(State()), State())
    {
      if Sound(State()) {
        MatchingKept(State(), Issue(wristband, seat, name, now));
      }
      if WristbandActive(rows, wristband) {
        return WristbandTaken;
      }
      if SeatActive(rows, seat) {
        return SeatTaken;
      }
      lastId := lastId + 1;
      rows := rows + [Row(lastId, wristband, seat, name, now, None)];
      r := Issued(lastId);
    }

    /** Each active row of the wristband gets the return time; the result is whether there was one. */
    method RecordReturn(wristband: string, now: string) returns (found: bool)
      modifies this
      ensures (State(), found) == UpdateReturn(old(State()), wristband, now)
      ensures !WristbandActive(rows, wristband)
      ensures Sound(old(State())) ==> Sound(State()) && Extends(old(State()), State())
    {
      ghost var was := State();
      found := false;
      var i := 0;
      while i < |rows|
        invariant 0 <= i <= |rows| == |was.rows|
        invariant rows[..i] == MarkReturned(was.rows, wristband, now)[..i] && rows[i..] == was.rows[i..]
        invariant found <==> exists k :: 0 <= k < i && was.rows[k].Active() && was.rows[k].wristband == wristband
        invariant lastId == was.lastId
      {
        assert rows[i] == rows[i..][0] == was.rows[i];
        ghost var done := rows[..i];
        if rows[i].Active() && rows[i].wristband == wristband {
          rows := rows[i := rows[i].(returnedAt := Some(now))];
          found := true;
        }
        assert rows[..i + 1] == done + [rows[i]];
        i := i + 1;
      }
      assert rows == rows[..i] == MarkReturned(was.rows, wristband, now);
      ActiveIndex(was.rows, wristband);
      ReturnFrees(was, wristband, now);
      if Sound(was) {
        MatchingKept(was, Return(wristband, now));
      }
    }

    /** Exactly the active rows, newest id first. */
    method List() returns (active: seq<Row>)
      ensures active == ListActive(rows)
      ensures forall r :: r in active <==> r in rows && r.Active()
      ensures Sound(State()) ==> forall i, j :: 0 <= i < j < |active| ==> active[i].id > active[j].id
    {
      active := [];
      var i := 0;
      while i < |rows|
        invariant 0 <= i <= |rows|
        invariant active == ListActive(rows[..i])
      {
        assert rows[..i + 1][..i] == rows[..i];
        if rows[i].Active() {
          active := [rows[i]] + active;
        }
        i := i + 1;
      }
      assert rows[..i] == rows;
      ListIsActive(rows);
      if Ordered(State()) {
        ListIsDescending(State());
      }
    }
  }

  lemma ActiveIndex(rows: seq<Row>, wristband: string)
    ensures WristbandActive(rows, wristband) <==>
      exists k :: 0 <= k < |rows| && rows[k].Active() && rows[k].wristband == wristband
  {
    if WristbandActive(rows, wristband) {
      var r :| r in rows && r.Active() && r.wristband == wristband;
      var k :| 0 <= k < |rows| && rows[k] == r;
    }
  }
}
