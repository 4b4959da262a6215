/**
 The serial writer in front of the database. Callers take one mutex and then talk to a single
 writer goroutine over two unbuffered channels, one statement at a time; a third, buffered
 channel collects statements that ride along with the next `SyncExec`.
 */
module SqlConnection {
  import opened Wrappers

  /** A caller's query with its arguments; never transaction control. */
  type Payload = nat

  datatype Stmt = Begin | Commit | Rollback | Exec(payload: Payload)

  /** The read-write connection: what is durable, and the open transaction if there is one. */
  datatype Conn = Conn(committed: seq<Payload>, tx: Option<seq<Payload>>)

  /** Run one statement. `fault` is the environment: it may make any statement fail, except a
      rollback. A failed statement changes nothing. */
  function Execute(c: Conn, s: Stmt, fault: bool): (Conn, bool) {
    match s
    case Begin =>
      if fault || c.tx.Some? then (c, false) else (Conn(c.committed, Some([])), true)
    case Exec(p) =>
      if fault then (c, false)
      else if c.tx.Some? then (Conn(c.committed, Some(c.tx.value + [p])), true)
      else (Conn(c.committed + [p], None), true)
    case Commit =>
      if fault || c.tx.None? then (c, false) else (Conn(c.committed + c.tx.value, None), true)
    case Rollback =>
      if c.tx.None? then (c, false) else (Conn(c.committed, None), true)
  }

  /** The statements of a batch that are not nil. */
  function Present(stmts: seq<Option<Payload>>): seq<Payload> {
    if stmts == [] then []
    else if stmts[0].None? then Present(stmts[1..])
    else [stmts[0].value] + Present(stmts[1..])
  }

  /** The present statements of two lists are those of the one and then of the other; nil ones are
      skipped and others kept. */
  lemma {:induction false} PresentIsAll(a: seq<Option<Payload>>, b: seq<Option<Payload>>, p: Payload)
    ensures Present(a + b) == Present(a) + Present(b)
    ensures Present([None]) == [] && Present([Some(p)]) == [p]
  {
    assert [Some(p)][1..] == [];
    if a == [] {
      assert a + b == b;
    } else {
      assert (a + b)[1..] == a[1..] + b;
      PresentIsAll(a[1..], b, p);
    }
  }

  lemma {:induction false} PresentAppend(a: seq<Option<Payload>>, x: Option<Payload>)
    ensures Present(a + [x]) == Present(a) + (if x.None? then [] else [x.value])
  {
    if a == [] {
      assert [x][1..] == [];
    } else {
      assert (a + [x])[1..] == a[1..] + [x];
      PresentAppend(a[1..], x);
    }
  }
}

/** The executor as one caller sees it while it holds the mutex. */
module SyncExecutor {
  import opened Wrappers
  import opened SqlConnection

  class Executor {
    var conn: Conn
    var bulk: seq<Payload>
    const capacity: nat

    constructor (capacity: nat)
      ensures conn == Conn([], None) && bulk == [] && this.capacity == capacity
    {
      this.capacity := capacity;
      conn, bulk := Conn([], None), [];
    }

    /** One request to the writer and its response. */
    method ExecLocked(s: Stmt, fault: bool) returns (ok: bool)
      modifies this`conn
      ensures (conn, ok) == Execute(old(conn), s, fault)
    {
      var (next, result) := Execute(conn, s, fault);
      conn := next;
      return result;
    }

    /** All statements or none, in one transaction; a nil statement is skipped, and an empty
        batch succeeds without reaching the writer. */
    method SyncExecBulk(stmts: seq<Option<Payload>>, faults: nat -> bool) returns (ok: bool)
      requires conn.tx.None?
      modifies this`conn
      ensures conn.tx.None?
      ensures conn.committed == old(conn.committed) + (if ok then Present(stmts) else [])
      ensures (forall i :: !faults(i)) ==> ok
    {
      if |stmts| == 0 {
        return true;
      }
      var begun := ExecLocked(Begin, faults(0));
      if !begun {
        return false;
      }
      var i := 0;
      while i < |stmts|
        invariant 0 <= i <= |stmts|
        invariant conn == Conn(old(conn.committed), Some(Present(stmts[..i])))
      {
        assert stmts[..i + 1] == stmts[..i] + [stmts[i]];
        PresentAppend(stmts[..i], stmts[i]);
        if stmts[i].Some? {
          var done := ExecLocked(Exec(stmts[i].value), faults(i + 1));
          if !done {
            var _ := ExecLocked(Rollback, false);
            return false;
          }
        }
        assert Present(stmts[..i]) + [] == Present(stmts[..i]);
        i := i + 1;
      }
      assert stmts[..i] == stmts;
      var committed := ExecLocked(Commit, faults(|stmts| + 1));
      if !committed {
        var _ := ExecLocked(Rollback, false);
        return false;
      }
      return true;
    }

    /** One statement together with everything queued by `BulkAdd`, in arrival order. The
        queue is emptied whether or not the transaction commits. */
    method SyncExec(p: Payload, faults: nat -> bool) returns (ok: bool)
      requires conn.tx.None?
      modifies this
      ensures conn.tx.None? && bulk == []
      ensures conn.committed == old(conn.committed) + (if ok then old(bulk) + [p] else [])
      ensures (forall i :: !faults(i)) ==> ok
    {
      var stmts: seq<Option<Payload>> := [];
      while bulk != []
        invariant Present(stmts) + bulk == old(bulk)
        invariant conn == old(conn)
        decreases |bulk|
      {
        PresentAppend(stmts, Some(bulk[0]));
        stmts, bulk := stmts + [Some(bulk[0])], bulk[1..];
      }
      PresentAppend(stmts, Some(p));
      stmts := stmts + [Some(p)];
      ok := SyncExecBulk(stmts, faults);
    }

    /** Queue a statement if there is room; a full channel makes the caller wait. */
    method BulkAdd(p: Payload) returns (sent: bool)
      modifies this`bulk
      ensures sent <==> |old(bulk)| < capacity
      ensures bulk == if sent then old(bulk) + [p] else old(bulk)
    {
      sent := |bulk| < capacity;
      if sent {
        bulk := bulk + [p];
      }
    }
  }
}

/** The same executor, step by step, with any number of callers. */
module WriterProtocol {
  import opened Wrappers
  import opened SqlConnection

  type Tid = nat

  const BULK_CAPACITY: nat := 1024

  datatype Op =
    | OpSyncExec(payload: Payload)
    | OpBulk(stmts: seq<Option<Payload>>)
    | OpNoTx(single: Payload)

  datatype Stage = AtBegin | AtBody(next: nat) | AtCommit | AtRollback | AtSingle

  /** What the mutex holder is sending: `drained` came from the bulk channel. */
  datatype Plan = Plan(op: Op, drained: seq<Payload>, body: seq<Payload>, stage: Stage, trace: seq<Event>)

  /** A statement the writer ran, and whether it succeeded. */
  datatype Event = Event(stmt: Stmt, ok: bool)

  datatype Local =
    | Idle
    | Adding(added: Payload)
    | WantLock(wanted: Op)
    | Draining(draining: Payload, got: seq<Payload>)
    | Sending(plan: Plan)
    | Awaiting(plan: Plan)
    | Releasing(plan: Plan, ok: bool)

  /** `requester` is not part of the program: the writer replies to whoever is receiving. */
  datatype Writer =
    | WIdle
    | WGot(stmt: Stmt, requester: Tid)
    | WReply(stmt: Stmt, ok: bool, requester: Tid)

  /** What a caller was told, for which batch. */
  datatype Report = Report(caller: Tid, plan: Plan, ok: bool)

  datatype State = State(
    threads: map<Tid, Local>,
    lock: Option<Tid>,
    writer: Writer,
    conn: Conn,
    bulk: seq<Payload>,
    // history
    log: seq<Event>,
    reports: seq<Report>,
    added: seq<Payload>)

  datatype Step =
    | Call(t: Tid, op: Op)
    | CallAdd(t: Tid, p: Payload)
    | AddSend(t: Tid)
    | Acquire(t: Tid)
    | DrainOne(t: Tid)
    | DrainDone(t: Tid)
    | Send(t: Tid)
    | WriterRuns(fault: bool)
    | Reply(t: Tid)
    | Return(t: Tid)

  function Current(p: Plan): Stmt
    requires p.stage.AtBody? ==> p.stage.next < |p.body|
    requires p.stage.AtSingle? ==> p.body != []
  {
    match p.stage
    case AtBegin => Begin
    case AtBody(i) => Exec(p.body[i])
    case AtCommit => Commit
    case AtRollback => Rollback
    case AtSingle => Exec(p.body[0])
  }

  ghost predicate WellStaged(p: Plan) {
    && (p.stage.AtBody? ==> p.stage.next < |p.body|)
    && (p.stage.AtSingle? <==> p.op.OpNoTx?)
    && (p.op.OpNoTx? ==> p.body == [p.op.single])
    && p.body == Batch(p.op, p.drained)
    && (!p.op.OpSyncExec? ==> p.drained == [])
  }

  /** The statements a call is meant to run, in order. */
  function Batch(op: Op, drained: seq<Payload>): seq<Payload> {
    match op
    case OpSyncExec(p) => drained + [p]
    case OpBulk(stmts) => Present(stmts)
    case OpNoTx(p) => [p]
  }

  /** What a caller does next once its statement has been answered. */
  function Continue(p: Plan, ok: bool): Local
    requires WellStaged(p)
  {
    var q := p.(trace := p.trace + [Event(Current(p), ok)]);
    match p.stage
    case AtBegin =>
      if !ok then Releasing(q, false)
      else if p.body == [] then Sending(q.(stage := AtCommit))
      else Sending(q.(stage := AtBody(0)))
    case AtBody(i) =>
      if !ok then Sending(q.(stage := AtRollback))
      else if i + 1 == |p.body| then Sending(q.(stage := AtCommit))
      else Sending(q.(stage := AtBody(i + 1)))
    case AtCommit =>
      if ok then Releasing(q, true) else Sending(q.(stage := AtRollback))
    case AtRollback => Releasing(q, false)
    case AtSingle => Releasing(q, ok)
  }

  function StartOf(op: Op): Local {
    match op
    case OpSyncExec(p) => Draining(p, [])
    case OpBulk(stmts) => Sending(Plan(op, [], Present(stmts), AtBegin, []))
    case OpNoTx(p) => Sending(Plan(op, [], [p], AtSingle, []))
  }

  ghost predicate Enabled(s: State, step: Step) {
    match step
    case Call(t, op) => t in s.threads && s.threads[t].Idle? && (op.OpBulk? ==> op.stmts != [])
    case CallAdd(t, p) => t in s.threads && s.threads[t].Idle?
    case AddSend(t) => t in s.threads && s.threads[t].Adding? && |s.bulk| < BULK_CAPACITY
    case Acquire(t) => t in s.threads && s.threads[t].WantLock? && s.lock.None?
    case DrainOne(t) => t in s.threads && s.threads[t].Draining? && s.bulk != []
    case DrainDone(t) => t in s.threads && s.threads[t].Draining? && s.bulk == []
    case Send(t) => t in s.threads && s.threads[t].Sending? && WellStaged(s.threads[t].plan) && s.writer.WIdle?
    case WriterRuns(fault) => s.writer.WGot?
    case Reply(t) => t in s.threads && s.threads[t].Awaiting? && WellStaged(s.threads[t].plan) && s.writer.WReply?
    case Return(t) => t in s.threads && s.threads[t].Releasing?
  }

  ghost function Next(s: State, step: Step): State
    requires Enabled(s, step)
  {
    match step
    case Call(t, op) => s.(threads := s.threads[t := WantLock(op)])
    case CallAdd(t, p) => s.(threads := s.threads[t := Adding(p)])
    case AddSend(t) =>
      var p := s.threads[t].added;
      s.(threads := s.threads[t := Idle], bulk := s.bulk + [p], added := s.added + [p])
    case Acquire(t) =>
      s.(lock := Some(t), threads := s.threads[t := StartOf(s.threads[t].wanted)])
    case DrainOne(t) =>
      var l := s.threads[t];
      s.(threads := s.threads[t := Draining(l.draining, l.got + [s.bulk[0]])], bulk := s.bulk[1..])
    case DrainDone(t) =>
      var l := s.threads[t];
      var op := OpSyncExec(l.draining);
      s.(threads := s.threads[t := Sending(Plan(op, l.got, Batch(op, l.got), AtBegin, []))])
    case Send(t) =>
      var p := s.threads[t].plan;
      s.(threads := s.threads[t := Awaiting(p)], writer := WGot(Current(p), t))
    case WriterRuns(fault) =>
      var (conn, ok) := Execute(s.conn, s.writer.stmt, fault);
      s.(conn := conn, writer := WReply(s.writer.stmt, ok, s.writer.requester),
         log := s.log + [Event(s.writer.stmt, ok)])
    case Reply(t) =>
      s.(threads := s.threads[t := Continue(s.threads[t].plan, s.writer.ok)], writer := WIdle)
    case Return(t) =>
      var l := s.threads[t];
      s.(threads := s.threads[t := Idle], lock := None, reports := s.reports + [Report(t, l.plan, l.ok)])
  }

  ghost predicate Init(s: State) {
    && (forall t :: t in s.threads ==> s.threads[t].Idle?)
    && s.lock.None? && s.writer.WIdle? && s.conn == Conn([], None)
    && s.bulk == [] && s.log == [] && s.reports == [] && s.added == []
  }

  /** A run: every step is enabled where it is taken. */
  ghost predicate Run(s: State, steps: seq<Step>)
    decreases |steps|
  {
    steps == [] || (Enabled(s, steps[0]) && Run(Next(s, steps[0]), steps[1..]))
  }

  ghost function Final(s: State, steps: seq<Step>): State
    requires Run(s, steps)
    decreases |steps|
  {
    if steps == [] then s else Final(Next(s, steps[0]), steps[1..])
  }
}
