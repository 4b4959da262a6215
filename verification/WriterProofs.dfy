/**
 What every interleaving of the serial writer's callers keeps: one caller at a time is between
 lock and unlock, answers reach the caller that asked, the writer sees whole transactions, and
 what callers are told is what the database holds.
 */
module WriterProofs {
  import opened Wrappers
  import opened SqlConnection
  import opened WriterProtocol

  // ---- control ------------------------------------------------------------------------

  predicate Inside(l: Local) {
    l.Draining? || l.Sending? || l.Awaiting? || l.Releasing?
  }

  /** The caller that holds the mutex and the writer are at matching points. */
  ghost predicate Handshake(l: Local, w: Writer, holder: Tid) {
    match l
    case Awaiting(p) =>
      && WellStaged(p)
      && (w.WGot? || w.WReply?)
      && w.requester == holder && w.stmt == Current(p)
    case Sending(p) => WellStaged(p) && w.WIdle?
    case Releasing(p, ok) => WellStaged(p) && w.WIdle?
    case Draining(_, _) => w.WIdle?
    case _ => false
  }

  ghost predicate Control(s: State) {
    && (forall t :: t in s.threads && Inside(s.threads[t]) ==> s.lock == Some(t))
    && (forall t :: t in s.threads && s.threads[t].WantLock? ==> CallableOp(s.threads[t].wanted))
    && (match s.lock
        case None => s.writer.WIdle?
        case Some(h) => h in s.threads && Handshake(s.threads[h], s.writer, h))
  }

  predicate CallableOp(op: Op) {
    op.OpBulk? ==> op.stmts != []
  }

  lemma ControlKept(s: State, step: Step)
    requires Control(s) && Enabled(s, step)
    ensures Control(Next(s, step))
  {
  }

  /** Whoever receives the writer's answer is the caller whose statement it answers. */
  lemma AnswerReachesItsCaller(s: State, t: Tid)
    requires Control(s) && Enabled(s, Reply(t))
    ensures s.writer.requester == t && s.writer.stmt == Current(s.threads[t].plan)
  {
  }

  // ---- the database -------------------------------------------------------------------

  /** The open transaction while a caller is about to send its current statement. */
  ghost predicate TxMatches(p: Plan, tx: Option<seq<Payload>>)
    requires WellStaged(p)
  {
    match p.stage
    case AtBegin => tx.None?
    case AtSingle => tx.None?
    case AtBody(i) => tx == Some(p.body[..i])
    case AtCommit => tx == Some(p.body)
    case AtRollback => tx.Some?
  }

  /** Has this caller's batch already been made durable? */
  predicate Durable(l: Local, w: Writer) {
    match l
    case Awaiting(p) => (p.stage.AtCommit? || p.stage.AtSingle?) && w.WReply? && w.ok
    case Releasing(p, ok) => ok
    case _ => false
  }

  ghost predicate HolderMatches(l: Local, w: Writer, tx: Option<seq<Payload>>, holder: Tid)
    requires Handshake(l, w, holder)
  {
    match l
    case Draining(_, _) => tx.None?
    case Releasing(_, _) => tx.None?
    case Sending(p) => TxMatches(p, tx)
    case Awaiting(p) =>
      if w.WGot? then TxMatches(p, tx)
      else match Continue(p, w.ok)
           case Sending(q) => TxMatches(q, tx)
           case _ => tx.None?
  }

  function Kept(reports: seq<Report>): seq<Payload> {
    if reports == [] then []
    else Kept(reports[..|reports| - 1]) + Contribution(reports[|reports| - 1])
  }

  function Contribution(r: Report): seq<Payload> {
    if r.ok then r.plan.body else []
  }

  lemma KeptAppend(reports: seq<Report>, r: Report)
    ensures Kept(reports + [r]) == Kept(reports) + Contribution(r)
  {
    assert (reports + [r])[..|reports|] == reports;
  }

  function Pending(s: State): seq<Payload> {
    match s.lock
    case None => []
    case Some(h) =>
      if h in s.threads && Durable(s.threads[h], s.writer) then s.threads[h].plan.body else []
  }

  ghost predicate Database(s: State)
    requires Control(s)
  {
    && s.conn.committed == Kept(s.reports) + Pending(s)
    && (match s.lock
        case None => s.conn.tx.None?
        case Some(h) => HolderMatches(s.threads[h], s.writer, s.conn.tx, h))
  }

  /** Running the statement a caller is at takes the open transaction to the one its next
      statement expects, and makes the batch durable exactly at a commit or a lone statement. */
  lemma ExecuteMatches(p: Plan, c: Conn, fault: bool)
    requires WellStaged(p) && TxMatches(p, c.tx)
    ensures var (c', ok) := Execute(c, Current(p), fault);
            && (match Continue(p, ok)
                case Sending(q) => WellStaged(q) && TxMatches(q, c'.tx)
                case _ => c'.tx.None?)
            && c'.committed == c.committed + (if (p.stage.AtCommit? || p.stage.AtSingle?) && ok then p.body else [])
  {
    match p.stage
    case AtBegin =>
      assert p.body[..0] == [];
    case AtBody(i) =>
      assert p.body[..i] + [p.body[i]] == p.body[..i + 1];
      assert i + 1 == |p.body| ==> p.body[..i + 1] == p.body;
    case AtCommit =>
    case AtRollback =>
    case AtSingle =>
      assert [p.body[0]] == p.body;
  }

  lemma DatabaseKeptByWriter(s: State, fault: bool)
    requires Control(s) && Database(s) && s.writer.WGot?
    ensures Control(Next(s, WriterRuns(fault))) && Database(Next(s, WriterRuns(fault)))
  {
    ControlKept(s, WriterRuns(fault));
    ExecuteMatches(s.threads[s.lock.value].plan, s.conn, fault);
    hide Execute, TxMatches, Continue, WellStaged, Current;
  }

  lemma DatabaseKeptByReturn(s: State, t: Tid)
    requires Control(s) && Database(s) && Enabled(s, Return(t))
    ensures Control(Next(s, Return(t))) && Database(Next(s, Return(t)))
  {
    ControlKept(s, Return(t));
    var l := s.threads[t];
    KeptAppend(s.reports, Report(t, l.plan, l.ok));
    hide Kept, WellStaged, TxMatches;
  }

  lemma DatabaseKept(s: State, step: Step)
    requires Control(s) && Database(s) && Enabled(s, step)
    ensures Control(Next(s, step)) && Database(Next(s, step))
  {
    if step.WriterRuns? {
      DatabaseKeptByWriter(s, step.fault);
    } else if step.Return? {
      DatabaseKeptByReturn(s, step.t);
    } else {
      ControlKept(s, step);
      hide Kept, Execute;
      assert Next(s, step).conn == s.conn && Next(s, step).reports == s.reports;
    }
  }

  // ---- what the writer ran ------------------------------------------------------------

  function Ran(xs: seq<Payload>): seq<Event> {
    seq(|xs|, i requires 0 <= i < |xs| => Event(Exec(xs[i]), true))
  }

  /** The statements a caller has had answered before its current one. */
  ghost predicate Progress(p: Plan)
    requires WellStaged(p)
  {
    match p.stage
    case AtBegin => p.trace == []
    case AtSingle => p.trace == []
    case AtBody(i) => p.trace == [Event(Begin, true)] + Ran(p.body[..i])
    case AtCommit => p.trace == [Event(Begin, true)] + Ran(p.body)
    case AtRollback => FailedInside(p.body, p.trace)
  }

  /** A transaction up to and including the statement that failed. */
  ghost predicate FailedInside(body: seq<Payload>, trace: seq<Event>) {
    || trace == [Event(Begin, true)] + Ran(body) + [Event(Commit, false)]
    || exists i :: 0 <= i < |body| && trace == [Event(Begin, true)] + Ran(body[..i]) + [Event(Exec(body[i]), false)]
  }

  /** A finished call, as the writer saw it: a lone statement, or a whole transaction. */
  ghost predicate WholeBlock(op: Op, body: seq<Payload>, trace: seq<Event>, ok: bool) {
    if op.OpNoTx? then trace == [Event(Exec(op.single), ok)]
    else if ok then trace == [Event(Begin, true)] + Ran(body) + [Event(Commit, true)]
    else
      || trace == [Event(Begin, false)]
      || (exists inside :: FailedInside(body, inside) && trace == inside + [Event(Rollback, true)])
  }

  ghost predicate Finished(r: Report) {
    && (match r.plan.op
        case OpSyncExec(p) => r.plan.body == r.plan.drained + [p]
        case OpBulk(stmts) => r.plan.body == Present(stmts) && r.plan.drained == []
        case OpNoTx(p) => r.plan.body == [p] && r.plan.drained == [])
    && WholeBlock(r.plan.op, r.plan.body, r.plan.trace, r.ok)
  }

  function Blocks(reports: seq<Report>): seq<Event> {
    if reports == [] then [] else Blocks(reports[..|reports| - 1]) + reports[|reports| - 1].plan.trace
  }

  lemma BlocksAppend(reports: seq<Report>, r: Report)
    ensures Blocks(reports + [r]) == Blocks(reports) + r.plan.trace
  {
    assert (reports + [r])[..|reports|] == reports;
  }

  function Open(s: State): seq<Event> {
    match s.lock
    case None => []
    case Some(h) =>
      if h !in s.threads then []
      else match s.threads[h]
           case Sending(p) => p.trace
           case Releasing(p, _) => p.trace
           case Awaiting(p) => p.trace + (if s.writer.WReply? then [Event(s.writer.stmt, s.writer.ok)] else [])
           case _ => []
  }

  ghost predicate PlanProgress(l: Local, w: Writer, holder: Tid)
    requires Handshake(l, w, holder)
  {
    match l
    case Sending(p) => Progress(p)
    case Awaiting(p) => Progress(p) && (w.WReply? && p.stage.AtRollback? ==> w.ok)
    case Releasing(p, ok) => WholeBlock(p.op, p.body, p.trace, ok)
    case _ => true
  }

  ghost predicate Logged(s: State)
    requires Control(s)
  {
    && s.log == Blocks(s.reports) + Open(s)
    && (forall r :: r in s.reports ==> Finished(r))
    && (s.lock.Some? ==> PlanProgress(s.threads[s.lock.value], s.writer, s.lock.value))
  }

  lemma ContinueProgress(p: Plan, ok: bool)
    requires WellStaged(p) && Progress(p) && (p.stage.AtRollback? ==> ok)
    ensures match Continue(p, ok)
            case Sending(q) => WellStaged(q) && Progress(q)
            case Releasing(q, done) => WellStaged(q) && WholeBlock(q.op, q.body, q.trace, done)
            case _ => false
  {
    var e := Event(Current(p), ok);
    match p.stage
    case AtBegin =>
      assert p.body[..0] == [] && Ran([]) == [];
      assert p.trace + [e] == [e] == [e] + [];
    case AtBody(i) =>
      assert Ran(p.body[..i + 1]) == Ran(p.body[..i]) + [Event(Exec(p.body[i]), true)];
      assert i + 1 == |p.body| ==> p.body[..i + 1] == p.body;
      assert p.trace + [e] == [Event(Begin, true)] + (Ran(p.body[..i]) + [e]);
    case AtCommit =>
    case AtRollback =>
    case AtSingle =>
  }

  lemma LoggedKeptByReply(s: State, t: Tid)
    requires Control(s) && Logged(s) && Enabled(s, Reply(t)) && Control(Next(s, Reply(t)))
    ensures Logged(Next(s, Reply(t)))
  {
    AnswerReachesItsCaller(s, t);
    ContinueProgress(s.threads[t].plan, s.writer.ok);
    hide Progress, WholeBlock, WellStaged, Finished, Blocks;
  }

  lemma LoggedKeptByReturn(s: State, t: Tid)
    requires Control(s) && Logged(s) && Enabled(s, Return(t)) && Control(Next(s, Return(t)))
    ensures Logged(Next(s, Return(t)))
  {
    var l := s.threads[t];
    BlocksAppend(s.reports, Report(t, l.plan, l.ok));
    hide Blocks, Progress, WholeBlock;
  }

  lemma RollbackSucceeds(s: State, fault: bool)
    requires Control(s) && Database(s) && s.writer.WGot?
    ensures s.lock.Some? && s.threads[s.lock.value].Awaiting?
    ensures s.threads[s.lock.value].plan.stage.AtRollback? ==> Next(s, WriterRuns(fault)).writer.ok
  {
    hide Kept, Pending, WellStaged;
  }

  lemma LoggedKeptByWriter(s: State, fault: bool)
    requires Control(s) && Database(s) && Logged(s) && s.writer.WGot? && Control(Next(s, WriterRuns(fault)))
    ensures Logged(Next(s, WriterRuns(fault)))
  {
    var p := s.threads[s.lock.value].plan;
    var s' := Next(s, WriterRuns(fault));
    RollbackSucceeds(s, fault);
    hide Blocks, Progress, Execute, Finished, Database, WellStaged, Current, Inside;
    assert s'.log == Blocks(s.reports) + (p.trace + [Event(s.writer.stmt, s'.writer.ok)]);
  }

  lemma LoggedKept(s: State, step: Step)
    requires Control(s) && Database(s) && Logged(s) && Enabled(s, step)
    ensures Control(Next(s, step)) && Logged(Next(s, step))
  {
    ControlKept(s, step);
    match step
    case Reply(t) => LoggedKeptByReply(s, t);
    case Return(t) => LoggedKeptByReturn(s, t);
    case WriterRuns(fault) => LoggedKeptByWriter(s, fault);
    case _ =>
      hide Blocks, WholeBlock, Finished, Database;
      assert Open(Next(s, step)) == Open(s);
  }

  // ---- the bulk channel ---------------------------------------------------------------

  function Rode(reports: seq<Report>): seq<Payload> {
    if reports == [] then [] else Rode(reports[..|reports| - 1]) + reports[|reports| - 1].plan.drained
  }

  lemma RodeAppend(reports: seq<Report>, r: Report)
    ensures Rode(reports + [r]) == Rode(reports) + r.plan.drained
  {
    assert (reports + [r])[..|reports|] == reports;
  }

  function Riding(s: State): seq<Payload> {
    match s.lock
    case None => []
    case Some(h) =>
      if h !in s.threads then []
      else match s.threads[h]
           case Draining(_, got) => got
           case Sending(p) => p.drained
           case Awaiting(p) => p.drained
           case Releasing(p, _) => p.drained
           case _ => []
  }

  /** Every statement ever added is in exactly one place, and their order is the order of
      arrival: batches already reported, then the batch in progress, then the channel. */
  ghost predicate Conserved(s: State) {
    s.added == Rode(s.reports) + Riding(s) + s.bulk && |s.bulk| <= BULK_CAPACITY
  }

  /** What the mutex holder has taken from the channel changes only when it drains or returns. */
  lemma RidingAfter(s: State, step: Step)
    requires Control(s) && Enabled(s, step)
    ensures var s' := Next(s, step);
            match step
            case DrainOne(t) => Riding(s') == Riding(s) + [s.bulk[0]]
            case Return(t) => Riding(s') == [] && Riding(s) == s.threads[t].plan.drained
            case _ => Riding(s') == Riding(s)
  {
    ControlKept(s, step);
    hide WellStaged, Present;
  }

  lemma MoveFirst(a: seq<Payload>, r: seq<Payload>, b: seq<Payload>)
    requires b != []
    ensures a + (r + [b[0]]) + b[1..] == a + r + b
  {
    assert b == [b[0]] + b[1..];
  }

  lemma AddLast(a: seq<Payload>, r: seq<Payload>, b: seq<Payload>, x: Payload)
    ensures a + r + (b + [x]) == (a + r + b) + [x]
  {
  }

  lemma ConservedKept(s: State, step: Step)
    requires Control(s) && Conserved(s) && Enabled(s, step)
    ensures Conserved(Next(s, step))
  {
    RidingAfter(s, step);
    hide Control, Riding, WellStaged, Rode, Continue, Execute, StartOf;
    match step
    case Return(t) =>
      var l := s.threads[t];
      RodeAppend(s.reports, Report(t, l.plan, l.ok));
      assert (Rode(s.reports) + Riding(s)) + [] == Rode(s.reports) + Riding(s);
    case DrainOne(t) => MoveFirst(Rode(s.reports), Riding(s), s.bulk);
    case AddSend(t) => AddLast(Rode(s.reports), Riding(s), s.bulk, s.threads[t].added);
    case _ =>
  }

  // ---- every run ----------------------------------------------------------------------

  ghost predicate Sound(s: State) {
    Control(s) && Database(s) && Logged(s) && Conserved(s)
  }

  lemma {:induction false} EveryRunIsSound(s: State, steps: seq<Step>)
    requires Sound(s) && Run(s, steps)
    ensures Sound(Final(s, steps))
    decreases |steps|
  {
    if steps != [] {
      DatabaseKept(s, steps[0]);
      LoggedKept(s, steps[0]);
      ConservedKept(s, steps[0]);
      EveryRunIsSound(Next(s, steps[0]), steps[1..]);
    }
  }

  lemma InitiallySound(s: State)
    requires Init(s)
    ensures Sound(s)
  {
  }

  /** The main result. In every state any interleaving reaches: the durable statements are
      those of the batches reported successful, in report order, followed by at most the one
      batch that has committed and whose caller has not returned yet; the writer's log is the
      corresponding sequence of whole blocks; and each bulk-added statement rode in at most
      one batch, in order of arrival. */
  lemma ReportsMatchTheDatabase(s: State, steps: seq<Step>)
    requires Init(s) && Run(s, steps)
    ensures var f := Final(s, steps);
            && f.conn.committed == Kept(f.reports) + Pending(f)
            && f.log == Blocks(f.reports) + Open(f)
            && (forall r :: r in f.reports ==> Finished(r))
            && f.added == Rode(f.reports) + Riding(f) + f.bulk
            && (f.lock.None? ==> f.conn == Conn(Kept(f.reports), None) && f.log == Blocks(f.reports))
  {
    InitiallySound(s);
    EveryRunIsSound(s, steps);
    var f := Final(s, steps);
    assert f.lock.None? ==> Pending(f) == [] && Open(f) == [];
  }

  /** A caller that is told of success finds its batch as the end of the durable statements;
      one that is told of failure finds nothing of it there. */
  lemma ReturnTellsTheTruth(s: State, steps: seq<Step>, t: Tid)
    requires Init(s) && Run(s, steps) && Enabled(Final(s, steps), Return(t))
    ensures var f := Final(s, steps);
            var l := f.threads[t];
            && f.conn.tx.None?
            && f.conn.committed == Kept(f.reports) + (if l.ok then Batch(l.plan.op, l.plan.drained) else [])
  {
    InitiallySound(s);
    EveryRunIsSound(s, steps);
  }

  /** While the mutex is held, somebody can always move: the protocol does not deadlock. */
  lemma HolderOrWriterCanMove(s: State, steps: seq<Step>)
    requires Init(s) && Run(s, steps) && Final(s, steps).lock.Some?
    ensures var f := Final(s, steps);
            var h := f.lock.value;
            || Enabled(f, DrainOne(h)) || Enabled(f, DrainDone(h)) || Enabled(f, Send(h))
            || Enabled(f, WriterRuns(false)) || Enabled(f, Reply(h)) || Enabled(f, Return(h))
  {
    InitiallySound(s);
    EveryRunIsSound(s, steps);
    HolderOrWriterMoves(Final(s, steps));
  }

  lemma HolderOrWriterMoves(f: State)
    requires Control(f) && f.lock.Some?
    ensures var h := f.lock.value;
            || Enabled(f, DrainOne(h)) || Enabled(f, DrainDone(h)) || Enabled(f, Send(h))
            || Enabled(f, WriterRuns(false)) || Enabled(f, Reply(h)) || Enabled(f, Return(h))
  {
  }

  // ---- the mutex is released ----------------------------------------------------------------

  /** The statements a call may still send: the rest of its batch, a commit and a rollback. */
  function StatementsLeft(p: Plan): nat
    requires WellStaged(p)
  {
    match p.stage
    case AtBegin => |p.body| + 3
    case AtBody(i) => |p.body| - i + 2
    case AtCommit => 2
    case AtRollback => 1
    case AtSingle => 1
  }

  ghost predicate Working(s: State) {
    Control(s) && s.lock.Some? && !s.threads[s.lock.value].Draining?
  }

  /** The steps of holder and writer until the mutex is free: three for each statement, one to
      return. */
  ghost function StepsLeft(s: State): nat
    requires Control(s)
  {
    if s.lock.None? then 0
    else match s.threads[s.lock.value]
         case Sending(p) => 3 * StatementsLeft(p) + 1
         case Awaiting(p) => if s.writer.WGot? then 3 * StatementsLeft(p) else 3 * StatementsLeft(p) - 1
         case _ => 1
  }

  predicate Progresses(step: Step) {
    step.Send? || step.WriterRuns? || step.Reply? || step.Return?
  }

  lemma ContinueAdvances(p: Plan, ok: bool)
    requires WellStaged(p)
    ensures match Continue(p, ok)
            case Sending(q) => WellStaged(q) && StatementsLeft(q) < StatementsLeft(p)
            case _ => true
  {
  }

  /** Once the channel is drained, each step of holder or writer brings the release nearer, and no
      step of anybody else delays it. */
  lemma StepAdvances(s: State, step: Step)
    requires Working(s) && Enabled(s, step)
    ensures var s' := Next(s, step);
            && Control(s') && (s'.lock.Some? ==> Working(s'))
            && StepsLeft(s') <= StepsLeft(s) - (if Progresses(step) then 1 else 0)
            && (step.Return? <==> s'.lock.None?)
  {
    ControlKept(s, step);
    hide Control;
    assert Handshake(s.threads[s.lock.value], s.writer, s.lock.value) by { HolderHandshake(s); }
    if step.Reply? {
      HolderReplies(s, step.t);
      ContinueAdvances(s.threads[step.t].plan, s.writer.ok);
    } else if step.Send? || step.Return? {
      HolderReplies(s, step.t);
    } else if !step.WriterRuns? {
      OthersWait(s, step);
    }
    hide Execute, StatementsLeft, Continue, StartOf;
  }

  lemma HolderHandshake(s: State)
    requires Control(s) && s.lock.Some?
    ensures s.lock.value in s.threads && Handshake(s.threads[s.lock.value], s.writer, s.lock.value)
  {
  }

  lemma HolderReplies(s: State, t: Tid)
    requires Control(s) && t in s.threads && Inside(s.threads[t])
    ensures s.lock == Some(t)
  {
  }

  /** While the mutex is held by a caller that has drained the channel, everybody else can only
      call or add. */
  lemma OthersWait(s: State, step: Step)
    requires Working(s) && Enabled(s, step) && !Progresses(step)
    ensures (step.Call? || step.CallAdd? || step.AddSend?) && step.t != s.lock.value
  {
  }

  function ProgressCount(steps: seq<Step>): nat {
    if steps == [] then 0 else (if Progresses(steps[0]) then 1 else 0) + ProgressCount(steps[1..])
  }

  /** After draining, the mutex is free again after a bounded number of steps of holder and writer,
      whatever everybody else does meanwhile: at most ten, and three for each statement. */
  lemma {:induction false} ReleasedInTime(s: State, steps: seq<Step>)
    requires Working(s) && Run(s, steps) && forall step :: step in steps ==> !step.Return?
    ensures Working(Final(s, steps)) && ProgressCount(steps) + StepsLeft(Final(s, steps)) <= StepsLeft(s)
    ensures StepsLeft(s) <= 3 * |Body(s)| + 10
    decreases |steps|
  {
    WorkIsBounded(s);
    if steps != [] {
      assert steps[0] in steps;
      StepAdvances(s, steps[0]);
      hide Working, Next, Enabled, StepsLeft;
      ReleasedInTime(Next(s, steps[0]), steps[1..]);
    }
  }

  ghost function Body(s: State): seq<Payload>
    requires Working(s)
  {
    s.threads[s.lock.value].plan.body
  }

  lemma WorkIsBounded(s: State)
    requires Working(s)
    ensures StepsLeft(s) <= 3 * |Body(s)| + 10
  {
  }

  /** Draining itself has no bound: another caller that keeps adding keeps the holder draining. */
  function KeepsAdding(t: Tid, u: Tid, p: Payload, n: nat): seq<Step> {
    if n == 0 then [] else [CallAdd(u, p), AddSend(u), DrainOne(t)] + KeepsAdding(t, u, p, n - 1)
  }

  lemma OneRound(s: State, t: Tid, u: Tid, p: Payload)
    requires t in s.threads && s.threads[t].Draining? && u in s.threads && s.threads[u].Idle? && s.bulk == []
    ensures Enabled(s, CallAdd(u, p))
    ensures var s1 := Next(s, CallAdd(u, p));
            && Enabled(s1, AddSend(u))
            && var s2 := Next(s1, AddSend(u));
               && Enabled(s2, DrainOne(t))
               && var s3 := Next(s2, DrainOne(t));
                  && t in s3.threads && s3.threads[t].Draining? && u in s3.threads && s3.threads[u].Idle? && s3.bulk == []
                  && |s3.threads[t].got| == |s.threads[t].got| + 1
  {
  }

  lemma {:induction false} DrainingCanGoOn(s: State, t: Tid, u: Tid, p: Payload, n: nat)
    requires t in s.threads && s.threads[t].Draining? && u in s.threads && s.threads[u].Idle? && s.bulk == []
    ensures Run(s, KeepsAdding(t, u, p, n))
    ensures var f := Final(s, KeepsAdding(t, u, p, n));
            t in f.threads && f.threads[t].Draining? && |f.threads[t].got| == |s.threads[t].got| + n
    decreases n
  {
    if n > 0 {
      var steps, rest := KeepsAdding(t, u, p, n), KeepsAdding(t, u, p, n - 1);
      OneRound(s, t, u, p);
      var s1 := Next(s, CallAdd(u, p));
      var s2 := Next(s1, AddSend(u));
      var s3 := Next(s2, DrainOne(t));
      assert steps[1..] == [AddSend(u), DrainOne(t)] + rest && steps[1..][1..] == [DrainOne(t)] + rest;
      assert steps[1..][1..][1..] == rest;
      hide Next, Enabled;
      DrainingCanGoOn(s3, t, u, p, n - 1);
      assert Run(s2, steps[1..][1..]) && Final(s2, steps[1..][1..]) == Final(s3, rest);
      assert Run(s1, steps[1..]) && Final(s1, steps[1..]) == Final(s3, rest);
    }
  }
}
