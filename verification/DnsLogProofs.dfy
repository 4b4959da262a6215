/**
 What the DNS log keeps over every run: stored rows are in the recorded privacy mode, accepted
 events are neither lost nor reordered, and row keys only ever grow.
 */
module DnsLogPrivacy {
  import opened Wrappers
  import opened DnsLogTables
  import opened DnsLogModel

  ghost predicate InMode(t: Text, mode: Mode, fingerprint: Fingerprint, context: Context) {
    match mode
    case PlainMode => t.Plain?
    case HmacMode => t.Token? && fingerprint == Sha256(t.key) && t.context == context
  }

  ghost predicate RowMatches(r: Row, p: Stored) {
    InMode(r.domain, p.domainMode, p.fingerprint, DomainContext) && InMode(r.client, p.clientMode, p.fingerprint, ClientContext)
  }

  ghost predicate EventMatches(e: Event, p: Stored) {
    InMode(e.domain, p.domainMode, p.fingerprint, DomainContext) && InMode(e.client, p.clientMode, p.fingerprint, ClientContext)
  }

  ghost predicate RowsMatch(db: Db) {
    forall r :: r in db.rows ==> RowMatches(r, StoredOf(db))
  }

  ghost predicate AllMatch(events: seq<Event>, p: Stored) {
    forall e :: e in events ==> EventMatches(e, p)
  }

  /** The settings of the running process are consistent with one another. */
  ghost predicate WellConfigured(s: Log) {
    s.key.Some? <==> s.status.domains || s.status.clients
  }

  /** The invariant. Its first three clauses are what the log promises; the others say why:
      a process that need not clear works in the recorded mode, and so do the events it holds. */
  ghost predicate Private(s: Log) {
    && RowsMatch(s.db)
    && (s.enabled ==> !s.status.requiresClear)
    && (!s.enabled && !s.stopping ==> s.queue == [] && s.inFlight == [])
    && (s.stopping ==> !s.enabled && !s.status.requiresClear)
    && (!s.status.requiresClear ==> s.db.privacy == Some(PrivacyStateArgs(s.status, s.key)))
    && AllMatch(s.queue, StoredOf(s.db)) && AllMatch(s.inFlight, StoredOf(s.db))
    && WellConfigured(s)
  }

  /** What a run has to respect: a failed stop does not discard the queue while a background
      flush is holding events it took from it, and `Append`, which stores what it is given,
      is given an event in the mode in force. Each can be checked where the step is taken. */
  ghost predicate Respectful(s: Log, step: Step) {
    && (step.StopDiscards? ==> s.inFlight == [])
    && (step.Append? && s.enabled ==> EventMatches(step.event, PrivacyStateArgs(s.status, s.key)))
  }

  ghost predicate RespectfulRun(s: Log, steps: seq<Step>)
    requires Run(s, steps)
    decreases |steps|
  {
    steps == [] || (Respectful(s, steps[0]) && RespectfulRun(Apply(s, steps[0]), steps[1..]))
  }

  lemma {:induction false} InsertAllMatches(db: Db, events: seq<Event>)
    requires RowsMatch(db) && AllMatch(events, StoredOf(db))
    ensures RowsMatch(InsertAll(db, events))
    ensures InsertAll(db, events) == db.(rows := InsertAll(db, events).rows, sequence := InsertAll(db, events).sequence)
  {
    if events != [] {
      var e := events[|events| - 1];
      var before := InsertAll(db, events[..|events| - 1]);
      InsertAllMatches(db, events[..|events| - 1]);
      assert e in events && RowMatches(RowFor(before.sequence, e), StoredOf(db));
    }
  }

  lemma {:induction false} NewerSubset(rows: seq<Row>, cutoff: int)
    ensures forall r :: r in Newer(rows, cutoff) ==> r in rows
  {
    if rows != [] {
      NewerSubset(rows[1..], cutoff);
    }
  }

  /** Changing the settings over existing rows is accepted only when the rows already are in
      the new mode. */
  lemma ConfigurePrivacyKeepsRows(db: Db, conf: Conf, fault: Fault)
    requires RowsMatch(db)
    ensures match ConfigurePrivacy(db, conf, fault)
            case None => true
            case Some(Settings(db', status, key)) =>
              && RowsMatch(db') && db' == db.(privacy := db'.privacy)
              && (!status.requiresClear ==> db'.privacy == Some(PrivacyStateArgs(status, key)))
              && (key.Some? <==> status.domains || status.clients)
  {
  }

  /** A clear is demanded exactly when some stored row is not in the mode now asked for; with no
      rows, exactly when aliases are stored and the client mode, or the key it uses, changes. */
  lemma ClearIsNeededIff(db: Db, conf: Conf)
    requires RowsMatch(db) && conf.key.Some?
    ensures var want := PrivacyStateArgs(Status(conf.domains, conf.clients, false), KeyFor(conf));
            if db.rows != [] then NeedsClear(db, conf) <==> exists r :: r in db.rows && !RowMatches(r, want)
            else NeedsClear(db, conf) <==>
                   |db.hosts| > 0 && (StoredOf(db).clientMode != want.clientMode
                                      || (conf.clients && StoredOf(db).fingerprint != want.fingerprint))
  {
    if db.rows != [] {
      var r := db.rows[0];
      assert r in db.rows && RowMatches(r, StoredOf(db));
    }
  }

  lemma NewEventMatches(status: Status, key: Option<Key>, now: int, m: Message)
    ensures var e := NewLogEvent(status, key, now, m);
            e.Some? ==> EventMatches(e.value, PrivacyStateArgs(status, key))
  {
  }

  /** A step keeps the invariant exactly when it is respectful. */
  lemma PrivateKeptIffRespectful(s: Log, step: Step)
    requires Private(s) && Enabled(s, step)
    ensures Private(Apply(s, step)) <==> Respectful(s, step)
  {
    match step
    case Append(e) => assert s.enabled ==> e in Apply(s, step).queue;
    case Restart(conf, _, fault) => ConfigurePrivacyKeepsRows(s.db, conf, fault);
    case SetPseudonymization(conf, fault) => ConfigurePrivacyKeepsRows(s.db, conf, fault);
    case LogMessage(now, m) => NewEventMatches(s.status, s.key, now, m);
    case FlushDone(ok) => InsertAllMatches(s.db, s.inFlight);
    case Stop => InsertAllMatches(s.db, s.queue);
    case Rotate(cutoff, _) => NewerSubset(s.db.rows, cutoff);
    case _ =>
  }

  lemma {:induction false} PrivateThroughout(s: Log, steps: seq<Step>)
    requires Private(s) && Run(s, steps) && RespectfulRun(s, steps)
    ensures Private(Final(s, steps))
    decreases |steps|
  {
    if steps != [] {
      PrivateKeptIffRespectful(s, steps[0]);
      PrivateThroughout(Apply(s, steps[0]), steps[1..]);
    }
  }

  /** From any tables whose rows are in the recorded mode, after a restart and any mix of steps:
      each row is in exactly the recorded modes and key, a running log never needs a clear, and
      a stopped log holds no events. */
  lemma StoredRowsAreInTheRecordedMode(s: Log, conf: Conf, wantEnabled: bool, steps: seq<Step>)
    requires RowsMatch(s.db) && ConfigurePrivacy(s.db, conf, NoFault).Some?
    requires var s0 := RestartWith(s, conf, wantEnabled, NoFault); Run(s0, steps) && RespectfulRun(s0, steps)
    ensures var f := Final(RestartWith(s, conf, wantEnabled, NoFault), steps);
            && (forall r :: r in f.db.rows ==> RowMatches(r, StoredOf(f.db)))
            && (f.enabled ==> !f.status.requiresClear)
            && (!f.enabled && !f.stopping ==> f.queue == [] && f.inFlight == [])
  {
    ConfigurePrivacyKeepsRows(s.db, conf, NoFault);
    PrivateThroughout(RestartWith(s, conf, wantEnabled, NoFault), steps);
  }

  // ---- exactly the steps that put stored rows at risk ---------------------------------------

  /** Some respectful continuation ends with a stored row that is not in the recorded mode. */
  ghost predicate CanMisfile(s: Log) {
    exists steps :: Run(s, steps) && RespectfulRun(s, steps) && !RowsMatch(Final(s, steps).db)
  }

  lemma MisfilesAfter(s: Log, step: Step)
    requires Enabled(s, step) && Respectful(s, step) && CanMisfile(Apply(s, step))
    ensures CanMisfile(s)
  {
    hide Apply, Enabled, Respectful, RowsMatch;
    var rest :| Run(Apply(s, step), rest) && RespectfulRun(Apply(s, step), rest) && !RowsMatch(Final(Apply(s, step), rest).db);
    var steps := [step] + rest;
    assert steps[1..] == rest;
    assert Run(s, steps) && RespectfulRun(s, steps) && Final(s, steps) == Final(Apply(s, step), rest);
  }

  lemma MisfiledNow(s: Log)
    requires !RowsMatch(s.db)
    ensures CanMisfile(s)
  {
    assert Run(s, []) && RespectfulRun(s, []) && Final(s, []) == s;
  }

  lemma {:induction false} InsertAllKeepsPrivacy(db: Db, events: seq<Event>)
    ensures InsertAll(db, events).privacy == db.privacy
  {
    if events != [] {
      InsertAllKeepsPrivacy(db, events[..|events| - 1]);
    }
  }

  /** Inserting ends with a row for the last event. */
  lemma LastInserted(db: Db, events: seq<Event>)
    requires events != [] && !EventMatches(events[|events| - 1], StoredOf(db))
    ensures !RowsMatch(InsertAll(db, events))
  {
    InsertAllKeepsPrivacy(db, events);
    var e := events[|events| - 1];
    var before := InsertAll(db, events[..|events| - 1]);
    assert RowFor(before.sequence, e) in InsertAll(db, events).rows;
  }

  /** A queue that ends with a foreign event needs only to be flushed. */
  lemma QueueMisfiles(s: Log)
    requires s.inFlight == [] && s.queue != [] && !EventMatches(s.queue[|s.queue| - 1], StoredOf(s.db))
    ensures CanMisfile(s)
  {
    LastInserted(s.db, s.queue);
    hide RowsMatch, CanMisfile, EventMatches, InsertAll;
    var taken := Apply(s, FlushTake);
    MisfiledNow(Apply(taken, FlushDone(true)));
    MisfilesAfter(taken, FlushDone(true));
    MisfilesAfter(s, FlushTake);
  }

  lemma ForeignAppendMisfiles(s: Log)
    requires s.queue != [] && !EventMatches(s.queue[|s.queue| - 1], StoredOf(s.db))
    ensures CanMisfile(s)
  {
    hide EventMatches, CanMisfile;
    if s.inFlight == [] {
      QueueMisfiles(s);
    } else {
      QueueMisfiles(Apply(s, FlushDone(false)));
      MisfilesAfter(s, FlushDone(false));
    }
  }

  lemma {:induction false} CutoffPast(rows: seq<Row>) returns (cutoff: int)
    ensures Newer(rows, cutoff) == [] && forall r :: r in rows ==> r.dt < cutoff
  {
    if rows == [] {
      cutoff := 0;
    } else {
      var rest := CutoffPast(rows[1..]);
      cutoff := if rows[0].dt < rest then rest else rows[0].dt + 1;
      NothingNewer(rows[1..], cutoff);
    }
  }

  lemma {:induction false} NothingNewer(rows: seq<Row>, cutoff: int)
    requires forall r :: r in rows ==> r.dt < cutoff
    ensures Newer(rows, cutoff) == []
  {
    if rows != [] {
      NothingNewer(rows[1..], cutoff);
    }
  }

  /** The same settings with the other domain mode. */
  function Flipped(s: Log): Conf {
    Conf(!s.status.domains, s.status.clients, if s.key.Some? then s.key else Some("k"))
  }

  /** A stopped log with no rows that still holds events of its mode. */
  ghost predicate Lingering(s: Log) {
    && !s.enabled && !s.stopping && !s.status.requiresClear && s.db.rows == []
    && s.db.privacy == Some(PrivacyStateArgs(s.status, s.key)) && WellConfigured(s)
    && s.queue != [] && AllMatch(s.queue, StoredOf(s.db)) && s.inFlight == []
  }

  lemma FlipIsAccepted(s: Log)
    requires Lingering(s)
    ensures var s' := Apply(s, SetPseudonymization(Flipped(s), NoFault));
            && s'.queue == s.queue && s'.inFlight == []
            && StoredOf(s'.db).domainMode == PrivacyMode(!s.status.domains)
  {
    hide AllMatch;
    assert !NeedsClear(s.db, Flipped(s));
  }

  lemma OtherModeIsForeign(e: Event, p: Stored, q: Stored)
    requires EventMatches(e, p) && p.domainMode != q.domainMode
    ensures !EventMatches(e, q)
  {
  }

  lemma LingeringMisfiles(s: Log)
    requires Lingering(s)
    ensures CanMisfile(s)
  {
    var step := SetPseudonymization(Flipped(s), NoFault);
    FlipIsAccepted(s);
    var last := s.queue[|s.queue| - 1];
    assert last in s.queue;
    OtherModeIsForeign(last, StoredOf(s.db), StoredOf(Apply(s, step).db));
    hide CanMisfile, EventMatches, Apply;
    QueueMisfiles(Apply(s, step));
    MisfilesAfter(s, step);
  }

  /** After an overtaken discard: the flush fails and puts its events back, the rows are rotated
      away, the mode is changed, and the events are flushed. */
  lemma OvertakenMisfiles(s: Log)
    requires Private(s) && s.stopping && s.inFlight != []
    ensures CanMisfile(Apply(s, StopDiscards))
  {
    var s0 := Apply(s, StopDiscards);
    var s1 := Apply(s0, FlushDone(false));
    assert s1.queue == s.inFlight + [] == s.inFlight;
    var cutoff := CutoffPast(s.db.rows);
    hide CanMisfile, Newer;
    if s1.pending.Some? {
      var s2 := Apply(s1, DashboardWrite(false));
      var s3 := Apply(s2, Rotate(cutoff, RotateOk));
      LingeringMisfiles(s3);
      MisfilesAfter(s2, Rotate(cutoff, RotateOk));
      MisfilesAfter(s1, DashboardWrite(false));
    } else {
      LingeringMisfiles(Apply(s1, Rotate(cutoff, RotateOk)));
      MisfilesAfter(s1, Rotate(cutoff, RotateOk));
    }
    MisfilesAfter(s0, FlushDone(false));
  }

  /** A step puts stored rows at risk, in some continuation in which nothing else goes wrong,
      exactly when it is the discard of a failed stop overtaken by a flush, or appends an event
      in another mode. */
  lemma RowsAtRiskIff(s: Log, step: Step)
    requires Private(s) && Enabled(s, step)
    ensures CanMisfile(Apply(s, step)) <==> !Respectful(s, step)
  {
    PrivateKeptIffRespectful(s, step);
    if Respectful(s, step) {
      var s' := Apply(s, step);
      hide Apply, Enabled, Respectful;
      forall steps | Run(s', steps) && RespectfulRun(s', steps) ensures RowsMatch(Final(s', steps).db) {
        PrivateThroughout(s', steps);
      }
    } else if step.StopDiscards? {
      OvertakenMisfiles(s);
    } else {
      hide CanMisfile, EventMatches;
      ForeignAppendMisfiles(Apply(s, step));
    }
  }

  // ---- one such run, from an empty log ------------------------------------------------------

  const Fresh: Log := Log(Db([], 0, map[], map[], Some(Stored(PlainMode, PlainMode, NoKey))), true, [], [], false,
                          Status(false, false, false), None, None)

  const Query: Message := Message(Some("n"), false, None, Some("c"), 0)

  const Hashed: Conf := Conf(true, true, Some("k"))

  /** A flush that slips in between a failed stop's flush and its discard survives the stop and
      can store plain rows after the mode has changed. */
  const Overtaken: seq<Step> :=
    [LogMessage(1, Query), StopFails, FlushTake, StopDiscards, SetPseudonymization(Hashed, NoFault), FlushDone(true)]

  const Plainly: Event := Event(1, Plain("c"), Plain("n"), 0)

  const Queued: Log := Fresh.(queue := [Plainly])
  const Slipped: Log := Queued.(enabled := false, inFlight := [Plainly], queue := [])
  const Switched: Log := Slipped.(db := Fresh.db.(privacy := Some(Stored(HmacMode, HmacMode, Sha256("k")))),
                                  status := Status(true, true, false), key := Some("k"))

  lemma LoggedOnce()
    ensures LogOne(Fresh, 1, Query) == Queued
  {
    assert NewLogEvent(Fresh.status, Fresh.key, 1, Query) == Some(Plainly);
    assert [] + [Plainly] == [Plainly];
  }

  lemma SwitchedModes()
    ensures Reconfigure(Slipped, Hashed, NoFault) == Switched
  {
    assert !NeedsClear(Slipped.db, Hashed);
  }

  lemma StoredAfterTheSwitch()
    ensures InsertAll(Switched.db, Switched.inFlight) == Insert(Switched.db, Plainly)
    ensures !RowsMatch(Insert(Switched.db, Plainly))
  {
    InsertOne(Switched.db, Plainly);
    var db := Insert(Switched.db, Plainly);
    assert db.rows == [] + [RowFor(0, Plainly)];
    assert RowFor(0, Plainly) in db.rows;
  }

  lemma OvertakenStopBreaksPrivacy()
    ensures Private(Fresh) && Run(Fresh, Overtaken) && !RowsMatch(Final(Fresh, Overtaken).db)
  {
    LoggedOnce();
    SwitchedModes();
    StoredAfterTheSwitch();
    hide InsertAll, Reconfigure, LogOne, RowsMatch;
    var stopping := Queued.(enabled := false, stopping := true);
    var taken := stopping.(inFlight := [Plainly], queue := []);
    var end := Switched.(db := Insert(Switched.db, Plainly), inFlight := []);
    Unfold6(Fresh, Queued, stopping, taken, Slipped, Switched, end, Overtaken);
    assert Private(Fresh) by { assert RowsMatch(Fresh.db) by { NothingStored(Fresh.db); } }
  }

  lemma NothingStored(db: Db)
    requires db.rows == []
    ensures RowsMatch(db)
  {
  }

  lemma InsertOne(db: Db, e: Event)
    ensures InsertAll(db, [e]) == Insert(db, e)
  {
    assert [e][..0] == [];
    assert InsertAll(db, []) == db;
  }

  lemma Unfold6(s0: Log, s1: Log, s2: Log, s3: Log, s4: Log, s5: Log, s6: Log, r: seq<Step>)
    requires |r| == 6
    requires Enabled(s0, r[0]) && s1 == Apply(s0, r[0])
    requires Enabled(s1, r[1]) && s2 == Apply(s1, r[1])
    requires Enabled(s2, r[2]) && s3 == Apply(s2, r[2])
    requires Enabled(s3, r[3]) && s4 == Apply(s3, r[3])
    requires Enabled(s4, r[4]) && s5 == Apply(s4, r[4])
    requires Enabled(s5, r[5]) && s6 == Apply(s5, r[5])
    ensures Run(s0, r) && Final(s0, r) == s6
  {
    hide Enabled, Apply;
    var r1, r2, r3, r4, r5 := r[1..], r[2..], r[3..], r[4..], r[5..];
    assert r1[1..] == r2 && r2[1..] == r3 && r3[1..] == r4 && r4[1..] == r5 && r5[1..] == [];
    assert Run(s5, r5) && Final(s5, r5) == s6;
    assert Run(s4, r4) && Final(s4, r4) == s6;
    assert Run(s3, r3) && Final(s3, r3) == s6;
    assert Run(s2, r2) && Final(s2, r2) == s6;
    assert Run(s1, r1) && Final(s1, r1) == s6;
  }
}

module DnsLogQueue {
  import opened DnsLogTables
  import opened Dashboard
  import opened DnsLogModel

  // ---- conservation -----------------------------------------------------------------------

  /** The events a step takes into the queue. */
  function Accepted(s: Log, step: Step): seq<Event>
    requires Enabled(s, step)
  {
    match step
    case LogMessage(_, _) => Apply(s, step).queue[|s.queue|..]
    case Append(e) => if s.enabled then [e] else []
    case _ => []
  }

  /** The events a step makes durable. */
  function Persisted(s: Log, step: Step): seq<Event>
    requires Enabled(s, step)
  {
    match step
    case FlushDone(ok) => if ok then s.inFlight else []
    case Stop => s.queue
    case _ => []
  }

  ghost function AcceptedBy(s: Log, steps: seq<Step>): seq<Event>
    requires Run(s, steps)
    decreases |steps|
  {
    if steps == [] then [] else Accepted(s, steps[0]) + AcceptedBy(Apply(s, steps[0]), steps[1..])
  }

  ghost function PersistedBy(s: Log, steps: seq<Step>): seq<Event>
    requires Run(s, steps)
    decreases |steps|
  {
    if steps == [] then [] else Persisted(s, steps[0]) + PersistedBy(Apply(s, steps[0]), steps[1..])
  }

  /** The steps that give up events on purpose. */
  predicate Drops(s: Log, step: Step) {
    step.Restart? || step.StopDiscards? || (step.Clear? && !s.enabled && s.queue != [])
  }

  ghost predicate KeepsEvents(s: Log, steps: seq<Step>)
    requires Run(s, steps)
    decreases |steps|
  {
    steps == [] || (!Drops(s, steps[0]) && KeepsEvents(Apply(s, steps[0]), steps[1..]))
  }

  function Held(s: Log): seq<Event> {
    s.inFlight + s.queue
  }

  lemma StepConserves(s: Log, step: Step)
    requires Enabled(s, step) && !Drops(s, step)
    ensures Held(s) + Accepted(s, step) == Persisted(s, step) + Held(Apply(s, step))
  {
    hide InsertAll, NewLogEvent, ConfigurePrivacy, Newer, TransformClient, PendingAfterQuery, WriteCache;
  }

  lemma Chain(h: seq<Event>, a: seq<Event>, p: seq<Event>, h': seq<Event>, a': seq<Event>, p': seq<Event>, f: seq<Event>)
    requires h + a == p + h' && h' + a' == p' + f
    ensures h + (a + a') == (p + p') + f
  {
    calc {
      h + (a + a');
      (h + a) + a';
      p + (h' + a');
      (p + p') + f;
    }
  }

  /** Accepted events, in order, are exactly what has been persisted, then what is in flight,
      then what is queued; also when events arrive while a flush is failing. */
  lemma {:induction false} EventsAreConserved(s: Log, steps: seq<Step>)
    requires Run(s, steps) && KeepsEvents(s, steps)
    ensures Held(s) + AcceptedBy(s, steps) == PersistedBy(s, steps) + Held(Final(s, steps))
    decreases |steps|
  {
    if steps != [] {
      StepConserves(s, steps[0]);
      hide Apply, Enabled, Accepted, Persisted, Drops, Held;
      var s1 := Apply(s, steps[0]);
      EventsAreConserved(s1, steps[1..]);
      Chain(Held(s), Accepted(s, steps[0]), Persisted(s, steps[0]), Held(s1), AcceptedBy(s1, steps[1..]),
            PersistedBy(s1, steps[1..]), Held(Final(s, steps)));
    }
  }

  function Appends(events: seq<Event>): seq<Step> {
    seq(|events|, i requires 0 <= i < |events| => Append(events[i]))
  }

  lemma {:induction false} AppendsQueue(s: Log, events: seq<Event>)
    requires s.enabled && !s.stopping
    ensures Run(s, Appends(events)) && Final(s, Appends(events)) == s.(queue := s.queue + events)
    decreases |events|
  {
    if events == [] {
      assert s.queue + [] == s.queue;
    } else {
      assert Appends(events)[1..] == Appends(events[1..]);
      assert s.queue + [events[0]] + events[1..] == s.queue + events;
      AppendsQueue(Apply(s, Append(events[0])), events[1..]);
    }
  }

  /** A background flush with events arriving between its halves: if it fails, everything is as if
      it had not been tried; if it succeeds, as if it had come before all of them. */
  lemma FlushAroundArrivals(s: Log, events: seq<Event>)
    requires s.enabled && !s.stopping && s.inFlight == [] && s.queue != []
    ensures var taken := Apply(s, FlushTake);
            && Run(s, Appends(events)) && Run(taken, Appends(events))
            && Final(taken, Appends(events)).inFlight == s.queue
            && Apply(Final(taken, Appends(events)), FlushDone(false)) == Final(s, Appends(events))
            && var flushed := s.(db := InsertAll(s.db, s.queue), queue := []);
               Run(flushed, Appends(events))
               && Apply(Final(taken, Appends(events)), FlushDone(true)) == Final(flushed, Appends(events))
  {
    AppendsQueue(s, events);
    AppendsQueue(Apply(s, FlushTake), events);
    AppendsQueue(s.(db := InsertAll(s.db, s.queue), queue := []), events);
    hide InsertAll, Run, Final;
    assert [] + events == events;
  }

  // ---- row keys ---------------------------------------------------------------------------

  /** Row keys are positive and strictly increasing, and the counter is past all of them. */
  ghost predicate Ordered(rows: seq<Row>, sequence: nat) {
    && (forall i :: 0 <= i < |rows| ==> 0 < rows[i].dt <= sequence)
    && (forall i, j :: 0 <= i < j < |rows| ==> rows[i].dt < rows[j].dt)
  }

  function Content(r: Row): (Text, Text, int) {
    (r.client, r.domain, r.blocked)
  }

  function EventContent(e: Event): (Text, Text, int) {
    (e.client, e.domain, e.blocked)
  }

  ghost predicate Holds(rows: seq<Row>, events: seq<Event>) {
    |rows| == |events| && forall i :: 0 <= i < |rows| ==> Content(rows[i]) == EventContent(events[i])
  }

  /** `db'` is `db` with rows for these events appended. */
  ghost predicate Appended(db: Db, events: seq<Event>, db': Db) {
    && Ordered(db'.rows, db'.sequence)
    && |db'.rows| == |db.rows| + |events| && db'.rows[..|db.rows|] == db.rows
    && Holds(db'.rows[|db.rows|..], events)
    && (forall i :: 0 <= i < |events| ==> events[i].timestamp <= db'.rows[|db.rows| + i].dt)
    && db' == db.(rows := db'.rows, sequence := db'.sequence)
  }

  lemma InsertAppends(db: Db, events: seq<Event>, db': Db, e: Event)
    requires Appended(db, events, db')
    ensures Appended(db, events + [e], Insert(db', e))
  {
    var rows := Insert(db', e).rows;
    assert rows[..|db.rows|] == db'.rows[..|db.rows|];
    assert rows[|db.rows|..] == db'.rows[|db.rows|..] + [RowFor(db'.sequence, e)];
  }

  lemma {:induction false} InsertAllAppends(db: Db, events: seq<Event>)
    requires Ordered(db.rows, db.sequence)
    ensures Appended(db, events, InsertAll(db, events))
  {
    if events == [] {
      assert db.rows[..|db.rows|] == db.rows && db.rows[|db.rows|..] == [];
    } else {
      var init, e := events[..|events| - 1], events[|events| - 1];
      InsertAllAppends(db, init);
      hide Appended;
      InsertAppends(db, init, InsertAll(db, init), e);
      assert init + [e] == events;
    }
  }

  lemma {:induction false} AllNewer(rows: seq<Row>, cutoff: int)
    requires forall i :: 0 <= i < |rows| ==> cutoff <= rows[i].dt
    ensures Newer(rows, cutoff) == rows
  {
    if rows != [] {
      AllNewer(rows[1..], cutoff);
    }
  }

  /** The rows a rotation keeps: because keys grow, deleting by age removes a prefix. */
  lemma {:induction false} NewerIsSuffix(rows: seq<Row>, sequence: nat, cutoff: int) returns (k: nat)
    requires Ordered(rows, sequence)
    ensures k <= |rows| && Newer(rows, cutoff) == rows[k..]
    ensures forall i :: 0 <= i < |rows| ==> (i < k <==> rows[i].dt < cutoff)
  {
    if rows == [] || cutoff <= rows[0].dt {
      k := 0;
      AllNewer(rows, cutoff);
    } else {
      var rest := rows[1..];
      var d := NewerIsSuffix(rest, sequence, cutoff);
      k := d + 1;
      assert rows[k..] == rest[d..];
      assert [] + Newer(rest, cutoff) == Newer(rest, cutoff);
      forall i | 0 <= i < |rows| ensures i < k <==> rows[i].dt < cutoff {
        if i > 0 {
          assert rows[i] == rest[i - 1];
        }
      }
    }
  }

  ghost predicate Suffix(rows: seq<Row>, k: nat, all: seq<Event>) {
    k <= |all| && Holds(rows, all[k..])
  }

  lemma HoldsConcat(r: seq<Row>, e: seq<Event>, r': seq<Row>, e': seq<Event>)
    requires Holds(r, e) && Holds(r', e')
    ensures Holds(r + r', e + e')
  {
  }

  lemma SuffixExtends(rows: seq<Row>, more: seq<Row>, k: nat, all: seq<Event>, events: seq<Event>)
    requires Suffix(rows, k, all) && Holds(more, events)
    ensures Suffix(rows + more, k, all + events)
  {
    HoldsConcat(rows, all[k..], more, events);
    hide Holds;
    assert (all + events)[k..] == all[k..] + events;
  }

  lemma AppendedSplits(db: Db, events: seq<Event>, db': Db)
    requires Appended(db, events, db')
    ensures Ordered(db'.rows, db'.sequence) && |db.rows| <= |db'.rows| && Holds(db'.rows[|db.rows|..], events)
    ensures db'.rows == db.rows + db'.rows[|db.rows|..]
  {
    hide Ordered, Holds;
  }

  lemma InsertExtends(db: Db, events: seq<Event>, k: nat, all: seq<Event>)
    requires Ordered(db.rows, db.sequence) && Suffix(db.rows, k, all)
    ensures var db' := InsertAll(db, events);
            Ordered(db'.rows, db'.sequence) && Suffix(db'.rows, k, all + events)
  {
    hide InsertAll, Ordered, Holds, Appended, Suffix;
    InsertAllAppends(db, events);
    var db' := InsertAll(db, events);
    AppendedSplits(db, events, db');
    SuffixExtends(db.rows, db'.rows[|db.rows|..], k, all, events);
  }

  lemma RotateShortens(rows: seq<Row>, sequence: nat, cutoff: int, k: nat, all: seq<Event>) returns (k': nat)
    requires Ordered(rows, sequence) && Suffix(rows, k, all)
    ensures Ordered(Newer(rows, cutoff), sequence) && Suffix(Newer(rows, cutoff), k', all)
  {
    var d := NewerIsSuffix(rows, sequence, cutoff);
    k' := k + d;
    assert all[k..][d..] == all[k + d..];
  }

  predicate ChangesRows(step: Step) {
    step.FlushDone? || step.Stop? || step.Clear? || step.Rotate?
  }

  lemma RowsUntouched(s: Log, step: Step)
    requires Enabled(s, step) && !ChangesRows(step)
    ensures Apply(s, step).db.rows == s.db.rows && Apply(s, step).db.sequence == s.db.sequence && Persisted(s, step) == []
  {
    hide NewLogEvent, TransformClient, PendingAfterQuery, WriteCache, NeedsClear, PrivacyStateArgs, KeyFor;
  }

  /** One step extends the list of events that were ever stored, and drops some from its front. */
  lemma StepKeepsOrder(s: Log, step: Step, k: nat, all: seq<Event>) returns (k': nat)
    requires Enabled(s, step) && Ordered(s.db.rows, s.db.sequence) && Suffix(s.db.rows, k, all)
    ensures Ordered(Apply(s, step).db.rows, Apply(s, step).db.sequence)
    ensures Suffix(Apply(s, step).db.rows, k', all + Persisted(s, step))
  {
    k' := k;
    assert all + [] == all;
    if !ChangesRows(step) {
      RowsUntouched(s, step);
      hide Apply, Persisted, Ordered, Suffix;
    } else {
      match step
      case FlushDone(ok) =>
        InsertExtends(s.db, s.inFlight, k, all);
        hide InsertAll, Ordered, Suffix;
      case Stop =>
        InsertExtends(s.db, s.queue, k, all);
        hide InsertAll, Ordered, Suffix;
      case Clear(ok) =>
        if !s.enabled && ok {
          k' := |all|;
        }
      case Rotate(cutoff, outcome) =>
        if !outcome.DeleteFails? {
          k' := RotateShortens(s.db.rows, s.db.sequence, cutoff, k, all);
        }
        hide Newer, Ordered, Suffix;
    }
  }

  /** Over every run, whatever the clock says and whatever fails: keys stay strictly increasing,
      and the rows are the persisted events in the order they were persisted, without a prefix. */
  lemma {:induction false} RowsAreASuffixOfThePersisted(s: Log, steps: seq<Step>, k: nat, all: seq<Event>) returns (k': nat)
    requires Run(s, steps) && Ordered(s.db.rows, s.db.sequence) && Suffix(s.db.rows, k, all)
    ensures var f := Final(s, steps);
            Ordered(f.db.rows, f.db.sequence) && Suffix(f.db.rows, k', all + PersistedBy(s, steps))
    decreases |steps|
  {
    if steps == [] {
      k' := k;
      assert all + [] == all;
    } else {
      hide Apply, Enabled, Persisted, Ordered, Suffix;
      var s1 := Apply(s, steps[0]);
      var p := Persisted(s, steps[0]);
      k' := StepKeepsOrder(s, steps[0], k, all);
      k' := RowsAreASuffixOfThePersisted(s1, steps[1..], k', all + p);
      assert (all + p) + PersistedBy(s1, steps[1..]) == all + PersistedBy(s, steps);
    }
  }
}
