/** What is logged for a message, how it is counted, and what the lifecycle calls leave behind. */
module DnsLogEvents {
  import opened Wrappers
  import opened DnsLogTables
  import opened Dashboard
  import opened DnsLogModel
  import opened DnsLogPrivacy
  import opened DnsLogQueue

  // ---- the logged event ---------------------------------------------------------------------

  /** The name behind a stored text: itself, or what the token hides. */
  function Behind(t: Text): string {
    match t
    case Plain(text) => text
    case Token(_, _, hidden) => hidden
  }

  /** The name a message is logged under. */
  function LoggedName(m: Message): string
    requires m.question.Some?
  {
    if m.success && m.firstAnswer.Some? then m.firstAnswer.value else m.question.value
  }

  /** The event says what the message says. */
  ghost predicate Records(e: Event, now: int, m: Message)
    requires m.question.Some? && m.peer.Some?
  {
    && e.timestamp == now && e.blocked == m.blocked
    && Behind(e.client) == m.peer.value && Behind(e.domain) == LoggedName(m)
  }

  /** A log that is enabled and needs no clear takes exactly one event for a message with a question
      and an address; in every other case nothing changes. */
  lemma OneEventPerMessage(s: Log, now: int, m: Message)
    requires Enabled(s, LogMessage(now, m)) && WellConfigured(s)
    ensures var s' := Apply(s, LogMessage(now, m));
            if s.enabled && !s.status.requiresClear && m.question.Some? && m.peer.Some?
            then |s'.queue| == |s.queue| + 1 && s' == s.(queue := s.queue + [s'.queue[|s.queue|]])
                 && Records(s'.queue[|s.queue|], now, m)
                 && EventMatches(s'.queue[|s.queue|], PrivacyStateArgs(s.status, s.key))
            else s' == s
  {
    NewEventMatches(s.status, s.key, now, m);
  }

  /** The row of the last event inserted: later than all rows before it, at the time of the event
      unless that time has been used up, and counted in its hour and in no other. */
  lemma LastRow(db: Db, events: seq<Event>, e: Event)
    requires Ordered(db.rows, db.sequence)
    ensures var before := InsertAll(db, events); var after := InsertAll(db, events + [e]);
            && |after.rows| == |before.rows| + 1 && after.rows[..|before.rows|] == before.rows
            && var r := after.rows[|before.rows|];
               && r.client == e.client && r.domain == e.domain && r.blocked == e.blocked
               && r.dt == (if before.sequence < e.timestamp then e.timestamp else before.sequence + 1)
               && forall hour ::
                    && Total(after.rows, hour) == Total(before.rows, hour) + (if HourOf(r.dt) == hour then 1 else 0)
                    && Blocked(after.rows, hour)
                       == Blocked(before.rows, hour) + (if HourOf(r.dt) == hour && e.blocked == 1 then 1 else 0)
  {
    var before := InsertAll(db, events);
    assert (events + [e])[..|events|] == events;
    var r := RowFor(before.sequence, e);
    assert InsertAll(db, events + [e]) == Insert(before, e);
    hide InsertAll;
    forall hour
      ensures Total(before.rows + [r], hour) == Total(before.rows, hour) + (if HourOf(r.dt) == hour then 1 else 0)
      ensures Blocked(before.rows + [r], hour)
           == Blocked(before.rows, hour) + (if HourOf(r.dt) == hour && e.blocked == 1 then 1 else 0)
    {
      TotalAppend(before.rows, [r], hour);
      assert [r][1..] == [];
    }
  }

  /** A message logged and then flushed together with everything queued before it: one more row than
      without it, with what the message says, counted once in its hour, and as blocked exactly if
      the message was. */
  lemma LoggedMessageIsCounted(s: Log, now: int, m: Message)
    requires Enabled(s, LogMessage(now, m)) && WellConfigured(s) && Ordered(s.db.rows, s.db.sequence)
    requires s.enabled && !s.status.requiresClear && m.question.Some? && m.peer.Some? && s.inFlight == []
    ensures var logged := Apply(s, LogMessage(now, m));
            var flushed := Apply(Apply(logged, FlushTake), FlushDone(true));
            var without := InsertAll(s.db, s.queue).rows;
            && flushed.queue == [] && flushed.inFlight == []
            && |flushed.db.rows| == |without| + 1 && flushed.db.rows[..|without|] == without
            && var r := flushed.db.rows[|without|];
               && now <= r.dt && r.blocked == m.blocked
               && Behind(r.client) == m.peer.value && Behind(r.domain) == LoggedName(m)
               && Total(flushed.db.rows, HourOf(r.dt)) == Total(without, HourOf(r.dt)) + 1
               && Blocked(flushed.db.rows, HourOf(r.dt))
                  == Blocked(without, HourOf(r.dt)) + (if m.blocked == 1 then 1 else 0)
  {
    OneEventPerMessage(s, now, m);
    var e := Apply(s, LogMessage(now, m)).queue[|s.queue|];
    LastRow(s.db, s.queue, e);
    hide InsertAll, Total, Blocked, HourOf, Ordered, NewLogEvent;
  }

  /** An alias is stored under the very text that events from the same address carry. */
  lemma AliasMeetsItsEvents(s: Log, alias: string, address: string, now: int, m: Message)
    requires Enabled(s, AddAlias(alias, Address(address), true)) && Enabled(s, LogMessage(now, m)) && WellConfigured(s)
    requires s.enabled && !s.status.requiresClear && m.question.Some? && m.peer == Some(address)
    ensures var e := Apply(s, LogMessage(now, m)).queue[|s.queue|];
            var s' := Apply(s, AddAlias(alias, Address(address), true));
            s' == s.(db := s.db.(hosts := s.db.hosts[e.client := alias]))
  {
    OneEventPerMessage(s, now, m);
  }

  /** Which clients an alias can be added for: an address, as events carry it, and under
      pseudonymisation also a token made earlier, which is stored as it is. */
  lemma AliasClients(s: Log, alias: string, c: ClientText)
    requires Enabled(s, AddAlias(alias, c, true)) && WellConfigured(s)
    ensures var s' := Apply(s, AddAlias(alias, c, true));
            match c
            case Address(ip) => exists t :: Behind(t) == ip && s' == s.(db := s.db.(hosts := s.db.hosts[t := alias]))
            case EarlierToken(t) => s' == if s.status.clients then s.(db := s.db.(hosts := s.db.hosts[t := alias])) else s
            case NotAClient => s' == s
    ensures Apply(s, AddAlias(alias, c, false)) == s
  {
    match c
    case Address(ip) =>
      var t := if s.status.clients then Token(s.key.value, ClientContext, ip) else Plain(ip);
      assert Behind(t) == ip;
    case _ =>
  }

  /** Loading the history leads to a write exactly if logging is on and some hour of the window is not
      cached; it then writes the whole window. A refresh always writes. */
  lemma LoadWritesIff(s: Log, now: nat, refresh: bool)
    requires Enabled(s, DashboardQuery(now, refresh)) && s.pending.None?
    ensures var p := Apply(s, DashboardQuery(now, refresh)).pending;
            var current := HourBucket(now);
            && (p.Some? <==> refresh || (s.enabled && !Covers(s.db.cache, current - 23, current)))
            && (p.Some? ==> p.value.start == current - 23 && p.value.end == current)
            && (p.Some? && !Covers(s.db.cache, current - 23, current) ==> EachHour(p.value.points, s.db.rows, current - 23, 23))
  {
    var current := HourBucket(now);
    CompleteIffCovered(s.db.cache, current - 23, current);
    BucketsAreEachHour(s.db.rows, current - 23, current);
    hide Complete, ReadCache, Buckets, HourBucket, EachHour;
  }

  // ---- the lifecycle ------------------------------------------------------------------------

  /** Starting turns logging on exactly if no clear is required; a start changes nothing else. */
  lemma StartTurnsOn(s: Log)
    requires Enabled(s, Start)
    ensures Apply(s, Start) == s.(enabled := s.enabled || !s.status.requiresClear)
  {
  }

  /** A restart that can be configured logs exactly if asked to and no clear is required, works with
      the settings asked for, and starts with nothing queued. */
  lemma RestartWorksAsConfigured(s: Log, conf: Conf, wantEnabled: bool)
    requires conf.key.Some?
    ensures var s' := Apply(s, Restart(conf, wantEnabled, NoFault));
            && (s'.enabled <==> wantEnabled && !s'.status.requiresClear)
            && s'.status.domains == conf.domains && s'.status.clients == conf.clients
            && s'.key == (if conf.domains || conf.clients then conf.key else None)
            && s'.queue == [] && s'.inFlight == []
            && s'.db == s.db.(privacy := s'.db.privacy)
            && (s'.status.requiresClear ==> s'.db == s.db)
  {
  }

  /** Exactly when settings cannot be put in force: a key is needed and missing, the database cannot
      be read, or it cannot record settings that fit what is stored. */
  lemma ConfigurationFailsIff(s: Log, conf: Conf, wantEnabled: bool, fault: Fault)
    requires RowsMatch(s.db) && s.db.hosts == map[]
    ensures var want := PrivacyStateArgs(Status(conf.domains, conf.clients, false), KeyFor(conf));
            ConfigurePrivacy(s.db, conf, fault).None? <==>
              || ((conf.domains || conf.clients) && conf.key.None?)
              || fault.ReadFails?
              || (fault.WriteFails? && forall r :: r in s.db.rows ==> RowMatches(r, want))
    ensures ConfigurePrivacy(s.db, conf, fault).None? ==> Apply(s, Restart(conf, wantEnabled, fault)) == s
  {
    if s.db.rows != [] {
      var r := s.db.rows[0];
      assert r in s.db.rows && RowMatches(r, StoredOf(s.db));
    }
  }

  /** A stop, successful or not, leaves logging off and nothing queued; a successful one has stored
      everything that was queued. */
  lemma StopTurnsOff(s: Log)
    requires Enabled(s, Stop) && s.queue != []
    ensures var s' := Apply(s, Stop);
            !s'.enabled && s'.queue == [] && s'.db == InsertAll(s.db, s.queue)
    ensures var failed := Apply(Apply(s, StopFails), StopDiscards);
            !failed.enabled && failed.queue == [] && failed.db == s.db && !failed.stopping
  {
  }

  /** A successful clear of a stopped log leaves no rows, aliases or cached hours, starts the row
      keys anew, records the settings in force, and lifts the demand for a clear: logging can be
      started. */
  lemma ClearMakesRoom(s: Log)
    requires Enabled(s, Clear(true)) && !s.enabled && WellConfigured(s)
    ensures var s' := Apply(s, Clear(true));
            && s'.db.rows == [] && s'.db.hosts == map[] && s'.db.cache == map[] && s'.db.sequence == 0
            && s'.db.privacy == Some(PrivacyStateArgs(s.status, s.key))
            && s'.queue == [] && !s'.status.requiresClear
            && s'.status.domains == s.status.domains && s'.status.clients == s.status.clients && s'.key == s.key
            && Apply(s', Start).enabled
  {
  }

  /** A rotation removes exactly the rows older than its cutoff and empties the cache of hours; it
      touches nothing else, and nothing at all when the deletion fails. */
  lemma RotationOutcomes(s: Log, cutoff: int, outcome: RotateFault) returns (k: nat)
    requires Enabled(s, Rotate(cutoff, outcome)) && Ordered(s.db.rows, s.db.sequence)
    ensures var s' := Apply(s, Rotate(cutoff, outcome));
            match outcome
            case DeleteFails => s' == s
            case CacheClearFails => k <= |s.db.rows| && s' == s.(db := s.db.(rows := s.db.rows[k..]))
            case RotateOk => k <= |s.db.rows| && s' == s.(db := s.db.(rows := s.db.rows[k..], cache := map[]))
    ensures k <= |s.db.rows| && forall i :: 0 <= i < |s.db.rows| ==> (i < k <==> s.db.rows[i].dt < cutoff)
  {
    k := NewerIsSuffix(s.db.rows, s.db.sequence, cutoff);
    hide Newer, Ordered;
  }

  /** No failed transaction leaves a trace in the tables. */
  lemma FailuresKeepTables(s: Log, step: Step)
    requires Enabled(s, step)
    requires || (step.FlushDone? && !step.ok) || (step.Clear? && !step.ok) || (step.AddAlias? && !step.ok)
             || (step.DashboardWrite? && !step.ok) || step.StopFails? || step.StopDiscards?
             || (step.Rotate? && step.outcome.DeleteFails?) || (step.SetPseudonymization? && !step.fault.NoFault?)
    ensures Apply(s, step).db == s.db
  {
  }

  /** While logging, neither a clear nor a change of settings does anything. */
  lemma RunningIsLeftAlone(s: Log, conf: Conf, fault: Fault, ok: bool)
    requires s.enabled
    ensures Enabled(s, Clear(ok)) ==> Apply(s, Clear(ok)) == s
    ensures Enabled(s, DnsLogModel.SetPseudonymization(conf, fault)) ==>
              Apply(s, DnsLogModel.SetPseudonymization(conf, fault)) == s
  {
  }
}
