/**
 The DNS-log object: its queue, its settings and its tables, changed in place. Every method is
 proved to make exactly the steps of the state machine in DnsLogModel. The outcome of each
 database transaction is a parameter.
 */
module DnsLog {
  import opened Wrappers
  import opened DnsLogTables
  import opened Dashboard
  import opened DnsLogModel
  import Queue = DnsLogQueue

  const FULL_QUEUE: nat := 200

  datatype Error = Running | NeedsClearing | PrivacyRunning | BadConfiguration | DatabaseError | InvalidAddress

  class DNSLog {
    // tables
    var rows: seq<Row>
    var sequence: nat
    var hosts: map<Text, string>
    var cache: Cache
    var privacy: Option<Stored>
    // process state
    var enabled: bool
    var queue: seq<Event>
    var inFlight: seq<Event>
    var status: Status
    var key: Option<Key>

    function Tables(): Db
      reads this
    {
      Db(rows, sequence, hosts, cache, privacy)
    }

    /** Between calls no stop is half done and no dashboard computation is pending. */
    function State(): Log
      reads this
    {
      Log(Tables(), enabled, queue, inFlight, false, status, key, None)
    }

    constructor (db: Db)
      ensures State() == Log(db, false, [], [], false, Status(false, false, false), None, None)
    {
      rows, sequence, hosts, cache, privacy := db.rows, db.sequence, db.hosts, db.cache, db.privacy;
      enabled, queue, inFlight, status, key := false, [], [], Status(false, false, false), None;
    }

    method ConfigurePrivacy(conf: Conf, fault: Fault) returns (ok: bool)
      modifies this`privacy, this`status, this`key
      ensures match DnsLogModel.ConfigurePrivacy(old(Tables()), conf, fault)
              case None => !ok && State() == old(State())
              case Some(Settings(db, st, k)) => ok && State() == old(State()).(db := db, status := st, key := k)
    {
      if (conf.domains || conf.clients) && conf.key.None? {
        return false;
      }
      if fault.ReadFails? {
        return false;
      }
      var want := Stored(PrivacyMode(conf.domains), PrivacyMode(conf.clients), FingerprintOf(KeyFor(conf)));
      var have := if privacy.Some? then privacy.value else Stored(PlainMode, PlainMode, NoKey);
      var domainData := |rows| > 0;
      var clientData := |rows| > 0 || |hosts| > 0;
      var domainMismatch := have.domainMode != want.domainMode && domainData;
      var clientMismatch := have.clientMode != want.clientMode && clientData;
      var keyMismatch := have.fingerprint != want.fingerprint &&
        ((want.domainMode == HmacMode && domainData) || (want.clientMode == HmacMode && clientData));
      var requiresClear := domainMismatch || clientMismatch || keyMismatch;
      assert requiresClear == NeedsClear(Tables(), conf);
      hide NeedsClear;
      if requiresClear {
        status, key := Status(conf.domains, conf.clients, true), KeyFor(conf);
        return true;
      }
      if fault.WriteFails? {
        return false;
      }
      privacy := Some(want);
      status, key := Status(conf.domains, conf.clients, false), KeyFor(conf);
      return true;
    }

    /** Starting a process over existing tables. */
    method Config(conf: Conf, wantEnabled: bool, fault: Fault) returns (ok: bool)
      requires State() == Log(Tables(), false, [], [], false, Status(false, false, false), None, None)
      modifies this
      ensures ok <==> DnsLogModel.ConfigurePrivacy(old(Tables()), conf, fault).Some?
      ensures State() == RestartWith(old(State()), conf, wantEnabled, fault)
    {
      ok := ConfigurePrivacy(conf, fault);
      if ok {
        enabled := wantEnabled && !status.requiresClear;
      }
    }

    method Run(now: int, m: Message)
      modifies this`queue
      ensures State() == Apply(old(State()), LogMessage(now, m))
    {
      if !enabled || status.requiresClear {
        return;
      }
      var event := NewLogEvent(status, key, now, m);
      if event.Some? {
        var _ := AppendEvent(event.value);
      }
    }

    method Append(e: Event)
      modifies this`queue
      ensures State() == Apply(old(State()), DnsLogModel.Append(e))
    {
      if enabled {
        var _ := AppendEvent(e);
      }
    }

    /** `full` wakes the background flush. */
    method AppendEvent(e: Event) returns (full: bool)
      modifies this`queue
      ensures State() == DnsLogModel.AppendEvent(old(State()), e)
      ensures full <==> FULL_QUEUE <= |old(queue)| + 1
    {
      queue := queue + [e];
      full := |queue| >= FULL_QUEUE;
    }

    /** First half of a flush, under the flush lock. */
    method TakeQueue()
      requires inFlight == []
      modifies this`queue, this`inFlight
      ensures State() == Apply(old(State()), FlushTake)
    {
      inFlight, queue := queue, [];
    }

    /** Second half: one transaction with one insert per event, or put everything back in front
        of what has arrived meanwhile. */
    method CompleteInsert(ok: bool)
      requires inFlight != []
      modifies this`rows, this`sequence, this`queue, this`inFlight
      ensures State() == Apply(old(State()), FlushDone(ok))
    {
      if !ok {
        queue := inFlight + queue;
        inFlight := [];
        return;
      }
      var i := 0;
      while i < |inFlight|
        invariant 0 <= i <= |inFlight|
        invariant Tables() == InsertAll(old(Tables()), inFlight[..i])
        invariant State() == old(State()).(db := Tables())
      {
        var e := inFlight[i];
        assert inFlight[..i + 1][..i] == inFlight[..i];
        var dt := if e.timestamp < sequence + 1 then sequence + 1 else e.timestamp;
        rows := rows + [Row(dt, e.client, e.domain, e.blocked)];
        sequence := dt;
        i := i + 1;
      }
      assert inFlight[..i] == inFlight;
      inFlight := [];
    }

    /** A whole flush with nothing in between; an empty queue needs no transaction. */
    method DoInsert(ok: bool) returns (done: bool)
      requires inFlight == []
      modifies this`rows, this`sequence, this`queue, this`inFlight
      ensures done <==> ok || old(queue) == []
      ensures State() == if done then old(State()).(db := InsertAll(old(Tables()), old(queue)), queue := [])
                         else old(State())
    {
      TakeQueue();
      if |inFlight| == 0 {
        return true;
      }
      CompleteInsert(ok);
      assert old(queue) + [] == old(queue);
      return ok;
    }

    method StartLogging() returns (r: Result<(), Error>)
      modifies this`enabled
      ensures State() == Apply(old(State()), Start)
      ensures r == if old(status.requiresClear) then Err(NeedsClearing) else Ok(())
    {
      if status.requiresClear {
        return Err(NeedsClearing);
      }
      enabled := true;
      return Ok(());
    }

    /** Stop and flush; when the flush fails the queue is dropped. */
    method StopLogging(ok: bool) returns (r: Result<(), Error>)
      requires inFlight == []
      modifies this`rows, this`sequence, this`queue, this`inFlight, this`enabled
      ensures r.Ok? <==> ok || old(queue) == []
      ensures State() == if r.Ok? then Apply(old(State()), Stop)
                         else Apply(Apply(old(State()), StopFails), StopDiscards)
    {
      enabled := false;
      var done := DoInsert(ok);
      if !done {
        DiscardQueued();
        return Err(DatabaseError);
      }
      return Ok(());
    }

    method DiscardQueued()
      modifies this`queue
      ensures queue == []
    {
      queue := [];
    }

    method SetPseudonymization(conf: Conf, fault: Fault) returns (r: Result<(), Error>)
      modifies this`privacy, this`status, this`key
      ensures State() == Apply(old(State()), DnsLogModel.SetPseudonymization(conf, fault))
      ensures r == if enabled then Err(PrivacyRunning)
                   else if DnsLogModel.ConfigurePrivacy(old(Tables()), conf, fault).Some? then Ok(())
                   else Err(BadConfiguration)
    {
      if enabled {
        return Err(PrivacyRunning);
      }
      var ok := ConfigurePrivacy(conf, fault);
      return if ok then Ok(()) else Err(BadConfiguration);
    }

    method Clear(ok: bool) returns (r: Result<(), Error>)
      requires inFlight == []
      modifies this
      ensures State() == Apply(old(State()), DnsLogModel.Clear(ok))
      ensures r == if old(enabled) then Err(Running) else if ok then Ok(()) else Err(DatabaseError)
    {
      if enabled {
        return Err(Running);
      }
      DiscardQueued();
      if !ok {
        return Err(DatabaseError);
      }
      rows, cache, hosts, sequence := [], map[], map[], 0;
      privacy := Some(PrivacyStateArgs(status, key));
      status := status.(requiresClear := false);
      return Ok(());
    }

    /** `deleted` counts the rows removed. The delete and the clearing of the dashboard cache
        are two transactions. */
    method Rotate(now: int, since: nat, outcome: RotateFault) returns (r: Result<nat, Error>)
      requires inFlight == [] && Queue.Ordered(rows, sequence)
      modifies this`rows, this`cache
      ensures State() == Apply(old(State()), DnsLogModel.Rotate(now - since, outcome))
      ensures r.Ok? <==> outcome.RotateOk?
      ensures r.Ok? ==> r.value <= |old(rows)| && rows == old(rows)[r.value..]
                        && (forall i :: 0 <= i < |old(rows)| ==> (i < r.value <==> old(rows)[i].dt < now - since))
    {
      if outcome.DeleteFails? {
        return Err(DatabaseError);
      }
      ghost var k := Queue.NewerIsSuffix(rows, sequence, now - since);
      var before := |rows|;
      rows := Newer(rows, now - since);
      if outcome.CacheClearFails? {
        return Err(DatabaseError);
      }
      cache := map[];
      return Ok(before - |rows|);
    }

    method AddAlias(alias: string, client: ClientText, ok: bool) returns (r: Result<(), Error>)
      modifies this`hosts
      ensures State() == Apply(old(State()), DnsLogModel.AddAlias(alias, client, ok))
      ensures r == if TransformClient(status, key, client).None? then Err(InvalidAddress)
                   else if ok then Ok(()) else Err(DatabaseError)
    {
      var text := TransformClient(status, key, client);
      if text.None? {
        return Err(InvalidAddress);
      }
      if !ok {
        return Err(DatabaseError);
      }
      hosts := hosts[text.value := alias];
      return Ok(());
    }

    // ---- dashboard ----------------------------------------------------------------------

    /** The write statements of a dashboard computation, in one transaction. */
    method WritePoints(points: seq<Point>, start: int, end: int)
      modifies this`cache
      ensures cache == WriteCache(old(cache), points, start, end)
    {
      for i := 0 to |points|
        invariant cache == Upsert(old(cache), points[..i])
        invariant State() == old(State()).(db := old(Tables()).(cache := cache))
      {
        assert points[..i + 1][..i] == points[..i];
        cache := cache[points[i].bucket := points[i].counts];
      }
      assert points[..|points|] == points;
      cache := map h | h in cache && start <= h < end :: cache[h];
    }

    method LoadDashboardHistoryAt(now: nat, ok: bool) returns (r: Result<seq<Point>, Error>)
      modifies this`cache
      ensures var asked := Apply(old(State()), DashboardQuery(now, false));
              && State() == (if asked.pending.Some? then Apply(asked, DashboardWrite(ok)) else asked)
              && (r.Err? <==> asked.pending.Some? && !ok)
      ensures r.Ok? ==> r.value == History(old(cache), rows, HourBucket(now))
    {
      var current := HourBucket(now);
      var start := current - HISTORY_HOURS;
      var points := ReadCache(cache, start, current);
      var complete := CacheComplete(points, start, current);
      if complete {
        return Ok(points);
      }
      points := QueryBuckets(rows, start, current);
      if !enabled {
        return Ok(points);
      }
      if !ok {
        return Err(DatabaseError);
      }
      WritePoints(points, start, current);
      return Ok(points);
    }

    method RefreshDashboardCacheAt(now: nat, ok: bool) returns (r: Result<(), Error>)
      modifies this`cache
      ensures State() == Apply(Apply(old(State()), DashboardQuery(now, true)), DashboardWrite(ok))
      ensures r.Ok? <==> ok
    {
      var current := HourBucket(now);
      var start := current - HISTORY_HOURS;
      var points := ReadCache(cache, start, current);
      var complete := CacheComplete(points, start, current);
      if complete {
        points := QueryBuckets(rows, current - 1, current);
      } else {
        points := QueryBuckets(rows, start, current);
      }
      if !ok {
        return Err(DatabaseError);
      }
      WritePoints(points, start, current);
      return Ok(());
    }

    method GetDashboardStatsAt(now: nat, hours: int, ok: bool) returns (r: Result<(seq<Point>, Counts), Error>)
      modifies this`cache
      ensures r.Ok? ==> r.value.0 == StatsPoints(old(cache), rows, HourBucket(now), hours) && r.value.1 == Summary(r.value.0)
      ensures r.Err? ==> !ok && ClampHours(hours) == WINDOW_HOURS
      ensures ClampHours(hours) != WINDOW_HOURS ==> cache == old(cache)
      ensures ClampHours(hours) == WINDOW_HOURS ==>
                var asked := Apply(old(State()), DashboardQuery(now, false));
                State() == if asked.pending.Some? then Apply(asked, DashboardWrite(ok)) else asked
    {
      var h := ClampHours(hours);
      var current := HourBucket(now);
      var points: seq<Point>;
      if h == WINDOW_HOURS {
        var history := LoadDashboardHistoryAt(now, ok);
        if history.Err? {
          return Err(history.error);
        }
        var latest := QueryBuckets(rows, current, current + 1);
        points := history.value + latest;
      } else {
        points := QueryBuckets(rows, current - (h - 1), current + 1);
      }
      var summary := SummaryOf(points);
      return Ok((points, summary));
    }
  }
}
