/** The cache of hourly statistics over every run of the DNS log. */
module DnsLogDashboard {
  import opened Wrappers
  import opened DnsLogTables
  import opened Dashboard
  import opened DnsLogModel
  import opened DnsLogQueue

  function Hours(rows: seq<Row>): set<int> {
    set r | r in rows :: HourOf(r.dt)
  }

  function Older(rows: seq<Row>, cutoff: int): seq<Row> {
    if rows == [] then []
    else (if rows[0].dt < cutoff then [rows[0]] else []) + Older(rows[1..], cutoff)
  }

  /** The hours whose rows a step changes while leaving the cache alone: those it inserts into,
      and those a rotation deletes from when clearing the cache then fails. */
  ghost function Changed(s: Log, step: Step): set<int>
    requires Enabled(s, step)
  {
    match step
    case FlushDone(ok) => if ok then Hours(Inserted(s.db, s.inFlight)) else {}
    case Stop => Hours(Inserted(s.db, s.queue))
    case Rotate(cutoff, outcome) => if outcome.CacheClearFails? then Hours(Older(s.db.rows, cutoff)) else {}
    case _ => {}
  }

  function Inserted(db: Db, events: seq<Event>): seq<Row> {
    var rows := InsertAll(db, events).rows;
    if |db.rows| <= |rows| then rows[|db.rows|..] else []
  }

  /** Hours changed since their cached value was computed, and since the pending query ran. */
  datatype Stale = Stale(cached: set<int>, queried: set<int>)

  ghost function WrittenHours(p: Pending): set<int> {
    set q | q in p.points :: q.bucket
  }

  ghost function StaleAfter(s: Log, step: Step, d: Stale): Stale
    requires Enabled(s, step)
  {
    match step
    case DashboardQuery(_, _) => Stale(d.cached, {})
    case DashboardWrite(ok) =>
      if ok then Stale((d.cached - WrittenHours(s.pending.value)) + (d.queried * WrittenHours(s.pending.value)), {})
      else d
    case _ => Stale(d.cached + Changed(s, step), d.queried + Changed(s, step))
  }

  ghost function StaleBy(s: Log, steps: seq<Step>, d: Stale): Stale
    requires Run(s, steps)
    decreases |steps|
  {
    if steps == [] then d else StaleBy(Apply(s, steps[0]), steps[1..], StaleAfter(s, steps[0], d))
  }

  ghost predicate CacheTrue(cache: Cache, rows: seq<Row>, stale: set<int>) {
    forall h :: h in cache && h !in stale ==> cache[h] == HourCounts(rows, h)
  }

  ghost predicate PointsTrue(points: seq<Point>, rows: seq<Row>, stale: set<int>) {
    forall i :: 0 <= i < |points| && points[i].bucket !in stale ==> points[i].counts == HourCounts(rows, points[i].bucket)
  }

  /** A pending write covers the end of the 23 hour window; the cache covers the rest. */
  ghost predicate ValidPending(p: Pending, cache: Cache) {
    && p.end == p.start + HISTORY_HOURS
    && 0 < |p.points| <= HISTORY_HOURS && Contiguous(p.points, p.end)
    && Covers(cache, p.start, p.end - |p.points|)
  }

  ghost predicate Truthful(s: Log, d: Stale) {
    && CacheTrue(s.db.cache, s.db.rows, d.cached)
    && (s.pending.Some? ==>
          && ValidPending(s.pending.value, s.db.cache)
          && PointsTrue(s.pending.value.points, s.db.rows, d.queried))
  }

  // ---- rows change only in the hours we say ----------------------------------------------

  /** An hour counts nothing exactly if no row is in it. */
  lemma {:induction false} CountsNothingIff(rows: seq<Row>, hour: int)
    ensures Total(rows, hour) == 0 <==> hour !in Hours(rows)
    ensures hour !in Hours(rows) ==> Blocked(rows, hour) == 0
  {
    if rows != [] {
      CountsNothingIff(rows[1..], hour);
      assert rows == [rows[0]] + rows[1..];
    }
    BlockedAtMostTotal(rows, hour);
  }

  lemma AppendChanges(rows: seq<Row>, added: seq<Row>, hour: int)
    ensures HourCounts(rows + added, hour) == HourCounts(rows, hour) <==> hour !in Hours(added)
  {
    TotalAppend(rows, added, hour);
    CountsNothingIff(added, hour);
    hide Total, Blocked, Hours, HourOf;
  }

  lemma InsertChanges(db: Db, events: seq<Event>, hour: int)
    requires Ordered(db.rows, db.sequence)
    ensures HourCounts(InsertAll(db, events).rows, hour) == HourCounts(db.rows, hour) <==> hour !in Hours(Inserted(db, events))
  {
    hide InsertAll, HourCounts, Hours, Ordered, Appended, Holds;
    InsertAllAppends(db, events);
    AppendedSplits(db, events, InsertAll(db, events));
    AppendChanges(db.rows, Inserted(db, events), hour);
  }

  lemma {:induction false} RotateCounts(rows: seq<Row>, cutoff: int, hour: int)
    ensures Total(rows, hour) == Total(Newer(rows, cutoff), hour) + Total(Older(rows, cutoff), hour)
    ensures Blocked(rows, hour) == Blocked(Newer(rows, cutoff), hour) + Blocked(Older(rows, cutoff), hour)
  {
    if rows != [] {
      RotateCounts(rows[1..], cutoff, hour);
      var first, none: seq<Row> := [rows[0]], [];
      TotalAppend(if rows[0].dt < cutoff then none else first, Newer(rows[1..], cutoff), hour);
      TotalAppend(if rows[0].dt < cutoff then first else none, Older(rows[1..], cutoff), hour);
      TotalAppend(first, rows[1..], hour);
      assert rows == first + rows[1..];
      hide HourOf;
      assert Total(none, hour) == 0 == Blocked(none, hour);
    }
  }

  lemma RotateChanges(rows: seq<Row>, cutoff: int, hour: int)
    ensures HourCounts(Newer(rows, cutoff), hour) == HourCounts(rows, hour) <==> hour !in Hours(Older(rows, cutoff))
  {
    RotateCounts(rows, cutoff, hour);
    CountsNothingIff(Older(rows, cutoff), hour);
    hide Total, Blocked, Hours, HourOf;
  }

  /** A step that leaves the cache alone changes the counts of exactly the hours named for it. */
  lemma ChangedIsExact(s: Log, step: Step, hour: int)
    requires Enabled(s, step) && Ordered(s.db.rows, s.db.sequence)
    requires !step.Clear? && !(step.Rotate? && step.outcome.RotateOk?)
    ensures HourCounts(Apply(s, step).db.rows, hour) == HourCounts(s.db.rows, hour) <==> hour !in Changed(s, step)
  {
    hide HourCounts, HourOf, Hours, Ordered, InsertAll, Newer, Older;
    match step
    case FlushDone(ok) => if ok { InsertChanges(s.db, s.inFlight, hour); }
    case Stop => InsertChanges(s.db, s.queue, hour);
    case Rotate(cutoff, outcome) => if outcome.CacheClearFails? { RotateChanges(s.db.rows, cutoff, hour); }
    case _ =>
  }

  /** Whatever a step does to the rows while leaving the cache alone, the cache stays right
      exactly if none of the hours it still answers for is changed. */
  lemma CacheStaysTrueIff(s: Log, step: Step, stale: set<int>)
    requires Enabled(s, step) && Ordered(s.db.rows, s.db.sequence) && CacheTrue(s.db.cache, s.db.rows, stale)
    requires !step.DashboardWrite? && !step.DashboardQuery? && !step.Clear? && !(step.Rotate? && step.outcome.RotateOk?)
    ensures CacheTrue(Apply(s, step).db.cache, Apply(s, step).db.rows, stale)
       <==> forall h :: h in s.db.cache && h !in stale ==> h !in Changed(s, step)
  {
    hide HourCounts, Changed;
    forall h ensures HourCounts(Apply(s, step).db.rows, h) == HourCounts(s.db.rows, h) <==> h !in Changed(s, step) {
      ChangedIsExact(s, step, h);
    }
    if !step.Rotate? {
      CacheUntouched(s, step);
    }
  }

  /** A rotation that deletes rows and then cannot empty the cache keeps the cache right exactly
      if no hour the cache still answers for holds a row older than the cutoff. */
  lemma HalfFailedRotationIsHarmlessIff(s: Log, cutoff: int, stale: set<int>)
    requires Enabled(s, Rotate(cutoff, CacheClearFails)) && Ordered(s.db.rows, s.db.sequence)
    requires CacheTrue(s.db.cache, s.db.rows, stale)
    ensures var s' := Apply(s, Rotate(cutoff, CacheClearFails));
            CacheTrue(s'.db.cache, s'.db.rows, stale) <==>
              forall r :: r in s.db.rows && r.dt < cutoff ==> HourOf(r.dt) !in s.db.cache || HourOf(r.dt) in stale
  {
    var step := Rotate(cutoff, CacheClearFails);
    CacheStaysTrueIff(s, step, stale);
    OlderMembers(s.db.rows, cutoff);
    hide CacheTrue, HourOf, Older;
    assert Changed(s, step) == Hours(Older(s.db.rows, cutoff));
  }

  lemma {:induction false} OlderMembers(rows: seq<Row>, cutoff: int)
    ensures forall r :: r in Older(rows, cutoff) <==> r in rows && r.dt < cutoff
  {
    if rows != [] {
      OlderMembers(rows[1..], cutoff);
      assert rows == [rows[0]] + rows[1..];
    }
  }

  // ---- each step keeps the cache truthful --------------------------------------------------

  lemma BucketsAreTrue(rows: seq<Row>, start: int, end: int)
    requires start <= end
    ensures |Buckets(rows, start, end)| == end - start && Contiguous(Buckets(rows, start, end), end)
    ensures PointsTrue(Buckets(rows, start, end), rows, {})
  {
    hide HourCounts, Buckets;
    BucketsShape(rows, start, end);
    BucketsContiguous(rows, start, end);
  }

  lemma QueryTruthful(s: Log, at: nat, refresh: bool, d: Stale)
    requires Truthful(s, d) && s.pending.None?
    ensures var p := PendingAfterQuery(s, at, refresh);
            p.Some? ==> ValidPending(p.value, s.db.cache) && PointsTrue(p.value.points, s.db.rows, {})
  {
    var current := HourBucket(at);
    var start := current - HISTORY_HOURS;
    CompleteIffCovered(s.db.cache, start, current);
    hide Buckets, HourCounts, HourBucket, Complete, ReadCache, CacheTrue, Contiguous, PointsTrue;
    BucketsAreTrue(s.db.rows, start, current);
    BucketsAreTrue(s.db.rows, current - 1, current);
  }

  /** Writing leaves exactly the 23 hours of the window, and each hour written holds the counts
      of its query. */
  lemma WriteLeavesTheWindow(cache: Cache, p: Pending)
    requires ValidPending(p, cache)
    ensures var c := WriteCache(cache, p.points, p.start, p.end);
            && (forall h :: h in c <==> p.start <= h < p.end)
            && (forall h :: h in c ==>
                  c[h] == if p.end - |p.points| <= h then p.points[h - (p.end - |p.points|)].counts else cache[h])
  {
    UpsertContiguous(cache, p.points, p.end);
    hide Contiguous, PutOver, Upsert;
    Trim(cache, Upsert(cache, p.points), p.points, p.start, p.end);
  }

  /** Dropping the hours outside a window leaves what was put in at its end. */
  lemma Trim(cache: Cache, all: Cache, points: seq<Point>, start: int, end: int)
    requires start <= end - |points| && Covers(cache, start, end - |points|)
    requires PutOver(cache, points, end, all)
    ensures var c := map h | h in all && start <= h < end :: all[h];
            && (forall h :: h in c <==> start <= h < end)
            && (forall h :: h in c ==>
                  c[h] == if end - |points| <= h then points[h - (end - |points|)].counts else cache[h])
  {
    forall h | start <= h < end ensures h in all {
      assert h < end - |points| ==> h in cache;
    }
  }

  lemma WriteTruthful(s: Log, d: Stale)
    requires Truthful(s, d) && s.pending.Some?
    ensures Truthful(DashboardWritten(s, true), StaleAfter(s, DashboardWrite(true), d))
  {
    var p := s.pending.value;
    WriteLeavesTheWindow(s.db.cache, p);
    var d' := StaleAfter(s, DashboardWrite(true), d);
    var c := WriteCache(s.db.cache, p.points, p.start, p.end);
    var from := p.end - |p.points|;
    forall h | h in c && h !in d'.cached ensures c[h] == HourCounts(s.db.rows, h) {
      if from <= h {
        assert p.points[h - from].bucket == h && p.points[h - from] in p.points;
      }
    }
  }

  lemma CacheUntouched(s: Log, step: Step)
    requires Enabled(s, step) && Ordered(s.db.rows, s.db.sequence)
    requires !step.DashboardWrite? && !step.DashboardQuery? && !step.Clear? && !step.Rotate?
    ensures Apply(s, step).db.cache == s.db.cache
    ensures Apply(s, step).pending.Some? ==> Apply(s, step).pending == s.pending
  {
    match step
    case FlushDone(ok) => InsertAllAppends(s.db, s.inFlight);
    case Stop => InsertAllAppends(s.db, s.queue);
    case _ =>
  }

  lemma TruthfulKept(s: Log, step: Step, d: Stale)
    requires Enabled(s, step) && Ordered(s.db.rows, s.db.sequence) && Truthful(s, d)
    ensures Truthful(Apply(s, step), StaleAfter(s, step, d))
  {
    hide HourCounts, HourOf, Hours, WriteCache, Complete, ReadCache, Buckets, ValidPending;
    match step
    case DashboardQuery(at, refresh) => QueryTruthful(s, at, refresh, d);
    case DashboardWrite(ok) => if ok { WriteTruthful(s, d); }
    case Clear(ok) =>
    case Rotate(cutoff, outcome) =>
      if !outcome.RotateOk? {
        forall h | h !in Changed(s, step) ensures HourCounts(Apply(s, step).db.rows, h) == HourCounts(s.db.rows, h) {
          ChangedIsExact(s, step, h);
        }
      }
    case _ =>
      forall h | h !in Changed(s, step) ensures HourCounts(Apply(s, step).db.rows, h) == HourCounts(s.db.rows, h) {
        ChangedIsExact(s, step, h);
      }
      CacheUntouched(s, step);
  }

  /** Over every run, failures included: a cached hour that no insertion or half-failed
      rotation has changed since it was computed equals the raw count. */
  lemma {:induction false} CachedHoursEqualTheLog(s: Log, steps: seq<Step>, d: Stale, k: nat, all: seq<Event>)
    requires Run(s, steps) && Ordered(s.db.rows, s.db.sequence) && Suffix(s.db.rows, k, all) && Truthful(s, d)
    ensures Truthful(Final(s, steps), StaleBy(s, steps, d))
    decreases |steps|
  {
    if steps != [] {
      TruthfulKept(s, steps[0], d);
      var k' := StepKeepsOrder(s, steps[0], k, all);
      hide Apply, Enabled, Truthful, StaleAfter, Ordered, Suffix;
      CachedHoursEqualTheLog(Apply(s, steps[0]), steps[1..], StaleAfter(s, steps[0], d), k', all + Persisted(s, steps[0]));
    }
  }

  /** A refresh, whatever commits between its query and its write: afterwards the cached hours are
      exactly the 23 before the current one, and the last of them equals the log unless rows of
      that hour changed since the query. */
  lemma RefreshCleansTheLastHour(s: Log, at: nat, between: seq<Step>, d: Stale, k: nat, all: seq<Event>)
    requires Ordered(s.db.rows, s.db.sequence) && Suffix(s.db.rows, k, all) && Truthful(s, d)
    requires Enabled(s, DashboardQuery(at, true))
    requires var q := Apply(s, DashboardQuery(at, true)); Run(q, between) && Final(q, between).pending == q.pending
    ensures var q := Apply(s, DashboardQuery(at, true));
            var f := Final(q, between);
            var w := Apply(f, DashboardWrite(true));
            var last := HourBucket(at) - 1;
            && (forall h :: h in w.db.cache <==> last + 1 - HISTORY_HOURS <= h <= last)
            && (last !in StaleBy(q, between, Stale(d.cached, {})).queried ==>
                  w.db.cache[last] == HourCounts(w.db.rows, last))
  {
    var q := Apply(s, DashboardQuery(at, true));
    TruthfulKept(s, DashboardQuery(at, true), d);
    CachedHoursEqualTheLog(q, between, Stale(d.cached, {}), k, all);
    WriteOfAPending(Final(q, between), StaleBy(q, between, Stale(d.cached, {})));
    hide Truthful, Ordered, Suffix, Run, Final, StaleBy, HourCounts, Complete, ReadCache, Buckets;
  }

  lemma WriteOfAPending(s: Log, d: Stale)
    requires Truthful(s, d) && s.pending.Some?
    ensures var w := Apply(s, DashboardWrite(true)); var p := s.pending.value;
            && (forall h :: h in w.db.cache <==> p.end - HISTORY_HOURS <= h < p.end)
            && (p.end - 1 !in d.queried ==> w.db.cache[p.end - 1] == HourCounts(w.db.rows, p.end - 1))
  {
    var p := s.pending.value;
    WriteLeavesTheWindow(s.db.cache, p);
    hide HourCounts, WriteCache;
    assert p.points[|p.points| - 1].bucket == p.end - 1;
  }

  const OneRow: Row := Row(1, Plain("c"), Plain("n"), 0)

  /** One row, counted in the cache. */
  const Counted: Log := Log(Db([OneRow], 1, map[], map[0 := Counts(1, 0, 1)], None), true, [], [], false,
                            Status(false, false, false), None, None)

  lemma OneRowCounts()
    ensures HourCounts([OneRow], 0) == Counts(1, 0, 1) && HourCounts([], 0) == Zero && Newer([OneRow], 2) == []
  {
    assert [OneRow][1..] == [];
    assert HourOf(1) == 0;
    assert Total([], 0) == 0 && Blocked([], 0) == 0 && Newer([], 2) == [];
  }

  /** Deleting rows and then failing to clear the cache leaves cached hours that count rows no
      longer there: the second kind of change above is needed. */
  lemma HalfFailedRotationLeavesStaleHours()
    ensures Truthful(Counted, Stale({}, {}))
    ensures !Truthful(Apply(Counted, Rotate(2, CacheClearFails)), Stale({}, {}))
  {
    OneRowCounts();
    hide HourCounts, Newer;
    var after := Apply(Counted, Rotate(2, CacheClearFails));
    assert after.db.rows == [] && 0 in after.db.cache;
  }
}
