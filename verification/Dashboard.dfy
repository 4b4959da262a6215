/**
 Hourly statistics over the DNS log: the bucket query, the cache table of past hours, and the
 rules that decide when cached hours may be used.
 */
module DnsLogTables {
  type Key = string

  datatype Context = DomainContext | ClientContext

  /** A stored name: in the clear, or an HMAC over a context and the name. The HMAC is taken to
      be collision free, so a token is identified with its inputs. */
  datatype Text = Plain(text: string) | Token(key: Key, context: Context, hidden: string)

  datatype Event = Event(timestamp: int, client: Text, domain: Text, blocked: int)
  datatype Row = Row(dt: int, client: Text, domain: Text, blocked: int)
}

module Dashboard {
  import opened DnsLogTables

  const HISTORY_HOURS: int := 23
  const WINDOW_HOURS: int := HISTORY_HOURS + 1
  const MAX_HOURS: int := 24 * 14
  const NANOS_PER_HOUR: int := 3_600_000_000_000

  datatype Counts = Counts(total: nat, blocked: nat, allowed: int)
  datatype Point = Point(bucket: int, counts: Counts)
  type Cache = map<int, Counts>

  const Zero: Counts := Counts(0, 0, 0)

  function HourOf(dt: int): int {
    dt / NANOS_PER_HOUR
  }

  function HourBucket(now: nat): int {
    now / NANOS_PER_HOUR
  }

  // ---- what the numbers mean ------------------------------------------------------------

  function Total(rows: seq<Row>, hour: int): nat {
    if rows == [] then 0 else Total(rows[1..], hour) + (if HourOf(rows[0].dt) == hour then 1 else 0)
  }

  function Blocked(rows: seq<Row>, hour: int): nat {
    if rows == [] then 0
    else Blocked(rows[1..], hour) + (if HourOf(rows[0].dt) == hour && rows[0].blocked == 1 then 1 else 0)
  }

  function HourCounts(rows: seq<Row>, hour: int): Counts {
    Counts(Total(rows, hour), Blocked(rows, hour), Total(rows, hour) - Blocked(rows, hour))
  }

  /** The hours from `start` up to `end`, each with what the log holds for it. */
  function Buckets(rows: seq<Row>, start: int, end: int): (points: seq<Point>)
    decreases end - start
  {
    if end <= start then [] else [Point(start, HourCounts(rows, start))] + Buckets(rows, start + 1, end)
  }

  function Window(rows: seq<Row>, start: int, end: int): nat {
    if rows == [] then 0
    else Window(rows[1..], start, end) + (if start * NANOS_PER_HOUR <= rows[0].dt < end * NANOS_PER_HOUR then 1 else 0)
  }

  function Summary(points: seq<Point>): Counts {
    if points == [] then Zero else Add(Summary(points[..|points| - 1]), points[|points| - 1].counts)
  }

  function Add(a: Counts, b: Counts): Counts {
    Counts(a.total + b.total, a.blocked + b.blocked, a.allowed + b.allowed)
  }

  lemma {:induction false} TotalAppend(a: seq<Row>, b: seq<Row>, hour: int)
    ensures Total(a + b, hour) == Total(a, hour) + Total(b, hour)
    ensures Blocked(a + b, hour) == Blocked(a, hour) + Blocked(b, hour)
  {
    if a == [] {
      assert a + b == b;
    } else {
      assert (a + b)[1..] == a[1..] + b;
      TotalAppend(a[1..], b, hour);
    }
  }

  lemma {:induction false} BlockedAtMostTotal(rows: seq<Row>, hour: int)
    ensures Blocked(rows, hour) <= Total(rows, hour)
  {
    if rows != [] {
      BlockedAtMostTotal(rows[1..], hour);
    }
  }

  lemma {:induction false} NoRowsNoCounts(rows: seq<Row>, hour: int)
    requires forall r :: r in rows ==> HourOf(r.dt) != hour
    ensures HourCounts(rows, hour) == Zero
  {
    if rows != [] {
      NoRowsNoCounts(rows[1..], hour);
    }
  }

  // ---- the bucket query -------------------------------------------------------------------

  lemma {:induction false} BucketsShape(rows: seq<Row>, start: int, end: int)
    requires start <= end
    ensures var ps := Buckets(rows, start, end);
            && |ps| == end - start
            && forall i :: 0 <= i < |ps| ==> ps[i] == Point(start + i, HourCounts(rows, start + i))
    decreases end - start
  {
    if start < end {
      BucketsShape(rows, start + 1, end);
    }
  }

  /** Adjacent windows concatenate. */
  lemma {:induction false} BucketsConcatenate(rows: seq<Row>, a: int, b: int, c: int)
    requires a <= b <= c
    ensures Buckets(rows, a, b) + Buckets(rows, b, c) == Buckets(rows, a, c)
    decreases b - a
  {
    hide HourCounts;
    if a < b {
      BucketsConcatenate(rows, a + 1, b, c);
      var first := [Point(a, HourCounts(rows, a))];
      assert first + Buckets(rows, a + 1, b) + Buckets(rows, b, c) == first + Buckets(rows, a + 1, c);
    } else {
      assert Buckets(rows, a, b) + Buckets(rows, b, c) == Buckets(rows, b, c);
    }
  }

  lemma BucketsLast(rows: seq<Row>, start: int, end: int)
    requires start < end
    ensures Buckets(rows, start, end) == Buckets(rows, start, end - 1) + [Point(end - 1, HourCounts(rows, end - 1))]
  {
    BucketsConcatenate(rows, start, end - 1, end);
  }

  lemma HourInWindow(dt: int, start: int, end: int)
    ensures start * NANOS_PER_HOUR <= dt < end * NANOS_PER_HOUR <==> start <= HourOf(dt) < end
  {
  }

  lemma {:induction false} WindowGrows(rows: seq<Row>, start: int, end: int)
    requires start < end
    ensures Window(rows, start, end) == Window(rows, start, end - 1) + Total(rows, end - 1)
  {
    if rows != [] {
      WindowGrows(rows[1..], start, end);
      HourInWindow(rows[0].dt, start, end);
      HourInWindow(rows[0].dt, start, end - 1);
    }
  }

  lemma {:induction false} EmptyWindow(rows: seq<Row>, start: int)
    ensures Window(rows, start, start) == 0
  {
    if rows != [] {
      EmptyWindow(rows[1..], start);
    }
  }

  /** The buckets of a window account for each of its rows once, and every row is either
      blocked or allowed. */
  lemma {:induction false} BucketsPartitionTheWindow(rows: seq<Row>, start: int, end: int)
    requires start <= end
    ensures var s := Summary(Buckets(rows, start, end));
            && s.total == Window(rows, start, end)
            && s.blocked + s.allowed == s.total && 0 <= s.allowed
    decreases end - start
  {
    if start == end {
      EmptyWindow(rows, start);
    } else {
      BucketsPartitionTheWindow(rows, start, end - 1);
      BucketsLast(rows, start, end);
      BlockedAtMostTotal(rows, end - 1);
      WindowGrows(rows, start, end);
      var ps := Buckets(rows, start, end);
      assert ps[..|ps| - 1] == Buckets(rows, start, end - 1);
    }
  }

  // ---- the query as it is run -------------------------------------------------------------

  function CountsAt(groups: Cache, hour: int): Counts {
    if hour in groups then groups[hour] else Zero
  }

  function One(r: Row): Counts {
    if r.blocked == 1 then Counts(1, 1, 0) else Counts(1, 0, 1)
  }

  function AddRow(groups: Cache, r: Row, start: int, end: int): Cache {
    if start * NANOS_PER_HOUR <= r.dt < end * NANOS_PER_HOUR then
      groups[HourOf(r.dt) := Add(CountsAt(groups, HourOf(r.dt)), One(r))]
    else groups
  }

  /** The rows the SQL statement returns: one group per hour that has a row in the window. */
  function Grouped(rows: seq<Row>, start: int, end: int): Cache {
    if rows == [] then map[] else AddRow(Grouped(rows[1..], start, end), rows[0], start, end)
  }

  lemma AddRowCounts(groups: Cache, r: Row, start: int, end: int, hour: int)
    requires start <= hour < end
    ensures CountsAt(AddRow(groups, r, start, end), hour)
         == if HourOf(r.dt) == hour then Add(CountsAt(groups, hour), One(r)) else CountsAt(groups, hour)
  {
    HourInWindow(r.dt, start, end);
  }

  lemma HourCountsStep(rows: seq<Row>, hour: int)
    requires rows != []
    ensures HourCounts(rows, hour)
         == if HourOf(rows[0].dt) == hour then Add(HourCounts(rows[1..], hour), One(rows[0])) else HourCounts(rows[1..], hour)
  {
    var here := HourOf(rows[0].dt) == hour;
    var t, b := Total(rows[1..], hour), Blocked(rows[1..], hour);
    assert Total(rows, hour) == t + if here then 1 else 0;
    assert Blocked(rows, hour) == b + if here && rows[0].blocked == 1 then 1 else 0;
  }

  lemma {:induction false} GroupedIsHourCounts(rows: seq<Row>, start: int, end: int, hour: int)
    requires start <= hour < end
    ensures CountsAt(Grouped(rows, start, end), hour) == HourCounts(rows, hour)
  {
    if rows == [] {
      assert HourCounts(rows, hour) == Zero;
    } else {
      hide HourOf, AddRow, CountsAt, HourCounts, Add;
      GroupedIsHourCounts(rows[1..], start, end, hour);
      AddRowCounts(Grouped(rows[1..], start, end), rows[0], start, end, hour);
      HourCountsStep(rows, hour);
    }
  }

  /** The loop that turns groups into a dense list of hours. */
  method QueryBuckets(rows: seq<Row>, start: int, end: int) returns (points: seq<Point>)
    ensures points == Buckets(rows, start, end)
  {
    var byBucket := Grouped(rows, start, end);
    points := [];
    var bucket := start;
    while bucket < end
      invariant start <= bucket && (start <= end ==> bucket <= end) && (end <= start ==> bucket == start)
      invariant points == Buckets(rows, start, bucket)
    {
      GroupedIsHourCounts(rows, start, end, bucket);
      BucketsLast(rows, start, bucket + 1);
      points := points + [Point(bucket, CountsAt(byBucket, bucket))];
      bucket := bucket + 1;
    }
    assert end <= start ==> points == [];
  }

  method SummaryOf(points: seq<Point>) returns (s: Counts)
    ensures s == Summary(points)
  {
    s := Zero;
    for i := 0 to |points|
      invariant s == Summary(points[..i])
    {
      assert points[..i + 1][..i] == points[..i];
      s := Add(s, points[i].counts);
    }
    assert points[..|points|] == points;
  }

  // ---- the cache table --------------------------------------------------------------------

  function ReadCache(cache: Cache, start: int, end: int): seq<Point>
    decreases end - start
  {
    if end <= start then []
    else (if start in cache then [Point(start, cache[start])] else []) + ReadCache(cache, start + 1, end)
  }

  predicate Complete(points: seq<Point>, start: int, end: int) {
    |points| == end - start && forall i :: 0 <= i < |points| ==> points[i].bucket == start + i
  }

  ghost predicate Covers(cache: Cache, start: int, end: int) {
    forall h :: start <= h < end ==> h in cache
  }

  lemma {:induction false} ReadCacheBounds(cache: Cache, start: int, end: int)
    requires start <= end
    ensures |ReadCache(cache, start, end)| <= end - start
    ensures |ReadCache(cache, start, end)| == end - start ==> Covers(cache, start, end)
    decreases end - start
  {
    if start < end {
      ReadCacheBounds(cache, start + 1, end);
    }
  }

  lemma {:induction false} ReadCacheCovered(cache: Cache, start: int, end: int)
    requires start <= end && Covers(cache, start, end)
    ensures var ps := ReadCache(cache, start, end);
            && |ps| == end - start
            && forall i :: 0 <= i < |ps| ==> ps[i] == Point(start + i, cache[start + i])
    decreases end - start
  {
    if start < end {
      ReadCacheCovered(cache, start + 1, end);
    }
  }

  /** The completeness test on the rows that were read says whether every hour is cached. */
  lemma CompleteIffCovered(cache: Cache, start: int, end: int)
    requires start <= end
    ensures Complete(ReadCache(cache, start, end), start, end) <==> Covers(cache, start, end)
  {
    ReadCacheBounds(cache, start, end);
    if Covers(cache, start, end) {
      ReadCacheCovered(cache, start, end);
    }
  }

  method CacheComplete(points: seq<Point>, start: int, end: int) returns (complete: bool)
    ensures complete <==> Complete(points, start, end)
  {
    if |points| != end - start {
      return false;
    }
    for i := 0 to |points|
      invariant forall j :: 0 <= j < i ==> points[j].bucket == start + j
    {
      if points[i].bucket != start + i {
        return false;
      }
    }
    return true;
  }

  function Upsert(cache: Cache, points: seq<Point>): Cache {
    if points == [] then cache
    else Upsert(cache, points[..|points| - 1])[points[|points| - 1].bucket := points[|points| - 1].counts]
  }

  /** One transaction: write the points, then drop every hour outside the window. */
  function WriteCache(cache: Cache, points: seq<Point>, start: int, end: int): Cache {
    var all := Upsert(cache, points);
    map h | h in all && start <= h < end :: all[h]
  }

  /** The points are consecutive hours ending just before `end`. */
  ghost predicate Contiguous(points: seq<Point>, end: int) {
    forall i :: 0 <= i < |points| ==> points[i].bucket == end - |points| + i
  }

  /** `all` is `cache` with the points of the hours before `end` put over it. */
  ghost predicate PutOver(cache: Cache, points: seq<Point>, end: int, all: Cache) {
    && (forall h :: h in all <==> h in cache || end - |points| <= h < end)
    && (forall h :: h in all ==> all[h] == if end - |points| <= h < end then points[h - (end - |points|)].counts else cache[h])
  }

  lemma {:induction false} UpsertContiguous(cache: Cache, points: seq<Point>, end: int)
    requires Contiguous(points, end)
    ensures PutOver(cache, points, end, Upsert(cache, points))
  {
    if points != [] {
      UpsertContiguous(cache, points[..|points| - 1], end - 1);
    }
  }

  lemma BucketsContiguous(rows: seq<Row>, from: int, end: int)
    requires from <= end
    ensures |Buckets(rows, from, end)| == end - from && Contiguous(Buckets(rows, from, end), end)
  {
    BucketsShape(rows, from, end);
  }

  // ---- answers ----------------------------------------------------------------------------

  ghost predicate Agrees(cache: Cache, rows: seq<Row>, start: int, end: int) {
    forall h :: start <= h < end && h in cache ==> cache[h] == HourCounts(rows, h)
  }

  /** The points of the last 23 whole hours: from the cache when it is complete. */
  function History(cache: Cache, rows: seq<Row>, current: int): seq<Point> {
    var start := current - HISTORY_HOURS;
    var cached := ReadCache(cache, start, current);
    if Complete(cached, start, current) then cached else Buckets(rows, start, current)
  }

  function ClampHours(hours: int): int {
    if hours <= 0 then WINDOW_HOURS else if hours > MAX_HOURS then MAX_HOURS else hours
  }

  /** The points a dashboard request for some number of hours answers with. */
  function StatsPoints(cache: Cache, rows: seq<Row>, current: int, hours: int): seq<Point> {
    var h := ClampHours(hours);
    if h == WINDOW_HOURS then History(cache, rows, current) + Buckets(rows, current, current + 1)
    else Buckets(rows, current - (h - 1), current + 1)
  }

  lemma HistoryIsTheLog(cache: Cache, rows: seq<Row>, current: int)
    requires Agrees(cache, rows, current - HISTORY_HOURS, current)
    ensures History(cache, rows, current) == Buckets(rows, current - HISTORY_HOURS, current)
  {
    var start := current - HISTORY_HOURS;
    CompleteIffCovered(cache, start, current);
    if Covers(cache, start, current) {
      ReadCacheCovered(cache, start, current);
      BucketsShape(rows, start, current);
      var a, b := ReadCache(cache, start, current), Buckets(rows, start, current);
      forall i | 0 <= i < |a| ensures a[i] == b[i] {
        assert cache[start + i] == HourCounts(rows, start + i);
      }
    }
  }

  /** Every request, the cached 24 hour one included, is answered as if the log had been
      queried directly, whenever the cached hours it may use agree with the log. */
  lemma StatsAreTheLog(cache: Cache, rows: seq<Row>, current: int, hours: int)
    requires Agrees(cache, rows, current - HISTORY_HOURS, current)
    ensures StatsPoints(cache, rows, current, hours)
         == Buckets(rows, current + 1 - ClampHours(hours), current + 1)
    ensures Summary(StatsPoints(cache, rows, current, hours)).total
         == Window(rows, current + 1 - ClampHours(hours), current + 1)
  {
    hide Buckets, History, Agrees, Summary, Window;
    var from := current + 1 - ClampHours(hours);
    HistoryIsTheLog(cache, rows, current);
    BucketsConcatenate(rows, current - HISTORY_HOURS, current, current + 1);
    assert StatsPoints(cache, rows, current, hours) == Buckets(rows, from, current + 1);
    BucketsPartitionTheWindow(rows, from, current + 1);
  }

  /** The hour a moment falls into. */
  lemma HourBucketHolds(now: nat)
    ensures HourBucket(now) * 3_600_000_000_000 <= now < (HourBucket(now) + 1) * 3_600_000_000_000
  {
  }

  /** One point for each of `n` hours from `from` on, with what the log holds for it. */
  ghost predicate EachHour(points: seq<Point>, rows: seq<Row>, from: int, n: int) {
    |points| == n && forall i :: 0 <= i < n ==> points[i] == Point(from + i, HourCounts(rows, from + i))
  }

  lemma BucketsAreEachHour(rows: seq<Row>, from: int, end: int)
    requires from <= end
    ensures EachHour(Buckets(rows, from, end), rows, from, end - from)
  {
    BucketsShape(rows, from, end);
    hide HourCounts, Buckets;
  }

  /** What a request for some number of hours is answered with: one point for each of the last 24
      hours when it asks for none, of the last 336 when it asks for more, and otherwise of as many
      as it asks for, up to the hour of `now`; and in total the rows of that time. */
  lemma StatsAnswerTheRequest(cache: Cache, rows: seq<Row>, now: nat, hours: int)
    requires Agrees(cache, rows, HourBucket(now) - HISTORY_HOURS, HourBucket(now))
    ensures var points := StatsPoints(cache, rows, HourBucket(now), hours);
            var wanted := if hours <= 0 then 24 else if hours > 336 then 336 else hours;
            var end := HourBucket(now) + 1;
            && EachHour(points, rows, end - wanted, wanted)
            && Summary(points).total == Window(rows, end - wanted, end)
            && Summary(points).blocked + Summary(points).allowed == Summary(points).total
  {
    StatsAreTheLog(cache, rows, HourBucket(now), hours);
    var wanted := ClampHours(hours);
    var end := HourBucket(now) + 1;
    BucketsAreEachHour(rows, end - wanted, end);
    BucketsPartitionTheWindow(rows, end - wanted, end);
    hide Buckets, Summary, Window, StatsPoints, HourCounts, Agrees, EachHour;
  }
}
