/**
 What the per-client limiter promises over whole runs: its map and list stay in step and
 bounded, the list stays sorted by last use, and forgetting clients is unobservable exactly
 when the idle timeout is long enough to refill a bucket.
 */
module LimiterProofs {
  import opened Numbers
  import opened Clock
  import opened Sets
  import opened TokenBucket
  import opened LimiterModel

  type Buckets = map<Addr, Bucket>

  // ---- sizes and order ----------------------------------------------------------------

  ghost predicate Descending(e: map<Addr, Entry>, xs: seq<Addr>) {
    xs == [] || (
      && xs[0] in e
      && (forall x :: x in xs[1..] ==> x in e && e[x].lastSeen <= e[xs[0]].lastSeen)
      && Descending(e, xs[1..]))
  }

  /** Front to back, the list goes from the most to the least recently seen client. */
  ghost predicate SortedBySeen(s: Limiter) {
    Descending(s.entries, s.lru)
  }

  lemma {:induction false} BackIsOldest(e: map<Addr, Entry>, xs: seq<Addr>, a: Addr)
    requires Descending(e, xs) && a in xs
    ensures a in e && xs[|xs| - 1] in e
    ensures e[xs[|xs| - 1]].lastSeen <= e[a].lastSeen
  {
    if |xs| > 1 {
      assert xs[|xs| - 1] in xs[1..] && xs[1..][|xs| - 2] == xs[|xs| - 1];
      BackIsOldest(e, xs[1..], if a == xs[0] then xs[1] else a);
    }
  }

  lemma {:induction false} DescendingSame(e: map<Addr, Entry>, e': map<Addr, Entry>, xs: seq<Addr>)
    requires Descending(e, xs)
    requires forall x :: x in xs ==> x in e' && (x in e ==> e'[x] == e[x])
    ensures Descending(e', xs)
  {
    if xs != [] {
      DescendingSame(e, e', xs[1..]);
    }
  }

  ghost predicate SeenBy(s: Limiter, now: int) {
    forall a :: a in s.entries ==> s.entries[a].lastSeen <= now
  }

  ghost predicate Nondecreasing(run: seq<Request>) {
    forall i, j :: 0 <= i < j < |run| ==> run[i].now <= run[j].now
  }

  lemma RemoveShrinks(s: Limiter, a: Addr)
    requires Bijective(s) && a in s.entries
    ensures |Remove(s, a).entries| == |s.entries| - 1
  {
    var rest := Remove(s, a).entries;
    assert rest.Keys == s.entries.Keys - {a};
  }

  lemma {:induction false} WithoutDescending(e: map<Addr, Entry>, xs: seq<Addr>, a: Addr)
    requires Descending(e, xs)
    ensures Descending(e, Without(xs, a))
  {
    if xs != [] {
      WithoutDescending(e, xs[1..], a);
      WithoutMembers(xs[1..], a);
      assert xs[0] != a ==> Without(xs, a)[1..] == Without(xs[1..], a);
    }
  }

  lemma RemoveSorted(s: Limiter, a: Addr)
    requires Bijective(s) && SortedBySeen(s)
    ensures Bijective(Remove(s, a)) && SortedBySeen(Remove(s, a))
  {
    RemoveBijective(s, a);
    WithoutDescending(s.entries, s.lru, a);
    WithoutMembers(s.lru, a);
    DescendingSame(s.entries, s.entries - {a}, Without(s.lru, a));
  }

  function LiveEntries(c: Config, e: map<Addr, Entry>, now: int): map<Addr, Entry> {
    map a | a in e && now - e[a].lastSeen < c.idle :: e[a]
  }

  lemma FreshBackMeansAllFresh(c: Config, s: Limiter, now: int)
    requires Bijective(s) && SortedBySeen(s)
    requires s.lru != [] ==> now - s.entries[Back(s)].lastSeen < c.idle
    ensures LiveEntries(c, s.entries, now) == s.entries
  {
    forall a | a in s.entries ensures now - s.entries[a].lastSeen < c.idle {
      assert a in s.lru;
      BackIsOldest(s.entries, s.lru, a);
    }
  }

  lemma IdleBackCanGo(c: Config, s: Limiter, now: int)
    requires Bijective(s) && s.lru != [] && now - s.entries[Back(s)].lastSeen >= c.idle
    ensures LiveEntries(c, Remove(s, Back(s)).entries, now) == LiveEntries(c, s.entries, now)
  {
  }

  /** The eviction loop stops at the first fresh entry from the back; because the list is
      sorted, what is left is exactly the entries that are not idle, anywhere in the list. */
  lemma {:induction false} RemoveExpiredKeepsExactlyTheLive(c: Config, s: Limiter, now: int)
    requires Bijective(s) && SortedBySeen(s)
    ensures var r := RemoveExpired(c, s, now);
            Bijective(r) && SortedBySeen(r) && r.entries == LiveEntries(c, s.entries, now)
    decreases |s.lru|
  {
    RemoveExpiredBijective(c, s, now);
    if s.lru == [] || now - s.entries[Back(s)].lastSeen < c.idle {
      FreshBackMeansAllFresh(c, s, now);
    } else {
      RemoveSorted(s, Back(s));
      WithoutBack(s.lru);
      IdleBackCanGo(c, s, now);
      assert RemoveExpired(c, s, now) == RemoveExpired(c, Remove(s, Back(s)), now);
      assert |Remove(s, Back(s)).lru| < |s.lru|;
      hide LiveEntries, Remove, SortedBySeen;
      RemoveExpiredKeepsExactlyTheLive(c, Remove(s, Back(s)), now);
    }
  }

  /** The entry a full limiter gives up is one nobody was seen before. */
  lemma OldestIsLeastRecentlySeen(s: Limiter)
    requires Bijective(s) && SortedBySeen(s) && s.lru != []
    ensures Back(s) in s.entries
    ensures RemoveOldest(s).entries == s.entries - {Back(s)}
    ensures forall a :: a in s.entries ==> s.entries[Back(s)].lastSeen <= s.entries[a].lastSeen
  {
    forall a | a in s.entries ensures s.entries[Back(s)].lastSeen <= s.entries[a].lastSeen {
      BackIsOldest(s.entries, s.lru, a);
    }
  }

  function After(c: Config, s: Limiter, run: seq<Request>): Limiter
    requires Bijective(s)
    decreases |run|
  {
    if run == [] then s
    else
      AllowBijective(c, s, run[0].addr, run[0].now);
      After(c, Allow(c, s, run[0].addr, run[0].now).0, run[1..])
  }

  lemma RemoveExpiredNoLarger(c: Config, s: Limiter, now: int)
    requires Bijective(s)
    ensures RemoveExpired(c, s, now).entries.Keys <= s.entries.Keys
    ensures |RemoveExpired(c, s, now).entries| <= |s.entries|
    decreases |s.lru|
  {
    if s.lru != [] && now - s.entries[Back(s)].lastSeen >= c.idle {
      RemoveBijective(s, Back(s));
      WithoutBack(s.lru);
      RemoveShrinks(s, Back(s));
      RemoveExpiredNoLarger(c, Remove(s, Back(s)), now);
    }
  }

  lemma RoomIsMade(c: Config, s: Limiter)
    requires ValidConfig(c) && Bijective(s) && |s.entries| <= c.maxEntries
    ensures |(if |s.entries| >= c.maxEntries then RemoveOldest(s) else s).entries| < c.maxEntries
  {
    if |s.entries| >= c.maxEntries {
      var some :| some in s.entries;
      assert some in s.lru;
      RemoveShrinks(s, Back(s));
    }
  }

  lemma AllowBounded(c: Config, s: Limiter, a: Addr, now: int)
    requires ValidConfig(c) && Bijective(s) && |s.entries| <= c.maxEntries
    ensures |Allow(c, s, a, now).0.entries| <= c.maxEntries
  {
    RemoveExpiredNoLarger(c, s, now);
    RemoveExpiredBijective(c, s, now);
    var live := RemoveExpired(c, s, now);
    RoomIsMade(c, live);
    hide RemoveExpired, RemoveOldest, Bijective, Take, Without;
    if a in live.entries {
      assert Touch(c, live, a, now).0.entries.Keys == live.entries.Keys;
    } else {
      var room := if |live.entries| >= c.maxEntries then RemoveOldest(live) else live;
      assert Insert(c, live, a, now).0.entries.Keys == room.entries.Keys + {a};
    }
  }

  lemma PushFrontSorted(e: map<Addr, Entry>, xs: seq<Addr>, a: Addr, entry: Entry)
    requires Descending(e, xs) && a !in xs
    requires forall x :: x in xs ==> x in e && e[x].lastSeen <= entry.lastSeen
    ensures Descending(e[a := entry], [a] + xs)
  {
    DescendingSame(e, e[a := entry], xs);
    assert ([a] + xs)[1..] == xs;
  }

  lemma AllowSorted(c: Config, s: Limiter, a: Addr, now: int)
    requires Bijective(s) && SortedBySeen(s) && SeenBy(s, now)
    ensures var r := Allow(c, s, a, now).0; Bijective(r) && SortedBySeen(r) && SeenBy(r, now)
  {
    AllowBijective(c, s, a, now);
    RemoveExpiredKeepsExactlyTheLive(c, s, now);
    var live := RemoveExpired(c, s, now);
    assert SeenBy(live, now);
    var r := Allow(c, s, a, now).0;
    if a in live.entries {
      WithoutDescending(live.entries, live.lru, a);
      WithoutMembers(live.lru, a);
      PushFrontSorted(live.entries, Without(live.lru, a), a, r.entries[a]);
    } else {
      var room := if |live.entries| >= c.maxEntries then RemoveOldest(live) else live;
      if room != live {
        RemoveSorted(live, Back(live));
        WithoutMembers(live.lru, Back(live));
      }
      PushFrontSorted(room.entries, room.lru, a, r.entries[a]);
    }
  }

  /** Whatever the clock does, map and list stay in bijection and within the capacity; when
      time does not run backwards the list is also ordered by last use. */
  lemma {:induction false} LimiterStaysWellFormed(c: Config, s: Limiter, run: seq<Request>)
    requires ValidConfig(c) && Bijective(s) && |s.entries| <= c.maxEntries
    ensures var r := After(c, s, run); Bijective(r) && |r.entries| <= c.maxEntries
    ensures Nondecreasing(run) && SortedBySeen(s) && (run != [] ==> SeenBy(s, run[0].now))
        ==> SortedBySeen(After(c, s, run))
    decreases |run|
  {
    if run != [] {
      AllowBijective(c, s, run[0].addr, run[0].now);
      AllowBounded(c, s, run[0].addr, run[0].now);
      if Nondecreasing(run) && SortedBySeen(s) && SeenBy(s, run[0].now) {
        AllowSorted(c, s, run[0].addr, run[0].now);
      }
      LimiterStaysWellFormed(c, Allow(c, s, run[0].addr, run[0].now).0, run[1..]);
    }
  }

  // ---- the limiter that never forgets ---------------------------------------------------

  function BucketOf(l: Limits, m: Buckets, a: Addr): Bucket {
    if a in m then m[a] else Full(l)
  }

  function RefAllow(l: Limits, m: Buckets, a: Addr, now: int): (Buckets, bool) {
    var (bucket, ok) := Take(l, BucketOf(l, m, a), now);
    (m[a := bucket], ok)
  }

  function Decisions(c: Config, s: Limiter, run: seq<Request>): seq<bool>
    requires Bijective(s)
    decreases |run|
  {
    if run == [] then []
    else
      AllowBijective(c, s, run[0].addr, run[0].now);
      var (next, ok) := Allow(c, s, run[0].addr, run[0].now);
      [ok] + Decisions(c, next, run[1..])
  }

  function RefDecisions(l: Limits, m: Buckets, run: seq<Request>): seq<bool>
    decreases |run|
  {
    if run == [] then []
    else
      var (next, ok) := RefAllow(l, m, run[0].addr, run[0].now);
      [ok] + RefDecisions(l, next, run[1..])
  }

  /** The evicting limiter knows a client's true bucket, or that bucket is full again. */
  ghost predicate Simulates(c: Config, s: Limiter, m: Buckets, now: int) {
    && Bijective(s)
    && (forall a :: a in s.entries ==>
          && a in m && s.entries[a].bucket == m[a]
          && Settled(c.limits, m[a], s.entries[a].lastSeen)
          && s.entries[a].lastSeen <= now)
    && (forall a :: a in m && a !in s.entries ==> Refilled(c.limits, m[a], now))
  }

  ghost predicate LongIdle(c: Config) {
    Capacity(c.limits) <= c.idle * c.limits.rate
  }

  lemma SimulationAges(c: Config, s: Limiter, m: Buckets, now: int, later: int)
    requires Simulates(c, s, m, now) && now <= later
    ensures Simulates(c, s, m, later)
  {
    forall a | a in m && a !in s.entries ensures Refilled(c.limits, m[a], later) {
      RefilledStays(c.limits, m[a], now, later);
    }
  }

  lemma {:induction false} ExpiryKeepsSimulation(c: Config, s: Limiter, m: Buckets, now: int)
    requires LongIdle(c) && Simulates(c, s, m, now)
    ensures Simulates(c, RemoveExpired(c, s, now), m, now)
    decreases |s.lru|
  {
    if s.lru != [] && now - s.entries[Back(s)].lastSeen >= c.idle {
      var a := Back(s);
      RemoveBijective(s, a);
      WithoutBack(s.lru);
      IdleRefills(c.limits, m[a], c.idle, s.entries[a].lastSeen, now);
      ExpiryKeepsSimulation(c, Remove(s, a), m, now);
    }
  }

  lemma FullIsSettled(l: Limits, now: int)
    ensures Take(l, Full(l), now).1 ==> Settled(l, Take(l, Full(l), now).0, now)
    ensures 1 <= l.burst ==> Take(l, Full(l), now) == (Bucket(Capacity(l) - NANO, now), true)
  {
    MulMonotone(l.rate, 0, now - if now < 0 then now else 0);
  }

  lemma TouchSimulates(c: Config, s: Limiter, m: Buckets, a: Addr, now: int)
    requires Simulates(c, s, m, now) && a in s.entries
    requires Bijective(Touch(c, s, a, now).0)
    ensures Touch(c, s, a, now).1 == RefAllow(c.limits, m, a, now).1
    ensures Simulates(c, Touch(c, s, a, now).0, RefAllow(c.limits, m, a, now).0, now)
  {
    TakeKeepsSettled(c.limits, m[a], now);
    var b := Take(c.limits, m[a], now).0;
    hide Take, Settled, Refilled, Bijective;
    PutSimulates(c, s, m, a, b, [a] + Without(s.lru, a), now);
  }

  /** Giving a client the same bucket on both sides. */
  lemma PutSimulates(c: Config, s: Limiter, m: Buckets, a: Addr, b: Bucket, lru: seq<Addr>, now: int)
    requires Simulates(c, s, m, now) && Settled(c.limits, b, now)
    requires Bijective(Limiter(s.entries[a := Entry(b, now)], lru))
    ensures Simulates(c, Limiter(s.entries[a := Entry(b, now)], lru), m[a := b], now)
  {
    hide Settled, Refilled, Bijective;
  }

  lemma RefilledIsFull(l: Limits, b: Bucket, now: int)
    requires Refilled(l, b, now)
    ensures Available(l, b, now) == Capacity(l)
  {
  }

  lemma NewIsFull(l: Limits, now: int)
    ensures Available(l, Full(l), now) == Capacity(l)
  {
    MulMonotone(l.rate, 0, now - if now < 0 then now else 0);
  }

  lemma InsertSimulates(c: Config, s: Limiter, m: Buckets, a: Addr, now: int)
    requires ValidConfig(c) && Simulates(c, s, m, now) && a !in s.entries && |s.entries| < c.maxEntries
    requires Bijective(Insert(c, s, a, now).0)
    ensures Insert(c, s, a, now).1 == RefAllow(c.limits, m, a, now).1
    ensures Simulates(c, Insert(c, s, a, now).0, RefAllow(c.limits, m, a, now).0, now)
  {
    FullIsSettled(c.limits, now);
    NewcomerTakesAlike(c.limits, m, a, now);
    var b := Take(c.limits, Full(c.limits), now).0;
    hide Take, Settled, Refilled, Bijective, BucketOf;
    PutSimulates(c, s, m, a, b, [a] + s.lru, now);
  }

  lemma NewcomerTakesAlike(l: Limits, m: Buckets, a: Addr, now: int)
    requires 0 < l.burst && (a in m ==> Refilled(l, m[a], now))
    ensures Take(l, BucketOf(l, m, a), now) == Take(l, Full(l), now)
  {
    NewIsFull(l, now);
    if a in m {
      RefilledIsFull(l, m[a], now);
    }
    hide Available, Refilled;
    assert NANO <= Capacity(l);
  }

  lemma KeysAfter(c: Config, s: Limiter, a: Addr, now: int)
    ensures a in s.entries ==> Touch(c, s, a, now).0.entries.Keys == s.entries.Keys + {a}
    ensures |s.entries| < c.maxEntries ==> Insert(c, s, a, now).0.entries.Keys == s.entries.Keys + {a}
  {
  }

  /** One request: same answer, and the two limiters still agree. */
  lemma AllowSimulates(c: Config, s: Limiter, m: Buckets, a: Addr, now: int, clients: set<Addr>)
    requires ValidConfig(c) && LongIdle(c) && Simulates(c, s, m, now)
    requires a in clients && s.entries.Keys <= clients && |clients| <= c.maxEntries
    ensures Allow(c, s, a, now).1 == RefAllow(c.limits, m, a, now).1
    ensures Simulates(c, Allow(c, s, a, now).0, RefAllow(c.limits, m, a, now).0, now)
    ensures Allow(c, s, a, now).0.entries.Keys <= clients
  {
    ExpiryKeepsSimulation(c, s, m, now);
    RemoveExpiredNoLarger(c, s, now);
    AllowBijective(c, s, a, now);
    var live := RemoveExpired(c, s, now);
    KeysAfter(c, live, a, now);
    hide Simulates, RemoveExpired, RefAllow, Touch, Insert, LongIdle, Bijective;
    if a in live.entries {
      TouchSimulates(c, live, m, a, now);
    } else {
      assert live.entries.Keys <= clients - {a};
      SubsetSize(live.entries.Keys, clients - {a});
      InsertSimulates(c, live, m, a, now);
    }
  }

  lemma {:induction false} SimulationDecides(c: Config, s: Limiter, m: Buckets, run: seq<Request>,
                                             clients: set<Addr>, now: int)
    requires ValidConfig(c) && LongIdle(c) && Simulates(c, s, m, now)
    requires s.entries.Keys <= clients && |clients| <= c.maxEntries
    requires forall r :: r in run ==> r.addr in clients && now <= r.now
    requires Nondecreasing(run)
    ensures Decisions(c, s, run) == RefDecisions(c.limits, m, run)
    decreases |run|
  {
    if run != [] {
      SimulationAges(c, s, m, now, run[0].now);
      AllowSimulates(c, s, m, run[0].addr, run[0].now, clients);
      var (s', _) := Allow(c, s, run[0].addr, run[0].now);
      var (m', _) := RefAllow(c.limits, m, run[0].addr, run[0].now);
      SimulationDecides(c, s', m', run[1..], clients, run[0].now);
    }
  }

  /** A run of at most `n` clients by a clock that does not run backwards. */
  ghost predicate Fits(n: nat, clients: set<Addr>, run: seq<Request>) {
    && |clients| <= n
    && (forall r :: r in run ==> r.addr in clients)
    && Nondecreasing(run)
  }

  ghost predicate Unobservable(c: Config, n: nat) {
    forall clients, run :: Fits(n, clients, run) ==> Decisions(c, Empty, run) == RefDecisions(c.limits, map[], run)
  }

  lemma ForgettingIsUnobservable(c: Config, clients: set<Addr>, run: seq<Request>)
    requires ValidConfig(c) && LongIdle(c) && Fits(c.maxEntries, clients, run)
    ensures Decisions(c, Empty, run) == RefDecisions(c.limits, map[], run)
  {
    if run != [] {
      SimulationDecides(c, Empty, map[], run, clients, run[0].now);
    }
  }

  // ---- ... and the condition is exact ---------------------------------------------------

  function Repeat(a: Addr, now: int, n: nat): seq<Request> {
    seq(n, i => Request(a, now))
  }

  function Only(a: Addr, tokens: int, now: int): Limiter {
    Limiter(map[a := Entry(Bucket(tokens, now), now)], [a])
  }

  lemma OnlyIsBijective(a: Addr, tokens: int, now: int)
    ensures Bijective(Only(a, tokens, now))
  {
    assert Only(a, tokens, now).lru[1..] == [];
  }

  lemma OneOfABurst(c: Config, a: Addr, tokens: int, now: int)
    requires ValidConfig(c) && NANO <= tokens <= Capacity(c.limits)
    ensures Bijective(Only(a, tokens, now))
    ensures Allow(c, Only(a, tokens, now), a, now) == (Only(a, tokens - NANO, now), true)
    ensures RefAllow(c.limits, map[a := Bucket(tokens, now)], a, now) == (map[a := Bucket(tokens - NANO, now)], true)
  {
    var s := Only(a, tokens, now);
    OnlyIsBijective(a, tokens, now);
    assert Take(c.limits, Bucket(tokens, now), now) == (Bucket(tokens - NANO, now), true);
    assert RemoveExpired(c, s, now) == s;
    assert Without([a], a) == [] by { assert [a][1..] == []; }
    assert [a] + [] == [a];
    assert s.entries[a := Entry(Bucket(tokens - NANO, now), now)] == Only(a, tokens - NANO, now).entries;
    var m := map[a := Bucket(tokens, now)];
    assert m[a := Bucket(tokens - NANO, now)] == map[a := Bucket(tokens - NANO, now)];
  }

  lemma DecisionsStep(c: Config, s: Limiter, r: Request, rest: seq<Request>)
    requires Bijective(s)
    ensures Bijective(Allow(c, s, r.addr, r.now).0)
    ensures Decisions(c, s, [r] + rest)
         == [Allow(c, s, r.addr, r.now).1] + Decisions(c, Allow(c, s, r.addr, r.now).0, rest)
  {
    AllowBijective(c, s, r.addr, r.now);
    assert ([r] + rest)[1..] == rest;
  }

  lemma RefDecisionsStep(l: Limits, m: Buckets, r: Request, rest: seq<Request>)
    ensures RefDecisions(l, m, [r] + rest)
         == [RefAllow(l, m, r.addr, r.now).1] + RefDecisions(l, RefAllow(l, m, r.addr, r.now).0, rest)
  {
    assert ([r] + rest)[1..] == rest;
  }

  lemma RepeatStep(a: Addr, now: int, n: nat, rest: seq<Request>)
    ensures Repeat(a, now, n + 1) + rest == [Request(a, now)] + (Repeat(a, now, n) + rest)
    ensures Yes(n + 1) == [true] + Yes(n)
  {
  }

  /** `n` requests of one client at one instant. */
  lemma {:induction false} BurstAtOnce(c: Config, a: Addr, tokens: int, now: int, n: nat, rest: seq<Request>)
    requires ValidConfig(c) && n * NANO <= tokens <= Capacity(c.limits)
    ensures Bijective(Only(a, tokens, now)) && Bijective(Only(a, tokens - n * NANO, now))
    ensures Decisions(c, Only(a, tokens, now), Repeat(a, now, n) + rest)
         == Yes(n) + Decisions(c, Only(a, tokens - n * NANO, now), rest)
    decreases n
  {
    hide Decisions, RefDecisions, Take;
    OnlyIsBijective(a, tokens, now);
    OnlyIsBijective(a, tokens - n * NANO, now);
    if n == 0 {
      assert Repeat(a, now, n) + rest == rest;
    } else {
      OneOfABurst(c, a, tokens, now);
      RepeatStep(a, now, n - 1, rest);
      BurstAtOnce(c, a, tokens - NANO, now, n - 1, rest);
      DecisionsStep(c, Only(a, tokens, now), Request(a, now), Repeat(a, now, n - 1) + rest);
    }
  }

  lemma {:induction false} RefBurstAtOnce(c: Config, a: Addr, tokens: int, now: int, n: nat, rest: seq<Request>)
    requires ValidConfig(c) && n * NANO <= tokens <= Capacity(c.limits)
    ensures RefDecisions(c.limits, map[a := Bucket(tokens, now)], Repeat(a, now, n) + rest)
         == Yes(n) + RefDecisions(c.limits, map[a := Bucket(tokens - n * NANO, now)], rest)
    decreases n
  {
    hide Decisions, RefDecisions, Take;
    if n == 0 {
      assert Repeat(a, now, n) + rest == rest;
    } else {
      OneOfABurst(c, a, tokens, now);
      RepeatStep(a, now, n - 1, rest);
      RefBurstAtOnce(c, a, tokens - NANO, now, n - 1, rest);
      RefDecisionsStep(c.limits, map[a := Bucket(tokens, now)], Request(a, now), Repeat(a, now, n - 1) + rest);
    }
  }

  function Yes(n: nat): seq<bool> {
    seq(n, i => true)
  }

  /** A client spends its whole burst, waits for the idle timeout, and asks again. */
  function Probe(c: Config, a: Addr): seq<Request> {
    Repeat(a, 0, c.limits.burst) + Repeat(a, c.idle, c.limits.burst)
  }

  lemma FirstOfABurst(c: Config, s: Limiter, a: Addr, now: int)
    requires ValidConfig(c) && Bijective(s) && RemoveExpired(c, s, now) == Empty
    ensures Allow(c, s, a, now) == (Only(a, Capacity(c.limits) - NANO, now), true)
  {
    hide Take, RemoveExpired;
    FullIsSettled(c.limits, now);
    assert [a] + Empty.lru == [a];
  }

  /** The first burst of a client the limiter does not know, or has just forgotten. */
  lemma BurstOfANewClient(c: Config, s: Limiter, a: Addr, now: int, rest: seq<Request>)
    requires ValidConfig(c) && Bijective(s) && RemoveExpired(c, s, now) == Empty
    ensures Bijective(Only(a, 0, now))
    ensures Decisions(c, s, Repeat(a, now, c.limits.burst) + rest)
         == Yes(c.limits.burst) + Decisions(c, Only(a, 0, now), rest)
  {
    hide Decisions, RefDecisions, Take, Allow, RemoveExpired, Repeat, Yes, Bijective, Only;
    var n := c.limits.burst;
    FirstOfABurst(c, s, a, now);
    RepeatStep(a, now, n - 1, rest);
    DecisionsStep(c, s, Request(a, now), Repeat(a, now, n - 1) + rest);
    BurstAtOnce(c, a, Capacity(c.limits) - NANO, now, n - 1, rest);
  }

  lemma RefBurstOfANewClient(c: Config, a: Addr, now: int, rest: seq<Request>)
    requires ValidConfig(c)
    ensures RefDecisions(c.limits, map[], Repeat(a, now, c.limits.burst) + rest)
         == Yes(c.limits.burst) + RefDecisions(c.limits, map[a := Bucket(0, now)], rest)
  {
    hide Decisions, RefDecisions, Take;
    var n := c.limits.burst;
    FullIsSettled(c.limits, now);
    RepeatStep(a, now, n - 1, rest);
    RefDecisionsStep(c.limits, map[], Request(a, now), Repeat(a, now, n - 1) + rest);
    RefBurstAtOnce(c, a, Capacity(c.limits) - NANO, now, n - 1, rest);
  }

  lemma SpentClientIsForgotten(c: Config, a: Addr)
    requires ValidConfig(c) && Bijective(Only(a, 0, 0))
    ensures RemoveExpired(c, Only(a, 0, 0), c.idle) == Empty
  {
    assert Without([a], a) == [] by { assert [a][1..] == []; }
    assert Remove(Only(a, 0, 0), a) == Empty;
  }

  lemma ProbeAgainstEvicting(c: Config, a: Addr)
    requires ValidConfig(c)
    ensures false !in Decisions(c, Empty, Probe(c, a))
  {
    var again := Repeat(a, c.idle, c.limits.burst);
    BurstOfANewClient(c, Empty, a, 0, again);
    SpentClientIsForgotten(c, a);
    BurstOfANewClient(c, Only(a, 0, 0), a, c.idle, []);
    assert again == again + [];
  }

  lemma {:induction false} RefDenies(l: Limits, a: Addr, b: Bucket, now: int, n: nat)
    requires b.last <= now && 0 <= Available(l, b, now) < n * NANO
    ensures false in RefDecisions(l, map[a := b], Repeat(a, now, n))
    decreases n
  {
    var run := Repeat(a, now, n);
    assert run[0] == Request(a, now) && run[1..] == Repeat(a, now, n - 1);
    var (b', ok) := Take(l, b, now);
    assert map[a := b][a := b'] == map[a := b'];
    if ok {
      assert Available(l, b', now) == b'.tokens;
      RefDenies(l, a, b', now, n - 1);
    }
  }

  lemma ProbeAgainstReference(c: Config, a: Addr)
    requires ValidConfig(c) && !LongIdle(c)
    ensures false in RefDecisions(c.limits, map[], Probe(c, a))
  {
    RefBurstOfANewClient(c, a, 0, Repeat(a, c.idle, c.limits.burst));
    MulMonotone(c.limits.rate, 0, c.idle);
    RefDenies(c.limits, a, Bucket(0, 0), c.idle, c.limits.burst);
  }

  // ---- more clients than entries ----------------------------------------------------------

  /** Distinct addresses; the first is the client that gets forgotten. */
  function Peer(i: nat): Addr {
    seq(i, _ => 'x')
  }

  lemma PeersDiffer(i: nat, j: nat)
    ensures Peer(i) == Peer(j) ==> i == j
  {
    assert |Peer(i)| == i && |Peer(j)| == j;
  }

  /** Peers `i` to `m` ask once each, and then the first peer. */
  function Others(i: nat, m: nat): seq<Request>
    decreases m + 1 - i
  {
    if i > m then [Request(Peer(0), 0)] else [Request(Peer(i), 0)] + Others(i + 1, m)
  }

  /** The first peer spends its burst, as many others as there are entries ask once, and it asks
      again, all in one instant. */
  function Crowd(c: Config): seq<Request> {
    Repeat(Peer(0), 0, c.limits.burst) + Others(1, c.maxEntries)
  }

  function PeerSet(k: nat): set<Addr> {
    if k == 0 then {Peer(0)} else PeerSet(k - 1) + {Peer(k)}
  }

  lemma {:induction false} PeerSetSize(k: nat)
    ensures |PeerSet(k)| <= k + 1 && Peer(0) in PeerSet(k)
  {
    if k > 0 {
      PeerSetSize(k - 1);
    }
  }

  lemma {:induction false} OthersInSet(i: nat, m: nat)
    ensures forall r :: r in Others(i, m) ==> r.addr in PeerSet(m) && r.now == 0
    decreases m + 1 - i
  {
    PeerSetSize(m);
    if i <= m {
      OthersInSet(i + 1, m);
      InPeerSet(i, m);
    }
  }

  lemma {:induction false} InPeerSet(i: nat, m: nat)
    requires i <= m
    ensures Peer(i) in PeerSet(m)
  {
    if i < m {
      InPeerSet(i, m - 1);
    }
  }

  lemma {:induction false} AllAtOnce(run: seq<Request>)
    requires forall r :: r in run ==> r.now == 0
    ensures Nondecreasing(run)
  {
  }

  lemma CrowdFits(c: Config)
    requires ValidConfig(c)
    ensures Crowd(c) != [] && Fits(c.maxEntries + 1, PeerSet(c.maxEntries), Crowd(c))
    ensures forall r :: r in Crowd(c) ==> r.now == 0
  {
    PeerSetSize(c.maxEntries);
    OthersInSet(1, c.maxEntries);
    var first, rest := Repeat(Peer(0), 0, c.limits.burst), Others(1, c.maxEntries);
    assert forall r :: r in first ==> r == Request(Peer(0), 0);
    assert forall r :: r in first + rest ==> r in first || r in rest;
    AllAtOnce(Crowd(c));
  }

  function Lined(k: nat): seq<Addr> {
    if k == 0 then [Peer(0)] else [Peer(k)] + Lined(k - 1)
  }

  /** The first `k + 1` peers, the last to come in front, all seen at time zero. */
  ghost predicate Crowded(s: Limiter, k: nat) {
    && Bijective(s) && s.lru == Lined(k) && |s.entries| == k + 1
    && forall a :: a in s.entries ==> s.entries[a].lastSeen == 0
  }

  lemma {:induction false} LinedPeers(k: nat)
    ensures Lined(k) != [] && Lined(k)[|Lined(k)| - 1] == Peer(0)
    ensures forall i: nat :: k < i ==> Peer(i) !in Lined(k)
  {
    if k > 0 {
      LinedPeers(k - 1);
    }
    forall i: nat | k < i ensures Peer(i) !in Lined(k) {
      PeersDiffer(k, i);
    }
  }

  /** Nobody is idle at time zero, and a client not on the map is let through. */
  lemma NewcomerIsLetThrough(c: Config, s: Limiter, a: Addr)
    requires ValidConfig(c) && Bijective(s) && a !in s.entries
    requires forall x :: x in s.entries ==> s.entries[x].lastSeen == 0
    ensures RemoveExpired(c, s, 0) == s && Allow(c, s, a, 0) == Insert(c, s, a, 0) && Allow(c, s, a, 0).1
  {
    FullIsSettled(c.limits, 0);
  }

  lemma CrowdGrows(c: Config, s: Limiter, k: nat)
    requires ValidConfig(c) && Crowded(s, k) && k + 1 < c.maxEntries
    ensures Crowded(Allow(c, s, Peer(k + 1), 0).0, k + 1) && Allow(c, s, Peer(k + 1), 0).1
  {
    LinedPeers(k);
    NewcomerIsLetThrough(c, s, Peer(k + 1));
    AllowBijective(c, s, Peer(k + 1), 0);
    hide Take, RemoveExpired, Lined, Peer;
    assert Lined(k + 1) == [Peer(k + 1)] + Lined(k) by { LinedNext(k); }
  }

  lemma LinedNext(k: nat)
    ensures Lined(k + 1) == [Peer(k + 1)] + Lined(k)
  {
  }

  /** The last newcomer takes the place of the first peer, which then is new again. */
  lemma CrowdEvicts(c: Config, s: Limiter)
    requires ValidConfig(c) && Crowded(s, c.maxEntries - 1)
    ensures var (s', ok) := Allow(c, s, Peer(c.maxEntries), 0);
            && ok && Bijective(s') && Allow(c, s', Peer(0), 0).1
  {
    var a := Peer(c.maxEntries);
    LinedPeers(c.maxEntries - 1);
    PeersDiffer(c.maxEntries, 0);
    NewcomerIsLetThrough(c, s, a);
    AllowBijective(c, s, a, 0);
    var s' := Allow(c, s, a, 0).0;
    hide Take, RemoveExpired, Lined, Peer;
    assert Back(s) == Peer(0);
    assert Peer(0) !in s'.entries;
    NewcomerIsLetThrough(c, s', Peer(0));
  }

  lemma LastPeer(c: Config, s: Limiter)
    requires ValidConfig(c) && Crowded(s, c.maxEntries - 1)
    ensures false !in Decisions(c, s, Others(c.maxEntries, c.maxEntries))
  {
    CrowdEvicts(c, s);
    var r, last := Request(Peer(c.maxEntries), 0), Request(Peer(0), 0);
    LastOthers(c.maxEntries);
    hide Allow, Crowded, Peer, Decisions, Others;
    var s' := Allow(c, s, r.addr, 0).0;
    DecisionsStep(c, s, r, [last]);
    DecisionsStep(c, s', last, []);
    NoDecisions(c, Allow(c, s', last.addr, 0).0);
    assert [last] + [] == [last];
  }

  lemma LastOthers(m: nat)
    ensures Others(m, m) == [Request(Peer(m), 0)] + [Request(Peer(0), 0)]
  {
  }

  lemma NoDecisions(c: Config, s: Limiter)
    requires Bijective(s)
    ensures Decisions(c, s, []) == []
  {
  }

  lemma NextOthers(i: nat, m: nat)
    requires i <= m
    ensures Others(i, m) == [Request(Peer(i), 0)] + Others(i + 1, m)
  {
  }

  lemma {:induction false} CrowdIsLetThrough(c: Config, s: Limiter, k: nat)
    requires ValidConfig(c) && Crowded(s, k) && k < c.maxEntries
    ensures false !in Decisions(c, s, Others(k + 1, c.maxEntries))
    decreases c.maxEntries - k
  {
    hide Decisions, Allow, Crowded, Others, Peer, Bijective;
    if k + 1 < c.maxEntries {
      var r := Request(Peer(k + 1), 0);
      CrowdIsBijective(s, k);
      NextOthers(k + 1, c.maxEntries);
      CrowdGrows(c, s, k);
      DecisionsStep(c, s, r, Others(k + 2, c.maxEntries));
      CrowdIsLetThrough(c, Allow(c, s, r.addr, r.now).0, k + 1);
    } else {
      LastPeer(c, s);
    }
  }

  lemma CrowdIsBijective(s: Limiter, k: nat)
    requires Crowded(s, k)
    ensures Bijective(s)
  {
  }

  lemma OnlyIsCrowded()
    ensures Crowded(Only(Peer(0), 0, 0), 0)
  {
    OnlyIsBijective(Peer(0), 0, 0);
  }

  lemma YesAndMore(n: nat, ds: seq<bool>)
    requires false !in ds
    ensures false !in Yes(n) + ds
  {
  }

  lemma CrowdAgainstEvicting(c: Config)
    requires ValidConfig(c)
    ensures false !in Decisions(c, Empty, Crowd(c))
  {
    hide Decisions, Crowded, Peer, Others, Repeat, Yes;
    var rest := Others(1, c.maxEntries);
    BurstOfANewClient(c, Empty, Peer(0), 0, rest);
    OnlyIsCrowded();
    CrowdIsLetThrough(c, Only(Peer(0), 0, 0), 0);
    YesAndMore(c.limits.burst, Decisions(c, Only(Peer(0), 0, 0), rest));
  }

  lemma {:induction false} RefDeniesAtTheEnd(l: Limits, m: Buckets, i: nat, n: nat)
    requires 0 < i && Peer(0) in m && m[Peer(0)] == Bucket(0, 0)
    ensures false in RefDecisions(l, m, Others(i, n))
    decreases n + 1 - i
  {
    if i > n {
      assert Others(i, n) == [Request(Peer(0), 0)] + [];
      RefDecisionsStep(l, m, Request(Peer(0), 0), []);
    } else {
      var r := Request(Peer(i), 0);
      NextOthers(i, n);
      RefDecisionsStep(l, m, r, Others(i + 1, n));
      PeersDiffer(i, 0);
      RefDeniesAtTheEnd(l, RefAllow(l, m, r.addr, r.now).0, i + 1, n);
    }
  }

  lemma CrowdAgainstReference(c: Config)
    requires ValidConfig(c)
    ensures false in RefDecisions(c.limits, map[], Crowd(c))
  {
    var rest := Others(1, c.maxEntries);
    RefBurstOfANewClient(c, Peer(0), 0, rest);
    hide RefDecisions;
    RefDeniesAtTheEnd(c.limits, map[Peer(0) := Bucket(0, 0)], 1, c.maxEntries);
  }

  lemma FitsMore(m: nat, n: nat, clients: set<Addr>, run: seq<Request>)
    requires Fits(m, clients, run) && m <= n
    ensures Fits(n, clients, run)
  {
  }

  lemma ProbeFits(c: Config, a: Addr)
    ensures Fits(1, {a}, Probe(c, a))
  {
  }

  /** For runs of at most `n` clients by a clock that does not run backwards, the limiter that
      forgets decides like the one that never does exactly when an idle client's bucket refills
      completely before it is dropped, and there is an entry for each of the clients. */
  lemma UnobservableIff(c: Config, n: nat)
    requires ValidConfig(c) && 0 < n
    ensures Unobservable(c, n) <==> LongIdle(c) && n <= c.maxEntries
  {
    hide Decisions, RefDecisions, Fits, Probe, Crowd;
    if LongIdle(c) && n <= c.maxEntries {
      forall clients, run | Fits(n, clients, run) ensures Decisions(c, Empty, run) == RefDecisions(c.limits, map[], run) {
        FitsMore(n, c.maxEntries, clients, run);
        ForgettingIsUnobservable(c, clients, run);
      }
    } else if !LongIdle(c) {
      var a := Peer(0);
      ProbeAgainstEvicting(c, a);
      ProbeAgainstReference(c, a);
      ProbeFits(c, a);
      FitsMore(1, n, {a}, Probe(c, a));
    } else {
      CrowdAgainstEvicting(c);
      CrowdAgainstReference(c);
      CrowdFits(c);
      FitsMore(c.maxEntries + 1, n, PeerSet(c.maxEntries), Crowd(c));
    }
  }

  // ---- the promised rate ----------------------------------------------------------------

  function AllowedCount(a: Addr, run: seq<Request>, ds: seq<bool>): nat
    requires |ds| == |run|
  {
    if run == [] then 0
    else (if run[0].addr == a && ds[0] then 1 else 0) + AllowedCount(a, run[1..], ds[1..])
  }

  lemma {:induction false} RefDecisionsLength(l: Limits, m: Buckets, run: seq<Request>)
    ensures |RefDecisions(l, m, run)| == |run|
    decreases |run|
  {
    if run != [] {
      RefDecisionsLength(l, RefAllow(l, m, run[0].addr, run[0].now).0, run[1..]);
    }
  }

  /** A bucket as a client can have it at `now`: not used later, or not used at all. */
  ghost predicate Ready(l: Limits, b: Bucket, now: int) {
    0 <= Available(l, b, now) && (b.last <= now || b == Full(l))
  }

  lemma ReadyStays(l: Limits, b: Bucket, now: int, later: int)
    requires Ready(l, b, now) && now <= later
    ensures Ready(l, b, later)
  {
    if b.last <= now {
      MulMonotone(l.rate, now - b.last, later - b.last);
    } else {
      NewIsFull(l, later);
    }
  }

  lemma RequestIsPaidFor(l: Limits, b: Bucket, start: int, now: int)
    requires Ready(l, b, start) && start <= now
    ensures var (b', ok) := Take(l, b, now);
            && Ready(l, b', now)
            && (if ok then NANO else 0) + Available(l, b', now) <= Available(l, b, start) + l.rate * (now - start)
  {
    MulMonotone(l.rate, 0, now - start);
    if b == Full(l) {
      NewIsFull(l, start);
      NewIsFull(l, now);
    } else {
      AvailableGrows(l, b, start, now);
      MulMonotone(l.rate, start - b.last, now - b.last);
    }
  }

  lemma RefAllowBucket(l: Limits, m: Buckets, r: Request, a: Addr)
    ensures var b := BucketOf(l, RefAllow(l, m, r.addr, r.now).0, a);
            b == if a == r.addr then Take(l, BucketOf(l, m, a), r.now).0 else BucketOf(l, m, a)
    ensures RefAllow(l, m, r.addr, r.now).1 == Take(l, BucketOf(l, m, r.addr), r.now).1
  {
    hide Take;
  }

  lemma AllowedCountStep(a: Addr, r: Request, run: seq<Request>, ok: bool, ds: seq<bool>)
    requires |run| == |ds|
    ensures AllowedCount(a, [r] + run, [ok] + ds) == AllowedCount(a, run, ds) + (if r.addr == a && ok then 1 else 0)
  {
    assert ([r] + run)[1..] == run && ([ok] + ds)[1..] == ds;
  }

  /** What one request does to the bucket and to the count of client `a`. */
  lemma OneRequest(l: Limits, m: Buckets, a: Addr, r: Request, rest: seq<Request>, start: int)
    requires Ready(l, BucketOf(l, m, a), start) && start <= r.now
    ensures var m' := RefAllow(l, m, r.addr, r.now).0; var b, b' := BucketOf(l, m, a), BucketOf(l, m', a);
            && |RefDecisions(l, m', rest)| == |rest| && |RefDecisions(l, m, [r] + rest)| == |[r] + rest|
            && var n := AllowedCount(a, [r] + rest, RefDecisions(l, m, [r] + rest))
                        - AllowedCount(a, rest, RefDecisions(l, m', rest));
               if r.addr == a then n >= 0 && Ready(l, b', r.now)
                 && NANO * n + Available(l, b', r.now) <= Available(l, b, start) + l.rate * (r.now - start)
               else b' == b && n == 0
  {
    var (m', ok) := RefAllow(l, m, r.addr, r.now);
    RefAllowBucket(l, m, r, a);
    RequestIsPaidFor(l, BucketOf(l, m, a), start, r.now);
    RefDecisionsStep(l, m, r, rest);
    RefDecisionsLength(l, m', rest);
    AllowedCountStep(a, r, rest, ok, RefDecisions(l, m', rest));
    hide RefAllow, RefDecisions, Take, Available, BucketOf, AllowedCount, Capacity, Ready;
  }

  /** Two bills over adjacent windows add up. */
  lemma AddBills(n: nat, k: nat, rate: nat, before: int, middle: int, start: int, now: int, end: int)
    requires NANO * n + middle <= before + rate * (now - start) && NANO * k <= middle + rate * (end - now)
    ensures NANO * (n + k) <= before + rate * (end - start)
  {
    assert rate * (end - start) == rate * (now - start) + rate * (end - now);
  }

  lemma NothingSpent(l: Limits, m: Buckets, a: Addr, start: int, end: int)
    requires Ready(l, BucketOf(l, m, a), start) && start <= end
    ensures RefDecisions(l, m, []) == []
    ensures AllowedCount(a, [], []) == 0 <= Available(l, BucketOf(l, m, a), start) + l.rate * (end - start)
  {
    MulMonotone(l.rate, 0, end - start);
  }

  lemma RestInWindow(run: seq<Request>, start: int, end: int)
    requires run != [] && Nondecreasing(run) && forall r :: r in run ==> start <= r.now <= end
    ensures Nondecreasing(run[1..]) && forall r :: r in run[1..] ==> run[0].now <= r.now <= end
  {
  }

  lemma {:induction false} SpendingIsPaidFor(l: Limits, m: Buckets, a: Addr, run: seq<Request>, start: int, end: int)
    requires Nondecreasing(run) && (forall r :: r in run ==> start <= r.now <= end) && start <= end
    requires Ready(l, BucketOf(l, m, a), start)
    ensures |RefDecisions(l, m, run)| == |run|
    ensures NANO * AllowedCount(a, run, RefDecisions(l, m, run))
         <= Available(l, BucketOf(l, m, a), start) + l.rate * (end - start)
    decreases |run|
  {
    hide *;
    if run == [] {
      NothingSpent(l, m, a, start, end);
    } else {
      var r, rest := run[0], run[1..];
      assert run == [r] + rest && r in run;
      RestInWindow(run, start, end);
      OneRequest(l, m, a, r, rest, start);
      var m' := RefAllow(l, m, r.addr, r.now).0;
      if r.addr == a {
        SpendingIsPaidFor(l, m', a, rest, r.now, end);
        var k := AllowedCount(a, rest, RefDecisions(l, m', rest));
        AddBills(AllowedCount(a, run, RefDecisions(l, m, run)) - k, k, l.rate, Available(l, BucketOf(l, m, a), start),
                 Available(l, BucketOf(l, m', a), r.now), start, r.now, end);
      } else {
        SpendingIsPaidFor(l, m', a, rest, start, end);
      }
    }
  }

  lemma {:induction false} RefDecisionsPrefix(l: Limits, m: Buckets, run: seq<Request>, j: nat)
    requires j <= |run|
    ensures |RefDecisions(l, m, run)| == |run| && RefDecisions(l, m, run)[..j] == RefDecisions(l, m, run[..j])
    decreases |run|
  {
    RefDecisionsLength(l, m, run);
    if j == 0 {
      assert run[..0] == [];
    } else {
      assert run[..j][1..] == run[1..][..j - 1];
      RefDecisionsPrefix(l, RefAllow(l, m, run[0].addr, run[0].now).0, run[1..], j - 1);
    }
  }

  /** Let through at most `burst + rate * seconds` times. */
  ghost predicate Within(l: Limits, a: Addr, run: seq<Request>, ds: seq<bool>)
    requires run != []
  {
    && |ds| == |run|
    && NANO * AllowedCount(a, run, ds) <= Capacity(l) + l.rate * (run[|run| - 1].now - run[0].now)
  }

  lemma PrefixIsBounded(l: Limits, m: Buckets, a: Addr, run: seq<Request>)
    requires Nondecreasing(run) && run != [] && Ready(l, BucketOf(l, m, a), run[0].now)
    ensures Within(l, a, run, RefDecisions(l, m, run))
  {
    InOrder(run);
    hide Nondecreasing, RefDecisions, BucketOf, AllowedCount, Capacity, Ready;
    SpendingIsPaidFor(l, m, a, run, run[0].now, run[|run| - 1].now);
  }

  lemma InOrder(run: seq<Request>)
    requires Nondecreasing(run) && run != []
    ensures forall r :: r in run ==> run[0].now <= r.now <= run[|run| - 1].now
  {
  }

  lemma ReadyForTheNext(l: Limits, m: Buckets, a: Addr, r: Request, later: int)
    requires Ready(l, BucketOf(l, m, a), r.now) && r.now <= later
    ensures Ready(l, BucketOf(l, RefAllow(l, m, r.addr, r.now).0, a), later)
  {
    RefAllowBucket(l, m, r, a);
    RequestIsPaidFor(l, BucketOf(l, m, a), r.now, r.now);
    ReadyStays(l, BucketOf(l, RefAllow(l, m, r.addr, r.now).0, a), r.now, later);
    hide RefAllow, Take, BucketOf, Ready;
  }

  lemma WindowOfRest<T>(x: T, xs: seq<T>, i: nat, j: nat)
    requires 0 < i < j <= |xs| + 1
    ensures ([x] + xs)[i..j] == xs[i - 1..j - 1]
  {
  }

  lemma PartsInOrder(run: seq<Request>, j: nat)
    requires Nondecreasing(run) && j <= |run|
    ensures Nondecreasing(run[..j]) && (run != [] ==> Nondecreasing(run[1..]))
    ensures |run| > 1 ==> run[0].now <= run[1..][0].now
  {
  }

  /** Every window of every run of the limiter that never forgets is within the rate. */
  lemma {:induction false} WindowIsBounded(l: Limits, m: Buckets, a: Addr, run: seq<Request>, i: nat, j: nat)
    requires Nondecreasing(run) && i < j <= |run| && Ready(l, BucketOf(l, m, a), run[0].now)
    ensures |RefDecisions(l, m, run)| == |run| && Within(l, a, run[i..j], RefDecisions(l, m, run)[i..j])
    decreases |run|
  {
    hide *;
    RefDecisionsPrefix(l, m, run, j);
    PartsInOrder(run, j);
    if i == 0 {
      PrefixIsBounded(l, m, a, run[..j]);
    } else {
      var r, rest := run[0], run[1..];
      assert run == [r] + rest;
      var (m', ok) := RefAllow(l, m, r.addr, r.now);
      ReadyForTheNext(l, m, a, r, rest[0].now);
      RefDecisionsStep(l, m, r, rest);
      WindowIsBounded(l, m', a, rest, i - 1, j - 1);
      WindowOfRest(r, rest, i, j);
      WindowOfRest(ok, RefDecisions(l, m', rest), i, j);
    }
  }

  /** For every run of at most `n` clients, every client and every window of the run: no more
      requests get through than the burst and the refill over the window pay for. */
  ghost predicate RateBounded(c: Config, n: nat) {
    forall clients, run, a, i: nat, j: nat :: Fits(n, clients, run) && i < j <= |run| ==> WindowWithin(c, a, run, i, j)
  }

  ghost predicate WindowWithin(c: Config, a: Addr, run: seq<Request>, i: nat, j: nat)
    requires i < j <= |run|
  {
    |Decisions(c, Empty, run)| == |run| && Within(c.limits, a, run[i..j], Decisions(c, Empty, run)[i..j])
  }

  function Asked(a: Addr, run: seq<Request>): nat {
    if run == [] then 0 else (if run[0].addr == a then 1 else 0) + Asked(a, run[1..])
  }

  lemma {:induction false} AskedAppend(a: Addr, x: seq<Request>, y: seq<Request>)
    ensures Asked(a, x + y) == Asked(a, x) + Asked(a, y)
  {
    if x == [] {
      assert x + y == y;
    } else {
      assert (x + y)[1..] == x[1..] + y;
      AskedAppend(a, x[1..], y);
    }
  }

  lemma {:induction false} AskedAlways(a: Addr, run: seq<Request>)
    requires forall r :: r in run ==> r.addr == a
    ensures Asked(a, run) == |run|
  {
    if run != [] {
      AskedAlways(a, run[1..]);
    }
  }

  lemma {:induction false} AllLetThrough(a: Addr, run: seq<Request>, ds: seq<bool>)
    requires |ds| == |run| && false !in ds
    ensures AllowedCount(a, run, ds) == Asked(a, run)
  {
    if run != [] {
      AllLetThrough(a, run[1..], ds[1..]);
    }
  }

  lemma {:induction false} DecisionsLength(c: Config, s: Limiter, run: seq<Request>)
    requires Bijective(s)
    ensures |Decisions(c, s, run)| == |run|
    decreases |run|
  {
    if run != [] {
      AllowBijective(c, s, run[0].addr, run[0].now);
      DecisionsLength(c, Allow(c, s, run[0].addr, run[0].now).0, run[1..]);
    }
  }

  /** A run in which everybody is let through, and one client asks for more than it may have. */
  lemma TooMuch(c: Config, a: Addr, run: seq<Request>)
    requires run != [] && false !in Decisions(c, Empty, run)
    requires NANO * Asked(a, run) > Capacity(c.limits) + c.limits.rate * (run[|run| - 1].now - run[0].now)
    ensures !WindowWithin(c, a, run, 0, |run|)
  {
    DecisionsLength(c, Empty, run);
    hide Decisions, AllowedCount, Capacity, Asked;
    var ds := Decisions(c, Empty, run);
    AllLetThrough(a, run, ds);
    assert run[0..|run|] == run && ds[0..|run|] == ds;
  }

  lemma ProbeAsks(c: Config, a: Addr)
    requires ValidConfig(c)
    ensures var run := Probe(c, a);
            && run != [] && Asked(a, run) == c.limits.burst + c.limits.burst
            && run[|run| - 1].now == c.idle && run[0].now == 0
  {
    AskedAlways(a, Probe(c, a));
  }

  lemma TwoBurstsAreTooMany(c: Config)
    requires !LongIdle(c)
    ensures NANO * (c.limits.burst + c.limits.burst) > Capacity(c.limits) + c.limits.rate * (c.idle - 0)
  {
  }

  /** A forgotten client spends a second burst that nothing paid for. */
  lemma ProbeExceedsTheRate(c: Config, a: Addr)
    requires ValidConfig(c) && !LongIdle(c)
    ensures Probe(c, a) != [] && !WindowWithin(c, a, Probe(c, a), 0, |Probe(c, a)|)
  {
    hide Decisions, Probe, Asked, Capacity, LongIdle, WindowWithin;
    ProbeAsks(c, a);
    ProbeAgainstEvicting(c, a);
    TwoBurstsAreTooMany(c);
    TooMuch(c, a, Probe(c, a));
  }

  lemma {:induction false} OthersAskOnce(i: nat, m: nat)
    requires 0 < i
    ensures Asked(Peer(0), Others(i, m)) == 1
    decreases m + 1 - i
  {
    if i <= m {
      PeersDiffer(i, 0);
      NextOthers(i, m);
      AskedAppend(Peer(0), [Request(Peer(i), 0)], Others(i + 1, m));
      OthersAskOnce(i + 1, m);
    }
  }

  lemma CrowdAsks(c: Config)
    ensures Asked(Peer(0), Crowd(c)) == c.limits.burst + 1
  {
    var first := Repeat(Peer(0), 0, c.limits.burst);
    AskedAppend(Peer(0), first, Others(1, c.maxEntries));
    AskedAlways(Peer(0), first);
    OthersAskOnce(1, c.maxEntries);
  }

  /** A client crowded out of the map gets one request more than its burst in the same instant. */
  lemma CrowdExceedsTheRate(c: Config)
    requires ValidConfig(c)
    ensures Crowd(c) != [] && !WindowWithin(c, Peer(0), Crowd(c), 0, |Crowd(c)|)
  {
    CrowdFits(c);
    CrowdAsks(c);
    CrowdAgainstEvicting(c);
    hide Decisions, Crowd, Asked, Fits;
    var run := Crowd(c);
    assert run[0] in run && run[|run| - 1] in run;
    TooMuch(c, Peer(0), run);
  }

  lemma BoundedWhenLongIdle(c: Config, clients: set<Addr>, run: seq<Request>, a: Addr, i: nat, j: nat)
    requires ValidConfig(c) && LongIdle(c) && Fits(c.maxEntries, clients, run) && i < j <= |run|
    ensures WindowWithin(c, a, run, i, j)
  {
    ForgettingIsUnobservable(c, clients, run);
    NewIsFull(c.limits, run[0].now);
    hide Decisions, RefDecisions, Within;
    WindowIsBounded(c.limits, map[], a, run, i, j);
  }

  /** The rate the limiter is configured with holds for the limiter that forgets, in every window
      of every run of at most `n` clients, under exactly the same condition. */
  lemma RateBoundedIff(c: Config, n: nat)
    requires ValidConfig(c) && 0 < n
    ensures RateBounded(c, n) <==> LongIdle(c) && n <= c.maxEntries
  {
    hide WindowWithin, Decisions, Fits, Probe, Crowd;
    if LongIdle(c) && n <= c.maxEntries {
      forall clients, run, a, i: nat, j: nat | Fits(n, clients, run) && i < j <= |run| ensures WindowWithin(c, a, run, i, j) {
        FitsMore(n, c.maxEntries, clients, run);
        BoundedWhenLongIdle(c, clients, run, a, i, j);
      }
    } else if !LongIdle(c) {
      var a := Peer(0);
      ProbeExceedsTheRate(c, a);
      ProbeFits(c, a);
      FitsMore(1, n, {a}, Probe(c, a));
    } else {
      CrowdExceedsTheRate(c);
      CrowdFits(c);
      FitsMore(c.maxEntries + 1, n, PeerSet(c.maxEntries), Crowd(c));
    }
  }

  // ---- the exact decision -------------------------------------------------------------------

  function RefAfter(l: Limits, m: Buckets, run: seq<Request>): Buckets
    decreases |run|
  {
    if run == [] then m else RefAfter(l, RefAllow(l, m, run[0].addr, run[0].now).0, run[1..])
  }

  lemma {:induction false} RefLast(l: Limits, m: Buckets, run: seq<Request>, r: Request)
    ensures RefAfter(l, m, run + [r]) == RefAllow(l, RefAfter(l, m, run), r.addr, r.now).0
    ensures RefDecisions(l, m, run + [r])
         == RefDecisions(l, m, run) + [RefAllow(l, RefAfter(l, m, run), r.addr, r.now).1]
    decreases |run|
  {
    if run == [] {
      assert run + [r] == [r] + [];
      RefDecisionsStep(l, m, r, []);
      assert ([r] + [])[1..] == [];
    } else {
      var m' := RefAllow(l, m, run[0].addr, run[0].now).0;
      assert (run + [r])[1..] == run[1..] + [r] && (run + [r])[0] == run[0];
      RefLast(l, m', run[1..], r);
    }
  }

  lemma {:induction false} AllowedCountAppend(a: Addr, x: seq<Request>, dx: seq<bool>, r: Request, ok: bool)
    requires |x| == |dx|
    ensures AllowedCount(a, x + [r], dx + [ok]) == AllowedCount(a, x, dx) + (if r.addr == a && ok then 1 else 0)
  {
    if x == [] {
      assert x + [r] == [r] && dx + [ok] == [ok];
      assert [r][1..] == [] && [ok][1..] == [];
    } else {
      assert (x + [r])[1..] == x[1..] + [r] && (dx + [ok])[1..] == dx[1..] + [ok];
      AllowedCountAppend(a, x[1..], dx[1..], r, ok);
    }
  }

  /** A full bucket at request `i`, what has been refilled since, and what client `a` has been
      allowed since. */
  function Balance(l: Limits, run: seq<Request>, ds: seq<bool>, a: Addr, i: nat, now: int): int
    requires |run| == |ds| && i < |run|
  {
    l.burst * 1_000_000_000 + l.rate * (now - run[i].now) - 1_000_000_000 * AllowedCount(a, run[i..], ds[i..])
  }

  /** The limiter that keeps every bucket, from the beginning. */
  function BucketAfter(l: Limits, run: seq<Request>, a: Addr): Bucket {
    BucketOf(l, RefAfter(l, map[], run), a)
  }

  function DecisionsOf(l: Limits, run: seq<Request>): (ds: seq<bool>)
    ensures |ds| == |run|
  {
    RefDecisionsLength(l, map[], run);
    RefDecisions(l, map[], run)
  }

  /** Some earlier request of the client leaves less than `v`. */
  ghost predicate Short(l: Limits, run: seq<Request>, a: Addr, now: int, v: int) {
    exists i :: 0 <= i < |run| && run[i].addr == a && Balance(l, run, DecisionsOf(l, run), a, i, now) < v
  }

  lemma SuffixNext<T>(xs: seq<T>, x: T, i: nat)
    requires i <= |xs|
    ensures (xs + [x])[i..] == xs[i..] + [x]
  {
  }

  /** One more request: the decision is the bucket's, and only the client's bucket changes. */
  lemma OneMore(l: Limits, run: seq<Request>, r: Request, a: Addr)
    ensures var ok := Take(l, BucketAfter(l, run, r.addr), r.now).1;
            DecisionsOf(l, run + [r]) == DecisionsOf(l, run) + [ok]
    ensures BucketAfter(l, run + [r], a)
         == if a == r.addr then Take(l, BucketAfter(l, run, a), r.now).0 else BucketAfter(l, run, a)
  {
    RefLast(l, map[], run, r);
    RefAllowBucket(l, RefAfter(l, map[], run), r, a);
    hide RefAfter, RefDecisions, Take, RefAllow;
  }

  lemma CountOne(a: Addr, r: Request, ok: bool)
    ensures AllowedCount(a, [r], [ok]) == if r.addr == a && ok then 1 else 0
  {
    assert [r][1..] == [] && [ok][1..] == [];
  }

  lemma BalanceStep(l: Limits, run: seq<Request>, r: Request, a: Addr, i: nat, now: int)
    requires i < |run|
    ensures var ok := Take(l, BucketAfter(l, run, r.addr), r.now).1;
            && Balance(l, run + [r], DecisionsOf(l, run + [r]), a, i, now)
               == Balance(l, run, DecisionsOf(l, run), a, i, now) - (if r.addr == a && ok then 1_000_000_000 else 0)
  {
    hide DecisionsOf, BucketAfter, Take, AllowedCount;
    OneMore(l, run, r, a);
    var ds, ok := DecisionsOf(l, run), Take(l, BucketAfter(l, run, r.addr), r.now).1;
    SuffixNext(run, r, i);
    SuffixNext(ds, ok, i);
    AllowedCountAppend(a, run[i..], ds[i..], r, ok);
    assert (run + [r])[i] == run[i];
  }

  lemma BalanceGrows(l: Limits, run: seq<Request>, a: Addr, i: nat, at: int, now: int)
    requires i < |run|
    ensures Balance(l, run, DecisionsOf(l, run), a, i, now)
         == Balance(l, run, DecisionsOf(l, run), a, i, at) + l.rate * (now - at)
  {
    hide DecisionsOf, AllowedCount;
    assert l.rate * (now - run[i].now) == l.rate * (at - run[i].now) + l.rate * (now - at);
  }

  lemma NewBalance(l: Limits, run: seq<Request>, r: Request, a: Addr, now: int)
    ensures var ok := Take(l, BucketAfter(l, run, r.addr), r.now).1;
            Balance(l, run + [r], DecisionsOf(l, run + [r]), a, |run|, now)
            == l.burst * 1_000_000_000 + l.rate * (now - r.now) - (if r.addr == a && ok then 1_000_000_000 else 0)
  {
    hide DecisionsOf, BucketAfter, Take, AllowedCount;
    OneMore(l, run, r, a);
    var ds, ok := DecisionsOf(l, run), Take(l, BucketAfter(l, run, r.addr), r.now).1;
    SuffixNext(run, r, |run|);
    SuffixNext(ds, ok, |run|);
    assert (run + [r])[|run|] == r && run[|run|..] + [r] == [r] && ds[|run|..] + [ok] == [ok];
    CountOne(a, r, ok);
  }

  /** What a bucket holds after a request of its client: a token less if allowed, and in any case the
      refill, up to the burst. */
  lemma AvailableAfter(l: Limits, b: Bucket, at: int, now: int)
    requires Ready(l, b, at) && at <= now
    ensures var (b', ok) := Take(l, b, at);
            && (ok <==> NANO <= Available(l, b, at) && 0 < l.burst)
            && Available(l, b', now)
               == Min(Capacity(l), Available(l, b, at) + l.rate * (now - at) - (if ok then NANO else 0))
    ensures Available(l, b, now) == Min(Capacity(l), Available(l, b, at) + l.rate * (now - at))
  {
    MulMonotone(l.rate, 0, now - at);
    if b == Full(l) {
      NewIsFull(l, at);
      NewIsFull(l, now);
    } else {
      assert l.rate * (now - b.last) == l.rate * (at - b.last) + l.rate * (now - at);
      MulMonotone(l.rate, 0, at - b.last);
    }
  }

  lemma {:induction false} ReadyThroughout(l: Limits, run: seq<Request>, a: Addr, now: int)
    requires Nondecreasing(run) && (run != [] ==> run[|run| - 1].now <= now)
    ensures Ready(l, BucketAfter(l, run, a), now)
    decreases |run|
  {
    if run == [] {
      NewIsFull(l, now);
    } else {
      var init, r := run[..|run| - 1], run[|run| - 1];
      PartsInOrder(run, |run| - 1);
      assert run == init + [r];
      assert init != [] ==> init[|init| - 1].now <= r.now;
      hide Nondecreasing, Ready, Available, Take, BucketAfter;
      ReadyThroughout(l, init, a, r.now);
      OneMore(l, init, r, a);
      if a == r.addr {
        RequestIsPaidFor(l, BucketAfter(l, init, a), r.now, r.now);
      }
      ReadyStays(l, BucketAfter(l, run, a), r.now, now);
    }
  }

  /** What a balance below `v` at `now` means at the client's own last request. */
  function Earlier(l: Limits, run: seq<Request>, r: Request, now: int, v: int): int {
    v - l.rate * (now - r.now) + (if Take(l, BucketAfter(l, run, r.addr), r.now).1 then NANO else 0)
  }

  lemma OwnBalance(l: Limits, run: seq<Request>, r: Request, i: nat, now: int, v: int)
    requires i < |run|
    ensures Balance(l, run + [r], DecisionsOf(l, run + [r]), r.addr, i, now) < v
       <==> Balance(l, run, DecisionsOf(l, run), r.addr, i, r.now) < Earlier(l, run, r, now, v)
    ensures (run + [r])[i] == run[i]
  {
    hide DecisionsOf, Take, BucketAfter, Balance;
    BalanceStep(l, run, r, r.addr, i, now);
    BalanceGrows(l, run, r.addr, i, r.now, now);
  }

  lemma ShortAfterOwn(l: Limits, run: seq<Request>, r: Request, now: int, v: int)
    ensures Short(l, run + [r], r.addr, now, v) <==>
              || Short(l, run, r.addr, r.now, Earlier(l, run, r, now, v))
              || Balance(l, run + [r], DecisionsOf(l, run + [r]), r.addr, |run|, now) < v
  {
    var all, a := run + [r], r.addr;
    hide DecisionsOf, Balance, Earlier;
    assert |all| == |run| + 1 && all[|run|] == r;
    forall i | 0 <= i < |run|
      ensures all[i] == run[i]
      ensures Balance(l, all, DecisionsOf(l, all), a, i, now) < v
         <==> Balance(l, run, DecisionsOf(l, run), a, i, r.now) < Earlier(l, run, r, now, v)
    {
      OwnBalance(l, run, r, i, now, v);
    }
  }

  /** One request of the client itself. */
  lemma OwnRequest(l: Limits, run: seq<Request>, r: Request, now: int, v: int)
    requires r.now <= now && Ready(l, BucketAfter(l, run, r.addr), r.now)
    requires forall u :: Available(l, BucketAfter(l, run, r.addr), r.now) < u <==>
                           Capacity(l) < u || Short(l, run, r.addr, r.now, u)
    ensures Available(l, BucketAfter(l, run + [r], r.addr), now) < v <==>
              Capacity(l) < v || Short(l, run + [r], r.addr, now, v)
  {
    var b, u := BucketAfter(l, run, r.addr), Earlier(l, run, r, now, v);
    assert Available(l, b, r.now) < u <==> Capacity(l) < u || Short(l, run, r.addr, r.now, u);
    hide Take, Available, DecisionsOf, BucketAfter, Ready, Balance, Short;
    OneMore(l, run, r, r.addr);
    AvailableAfter(l, b, r.now, now);
    ShortAfterOwn(l, run, r, now, v);
    NewBalance(l, run, r, r.addr, now);
    MulMonotone(l.rate, 0, now - r.now);
  }

  /** A request of somebody else. */
  lemma OtherRequest(l: Limits, run: seq<Request>, r: Request, a: Addr, now: int, v: int)
    requires r.addr != a
    requires Available(l, BucketAfter(l, run, a), now) < v <==> Capacity(l) < v || Short(l, run, a, now, v)
    ensures Available(l, BucketAfter(l, run + [r], a), now) < v <==> Capacity(l) < v || Short(l, run + [r], a, now, v)
  {
    var all := run + [r];
    hide Take, Available, DecisionsOf, BucketAfter, Balance;
    OneMore(l, run, r, a);
    assert |all| == |run| + 1 && all[|run|] == r;
    forall i | 0 <= i < |run|
      ensures all[i] == run[i]
      ensures Balance(l, all, DecisionsOf(l, all), a, i, now) == Balance(l, run, DecisionsOf(l, run), a, i, now)
    {
      BalanceStep(l, run, r, a, i, now);
    }
  }

  /** What a client's bucket holds: the least of the burst and all its balances. */
  lemma {:induction false} AvailableIff(l: Limits, run: seq<Request>, a: Addr, now: int, v: int)
    requires Nondecreasing(run) && (run != [] ==> run[|run| - 1].now <= now)
    ensures Available(l, BucketAfter(l, run, a), now) < v <==> Capacity(l) < v || Short(l, run, a, now, v)
    decreases |run|
  {
    if run == [] {
      NewIsFull(l, now);
    } else {
      var init, r := run[..|run| - 1], run[|run| - 1];
      assert run == init + [r];
      PartsInOrder(run, |run| - 1);
      assert init != [] ==> init[|init| - 1].now <= r.now;
      hide Nondecreasing, Available, BucketAfter, Short, Ready, Capacity;
      if r.addr == a {
        ReadyThroughout(l, init, a, r.now);
        forall u ensures Available(l, BucketAfter(l, init, a), r.now) < u <==> Capacity(l) < u || Short(l, init, a, r.now, u) {
          AvailableIff(l, init, a, r.now, u);
        }
        OwnRequest(l, init, r, now, v);
      } else {
        AvailableIff(l, init, a, now, v);
        OtherRequest(l, init, r, a, now, v);
      }
    }
  }

  /** Since request `i` client `a` has been allowed so much that one more at request `k` would exceed
      the burst and the refill. */
  ghost predicate TooMuchSince(l: Limits, run: seq<Request>, ds: seq<bool>, a: Addr, i: nat, k: nat)
    requires |ds| == |run| && i < k < |run|
  {
    1_000_000_000 * AllowedCount(a, run[i..k], ds[i..k]) + 1_000_000_000
    > l.burst * 1_000_000_000 + l.rate * (run[k].now - run[i].now)
  }

  /** Why a request is refused: too much since some earlier request of the same client. */
  ghost predicate Exhausted(l: Limits, run: seq<Request>, ds: seq<bool>, k: nat)
    requires |ds| == |run| && k < |run|
  {
    exists i :: 0 <= i < k && run[i].addr == run[k].addr && TooMuchSince(l, run, ds, run[k].addr, i, k)
  }

  lemma LastIsRefusedIff(l: Limits, run: seq<Request>, r: Request)
    requires Nondecreasing(run + [r]) && 0 < l.burst
    ensures !Take(l, BucketAfter(l, run, r.addr), r.now).1 <==> Short(l, run, r.addr, r.now, 1_000_000_000)
  {
    PartsInOrder(run + [r], |run|);
    assert (run + [r])[..|run|] == run;
    assert run != [] ==> run[|run| - 1].now <= r.now by {
      if run != [] {
        assert (run + [r])[|run| - 1] == run[|run| - 1] && (run + [r])[|run|] == r;
      }
    }
    hide Nondecreasing, BucketAfter, Available, Short;
    AvailableIff(l, run, r.addr, r.now, NANO);
    assert NANO <= Capacity(l);
  }

  /** Decisions do not depend on what comes later. */
  lemma DecisionsPrefix(l: Limits, run: seq<Request>, k: nat)
    requires k <= |run|
    ensures DecisionsOf(l, run)[..k] == DecisionsOf(l, run[..k])
  {
    RefDecisionsPrefix(l, map[], run, k);
  }

  lemma PartsOfPrefix<T>(xs: seq<T>, k: nat, i: nat)
    requires i < k < |xs|
    ensures xs[..k][i..] == xs[i..k] && xs[..k][i] == xs[i]
  {
  }

  lemma BalanceBefore(l: Limits, run: seq<Request>, a: Addr, i: nat, k: nat)
    requires i < k < |run|
    ensures Balance(l, run[..k], DecisionsOf(l, run[..k]), a, i, run[k].now) < 1_000_000_000
       <==> TooMuchSince(l, run, DecisionsOf(l, run), a, i, k)
  {
    hide DecisionsOf, AllowedCount;
    DecisionsPrefix(l, run, k);
    PartsOfPrefix(run, k, i);
    PartsOfPrefix(DecisionsOf(l, run), k, i);
  }

  lemma ShortIffExhausted(l: Limits, run: seq<Request>, k: nat)
    requires k < |run|
    ensures Short(l, run[..k], run[k].addr, run[k].now, 1_000_000_000) <==> Exhausted(l, run, DecisionsOf(l, run), k)
  {
    var before, a := run[..k], run[k].addr;
    hide DecisionsOf, Balance, TooMuchSince;
    forall i | 0 <= i < k
      ensures before[i] == run[i]
      ensures Balance(l, before, DecisionsOf(l, before), a, i, run[k].now) < 1_000_000_000
         <==> TooMuchSince(l, run, DecisionsOf(l, run), a, i, k)
    {
      BalanceBefore(l, run, a, i, k);
    }
  }

  /** The exact decisions of the limiter that keeps every bucket, read off the run alone. */
  lemma RefusedIffExhausted(l: Limits, run: seq<Request>, k: nat)
    requires Nondecreasing(run) && k < |run| && 0 < l.burst
    ensures !DecisionsOf(l, run)[k] <==> Exhausted(l, run, DecisionsOf(l, run), k)
  {
    var before, r := run[..k], run[k];
    PartsInOrder(run, k + 1);
    assert run[..k + 1] == before + [r];
    hide Nondecreasing, DecisionsOf, BucketAfter, Take, Short, Exhausted;
    DecisionsPrefix(l, run, k + 1);
    OneMore(l, before, r, r.addr);
    assert DecisionsOf(l, run)[..k + 1][k] == DecisionsOf(l, run)[k];
    LastIsRefusedIff(l, before, r);
    ShortIffExhausted(l, run, k);
  }

  /** The decisions of the limiter that forgets: for runs it has entries for, with a long enough idle
      timeout, request `k` is refused exactly if its client has been allowed too much since some
      earlier request of its own. In particular a refused request costs nothing. */
  lemma DecisionsAreExact(c: Config, clients: set<Addr>, run: seq<Request>, k: nat)
    requires ValidConfig(c) && LongIdle(c) && Fits(c.maxEntries, clients, run) && k < |run|
    ensures var ds := Decisions(c, Empty, run);
            |ds| == |run| && (!ds[k] <==> Exhausted(c.limits, run, ds, k))
  {
    ForgettingIsUnobservable(c, clients, run);
    hide Decisions, RefDecisions, Exhausted;
    RefusedIffExhausted(c.limits, run, k);
  }
}
