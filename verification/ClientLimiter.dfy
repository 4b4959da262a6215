/**
 The per-client rate limiter of the DNS front end: a map from client address to token
 bucket, and a list of the same addresses in order of use. Entries that have been idle
 are dropped from the back of the list, and so is the oldest entry when the map is full.

 The main results say when forgetting clients cannot be noticed by any of them.
 */
module TokenBucket {
  import opened Clock
  import opened Numbers

  /** Refill rate in tokens per second, and capacity in tokens. */
  datatype Limits = Limits(rate: nat, burst: nat)

  /** `tokens` counts billionths of a token, so that a refill of `rate` tokens per second over
      a number of nanoseconds is a whole number. */
  datatype Bucket = Bucket(tokens: int, last: int)

  function Capacity(l: Limits): int {
    l.burst * NANO
  }

  function Full(l: Limits): Bucket {
    Bucket(Capacity(l), 0)
  }

  function Available(l: Limits, b: Bucket, now: int): int {
    var since := if now < b.last then now else b.last;
    Min(b.tokens + l.rate * (now - since), Capacity(l))
  }

  /** Take one token at `now`; a refusal leaves the bucket as it was. */
  function Take(l: Limits, b: Bucket, now: int): (Bucket, bool) {
    var rest := Available(l, b, now) - NANO;
    if 1 <= l.burst && 0 <= rest then (Bucket(rest, now), true) else (b, false)
  }

  ghost predicate Settled(l: Limits, b: Bucket, now: int) {
    0 <= b.tokens <= Capacity(l) && b.last <= now
  }

  /** A bucket that nothing distinguishes from a new one, now or later. */
  ghost predicate Refilled(l: Limits, b: Bucket, now: int) {
    b.last <= now && Capacity(l) <= b.tokens + l.rate * (now - b.last)
  }

  lemma MulMonotone(k: nat, a: int, b: int)
    requires a <= b
    ensures k * a <= k * b
  {
    assert k * (b - a) == k * b - k * a;
    assert 0 <= k * (b - a);
  }

  lemma RefilledStays(l: Limits, b: Bucket, now: int, later: int)
    requires Refilled(l, b, now) && now <= later
    ensures Refilled(l, b, later)
  {
    MulMonotone(l.rate, now - b.last, later - b.last);
  }

  /** After `idle` nanoseconds without a successful request a bucket is full again, provided
      the refill over that time covers the burst. */
  lemma IdleRefills(l: Limits, b: Bucket, idle: nat, seen: int, now: int)
    requires Settled(l, b, seen)
    requires Capacity(l) <= idle * l.rate
    requires seen + idle <= now
    ensures Refilled(l, b, now)
  {
    MulMonotone(l.rate, idle, now - b.last);
  }

  lemma TakeKeepsSettled(l: Limits, b: Bucket, now: int)
    requires Settled(l, b, now)
    ensures Settled(l, Take(l, b, now).0, now)
  {
    MulMonotone(l.rate, 0, now - b.last);
  }

  /** A call at `now` followed by waiting until `later` gains exactly the elapsed refill. */
  lemma AvailableGrows(l: Limits, b: Bucket, now: int, later: int)
    requires b.last <= now <= later
    ensures Available(l, b, later) <= Available(l, b, now) + l.rate * (later - now)
  {
    assert l.rate * (later - b.last) == l.rate * (now - b.last) + l.rate * (later - now);
    MulMonotone(l.rate, 0, later - now);
  }
}

module LimiterModel {
  import opened Sorting
  import opened TokenBucket

  type Addr = string

  datatype Config = Config(limits: Limits, maxEntries: nat, idle: nat)
  datatype Entry = Entry(bucket: Bucket, lastSeen: int)
  datatype Limiter = Limiter(entries: map<Addr, Entry>, lru: seq<Addr>)
  datatype Request = Request(addr: Addr, now: int)

  /** What NewPolicy accepts: every limit is positive. */
  ghost predicate ValidConfig(c: Config) {
    0 < c.limits.rate && 0 < c.limits.burst && 0 < c.maxEntries && 0 < c.idle
  }

  /** The map and the list hold the same addresses, each once. */
  ghost predicate Bijective(s: Limiter) {
    && NoDuplicates(s.lru)
    && (forall a :: a in s.lru <==> a in s.entries)
  }

  const Empty: Limiter := Limiter(map[], [])

  function Without(s: seq<Addr>, x: Addr): seq<Addr> {
    if s == [] then []
    else if s[0] == x then Without(s[1..], x)
    else [s[0]] + Without(s[1..], x)
  }

  lemma {:induction false} WithoutMembers(s: seq<Addr>, x: Addr)
    ensures forall a :: a in Without(s, x) <==> a in s && a != x
  {
    if s != [] {
      WithoutMembers(s[1..], x);
      assert s == [s[0]] + s[1..];
    }
  }

  lemma {:induction false} WithoutDuplicates(s: seq<Addr>, x: Addr)
    requires NoDuplicates(s)
    ensures NoDuplicates(Without(s, x))
  {
    if s != [] {
      WithoutDuplicates(s[1..], x);
      WithoutMembers(s[1..], x);
    }
  }

  lemma {:induction false} WithoutAbsent(s: seq<Addr>, x: Addr)
    requires x !in s
    ensures Without(s, x) == s
  {
    if s != [] {
      WithoutAbsent(s[1..], x);
    }
  }

  lemma {:induction false} WithoutBack(s: seq<Addr>)
    requires s != [] && NoDuplicates(s)
    ensures Without(s, s[|s| - 1]) == s[..|s| - 1]
  {
    if |s| == 1 {
    } else {
      var t := s[1..];
      assert t[|t| - 1] == s[|s| - 1];
      assert s[|s| - 1] in t;
      WithoutBack(t);
      assert [s[0]] + t[..|t| - 1] == s[..|s| - 1];
    }
  }

  function Remove(s: Limiter, a: Addr): Limiter {
    Limiter(s.entries - {a}, Without(s.lru, a))
  }

  lemma RemoveBijective(s: Limiter, a: Addr)
    requires Bijective(s)
    ensures Bijective(Remove(s, a))
  {
    WithoutMembers(s.lru, a);
    WithoutDuplicates(s.lru, a);
  }

  function Back(s: Limiter): Addr
    requires s.lru != []
  {
    s.lru[|s.lru| - 1]
  }

  function RemoveExpired(c: Config, s: Limiter, now: int): Limiter
    requires Bijective(s)
    decreases |s.lru|
  {
    if s.lru == [] then s
    else if now - s.entries[Back(s)].lastSeen < c.idle then s
    else
      RemoveBijective(s, Back(s));
      WithoutBack(s.lru);
      RemoveExpired(c, Remove(s, Back(s)), now)
  }

  lemma RemoveExpiredBijective(c: Config, s: Limiter, now: int)
    requires Bijective(s)
    ensures Bijective(RemoveExpired(c, s, now))
    decreases |s.lru|
  {
    if s.lru != [] && now - s.entries[Back(s)].lastSeen >= c.idle {
      RemoveBijective(s, Back(s));
      WithoutBack(s.lru);
      RemoveExpiredBijective(c, Remove(s, Back(s)), now);
    }
  }

  function RemoveOldest(s: Limiter): Limiter {
    if s.lru == [] then s else Remove(s, Back(s))
  }

  function Touch(c: Config, s: Limiter, a: Addr, now: int): (Limiter, bool)
    requires a in s.entries
  {
    var (bucket, ok) := Take(c.limits, s.entries[a].bucket, now);
    (Limiter(s.entries[a := Entry(bucket, now)], [a] + Without(s.lru, a)), ok)
  }

  function Insert(c: Config, s: Limiter, a: Addr, now: int): (Limiter, bool) {
    var room := if |s.entries| >= c.maxEntries then RemoveOldest(s) else s;
    var (bucket, ok) := Take(c.limits, Full(c.limits), now);
    (Limiter(room.entries[a := Entry(bucket, now)], [a] + room.lru), ok)
  }

  function Allow(c: Config, s: Limiter, a: Addr, now: int): (Limiter, bool)
    requires Bijective(s)
  {
    var live := RemoveExpired(c, s, now);
    if a in live.entries then Touch(c, live, a, now) else Insert(c, live, a, now)
  }

  lemma AllowBijective(c: Config, s: Limiter, a: Addr, now: int)
    requires Bijective(s)
    ensures Bijective(Allow(c, s, a, now).0)
  {
    RemoveExpiredBijective(c, s, now);
    var live := RemoveExpired(c, s, now);
    WithoutMembers(live.lru, a);
    WithoutDuplicates(live.lru, a);
    if live.lru != [] {
      RemoveBijective(live, Back(live));
    }
    var front := Allow(c, s, a, now).0.lru;
    assert front == [a] + front[1..];
  }
}

module ClientLimiter {
  import opened TokenBucket
  import opened LimiterModel
  import Model = LimiterModel

  class ClientLimiters {
    const config: Config
    var entries: map<Addr, Entry>
    var lru: seq<Addr>

    function State(): Limiter
      reads this
    {
      Limiter(entries, lru)
    }

    ghost predicate Valid()
      reads this
    {
      Bijective(State())
    }

    constructor (config: Config)
      ensures Valid() && State() == Empty && this.config == config
    {
      this.config := config;
      entries, lru := map[], [];
    }

    method Allow(a: Addr, now: int) returns (ok: bool)
      requires Valid()
      modifies this
      ensures Valid()
      ensures (State(), ok) == Model.Allow(config, old(State()), a, now)
    {
      AllowBijective(config, State(), a, now);
      RemoveExpired(now);
      if a in entries {
        var entry := entries[a];
        var (bucket, allowed) := Take(config.limits, entry.bucket, now);
        entries := entries[a := Entry(bucket, now)];
        lru := [a] + Without(lru, a);
        return allowed;
      }
      if |entries| >= config.maxEntries {
        RemoveOldest();
      }
      var (bucket, allowed) := Take(config.limits, Full(config.limits), now);
      lru := [a] + lru;
      entries := entries[a := Entry(bucket, now)];
      return allowed;
    }

    method RemoveExpired(now: int)
      requires Valid()
      modifies this
      ensures Valid()
      ensures State() == Model.RemoveExpired(config, old(State()), now)
    {
      while lru != []
        invariant Valid()
        invariant Model.RemoveExpired(config, State(), now)
               == Model.RemoveExpired(config, old(State()), now)
        decreases |lru|
      {
        var back := lru[|lru| - 1];
        if now - entries[back].lastSeen < config.idle {
          return;
        }
        WithoutBack(lru);
        RemoveBijective(State(), back);
        Remove(back);
      }
    }

    method RemoveOldest()
      requires Valid()
      modifies this
      ensures Valid()
      ensures State() == Model.RemoveOldest(old(State()))
    {
      if lru != [] {
        RemoveBijective(State(), lru[|lru| - 1]);
        Remove(lru[|lru| - 1]);
      }
    }

    method Remove(a: Addr)
      modifies this
      ensures State() == Model.Remove(old(State()), a)
    {
      entries := entries - {a};
      lru := Without(lru, a);
    }
  }
}
