/**
 The response cache: what is stored, for how long, and with which TTLs it is served. The
 backend is a map that may lose any entry at any time.
 */
module DnsCacheModel {
  import opened Wrappers
  import opened Clock
  import opened Numbers
  import opened CacheKey

  const UINT32: int := 0x1_0000_0000

  datatype Record = Record(rtype: nat, ttl: nat, data: string)

  /** A record of a section, which may be a nil interface. */
  datatype Slot = NilRecord | Have(rr: Record)

  datatype Msg = Msg(id: nat, opcode: nat, recursionDesired: bool, checkingDisabled: bool, response: bool, rcode: nat,
                     question: seq<Question>, answer: seq<Slot>, ns: seq<Slot>, extra: seq<Slot>)

  /** `cachedAt` is in whole seconds. */
  datatype Entry = Entry(cachedAt: int, message: Msg)

  type Backend = map<string, Entry>

  // ---- storing ------------------------------------------------------------------------------

  predicate CacheableSlot(s: Slot) {
    s.Have? && s.rr.ttl != 0 && CacheableType(s.rr.rtype)
  }

  predicate Cacheable(answer: seq<Slot>) {
    forall i :: 0 <= i < |answer| ==> CacheableSlot(answer[i])
  }

  function CapSlot(s: Slot, cap: nat): Slot {
    if s.Have? then Have(s.rr.(ttl := Min(s.rr.ttl, cap))) else s
  }

  function Capped(records: seq<Slot>, cap: nat): seq<Slot> {
    seq(|records|, i requires 0 <= i < |records| => CapSlot(records[i], cap))
  }

  /** The configured lifetime is in minutes; the cap is computed in 32 bits. */
  function CapOf(ttl: int): nat
    requires ttl > 0
  {
    (ttl * 60) % UINT32
  }

  function CapMsg(m: Msg, ttl: int): Msg {
    if ttl > 0
    then m.(answer := Capped(m.answer, CapOf(ttl)), ns := Capped(m.ns, CapOf(ttl)), extra := Capped(m.extra, CapOf(ttl)))
    else m
  }

  predicate HasNil(records: seq<Slot>) {
    exists i :: 0 <= i < |records| && records[i].NilRecord?
  }

  /** A message with a nil record cannot be packed. */
  predicate Packable(m: Msg) {
    !HasNil(m.answer) && !HasNil(m.ns) && !HasNil(m.extra)
  }

  predicate Stores(k: string, m: Msg) {
    k != "" && m.answer != [] && Cacheable(m.answer)
  }

  /** The backend after a response is offered, and whether that worked. */
  function SetEntry(b: Backend, ttl: int, k: string, m: Msg, now: int, fault: bool): (Backend, bool) {
    if !Stores(k, m) then (b, true)
    else if !Packable(m) || fault then (b, false)
    else (b[k := Entry(Seconds(now), CapMsg(m, ttl))], true)
  }

  // ---- serving ------------------------------------------------------------------------------

  /** Subtract the age from every TTL. Records whose time is up are dropped, or, where all are
      required, make the whole section unusable. */
  function Adjusted(records: seq<Slot>, elapsed: nat, requireAll: bool): Option<seq<Slot>> {
    if records == [] then Some([])
    else
      var last := records[|records| - 1];
      match Adjusted(records[..|records| - 1], elapsed, requireAll)
      case None => None
      case Some(before) =>
        if last.NilRecord? || last.rr.ttl <= elapsed then (if requireAll then None else Some(before))
        else Some(before + [Have(last.rr.(ttl := last.rr.ttl - elapsed))])
  }

  function Reply(m: Msg, request: Msg): Msg {
    m.(id := request.id, response := true, opcode := request.opcode,
       recursionDesired := request.recursionDesired, checkingDisabled := request.checkingDisabled,
       question := if request.question == [] then m.question else [request.question[0]])
  }

  function ResponseFromEntry(e: Entry, request: Msg, now: int): Option<Msg> {
    var age := now - e.cachedAt * NANO;
    if age <= 0 then Some(Reply(e.message, request))
    else
      var elapsed := (age / NANO) % UINT32;
      match Adjusted(e.message.answer, elapsed, true)
      case None => None
      case Some(answer) =>
        if answer == [] then None
        else
          var ns := Adjusted(e.message.ns, elapsed, false);
          var extra := Adjusted(e.message.extra, elapsed, false);
          Some(Reply(e.message.(answer := answer, ns := ns.GetOr([]), extra := extra.GetOr([])), request))
  }

  /** A lookup; an entry that cannot be served any more is deleted. */
  function GetEntry(b: Backend, k: string, request: Msg, now: int): (Backend, Option<Msg>) {
    if k !in b then (b, None)
    else match ResponseFromEntry(b[k], request, now)
         case None => (b - {k}, None)
         case Some(m) => (b, Some(m))
  }
}

module DnsCacheProofs {
  import opened Wrappers
  import opened Clock
  import opened Numbers
  import opened DnsCacheModel

  // ---- what is stored -----------------------------------------------------------------------

  /** An odd factor does not change divisibility by a power of two. */
  lemma CapVanishesIff(ttl: int)
    requires ttl > 0
    ensures CapOf(ttl) == 0 <==> ttl % 0x4000_0000 == 0
  {
    if CapOf(ttl) == 0 {
      FifteenDividesOut(ttl, ttl * 60 / UINT32);
    }
    if ttl % 0x4000_0000 == 0 {
      MultipleWraps(ttl / 0x4000_0000);
    }
  }

  lemma FifteenDividesOut(ttl: int, k: int)
    requires ttl * 60 == k * UINT32
    ensures ttl % 0x4000_0000 == 0
  {
    var q := k * 787410671 - 11 * ttl;
    assert ttl * 15 == k * 0x4000_0000;
    assert ttl == q * 0x4000_0000;
  }

  lemma MultipleWraps(q: int)
    ensures (q * 0x4000_0000 * 60) % UINT32 == 0
  {
    assert q * 0x4000_0000 * 60 == (q * 15) * UINT32;
  }

  ghost predicate Positive(records: seq<Slot>) {
    forall i :: 0 <= i < |records| ==> records[i].Have? && records[i].rr.ttl > 0
  }

  /** Zero-TTL answers are never stored, exactly as long as the configured lifetime in seconds
      does not wrap around to zero. */
  lemma StoredAnswersAreAlive(ttl: int, k: string, m: Msg)
    requires Stores(k, m)
    ensures Positive(CapMsg(m, ttl).answer) <==> !(ttl > 0 && ttl % 0x4000_0000 == 0)
  {
    if ttl > 0 {
      CapVanishesIff(ttl);
      assert CapMsg(m, ttl).answer[0] == CapSlot(m.answer[0], CapOf(ttl));
    }
  }

  // ---- what is served -----------------------------------------------------------------------

  lemma {:induction false} AdjustedAll(records: seq<Slot>, elapsed: nat)
    ensures Adjusted(records, elapsed, true).Some? <==>
              forall i :: 0 <= i < |records| ==> records[i].Have? && records[i].rr.ttl > elapsed
    ensures var r := Adjusted(records, elapsed, true);
            r.Some? ==>
              && |r.value| == |records|
              && (forall i :: 0 <= i < |records| ==>
                    records[i].Have? && r.value[i] == Have(records[i].rr.(ttl := records[i].rr.ttl - elapsed)))
  {
    if records != [] {
      var init := records[..|records| - 1];
      AdjustedAll(init, elapsed);
      assert forall i :: 0 <= i < |init| ==> init[i] == records[i];
    }
  }

  /** The whole-second age of an entry. */
  function AgeInSeconds(e: Entry, now: int): int {
    Seconds(now) - e.cachedAt
  }

  lemma ElapsedIsTheAge(e: Entry, now: int)
    requires 0 <= AgeInSeconds(e, now) < UINT32
    ensures now > e.cachedAt * NANO ==> ((now - e.cachedAt * NANO) / NANO) % UINT32 == AgeInSeconds(e, now)
    ensures AgeInSeconds(e, now) > 0 ==> now > e.cachedAt * NANO
  {
    assert (now - e.cachedAt * NANO) / NANO == Seconds(now) - e.cachedAt;
  }

  ghost predicate Served(stored: seq<Slot>, served: seq<Slot>, age: int) {
    && |served| == |stored|
    && forall i :: 0 <= i < |stored| ==>
         && stored[i].Have? && served[i].Have?
         && served[i].rr == stored[i].rr.(ttl := served[i].rr.ttl)
         && served[i].rr.ttl == stored[i].rr.ttl - age && served[i].rr.ttl > 0
  }

  function Left(s: Slot, elapsed: nat): seq<Slot> {
    if s.NilRecord? || s.rr.ttl <= elapsed then [] else [Have(s.rr.(ttl := s.rr.ttl - elapsed))]
  }

  lemma LeftMeans(s: Slot, elapsed: nat, rr: Record)
    ensures Have(rr) in Left(s, elapsed) <==> 0 < rr.ttl && s == Have(rr.(ttl := rr.ttl + elapsed))
    ensures NilRecord !in Left(s, elapsed)
  {
  }

  ghost predicate LiveOnly(stored: seq<Slot>, served: seq<Slot>, age: nat) {
    && NilRecord !in served
    && forall rr: Record :: Have(rr) in served <==> 0 < rr.ttl && Have(rr.(ttl := rr.ttl + age)) in stored
  }

  lemma InEither(a: seq<Slot>, b: seq<Slot>, x: Slot)
    ensures x in a + b <==> x in a || x in b
  {
  }

  lemma LiveOnlyNext(stored: seq<Slot>, served: seq<Slot>, age: nat, s: Slot)
    requires LiveOnly(stored, served, age)
    ensures LiveOnly(stored + [s], served + Left(s, age), age)
  {
    forall rr: Record
      ensures Have(rr) in served + Left(s, age) <==> 0 < rr.ttl && Have(rr.(ttl := rr.ttl + age)) in stored + [s]
    {
      LeftMeans(s, age, rr);
      hide Left;
      InEither(served, Left(s, age), Have(rr));
      InEither(stored, [s], Have(rr.(ttl := rr.ttl + age)));
    }
    LeftMeans(s, age, Record(0, 0, ""));
    InEither(served, Left(s, age), NilRecord);
  }

  /** Outside the answer section, records whose time is up are left out: what is served is what
      is left of each live record. */
  lemma {:induction false} AdjustedKeepsTheLive(records: seq<Slot>, elapsed: nat)
    ensures var r := Adjusted(records, elapsed, false); r.Some? && LiveOnly(records, r.value, elapsed)
  {
    if records != [] {
      var init, last := records[..|records| - 1], records[|records| - 1];
      AdjustedKeepsTheLive(init, elapsed);
      LiveOnlyNext(init, Adjusted(init, elapsed, false).value, elapsed, last);
      hide LiveOnly;
      assert records == init + [last];
      assert Adjusted(records, elapsed, false).value == Adjusted(init, elapsed, false).value + Left(last, elapsed);
    }
  }

  /** A reply to this request: its identifier, flags and question, the stored outcome. */
  ghost predicate Answers(r: Msg, request: Msg, stored: Msg) {
    && r.response && r.id == request.id && r.opcode == request.opcode && r.rcode == stored.rcode
    && r.recursionDesired == request.recursionDesired && r.checkingDisabled == request.checkingDisabled
    && r.question == if request.question == [] then stored.question else [request.question[0]]
  }

  lemma ResponseAtAge(e: Entry, request: Msg, now: int)
    requires e.cachedAt * NANO < now && AgeInSeconds(e, now) < UINT32 && e.message.answer != []
    ensures 0 <= AgeInSeconds(e, now)
    ensures var a := AgeInSeconds(e, now); var m := e.message; var r := ResponseFromEntry(e, request, now);
            var answer := Adjusted(m.answer, a, true);
            var ns := Adjusted(m.ns, a, false); var extra := Adjusted(m.extra, a, false);
            if answer.None? || answer.value == [] then r.None?
            else r.Some? && Answers(r.value, request, m) && r.value.answer == answer.value
                 && r.value.ns == ns.GetOr([]) && r.value.extra == extra.GetOr([])
  {
    assert (now - e.cachedAt * NANO) / NANO == Seconds(now) - e.cachedAt;
    ElapsedIsTheAge(e, now);
    hide Adjusted, AgeInSeconds;
  }

  /** The seconds an entry is charged: none while the clock has not passed the second of its
      storing. */
  function Charged(e: Entry, now: int): nat {
    if now <= e.cachedAt * NANO then 0 else (now - e.cachedAt * NANO) / NANO
  }

  /** Up to the second of its storing, and by a clock behind it, an entry is served as it is stored;
      after that exactly while every answer has time left, and then with every TTL reduced. In every
      case the reply answers the request at hand. */
  lemma ServedWithRemainingTime(e: Entry, request: Msg, now: int)
    requires AgeInSeconds(e, now) < UINT32 && e.message.answer != []
    ensures var r := ResponseFromEntry(e, request, now); var a := Charged(e, now); var unaged := now <= e.cachedAt * NANO;
            && (r.Some? <==> unaged || forall i :: 0 <= i < |e.message.answer| ==>
                                          e.message.answer[i].Have? && e.message.answer[i].rr.ttl > a)
            && (r.Some? ==> Answers(r.value, request, e.message))
            && (r.Some? && unaged ==>
                  r.value.answer == e.message.answer && r.value.ns == e.message.ns && r.value.extra == e.message.extra)
            && (r.Some? && !unaged ==>
                  && Served(e.message.answer, r.value.answer, a)
                  && LiveOnly(e.message.ns, r.value.ns, a) && LiveOnly(e.message.extra, r.value.extra, a))
  {
    if now > e.cachedAt * NANO {
      ResponseAtAge(e, request, now);
      var a: nat := AgeInSeconds(e, now);
      assert a == Charged(e, now);
      AdjustedAll(e.message.answer, a);
      AdjustedKeepsTheLive(e.message.ns, a);
      AdjustedKeepsTheLive(e.message.extra, a);
      hide Adjusted, AgeInSeconds, LiveOnly, ResponseFromEntry, Answers, Charged;
    }
  }

  // ---- every run ----------------------------------------------------------------------------

  datatype Op =
    | Set(key: string, message: Msg, now: int, fault: bool)
    | Get(key: string, request: Msg, now: int)
    | Clear
    | Evict(lost: set<string>)

  function Step(b: Backend, ttl: int, op: Op): Backend {
    match op
    case Set(k, m, now, fault) => SetEntry(b, ttl, k, m, now, fault).0
    case Get(k, request, now) => GetEntry(b, k, request, now).0
    case Clear => map[]
    case Evict(lost) => b - lost
  }

  function After(b: Backend, ttl: int, ops: seq<Op>): Backend {
    if ops == [] then b else Step(After(b, ttl, ops[..|ops| - 1]), ttl, ops[|ops| - 1])
  }

  predicate Successful(op: Op, k: string) {
    op.Set? && op.key == k && Stores(k, op.message) && Packable(op.message) && !op.fault
  }

  /** The last response stored under a key. */
  function LastStored(ops: seq<Op>, k: string): Option<Op> {
    if ops == [] then None
    else if Successful(ops[|ops| - 1], k) then Some(ops[|ops| - 1])
    else LastStored(ops[..|ops| - 1], k)
  }

  lemma {:induction false} EntriesAreTheLastStored(ttl: int, ops: seq<Op>, k: string)
    requires k in After(map[], ttl, ops)
    ensures var last := LastStored(ops, k);
            && last.Some? && Successful(last.value, k)
            && After(map[], ttl, ops)[k] == Entry(Seconds(last.value.now), CapMsg(last.value.message, ttl))
  {
    var init, op := ops[..|ops| - 1], ops[|ops| - 1];
    if !Successful(op, k) {
      hide ResponseFromEntry, CapMsg, Seconds, Stores, Packable;
      assert k in After(map[], ttl, init) && After(map[], ttl, ops)[k] == After(map[], ttl, init)[k];
      EntriesAreTheLastStored(ttl, init, k);
    }
  }

  /** A TTL under a configured lifetime in minutes, which is turned into 32-bit seconds. */
  function CapTtl(ttl: nat, conf: int): nat {
    if 0 < conf && (conf * 60) % 0x1_0000_0000 < ttl then (conf * 60) % 0x1_0000_0000 else ttl
  }

  /** `capped` is `records` with every TTL capped. */
  ghost predicate CappedFrom(records: seq<Slot>, capped: seq<Slot>, conf: int) {
    && |capped| == |records|
    && forall i :: 0 <= i < |records| ==>
         capped[i] == if records[i].Have? then Have(records[i].rr.(ttl := CapTtl(records[i].rr.ttl, conf))) else NilRecord
  }

  lemma SectionsAreCapped(m: Msg, conf: int)
    ensures var c := CapMsg(m, conf);
            && CappedFrom(m.answer, c.answer, conf) && CappedFrom(m.ns, c.ns, conf) && CappedFrom(m.extra, c.extra, conf)
            && c == m.(answer := c.answer, ns := c.ns, extra := c.extra)
  {
  }

  /** On every run of stores, lookups, clears and evictions: an entry that is found, at whatever
      age and by whatever clock, answers the request at hand with the last response stored under
      its key, every answer's TTL being min(original, cap) minus the age, and positive once it ages;
      it is not served any more once an answer is used up. */
  lemma HitsServeTheLastResponse(ttl: int, ops: seq<Op>, k: string, request: Msg, now: int)
    requires k in After(map[], ttl, ops)
    requires now / NANO - After(map[], ttl, ops)[k].cachedAt < UINT32
    ensures var last := LastStored(ops, k);
            && last.Some? && Successful(last.value, k)
            && var original := last.value.message; var at := last.value.now / NANO;
               var unaged := now <= at * NANO; var a := if unaged then 0 else now / NANO - at;
               var hit := GetEntry(After(map[], ttl, ops), k, request, now).1;
               && (hit.Some? <==> unaged || forall i :: 0 <= i < |original.answer| ==>
                                               original.answer[i].Have? && CapTtl(original.answer[i].rr.ttl, ttl) > a)
               && (hit.Some? ==>
                     && Answers(hit.value, request, original)
                     && |hit.value.answer| == |original.answer|
                     && (forall i :: 0 <= i < |original.answer| ==>
                           && original.answer[i].Have? && 0 <= CapTtl(original.answer[i].rr.ttl, ttl) - a
                           && hit.value.answer[i]
                              == Have(original.answer[i].rr.(ttl := CapTtl(original.answer[i].rr.ttl, ttl) - a))))
  {
    EntriesAreTheLastStored(ttl, ops, k);
    var e := After(map[], ttl, ops)[k];
    var original := LastStored(ops, k).value.message;
    SectionsAreCapped(original, ttl);
    assert Cacheable(original.answer);
    ChargedIsTheAge(e, now);
    ServedWithRemainingTime(e, request, now);
    hide After, LastStored, ResponseFromEntry, CapMsg, CapTtl, Charged, LiveOnly;
  }

  lemma ChargedIsTheAge(e: Entry, now: int)
    ensures Charged(e, now) == if now <= e.cachedAt * NANO then 0 else now / NANO - e.cachedAt
    ensures AgeInSeconds(e, now) == now / NANO - e.cachedAt
  {
  }

  /** Storing and looking up touch no other key. A store succeeds unless the message cannot be packed
      or the backend fails; a lookup that misses leaves nothing under its key, and one that hits
      leaves everything. */
  lemma OneKeyAtATime(b: Backend, ttl: int, k: string, m: Msg, now: int, fault: bool, j: string)
    requires j != k
    ensures var (b', ok) := SetEntry(b, ttl, k, m, now, fault);
            && (j in b' <==> j in b) && (j in b ==> b'[j] == b[j])
            && (Stores(k, m) ==> (ok <==> Packable(m) && !fault))
            && (Stores(k, m) && ok ==> k in b' && b'[k].cachedAt == now / NANO && b'[k].message == CapMsg(m, ttl))
            && (!(Stores(k, m) && ok) ==> b' == b)
    ensures var (b', hit) := GetEntry(b, k, m, now);
            && (j in b' <==> j in b) && (j in b ==> b'[j] == b[j])
            && (hit.None? <==> k !in b') && (hit.Some? ==> b' == b)
  {
    hide ResponseFromEntry, CapMsg, Stores, Packable;
  }

  /** What has just been stored is served: to any lookup within the same second, and with the full
      capped TTLs, unless the cap wraps to zero. */
  lemma JustStoredIsServed(b: Backend, ttl: int, k: string, m: Msg, at: int, request: Msg, now: int)
    requires SetEntry(b, ttl, k, m, at, false).1 && Stores(k, m)
    requires at <= now && now / NANO == at / NANO && !(ttl > 0 && ttl % 0x4000_0000 == 0)
    ensures var hit := GetEntry(SetEntry(b, ttl, k, m, at, false).0, k, request, now).1;
            hit.Some? && Answers(hit.value, request, m) && CappedFrom(m.answer, hit.value.answer, ttl)
  {
    var e := Entry(Seconds(at), CapMsg(m, ttl));
    StoredAnswersAreAlive(ttl, k, m);
    SectionsAreCapped(m, ttl);
    ChargedIsTheAge(e, now);
    ServedWithRemainingTime(e, request, now);
    var r := ResponseFromEntry(e, request, now);
    assert Charged(e, now) == 0;
    hide ResponseFromEntry, CapMsg, CapTtl, Charged, LiveOnly;
    assert r.value.answer == e.message.answer;
  }
}

/** The cache object. */
module DnsCache {
  import opened Wrappers
  import opened Clock
  import opened CacheKey
  import opened DnsCacheModel

  /** In place, over the records of a copied message. */
  method CapSectionTTLs(records: array<Slot>, cap: nat)
    modifies records
    ensures records[..] == Capped(old(records[..]), cap)
  {
    for i := 0 to records.Length
      invariant forall j :: 0 <= j < i ==> records[j] == CapSlot(old(records[j]), cap)
      invariant forall j :: i <= j < records.Length ==> records[j] == old(records[j])
    {
      if records[i].Have? && records[i].rr.ttl > cap {
        records[i] := Have(records[i].rr.(ttl := cap));
      }
    }
  }

  method CacheableAnswers(answer: seq<Slot>) returns (yes: bool)
    ensures yes <==> Cacheable(answer)
  {
    for i := 0 to |answer|
      invariant forall j :: 0 <= j < i ==> CacheableSlot(answer[j])
    {
      if answer[i].NilRecord? {
        return false;
      }
      if answer[i].rr.ttl == 0 {
        return false;
      }
      if !(answer[i].rr.rtype == TYPE_A || answer[i].rr.rtype == TYPE_AAAA || answer[i].rr.rtype == TYPE_CNAME) {
        return false;
      }
    }
    return true;
  }

  method AdjustSectionTTLs(records: seq<Slot>, elapsed: nat, requireAll: bool) returns (r: Option<seq<Slot>>)
    ensures r == Adjusted(records, elapsed, requireAll)
  {
    var adjusted: seq<Slot> := [];
    for i := 0 to |records|
      invariant Adjusted(records[..i], elapsed, requireAll) == Some(adjusted)
    {
      assert records[..i + 1][..i] == records[..i];
      if records[i].NilRecord? || records[i].rr.ttl <= elapsed {
        if requireAll {
          NoneStaysNone(records, elapsed, i + 1);
          return None;
        }
        continue;
      }
      adjusted := adjusted + [Have(records[i].rr.(ttl := records[i].rr.ttl - elapsed))];
    }
    assert records[..|records|] == records;
    return Some(adjusted);
  }

  lemma {:induction false} NoneStaysNone(records: seq<Slot>, elapsed: nat, i: nat)
    requires i <= |records| && Adjusted(records[..i], elapsed, true).None?
    ensures Adjusted(records, elapsed, true).None?
  {
    if i == |records| {
      assert records[..i] == records;
    } else {
      var init := records[..|records| - 1];
      assert init[..i] == records[..i];
      NoneStaysNone(init, elapsed, i);
    }
  }

  /** How a lookup ends: not tried, no usable entry, an entry that cannot be decoded, or a reply. */
  datatype Looked = Bypassed | Missed | Undecodable | Served(response: Msg)

  class Cache {
    var backend: Backend
    var enabled: bool
    const ttl: int

    constructor (ttl: int, enabled: bool)
      ensures backend == map[] && this.ttl == ttl && this.enabled == enabled
    {
      this.ttl := ttl;
      this.enabled := enabled;
      backend := map[];
    }

    method Set(k: string, m: Msg, now: int, fault: bool) returns (ok: bool)
      modifies this`backend
      ensures (backend, ok) == SetEntry(old(backend), ttl, k, m, now, fault)
    {
      if k == "" {
        return true;
      }
      var cacheable := CacheableAnswers(m.answer);
      if |m.answer| == 0 || !cacheable {
        return true;
      }
      var response := m;
      if ttl > 0 {
        var cap := (ttl * 60) % UINT32;
        var answer := CapSection(m.answer, cap);
        var ns := CapSection(m.ns, cap);
        var extra := CapSection(m.extra, cap);
        response := m.(answer := answer, ns := ns, extra := extra);
      }
      if !Packable(m) || fault {
        return false;
      }
      backend := backend[k := Entry(Seconds(now), response)];
      return true;
    }

    method CapSection(records: seq<Slot>, cap: nat) returns (capped: seq<Slot>)
      ensures capped == Capped(records, cap)
    {
      var copy := new Slot[|records|](i requires 0 <= i < |records| => records[i]);
      assert copy[..] == records;
      CapSectionTTLs(copy, cap);
      capped := copy[..];
    }

    /** A request that looks into the cache. `bypass` says that a configured exclusion matches it,
        `decodes` that the stored bytes can be read back. */
    method Lookup(k: string, request: Msg, now: int, bypass: bool, decodes: bool) returns (r: Looked)
      modifies this`backend
      ensures !enabled || bypass ==> r == Bypassed && backend == old(backend)
      ensures enabled && !bypass && k in old(backend) && !decodes ==> r == Undecodable && backend == old(backend)
      ensures enabled && !bypass && (k in old(backend) ==> decodes) ==>
                var (b, hit) := GetEntry(old(backend), k, request, now);
                backend == b && r == match hit case None => Missed case Some(m) => Served(m)
    {
      if !enabled || bypass {
        return Bypassed;
      }
      if k !in backend {
        return Missed;
      }
      if !decodes {
        return Undecodable;
      }
      var hit := Respond(backend[k], request, now);
      if hit.None? {
        backend := backend - {k};
        return Missed;
      }
      return Served(hit.value);
    }

    method Respond(e: Entry, request: Msg, now: int) returns (r: Option<Msg>)
      ensures r == ResponseFromEntry(e, request, now)
    {
      var response := e.message;
      var age := now - e.cachedAt * NANO;
      if age > 0 {
        var elapsed := (age / NANO) % UINT32;
        var answer := AdjustSectionTTLs(response.answer, elapsed, true);
        if answer.None? || |answer.value| == 0 {
          return None;
        }
        var ns := AdjustSectionTTLs(response.ns, elapsed, false);
        var extra := AdjustSectionTTLs(response.extra, elapsed, false);
        response := response.(answer := answer.value, ns := ns.GetOr([]), extra := extra.GetOr([]));
      }
      return Some(Reply(response, request));
    }

    method Clear()
      modifies this`backend
      ensures backend == map[]
    {
      backend := map[];
    }
  }
}
