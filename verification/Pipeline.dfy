/**
 The request pipeline: the order in which middlewares run, and what a request may touch on its
 way through them.
 */
module MiddlewareOrder {
  import opened Sorting

  datatype Stage = PreRouting | Resolving | PostRouting

  datatype Index = Index(preRouting: seq<string>, resolving: seq<string>, postRouting: seq<string>)

  function Order(stage: Stage, name: string): int {
    match stage
    case PreRouting =>
      if name == "tagger" then 0
      else if name == "status" then 10
      else if name == "blacklist" then 20
      else if name == "zen-mode" then 30
      else if name == "static-response" then 40
      else if name == "cacheget" then 50
      else 1000
    case Resolving => if name == "stub-resolver" then 0 else 1000
    case PostRouting => if name == "cacheset" then 0 else if name == "dns-log" then 10 else 1000
  }

  predicate Before(stage: Stage, a: string, b: string) {
    if Order(stage, a) == Order(stage, b) then Leq(a, b) else Order(stage, a) < Order(stage, b)
  }

  function StageOrder(stage: Stage): (string, string) -> bool {
    (a, b) => Before(stage, a, b)
  }

  lemma StageOrderIsTotal(stage: Stage)
    ensures TotalOrder(StageOrder(stage))
  {
    hide Order;
    var leq := StageOrder(stage);
    forall x, y ensures (leq(x, y) || leq(y, x)) && (leq(x, y) && leq(y, x) ==> x == y) {
      LeqTotal(x, y);
    }
    forall x, y, z | leq(x, y) && leq(y, z) ensures leq(x, z) {
      if Order(stage, x) == Order(stage, y) == Order(stage, z) {
        LeqTransitive(x, y, z);
      }
    }
  }

  /** The names of one stage, in the order in which the map happens to be visited. */
  function OfStage(middlewares: map<string, Stage>, visited: seq<string>, stage: Stage): seq<string> {
    if visited == [] then []
    else
      var before := OfStage(middlewares, visited[..|visited| - 1], stage);
      var name := visited[|visited| - 1];
      if name in middlewares && middlewares[name] == stage then before + [name] else before
  }

  function SortedStage(middlewares: map<string, Stage>, visited: seq<string>, stage: Stage): seq<string> {
    Sort(OfStage(middlewares, visited, stage), StageOrder(stage))
  }

  function IndexFor(middlewares: map<string, Stage>, visited: seq<string>): Index {
    Index(SortedStage(middlewares, visited, PreRouting),
          SortedStage(middlewares, visited, Resolving),
          SortedStage(middlewares, visited, PostRouting))
  }

  /** One visit of every entry of the map, in any order. */
  ghost predicate Visits(middlewares: map<string, Stage>, visited: seq<string>) {
    NoDuplicates(visited) && forall n :: n in visited <==> n in middlewares
  }

  lemma {:induction false} OfStageMember(middlewares: map<string, Stage>, visited: seq<string>, stage: Stage, n: string)
    ensures n in OfStage(middlewares, visited, stage) <==> n in visited && n in middlewares && middlewares[n] == stage
  {
    if visited != [] {
      var init, last := visited[..|visited| - 1], visited[|visited| - 1];
      OfStageMember(middlewares, init, stage, n);
      assert n in visited <==> n in init || n == last by {
        assert visited == init + [last];
      }
    }
  }

  lemma {:induction false} OfStageNoDuplicates(middlewares: map<string, Stage>, visited: seq<string>, stage: Stage)
    requires NoDuplicates(visited)
    ensures NoDuplicates(OfStage(middlewares, visited, stage))
  {
    if visited != [] {
      var init, last := visited[..|visited| - 1], visited[|visited| - 1];
      NoDuplicatesPrefix(visited);
      OfStageNoDuplicates(middlewares, init, stage);
      OfStageMember(middlewares, init, stage, last);
      hide NoDuplicates;
      if last in middlewares && middlewares[last] == stage {
        NoDuplicatesAppend(OfStage(middlewares, init, stage), last);
      }
    }
  }

  lemma OfStageMembers(middlewares: map<string, Stage>, visited: seq<string>, stage: Stage)
    requires NoDuplicates(visited)
    ensures NoDuplicates(OfStage(middlewares, visited, stage))
    ensures forall n :: n in OfStage(middlewares, visited, stage) <==>
                          n in visited && n in middlewares && middlewares[n] == stage
  {
    OfStageNoDuplicates(middlewares, visited, stage);
    hide OfStage, NoDuplicates;
    forall n ensures n in OfStage(middlewares, visited, stage) <==> n in visited && n in middlewares && middlewares[n] == stage {
      OfStageMember(middlewares, visited, stage, n);
    }
  }

  /** The index does not depend on the order in which the map is visited. */
  lemma IndexIsDetermined(middlewares: map<string, Stage>, a: seq<string>, b: seq<string>)
    requires Visits(middlewares, a) && Visits(middlewares, b)
    ensures IndexFor(middlewares, a) == IndexFor(middlewares, b)
  {
    forall stage ensures SortedStage(middlewares, a, stage) == SortedStage(middlewares, b, stage) {
      OfStageMembers(middlewares, a, stage);
      OfStageMembers(middlewares, b, stage);
      StageOrderIsTotal(stage);
      SameElementsSortAlike(OfStage(middlewares, a, stage), OfStage(middlewares, b, stage), StageOrder(stage));
    }
  }

  /** Each stage lists its registered middlewares once, in rank order. */
  lemma IndexListsEachStage(middlewares: map<string, Stage>, visited: seq<string>, stage: Stage)
    requires Visits(middlewares, visited)
    ensures var names := SortedStage(middlewares, visited, stage);
            && Ascending(names, StageOrder(stage))
            && (forall n :: n in names <==> n in middlewares && middlewares[n] == stage)
  {
    OfStageMembers(middlewares, visited, stage);
    StageOrderIsTotal(stage);
    var names, raw := SortedStage(middlewares, visited, stage), OfStage(middlewares, visited, stage);
    SortSorts(raw, StageOrder(stage));
    forall n ensures n in names <==> n in raw {
      assert n in multiset(names) <==> n in multiset(raw);
    }
  }

  lemma {:induction false} AscendingPositions(names: seq<string>, stage: Stage, i: nat, j: nat)
    requires Ascending(names, StageOrder(stage)) && i < j < |names|
    ensures Before(stage, names[i], names[j])
  {
    if i == 0 {
      assert names[j] == names[1..][j - 1] && names[j] in names[1..];
    } else {
      AscendingPositions(names[1..], stage, i - 1, j - 1);
    }
  }

  /** The ranked middlewares of a stage, first to last. */
  function Ranked(stage: Stage): seq<string> {
    match stage
    case PreRouting => ["tagger", "status", "blacklist", "zen-mode", "static-response", "cacheget"]
    case Resolving => ["stub-resolver"]
    case PostRouting => ["cacheset", "dns-log"]
  }

  /** In the index, ranked middlewares come in that order, before all others. */
  lemma RankedComeInOrder(middlewares: map<string, Stage>, visited: seq<string>, stage: Stage, i: nat, j: nat)
    requires Visits(middlewares, visited)
    requires i < j < |SortedStage(middlewares, visited, stage)|
    ensures var names, ranked := SortedStage(middlewares, visited, stage), Ranked(stage);
            && (names[j] in ranked ==> names[i] in ranked)
            && (forall p, q :: 0 <= p < q < |ranked| ==> !(names[i] == ranked[q] && names[j] == ranked[p]))
  {
    IndexListsEachStage(middlewares, visited, stage);
    AscendingPositions(SortedStage(middlewares, visited, stage), stage, i, j);
    hide SortedStage;
    RanksOf(stage);
  }

  lemma RanksOf(stage: Stage)
    ensures forall n :: n in Ranked(stage) ==> Order(stage, n) < 1000
    ensures forall n :: n !in Ranked(stage) ==> Order(stage, n) == 1000
    ensures forall p, q :: 0 <= p < q < |Ranked(stage)| ==> Order(stage, Ranked(stage)[p]) < Order(stage, Ranked(stage)[q])
  {
    match stage
    case PreRouting =>
      var r := Ranked(stage);
      assert r[0] == "tagger" && r[1] == "status" && r[2] == "blacklist" && r[3] == "zen-mode";
      assert r[4] == "static-response" && r[5] == "cacheget";
    case Resolving => assert Ranked(stage)[0] == "stub-resolver";
    case PostRouting => assert Ranked(stage)[0] == "cacheset" && Ranked(stage)[1] == "dns-log";
  }

  class Server {
    const middlewares: map<string, Stage>
    var index: seq<Index>

    constructor (middlewares: map<string, Stage>)
      ensures this.middlewares == middlewares && index == []
    {
      this.middlewares := middlewares;
      index := [];
    }

    /** Computed on first use and kept; `visited` is the map's iteration order this time. */
    method GetIndexes(visited: seq<string>) returns (ix: Index)
      requires Visits(middlewares, visited)
      requires |index| <= 1 && forall seen :: Visits(middlewares, seen) && index != [] ==> index[0] == IndexFor(middlewares, seen)
      modifies this
      ensures index == [ix] && forall seen :: Visits(middlewares, seen) ==> ix == IndexFor(middlewares, seen)
    {
      if index != [] {
        return index[0];
      }
      var pre, res, post: seq<string> := [], [], [];
      for i := 0 to |visited|
        invariant pre == OfStage(middlewares, visited[..i], PreRouting)
        invariant res == OfStage(middlewares, visited[..i], Resolving)
        invariant post == OfStage(middlewares, visited[..i], PostRouting)
      {
        assert visited[..i + 1][..i] == visited[..i];
        var name := visited[i];
        match middlewares[name]
        case PreRouting => pre := pre + [name];
        case Resolving => res := res + [name];
        case PostRouting => post := post + [name];
      }
      assert visited[..|visited|] == visited;
      ix := Index(Sort(pre, StageOrder(PreRouting)), Sort(res, StageOrder(Resolving)), Sort(post, StageOrder(PostRouting)));
      index := [ix];
      forall seen | Visits(middlewares, seen) ensures ix == IndexFor(middlewares, seen) {
        IndexIsDetermined(middlewares, visited, seen);
      }
    }
  }
}

module Pipeline {
  import opened Sorting
  import opened MiddlewareOrder

  /** Where the answer a message carries came from. */
  datatype Origin = Unanswered | Local(who: string) | FromCache | FromStub | FromUpstream

  /** A message in the pipeline. `qr` is the header's response bit; a locally made answer is
      appended to the request and leaves the header as the client sent it. */
  datatype Message = Message(qr: bool, success: bool, answers: nat, origin: Origin, cacheHit: bool, resolved: bool)

  datatype Answer = Answer(qr: bool, success: bool, answers: nat)
  datatype Lookup = Hit(answer: Answer) | Miss
  datatype Upstream = Answered(answer: Answer) | UpstreamError | NoMatch

  /** What the middlewares and the network would do with this request. `keyed` says that its type
      has a cache key, `storable` that an answer of some origin holds only cacheable records and
      that the backend takes it. */
  datatype World = World(statusAnswers: bool, blocked: bool, zenAnswers: bool, staticAnswers: bool,
                         cacheUsable: bool, keyed: bool, storable: Origin -> bool,
                         lookup: Lookup, stub: Upstream, upstream: Upstream, slotFree: bool)

  datatype Effect = CacheRead | CacheWrite(origin: Origin) | SlotTaken | SlotReturned | StubAsked | UpstreamAsked | Logged

  const Known: set<string> := {"tagger", "status", "blacklist", "zen-mode", "static-response", "cacheget"}

  function AnsweredLocally(m: Message, who: string): Message {
    m.(answers := m.answers + 1, origin := Local(who), resolved := true)
  }

  function Replace(m: Message, a: Answer, origin: Origin): Message {
    m.(qr := a.qr, success := a.success, answers := a.answers, origin := origin, resolved := true)
  }

  function RunPre(name: string, m: Message, w: World): (Message, seq<Effect>) {
    if name == "status" then (if w.statusAnswers then AnsweredLocally(m, name) else m, [])
    else if name == "blacklist" then (if w.blocked then AnsweredLocally(m, name) else m, [])
    else if name == "zen-mode" then (if w.zenAnswers then AnsweredLocally(m, name) else m, [])
    else if name == "static-response" then (if w.staticAnswers then AnsweredLocally(m, name) else m, [])
    else if name == "cacheget" then
      if !w.cacheUsable then (m, [])
      else if w.lookup.Hit? then (Replace(m, w.lookup.answer, FromCache).(qr := true, cacheHit := true), [CacheRead])
      else (m, [CacheRead])
    else (m, [])
  }

  function PreRoute(names: seq<string>, m: Message, w: World): (Message, seq<Effect>) {
    if names == [] then (m, [])
    else
      var (m', e) := RunPre(names[0], m, w);
      if m'.resolved then (m', e)
      else
        var (m'', e') := PreRoute(names[1..], m', w);
        (m'', e + e')
  }

  /** The resolving middlewares, then the default upstream; None is an error exit. */
  function Resolve(names: seq<string>, m: Message, w: World): (seq<Message>, seq<Effect>) {
    var asks := "stub-resolver" in names;
    if asks && w.stub.UpstreamError? then ([], [StubAsked])
    else if asks && w.stub.Answered? then ([Replace(m, w.stub.answer, FromStub)], [StubAsked])
    else
      var e := if asks then [StubAsked, UpstreamAsked] else [UpstreamAsked];
      if w.upstream.Answered? then ([Replace(m, w.upstream.answer, FromUpstream)], e) else ([], e)
  }

  predicate CacheSetWrites(m: Message, w: World) {
    && w.cacheUsable && !m.cacheHit && m.success && m.qr && m.answers > 0
    && w.keyed && w.storable(m.origin)
  }

  function RunPost(name: string, m: Message, w: World): seq<Effect> {
    if name == "cacheset" then (if CacheSetWrites(m, w) then [CacheWrite(m.origin)] else [])
    else if name == "dns-log" then [Logged]
    else []
  }

  function PostRoute(names: seq<string>, m: Message, w: World): seq<Effect> {
    if names == [] then [] else RunPost(names[0], m, w) + PostRoute(names[1..], m, w)
  }

  /** A whole request: the message answered with, if any, and everything it touched. */
  function Process(ix: Index, m: Message, w: World): (seq<Message>, seq<Effect>) {
    var (pre, e) := PreRoute(ix.preRouting, m, w);
    if pre.resolved then ([pre], e + PostRoute(ix.postRouting, pre, w))
    else if !w.slotFree then ([], e)
    else
      var (done, r) := Resolve(ix.resolving, pre, w);
      if done == [] then ([], e + [SlotTaken] + r + [SlotReturned])
      else (done, e + [SlotTaken] + r + [SlotReturned] + PostRoute(ix.postRouting, done[0], w))
  }

  // ---- what a request may touch ---------------------------------------------------------------

  ghost predicate Harmless(effects: seq<Effect>) {
    forall e :: e in effects ==> e == Logged
  }

  lemma {:induction false} PostRouteWrites(names: seq<string>, m: Message, w: World)
    ensures forall e :: e in PostRoute(names, m, w) ==> e == Logged || (e == CacheWrite(m.origin) && CacheSetWrites(m, w))
  {
    if names != [] {
      PostRouteWrites(names[1..], m, w);
    }
  }

  lemma {:induction false} PostRouteReaches(names: seq<string>, m: Message, w: World)
    requires "cacheset" in names && CacheSetWrites(m, w)
    ensures CacheWrite(m.origin) in PostRoute(names, m, w)
  {
    if names[0] != "cacheset" {
      PostRouteReaches(names[1..], m, w);
    } else {
      assert CacheWrite(m.origin) in RunPost(names[0], m, w);
    }
  }

  /** In rank order only the tagger and status come before the blacklist. */
  lemma {:induction false} BlockedStopsTheChain(names: seq<string>, m: Message, w: World)
    requires Ascending(names, StageOrder(PreRouting)) && "blacklist" in names
    requires forall n :: n in names ==> n in Known
    requires !m.resolved && w.blocked && !w.statusAnswers
    ensures PreRoute(names, m, w) == (AnsweredLocally(m, "blacklist"), [])
  {
    if names[0] == "blacklist" {
    } else {
      assert "blacklist" in names[1..];
      assert StageOrder(PreRouting)(names[0], "blacklist");
      assert names[0] in Known;
      assert names[0] == "tagger" || names[0] == "status";
      assert forall n :: n in names[1..] ==> n in names;
      BlockedStopsTheChain(names[1..], m, w);
      var none: seq<Effect> := [];
      assert RunPre(names[0], m, w) == (m, none) && none + none == none;
    }
  }

  lemma {:induction false} PreRouteOrigins(names: seq<string>, m: Message, w: World)
    requires m.origin.Unanswered? && !m.cacheHit && !m.resolved
    ensures var r := PreRoute(names, m, w).0;
            && (r.origin.Local? ==> r.qr == m.qr && r.success == m.success)
            && (r.origin.FromCache? ==> r.cacheHit)
            && (r.resolved <==> r.origin.Local? || r.origin.FromCache?)
            && (!r.resolved ==> r == m)
            && (forall e :: e in PreRoute(names, m, w).1 ==> e == CacheRead)
  {
    if names != [] && !RunPre(names[0], m, w).0.resolved {
      PreRouteOrigins(names[1..], m, w);
    }
  }

  ghost predicate FreshRequest(m: Message) {
    m.origin.Unanswered? && !m.cacheHit && !m.resolved
  }

  /** A query the blacklist blocks, which status has not answered, takes no slot and touches
      neither cache nor upstream, whatever order the middlewares were registered or visited in. */
  lemma BlockedQueriesTouchNothing(middlewares: map<string, Stage>, visited: seq<string>, m: Message, w: World)
    requires Visits(middlewares, visited)
    requires forall n :: n in middlewares && middlewares[n] == PreRouting ==> n in Known
    requires "blacklist" in middlewares && middlewares["blacklist"] == PreRouting
    requires FreshRequest(m) && !m.qr && w.blocked && !w.statusAnswers
    ensures var (answer, effects) := Process(IndexFor(middlewares, visited), m, w);
            answer == [AnsweredLocally(m, "blacklist")] && Harmless(effects)
  {
    var ix := IndexFor(middlewares, visited);
    IndexListsEachStage(middlewares, visited, PreRouting);
    BlockedStopsTheChain(ix.preRouting, m, w);
    PostRouteWrites(ix.postRouting, AnsweredLocally(m, "blacklist"), w);
    hide PreRoute, PostRoute;
  }

  /** What reaches the cache. A cache hit is never written back, and an answer made locally is
      written exactly when the client had set the response bit itself, in a successful header,
      its question has a key, the answer can be stored, and the cache was usable. */
  lemma WhatIsWrittenToTheCache(ix: Index, m: Message, w: World)
    requires FreshRequest(m)
    ensures var effects := Process(ix, m, w).1;
            && CacheWrite(FromCache) !in effects && CacheWrite(Unanswered) !in effects
            && (PreRoute(ix.preRouting, m, w).0.origin.Local? && "cacheset" in ix.postRouting ==>
                  (CacheWrite(PreRoute(ix.preRouting, m, w).0.origin) in effects <==>
                     m.qr && m.success && w.cacheUsable && w.keyed && w.storable(PreRoute(ix.preRouting, m, w).0.origin)))
            && (!m.qr ==> forall who :: CacheWrite(Local(who)) !in effects)
  {
    PreRouteOrigins(ix.preRouting, m, w);
    PreRouteCounts(ix.preRouting, m, w);
    var (pre, e) := PreRoute(ix.preRouting, m, w);
    PostRouteWrites(ix.postRouting, pre, w);
    var (done, r) := Resolve(ix.resolving, pre, w);
    if done != [] {
      PostRouteWrites(ix.postRouting, done[0], w);
    }
    if "cacheset" in ix.postRouting && CacheSetWrites(pre, w) {
      PostRouteReaches(ix.postRouting, pre, w);
    }
    hide PreRoute, PostRoute;
  }

  lemma {:induction false} PreRouteCounts(names: seq<string>, m: Message, w: World)
    requires FreshRequest(m)
    ensures PreRoute(names, m, w).0.origin.Local? ==> PreRoute(names, m, w).0.answers > 0 && !PreRoute(names, m, w).0.cacheHit
  {
    if names != [] && !RunPre(names[0], m, w).0.resolved {
      PreRouteOrigins([names[0]], m, w);
      PreRouteCounts(names[1..], m, w);
    }
  }

  // ---- who answers ----------------------------------------------------------------------------

  /** The first middleware, in order of rank, that has an answer. */
  function FirstAnswer(names: set<string>, w: World): Origin {
    if "status" in names && w.statusAnswers then Local("status")
    else if "blacklist" in names && w.blocked then Local("blacklist")
    else if "zen-mode" in names && w.zenAnswers then Local("zen-mode")
    else if "static-response" in names && w.staticAnswers then Local("static-response")
    else if "cacheget" in names && w.cacheUsable && w.lookup.Hit? then FromCache
    else Unanswered
  }

  function Registered(middlewares: map<string, Stage>, stage: Stage): set<string> {
    set n | n in middlewares && middlewares[n] == stage
  }

  function SetOf(names: seq<string>): set<string> {
    set n | n in names
  }

  lemma HeadRanksFirst(names: seq<string>, n: string)
    requires names != [] && Ascending(names, StageOrder(PreRouting)) && n in names && n != names[0]
    ensures Order(PreRouting, names[0]) <= Order(PreRouting, n)
  {
    assert n in names[1..];
    assert Before(PreRouting, names[0], n);
  }

  lemma HeadAnswers(names: seq<string>, m: Message, w: World)
    requires names != [] && Ascending(names, StageOrder(PreRouting)) && (forall n :: n in names ==> n in Known)
    requires FreshRequest(m) && RunPre(names[0], m, w).0.resolved
    ensures RunPre(names[0], m, w).0.origin == FirstAnswer(SetOf(names), w)
  {
    forall n | n in names ensures Order(PreRouting, names[0]) <= Order(PreRouting, n) {
      if n != names[0] {
        HeadRanksFirst(names, n);
      }
    }
  }

  lemma HeadPasses(names: seq<string>, m: Message, w: World)
    requires names != [] && FreshRequest(m) && !RunPre(names[0], m, w).0.resolved
    ensures RunPre(names[0], m, w).0 == m && FirstAnswer(SetOf(names), w) == FirstAnswer(SetOf(names[1..]), w)
  {
    assert names == [names[0]] + names[1..];
    assert SetOf(names) == {names[0]} + SetOf(names[1..]);
  }

  /** Whatever the list, its first middleware in rank with an answer gives it: status before the
      blacklist, that before zen mode, that before static responses, and the cache last. */
  lemma {:induction false} FirstAnswerWins(names: seq<string>, m: Message, w: World)
    requires Ascending(names, StageOrder(PreRouting)) && (forall n :: n in names ==> n in Known) && FreshRequest(m)
    ensures PreRoute(names, m, w).0.origin == FirstAnswer(SetOf(names), w)
  {
    hide FirstAnswer, SetOf, RunPre;
    if names == [] {
      NobodyAnswers(w);
    } else if RunPre(names[0], m, w).0.resolved {
      HeadAnswers(names, m, w);
    } else {
      HeadPasses(names, m, w);
      FirstAnswerWins(names[1..], m, w);
    }
  }

  lemma NobodyAnswers(w: World)
    ensures FirstAnswer(SetOf([]), w) == Unanswered
  {
    assert SetOf([]) == {};
  }

  /** What the message looks like afterwards: answered locally, it keeps the client's header and has
      one answer more; from the cache, it is the cached reply. */
  lemma {:induction false} PreRouteResult(names: seq<string>, m: Message, w: World)
    requires FreshRequest(m)
    ensures var r := PreRoute(names, m, w).0;
            && r.resolved == !r.origin.Unanswered?
            && match r.origin
               case Local(who) =>
                 r.qr == m.qr && r.success == m.success && r.answers == m.answers + 1 && !r.cacheHit
               case FromCache =>
                 w.lookup.Hit? && r.qr && r.cacheHit
                 && r.success == w.lookup.answer.success && r.answers == w.lookup.answer.answers
               case Unanswered => r == m
               case _ => false
  {
    if names != [] && !RunPre(names[0], m, w).0.resolved {
      assert RunPre(names[0], m, w).0 == m;
      PreRouteResult(names[1..], m, w);
    }
  }

  /** A request some pre-routing middleware answers: the first in rank gives the answer, nothing
      takes a slot, and nobody outside is asked. */
  lemma AnsweredBeforeRouting(middlewares: map<string, Stage>, visited: seq<string>, m: Message, w: World)
    requires Visits(middlewares, visited) && FreshRequest(m)
    requires forall n :: n in middlewares && middlewares[n] == PreRouting ==> n in Known
    requires !FirstAnswer(Registered(middlewares, PreRouting), w).Unanswered?
    ensures var (answer, effects) := Process(IndexFor(middlewares, visited), m, w);
            && |answer| == 1
            && answer[0].origin == FirstAnswer(Registered(middlewares, PreRouting), w)
            && SlotTaken !in effects && SlotReturned !in effects && StubAsked !in effects && UpstreamAsked !in effects
            && if answer[0].origin.FromCache?
               then answer[0].qr && answer[0].success == w.lookup.answer.success && answer[0].answers == w.lookup.answer.answers
               else answer[0].qr == m.qr && answer[0].success == m.success && answer[0].answers == m.answers + 1
  {
    var ix := IndexFor(middlewares, visited);
    IndexListsEachStage(middlewares, visited, PreRouting);
    assert SetOf(ix.preRouting) == Registered(middlewares, PreRouting);
    FirstAnswerWins(ix.preRouting, m, w);
    PreRouteResult(ix.preRouting, m, w);
    PreRouteOrigins(ix.preRouting, m, w);
    PostRouteWrites(ix.postRouting, PreRoute(ix.preRouting, m, w).0, w);
    hide PreRoute, PostRoute, FirstAnswer, SetOf, IndexFor;
  }

  /** The parties outside, as an answer refers to them. */
  ghost predicate Carries(m: Message, a: Answer, origin: Origin) {
    m.qr == a.qr && m.success == a.success && m.answers == a.answers && m.origin == origin && m.resolved
  }

  /** A request nobody answers before routing. It ends without an answer exactly if no slot is free,
      the stub resolver is registered and fails, or it falls to the upstream and that does not
      answer; the upstream is asked exactly if a slot was free and no registered stub answered or
      failed; and an answer is the stub's if a registered stub answered, and otherwise the
      upstream's. */
  lemma AnsweredByResolving(ix: Index, m: Message, w: World)
    requires FreshRequest(m) && !PreRoute(ix.preRouting, m, w).0.resolved
    ensures var (answer, effects) := Process(ix, m, w); var stub := "stub-resolver" in ix.resolving;
            && (answer == [] <==> || !w.slotFree
                                  || (stub && w.stub.UpstreamError?)
                                  || ((!stub || w.stub.NoMatch?) && !w.upstream.Answered?))
            && (UpstreamAsked in effects <==> w.slotFree && (!stub || w.stub.NoMatch?))
            && (StubAsked in effects <==> w.slotFree && stub)
            && (SlotTaken in effects <==> w.slotFree) && (SlotReturned in effects <==> w.slotFree)
            && (answer != [] ==>
                  |answer| == 1 && if stub && w.stub.Answered? then Carries(answer[0], w.stub.answer, FromStub)
                                   else w.upstream.Answered? && Carries(answer[0], w.upstream.answer, FromUpstream))
  {
    PreRouteResult(ix.preRouting, m, w);
    PreRouteOrigins(ix.preRouting, m, w);
    var (done, r) := Resolve(ix.resolving, m, w);
    if done != [] {
      PostRouteWrites(ix.postRouting, done[0], w);
    }
    hide PreRoute, PostRoute;
  }

  ghost predicate Outside(e: Effect) {
    e.StubAsked? || e.UpstreamAsked?
  }

  /** Whoever is asked outside is asked while the slot is held, and nothing is written before it is
      given back. */
  lemma AskedWithASlot(ix: Index, m: Message, w: World)
    requires FreshRequest(m) && !PreRoute(ix.preRouting, m, w).0.resolved && w.slotFree
    ensures exists before, asked, after ::
              && Process(ix, m, w).1 == before + [SlotTaken] + asked + [SlotReturned] + after
              && (forall e :: e in before ==> e == CacheRead)
              && (forall e :: e in asked ==> Outside(e))
              && (forall e :: e in after ==> e.CacheWrite? || e.Logged?)
  {
    PreRouteOrigins(ix.preRouting, m, w);
    var (pre, e) := PreRoute(ix.preRouting, m, w);
    var (done, r) := Resolve(ix.resolving, pre, w);
    var after := if done == [] then [] else PostRoute(ix.postRouting, done[0], w);
    if done != [] {
      PostRouteWrites(ix.postRouting, done[0], w);
    }
    hide PreRoute, PostRoute;
    assert Process(ix, m, w).1 == e + [SlotTaken] + r + [SlotReturned] + after;
  }

  /** Every answered request is logged when the log is registered, and no other. */
  lemma LoggedIffAnswered(ix: Index, m: Message, w: World)
    requires FreshRequest(m)
    ensures var (answer, effects) := Process(ix, m, w);
            Logged in effects <==> answer != [] && "dns-log" in ix.postRouting
  {
    PreRouteOrigins(ix.preRouting, m, w);
    var (pre, e) := PreRoute(ix.preRouting, m, w);
    PostRouteLogs(ix.postRouting, pre, w);
    var (done, r) := Resolve(ix.resolving, pre, w);
    if done != [] {
      PostRouteLogs(ix.postRouting, done[0], w);
    }
    hide PreRoute, PostRoute;
  }

  lemma {:induction false} PostRouteLogs(names: seq<string>, m: Message, w: World)
    ensures Logged in PostRoute(names, m, w) <==> "dns-log" in names
  {
    if names != [] {
      PostRouteLogs(names[1..], m, w);
      assert names == [names[0]] + names[1..];
    }
  }

  /** What the cache set may store of an answer from outside: exactly a successful reply with answers
      and the response bit, for a question with a key, when it can be stored and the cache is usable. */
  lemma OutsideAnswersAreStoredIff(ix: Index, m: Message, w: World)
    requires FreshRequest(m) && !PreRoute(ix.preRouting, m, w).0.resolved && Process(ix, m, w).0 != []
    ensures var (answer, effects) := Process(ix, m, w); var a := answer[0];
            CacheWrite(a.origin) in effects <==>
              && "cacheset" in ix.postRouting && w.cacheUsable && w.keyed && w.storable(a.origin)
              && a.success && a.qr && a.answers > 0
  {
    PreRouteResult(ix.preRouting, m, w);
    PreRouteOrigins(ix.preRouting, m, w);
    var (done, r) := Resolve(ix.resolving, m, w);
    PostRouteWrites(ix.postRouting, done[0], w);
    NoCacheSetNoWrite(ix.postRouting, done[0], w);
    if "cacheset" in ix.postRouting && CacheSetWrites(done[0], w) {
      PostRouteReaches(ix.postRouting, done[0], w);
    }
    hide PreRoute, PostRoute;
  }

  lemma {:induction false} NoCacheSetNoWrite(names: seq<string>, m: Message, w: World)
    ensures "cacheset" !in names ==> forall e :: e in PostRoute(names, m, w) ==> e == Logged
  {
    if names != [] {
      NoCacheSetNoWrite(names[1..], m, w);
    }
  }

  // ---- the loops of process -------------------------------------------------------------------

  method RunPreRouting(names: seq<string>, request: Message, w: World) returns (m: Message, effects: seq<Effect>)
    requires !request.resolved
    ensures (m, effects) == PreRoute(names, request, w)
  {
    m, effects := request, [];
    var i := 0;
    assert names[0..] == names && [] + PreRoute(names, m, w).1 == PreRoute(names, m, w).1;
    while i < |names|
      invariant 0 <= i <= |names| && !m.resolved
      invariant PreRoute(names, request, w) == (PreRoute(names[i..], m, w).0, effects + PreRoute(names[i..], m, w).1)
    {
      assert names[i..][1..] == names[i + 1..];
      var (m', e) := RunPre(names[i], m, w);
      ghost var rest := PreRoute(names[i + 1..], m', w);
      assert !m'.resolved ==> effects + (e + rest.1) == (effects + e) + rest.1;
      m, effects := m', effects + e;
      if m.resolved {
        return;
      }
      i := i + 1;
    }
    assert names[i..] == [] && effects + [] == effects;
  }

  method RunPostRouting(names: seq<string>, m: Message, w: World) returns (effects: seq<Effect>)
    ensures effects == PostRoute(names, m, w)
  {
    effects := [];
    for i := 0 to |names|
      invariant PostRoute(names, m, w) == effects + PostRoute(names[i..], m, w)
    {
      assert names[i..][1..] == names[i + 1..];
      var e := RunPost(names[i], m, w);
      ghost var rest := PostRoute(names[i + 1..], m, w);
      assert effects + (e + rest) == (effects + e) + rest;
      effects := effects + e;
    }
    assert names[|names|..] == [] && effects + [] == effects;
  }

  method ProcessRequest(ix: Index, request: Message, w: World) returns (answer: seq<Message>, effects: seq<Effect>)
    requires FreshRequest(request)
    ensures (answer, effects) == Process(ix, request, w)
  {
    var m: Message;
    m, effects := RunPreRouting(ix.preRouting, request, w);
    if !m.resolved {
      if !w.slotFree {
        return [], effects;
      }
      effects := effects + [SlotTaken];
      var (done, r) := Resolve(ix.resolving, m, w);
      effects := effects + r;
      effects := effects + [SlotReturned];
      if done == [] {
        return [], effects;
      }
      m := done[0];
      assert done == [m];
    }
    hide PreRoute, PostRoute, Resolve;
    var last := RunPostRouting(ix.postRouting, m, w);
    return [m], effects + last;
  }
}
