/**
 The DNS log as a state machine. A step is one exported method or one half of a background
 flush: the half that takes the queue and the half that commits it or puts it back, with the
 locks deciding what may happen in between.
 */
module DnsLogModel {
  import opened Wrappers
  import opened DnsLogTables
  import opened Dashboard

  // ---- privacy settings -----------------------------------------------------------------

  datatype Mode = PlainMode | HmacMode
  datatype Fingerprint = NoKey | Sha256(key: Key)

  /** The one row of dnslog_privacy_state. */
  datatype Stored = Stored(domainMode: Mode, clientMode: Mode, fingerprint: Fingerprint)

  /** What the configuration asks for, with the outcome of loading the key. */
  datatype Conf = Conf(domains: bool, clients: bool, key: Option<Key>)

  datatype Status = Status(domains: bool, clients: bool, requiresClear: bool)

  function PrivacyMode(on: bool): Mode {
    if on then HmacMode else PlainMode
  }

  function FingerprintOf(key: Option<Key>): Fingerprint {
    if key.Some? then Sha256(key.value) else NoKey
  }

  function PrivacyStateArgs(status: Status, key: Option<Key>): Stored {
    Stored(PrivacyMode(status.domains), PrivacyMode(status.clients), FingerprintOf(key))
  }

  // ---- state ----------------------------------------------------------------------------

  /** The tables. `sequence` is the AUTOINCREMENT counter of the log table. */
  datatype Db = Db(rows: seq<Row>, sequence: nat, hosts: map<Text, string>, cache: Cache, privacy: Option<Stored>)

  /** A dashboard computation between its query and its write; it holds the dashboard lock. */
  datatype Pending = Pending(points: seq<Point>, start: int, end: int)

  /** `inFlight` holds the events of a flush that has taken the queue and still holds the flush
      lock. `stopping` is the point inside a failed stop where the flush lock is free again but
      the queue has not been discarded yet; the lifecycle lock is held throughout. */
  datatype Log = Log(
    db: Db,
    enabled: bool,
    queue: seq<Event>,
    inFlight: seq<Event>,
    stopping: bool,
    status: Status,
    key: Option<Key>,
    pending: Option<Pending>)

  function StoredOf(db: Db): Stored {
    if db.privacy.Some? then db.privacy.value else Stored(PlainMode, PlainMode, NoKey)
  }

  // ---- configuring privacy --------------------------------------------------------------

  datatype Fault = NoFault | ReadFails | WriteFails

  function KeyFor(conf: Conf): Option<Key> {
    if conf.domains || conf.clients then conf.key else None
  }

  predicate NeedsClear(db: Db, conf: Conf) {
    var want := Stored(PrivacyMode(conf.domains), PrivacyMode(conf.clients), FingerprintOf(KeyFor(conf)));
    var have := StoredOf(db);
    var domainData := |db.rows| > 0;
    var clientData := |db.rows| > 0 || |db.hosts| > 0;
    || (have.domainMode != want.domainMode && domainData)
    || (have.clientMode != want.clientMode && clientData)
    || (have.fingerprint != want.fingerprint &&
        ((want.domainMode.HmacMode? && domainData) || (want.clientMode.HmacMode? && clientData)))
  }

  datatype Settings = Settings(db: Db, status: Status, key: Option<Key>)

  /** The tables and settings afterwards, or None when configuration fails: no usable key, or
      the database cannot be read or written. */
  function ConfigurePrivacy(db: Db, conf: Conf, fault: Fault): Option<Settings> {
    if (conf.domains || conf.clients) && conf.key.None? then None
    else if fault.ReadFails? then None
    else
      var status := Status(conf.domains, conf.clients, NeedsClear(db, conf));
      if status.requiresClear then Some(Settings(db, status, KeyFor(conf)))
      else if fault.WriteFails? then None
      else Some(Settings(db.(privacy := Some(PrivacyStateArgs(status, KeyFor(conf)))), status, KeyFor(conf)))
  }

  // ---- events ---------------------------------------------------------------------------

  /** The textual forms of a client: an address, a token made earlier, or neither. */
  datatype ClientText = Address(ip: string) | EarlierToken(token: Text) | NotAClient

  function TransformClient(status: Status, key: Option<Key>, c: ClientText): Option<Text> {
    if !status.clients then (if c.Address? then Some(Plain(c.ip)) else None)
    else if key.None? then None
    else match c
         case Address(ip) => Some(Token(key.value, ClientContext, ip))
         case EarlierToken(t) => Some(t)
         case NotAClient => None
  }

  /** A DNS message after routing. The peer of a request is an address or not an IP peer. */
  datatype Message = Message(question: Option<string>, success: bool, firstAnswer: Option<string>,
                             peer: Option<string>, blocked: int)

  function EventDomain(m: Message): Option<string> {
    if m.question.None? then None
    else if m.success && m.firstAnswer.Some? then m.firstAnswer
    else m.question
  }

  function NewLogEvent(status: Status, key: Option<Key>, now: int, m: Message): Option<Event> {
    var domain := EventDomain(m);
    if domain.None? || m.peer.None? then None
    else
      var client := TransformClient(status, key, Address(m.peer.value));
      if client.None? then None
      else if !status.domains then Some(Event(now, client.value, Plain(domain.value), m.blocked))
      else if key.None? then None
      else Some(Event(now, client.value, Token(key.value, DomainContext, domain.value), m.blocked))
  }

  // ---- inserting and deleting rows ------------------------------------------------------

  function Max(a: int, b: int): int {
    if a < b then b else a
  }

  function RowFor(sequence: nat, e: Event): Row {
    Row(Max(e.timestamp, sequence + 1), e.client, e.domain, e.blocked)
  }

  function Insert(db: Db, e: Event): Db {
    var row := RowFor(db.sequence, e);
    db.(rows := db.rows + [row], sequence := row.dt)
  }

  function InsertAll(db: Db, events: seq<Event>): Db {
    if events == [] then db else Insert(InsertAll(db, events[..|events| - 1]), events[|events| - 1])
  }

  function Newer(rows: seq<Row>, cutoff: int): seq<Row> {
    if rows == [] then []
    else (if rows[0].dt < cutoff then [] else [rows[0]]) + Newer(rows[1..], cutoff)
  }

  // ---- steps ----------------------------------------------------------------------------

  datatype RotateFault = RotateOk | DeleteFails | CacheClearFails

  datatype Step =
    | Restart(conf: Conf, wantEnabled: bool, fault: Fault)
    | LogMessage(now: int, message: Message)
    | Append(event: Event)
    | FlushTake
    | FlushDone(ok: bool)
    | Start
    | Stop                                   // its flush succeeds
    | StopFails                              // its flush fails and puts the queue back
    | StopDiscards                           // ... and then the queue is dropped
    | SetPseudonymization(conf: Conf, fault: Fault)
    | Clear(ok: bool)
    | Rotate(cutoff: int, outcome: RotateFault)
    | AddAlias(alias: string, client: ClientText, ok: bool)
    | DashboardQuery(at: nat, refresh: bool)
    | DashboardWrite(ok: bool)

  /** The locks: the flush lock is free when nothing is in flight, the dashboard lock when no
      computation is pending, the lifecycle lock when no stop is under way. */
  predicate Enabled(s: Log, step: Step) {
    match step
    case Restart(_, _, _) => true
    case LogMessage(_, _) => !s.stopping
    case Append(_) => !s.stopping
    case FlushTake => s.inFlight == []
    case FlushDone(_) => s.inFlight != []
    case Start => !s.stopping
    case Stop => !s.stopping && s.inFlight == []
    case StopFails => !s.stopping && s.inFlight == [] && s.queue != []
    case StopDiscards => s.stopping
    case SetPseudonymization(_, _) => !s.stopping
    case Clear(_) => !s.stopping && s.inFlight == [] && s.pending.None?
    case Rotate(_, _) => s.inFlight == [] && s.pending.None?
    case AddAlias(_, _, _) => !s.stopping
    case DashboardQuery(_, refresh) => (refresh || !s.stopping) && s.pending.None?
    case DashboardWrite(_) => s.pending.Some?
  }

  function AppendEvent(s: Log, e: Event): Log {
    s.(queue := s.queue + [e])
  }

  function LogOne(s: Log, now: int, m: Message): Log {
    if !s.enabled || s.status.requiresClear then s
    else match NewLogEvent(s.status, s.key, now, m)
         case None => s
         case Some(e) => AppendEvent(s, e)
  }

  /** A process that cannot configure itself exits and the next one starts from the same
      tables, so a failed restart is no step at all. */
  function RestartWith(s: Log, conf: Conf, wantEnabled: bool, fault: Fault): Log {
    match ConfigurePrivacy(s.db, conf, fault)
    case None => s
    case Some(Settings(db, status, key)) =>
      Log(db, wantEnabled && !status.requiresClear, [], [], false, status, key, None)
  }

  function Reconfigure(s: Log, conf: Conf, fault: Fault): Log {
    if s.enabled then s
    else match ConfigurePrivacy(s.db, conf, fault)
         case None => s
         case Some(Settings(db, status, key)) => s.(db := db, status := status, key := key)
  }

  function ClearLog(s: Log, ok: bool): Log {
    if s.enabled then s
    else if !ok then s.(queue := [])
    else
      s.(queue := [],
         db := Db([], 0, map[], map[], Some(PrivacyStateArgs(s.status, s.key))),
         status := s.status.(requiresClear := false))
  }

  function RotateLog(s: Log, cutoff: int, outcome: RotateFault): Log {
    match outcome
    case DeleteFails => s
    case CacheClearFails => s.(db := s.db.(rows := Newer(s.db.rows, cutoff)))
    case RotateOk => s.(db := s.db.(rows := Newer(s.db.rows, cutoff), cache := map[]))
  }

  function AliasAdded(s: Log, alias: string, client: ClientText, ok: bool): Log {
    match TransformClient(s.status, s.key, client)
    case None => s
    case Some(text) => if ok then s.(db := s.db.(hosts := s.db.hosts[text := alias])) else s
  }

  /** What a dashboard computation is about to write, if anything. */
  function PendingAfterQuery(s: Log, now: nat, refresh: bool): Option<Pending> {
    var current := HourBucket(now);
    var start := current - HISTORY_HOURS;
    var complete := Complete(ReadCache(s.db.cache, start, current), start, current);
    if refresh then
      Some(Pending(Buckets(s.db.rows, if complete then current - 1 else start, current), start, current))
    else if complete || !s.enabled then None
    else Some(Pending(Buckets(s.db.rows, start, current), start, current))
  }

  function DashboardWritten(s: Log, ok: bool): Log
    requires s.pending.Some?
  {
    var p := s.pending.value;
    if ok then s.(db := s.db.(cache := WriteCache(s.db.cache, p.points, p.start, p.end)), pending := None)
    else s.(pending := None)
  }

  function Apply(s: Log, step: Step): Log
    requires Enabled(s, step)
  {
    match step
    case Restart(conf, wantEnabled, fault) => RestartWith(s, conf, wantEnabled, fault)
    case LogMessage(now, m) => LogOne(s, now, m)
    case Append(e) => if !s.enabled then s else AppendEvent(s, e)
    case FlushTake => s.(inFlight := s.queue, queue := [])
    case FlushDone(ok) =>
      if ok then s.(db := InsertAll(s.db, s.inFlight), inFlight := [])
      else s.(queue := s.inFlight + s.queue, inFlight := [])
    case Start => if s.status.requiresClear then s else s.(enabled := true)
    case Stop => s.(enabled := false, db := InsertAll(s.db, s.queue), queue := [])
    case StopFails => s.(enabled := false, stopping := true)
    case StopDiscards => s.(queue := [], stopping := false)
    case SetPseudonymization(conf, fault) => Reconfigure(s, conf, fault)
    case Clear(ok) => ClearLog(s, ok)
    case Rotate(cutoff, outcome) => RotateLog(s, cutoff, outcome)
    case AddAlias(alias, client, ok) => AliasAdded(s, alias, client, ok)
    case DashboardQuery(now, refresh) => s.(pending := PendingAfterQuery(s, now, refresh))
    case DashboardWrite(ok) => DashboardWritten(s, ok)
  }

  ghost predicate Run(s: Log, steps: seq<Step>)
    decreases |steps|
  {
    steps == [] || (Enabled(s, steps[0]) && Run(Apply(s, steps[0]), steps[1..]))
  }

  ghost function Final(s: Log, steps: seq<Step>): Log
    requires Run(s, steps)
    decreases |steps|
  {
    if steps == [] then s else Final(Apply(s, steps[0]), steps[1..])
  }
}
