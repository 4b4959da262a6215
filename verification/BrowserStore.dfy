/**
 The browser session store: single-use login codes, sessions with their CSRF tokens, and the
 local administrator whose password also opens sessions. Each method is one committed
 transaction, except a password login, which reads and compares first and commits later.
 */
module BrowserStore {
  import opened Wrappers
  import opened Clock
  import opened Text
  import opened CsrfWindow

  const HOUR: int := 3600 * NANO
  const BROWSER_SESSION_TTL: int := 12 * HOUR
  const MAX_SESSION_TTL: int := 30 * 24 * HOUR
  const BCRYPT_COST: nat := 12
  const PASSWORD_MIN: nat := 12
  const PASSWORD_MAX: nat := 72
  const USERNAME_LIMIT: nat := 64

  datatype Method = BrowserCode | Password
  datatype Scope = ReadScope | WriteScope | OtherScope

  /** A secret as a client presents it: absent, or identified with its hash. */
  datatype Presented = Nothing | Secret(digest: Digest)

  /** Times of a session are whole seconds. Its tokens live in a table of their own with a
      cascading foreign key, so they are held with it. */
  datatype Session = Session(subject: string, scope: Scope, authMethod: Method, persistent: bool,
                             createdAt: int, lastUsed: int, expiresAt: int, tokens: Tokens)

  datatype Options = Options(lifetime: int, persistent: bool)

  /** A validated login code. `tokenId` is None when it is blank; `expiresAt` is in nanoseconds. */
  datatype Principal = Principal(forBrowser: bool, tokenId: Option<Digest>, subject: string, scope: Scope, expiresAt: int)

  /** A bcrypt hash, identified with what went into it. */
  datatype Hash = Hash(password: seq<nat>, salt: nat, cost: nat)

  datatype Admin = Admin(username: string, hash: Hash, subject: string, scope: Scope, enabled: bool,
                         createdAt: int, updatedAt: int)

  datatype Tables = Tables(sessions: map<Digest, Session>, codes: map<Digest, int>, admin: Option<Admin>)

  datatype Error =
    | InvalidPrincipal | CodeConsumed | CodeExpired | SessionNotFound | SessionExpired | InvalidCSRF
    | InvalidOptions | AdministratorUnavailable | InvalidAdministratorName | InvalidPassword
    | InvalidCredentials | InvalidLimit | DatabaseError

  datatype Outcome = Done | Failed(error: Error)

  /** The clock has reached a whole-second expiry. */
  predicate Expired(expiresAt: int, now: int) {
    expiresAt * NANO <= now
  }

  // ---- sessions -----------------------------------------------------------------------------

  function ResolveOptions(requested: seq<Options>): Option<Options> {
    if requested == [] then Some(Options(BROWSER_SESSION_TTL, false))
    else if |requested| != 1 then None
    else
      var o := requested[0];
      if o.lifetime <= 0 || o.lifetime > MAX_SESSION_TTL then None
      else if !o.persistent && o.lifetime != BROWSER_SESSION_TTL then None
      else Some(o)
  }

  function NewSession(subject: string, scope: Scope, how: Method, now: int, o: Options, csrf: Digest): Session {
    Session(subject, scope, how, o.persistent, Seconds(now), Seconds(now), Seconds(now + o.lifetime), map[csrf := now])
  }

  /** The table's constraints: a new key, a subject, and an expiry after its creation. */
  predicate Insertable(t: Tables, id: Digest, s: Session) {
    id !in t.sessions && s.subject != [] && s.expiresAt > s.createdAt
  }

  predicate ValidPrincipal(p: Principal) {
    p.forBrowser && p.tokenId.Some? && TrimSpace(p.subject) != [] && (p.scope.ReadScope? || p.scope.WriteScope?)
  }

  function RedeemCode(t: Tables, p: Principal, now: int, requested: seq<Options>, id: Digest, csrf: Digest, fault: bool)
    : (Tables, Outcome)
  {
    if !ValidPrincipal(p) then (t, Failed(InvalidPrincipal))
    else if now >= p.expiresAt then (t, Failed(CodeExpired))
    else
      var options := ResolveOptions(requested);
      if options.None? then (t, Failed(InvalidOptions))
      else if fault then (t, Failed(DatabaseError))
      else if p.tokenId.value in t.codes then (t, Failed(CodeConsumed))
      else
        var s := NewSession(p.subject, p.scope, BrowserCode, now, options.value, csrf);
        if !Insertable(t, id, s) then (t, Failed(DatabaseError))
        else (t.(codes := t.codes[p.tokenId.value := Seconds(p.expiresAt)], sessions := t.sessions[id := s]), Done)
  }

  /** Looking a live session up; every session method starts this way. */
  function FindSession(t: Tables, p: Presented, now: int): Outcome {
    if p.Nothing? || p.digest !in t.sessions then Failed(SessionNotFound)
    else if Expired(t.sessions[p.digest].expiresAt, now) then Failed(SessionExpired)
    else Done
  }

  function TouchSession(t: Tables, p: Presented, now: int, fault: bool): (Tables, Outcome) {
    if p.Nothing? then (t, Failed(SessionNotFound))
    else if fault then (t, Failed(DatabaseError))
    else if p.digest in t.sessions && t.sessions[p.digest].expiresAt > Seconds(now) then
      (t.(sessions := t.sessions[p.digest := t.sessions[p.digest].(lastUsed := Seconds(now))]), Done)
    else (t, Failed(SessionNotFound))
  }

  function RevokeSession(t: Tables, p: Presented, fault: bool): (Tables, Outcome) {
    if p.Nothing? then (t, Failed(SessionNotFound))
    else if fault then (t, Failed(DatabaseError))
    else (t.(sessions := t.sessions - {p.digest}), Done)
  }

  function ValidateCSRF(t: Tables, p: Presented, csrf: Presented, now: int): Outcome {
    if p.Nothing? then Failed(SessionNotFound)
    else if csrf.Nothing? then Failed(InvalidCSRF)
    else
      var found := FindSession(t, p, now);
      if found.Failed? then found
      else if csrf.digest in t.sessions[p.digest].tokens then Done
      else Failed(InvalidCSRF)
  }

  function IssueCSRF(t: Tables, p: Presented, now: int, token: Digest, fault: bool): (Tables, Outcome) {
    var found := FindSession(t, p, now);
    if found.Failed? then (t, found)
    else if fault || token in t.sessions[p.digest].tokens then (t, Failed(DatabaseError))
    else
      var s := t.sessions[p.digest];
      (t.(sessions := t.sessions[p.digest := s.(tokens := Trim(s.tokens[token := now]))]), Done)
  }

  // ---- purging ------------------------------------------------------------------------------

  /** What one bounded delete may remove: expired rows, earliest expiry first, up to the limit.
      Rows with the same expiry may go in any order. */
  ghost predicate PurgeChoice(expiry: map<Digest, int>, now: int, limit: int, gone: set<Digest>) {
    && (forall d :: d in gone ==> d in expiry && expiry[d] <= Seconds(now))
    && |gone| <= limit
    && (forall d, e :: d in gone && e in expiry && e !in gone ==> expiry[d] <= expiry[e])
    && (|gone| == limit || forall e :: e in expiry && expiry[e] <= Seconds(now) ==> e in gone)
  }

  function SessionExpiry(t: Tables): map<Digest, int> {
    map d | d in t.sessions :: t.sessions[d].expiresAt
  }

  function Purged(t: Tables, goneSessions: set<Digest>, goneCodes: set<Digest>): Tables {
    t.(sessions := t.sessions - goneSessions, codes := t.codes - goneCodes)
  }

  // ---- the administrator --------------------------------------------------------------------

  predicate Separator(c: char) {
    c == '.' || c == '_' || c == '-'
  }

  predicate NameChar(c: char) {
    'a' <= c <= 'z' || '0' <= c <= '9' || Separator(c)
  }

  predicate ValidName(name: string) {
    && 0 < |name| <= USERNAME_LIMIT
    && (forall i :: 0 <= i < |name| ==> NameChar(name[i]))
    && !Separator(name[0]) && !Separator(name[|name| - 1])
  }

  function NormalizeUsername(username: string): Option<string> {
    var name := ToLower(TrimSpace(username));
    if ValidName(name) then Some(name) else None
  }

  /** Password bytes; `utf8` says whether they are valid UTF-8. */
  datatype PasswordText = PasswordText(bytes: seq<nat>, utf8: bool)

  predicate ValidPassword(p: PasswordText) {
    p.utf8 && PASSWORD_MIN <= |p.bytes| <= PASSWORD_MAX
  }

  datatype Credential = Credential(username: string, hash: Hash)

  function AdministratorCredential(t: Tables): Option<Credential> {
    if t.admin.None? then None
    else
      var a := t.admin.value;
      if NormalizeUsername(a.username) != Some(a.username) || !a.enabled || a.subject != a.username
         || !a.scope.WriteScope? || a.hash.cost != BCRYPT_COST then None
      else Some(Credential(a.username, a.hash))
  }

  function WithoutPasswordSessions(sessions: map<Digest, Session>): map<Digest, Session> {
    map d | d in sessions && !sessions[d].authMethod.Password? :: sessions[d]
  }

  function SetAdministratorPassword(t: Tables, username: string, password: PasswordText, salt: nat, now: int, fault: bool)
    : (Tables, Outcome)
  {
    var name := NormalizeUsername(username);
    if name.None? then (t, Failed(InvalidAdministratorName))
    else if !ValidPassword(password) then (t, Failed(InvalidPassword))
    else if fault then (t, Failed(DatabaseError))
    else
      var created := if t.admin.Some? then t.admin.value.createdAt else Seconds(now);
      var admin := Admin(name.value, Hash(password.bytes, salt, BCRYPT_COST), name.value, WriteScope, true, created, Seconds(now));
      (t.(admin := Some(admin), sessions := WithoutPasswordSessions(t.sessions)), Done)
  }

  function DisableAdministrator(t: Tables, now: int, fault: bool): (Tables, Outcome) {
    if fault then (t, Failed(DatabaseError))
    else if t.admin.None? then (t, Failed(AdministratorUnavailable))
    else
      var admin := t.admin.value.(enabled := false, updatedAt := Seconds(now));
      (t.(admin := Some(admin), sessions := WithoutPasswordSessions(t.sessions)), Done)
  }

  /** First half of a password login: read the credential and compare. */
  function ReadAndCompare(t: Tables, username: string, password: PasswordText): Option<Credential> {
    var name := NormalizeUsername(username);
    var credential := AdministratorCredential(t);
    if name.Some? && credential.Some? && name.value == credential.value.username && ValidPassword(password)
       && credential.value.hash.password == password.bytes
    then credential else None
  }

  /** Second half: the credential is read again inside the transaction that inserts. */
  function CommitLogin(t: Tables, read: Credential, now: int, requested: seq<Options>, id: Digest, csrf: Digest, fault: bool)
    : (Tables, Outcome)
  {
    var options := ResolveOptions(requested);
    if options.None? then (t, Failed(InvalidOptions))
    else if fault then (t, Failed(DatabaseError))
    else if AdministratorCredential(t) != Some(read) then (t, Failed(InvalidCredentials))
    else
      var s := NewSession(read.username, WriteScope, Password, now, options.value, csrf);
      if !Insertable(t, id, s) then (t, Failed(DatabaseError))
      else (t.(sessions := t.sessions[id := s]), Done)
  }

  // ---- runs ---------------------------------------------------------------------------------

  datatype Op =
    | Redeem(principal: Principal, now: int, requested: seq<Options>, id: Digest, csrf: Digest, fault: bool)
    | Get(session: Presented, now: int)
    | Touch(session: Presented, now: int, fault: bool)
    | Revoke(session: Presented, fault: bool)
    | Validate(session: Presented, token: Presented, now: int)
    | Issue(session: Presented, now: int, newToken: Digest, fault: bool)
    | Purge(now: int, limit: int, goneSessions: set<Digest>, goneCodes: set<Digest>)
    | SetPassword(username: string, password: PasswordText, salt: nat, now: int, fault: bool)
    | Disable(now: int, fault: bool)
    | LoginRead(login: nat, username: string, password: PasswordText)
    | LoginCommit(login: nat, now: int, requested: seq<Options>, id: Digest, csrf: Digest, fault: bool)

  /** The tables and the password logins between their two halves. */
  datatype Store = Store(tables: Tables, logins: map<nat, Credential>)

  const EmptyStore: Store := Store(Tables(map[], map[], None), map[])

  function Lift(s: Store, r: (Tables, Outcome)): (Store, Outcome) {
    (s.(tables := r.0), r.1)
  }

  function Do(s: Store, op: Op): (Store, Outcome) {
    var t := s.tables;
    match op
    case Redeem(p, now, requested, id, csrf, fault) => Lift(s, RedeemCode(t, p, now, requested, id, csrf, fault))
    case Get(p, now) => (s, FindSession(t, p, now))
    case Touch(p, now, fault) => Lift(s, TouchSession(t, p, now, fault))
    case Revoke(p, fault) => Lift(s, RevokeSession(t, p, fault))
    case Validate(p, csrf, now) => (s, ValidateCSRF(t, p, csrf, now))
    case Issue(p, now, token, fault) => Lift(s, IssueCSRF(t, p, now, token, fault))
    case Purge(now, limit, gs, gc) =>
      if limit <= 0 then (s, Failed(InvalidLimit)) else (s.(tables := Purged(t, gs, gc)), Done)
    case SetPassword(username, password, salt, now, fault) =>
      Lift(s, SetAdministratorPassword(t, username, password, salt, now, fault))
    case Disable(now, fault) => Lift(s, DisableAdministrator(t, now, fault))
    case LoginRead(login, username, password) =>
      (match ReadAndCompare(t, username, password)
       case None => (s, Failed(InvalidCredentials))
       case Some(c) => (s.(logins := s.logins[login := c]), Done))
    case LoginCommit(login, now, requested, id, csrf, fault) =>
      if login !in s.logins then (s, Failed(InvalidCredentials))
      else
        var (t', o) := CommitLogin(t, s.logins[login], now, requested, id, csrf, fault);
        (Store(t', s.logins - {login}), o)
  }

  function After(s: Store, ops: seq<Op>): Store
    decreases |ops|
  {
    if ops == [] then s else After(Do(s, ops[0]).0, ops[1..])
  }

  function Answers(s: Store, ops: seq<Op>): seq<Outcome>
    decreases |ops|
  {
    if ops == [] then [] else [Do(s, ops[0]).1] + Answers(Do(s, ops[0]).0, ops[1..])
  }
}
