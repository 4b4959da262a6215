/** What the browser session store keeps over every run. */
module BrowserFrames {
  import opened Wrappers
  import opened Clock
  import opened CsrfWindow
  import opened BrowserStore

  /** The session was made by this operation. */
  ghost predicate Created(s: Store, op: Op, d: Digest, n: Session) {
    && (op.Redeem? || op.LoginCommit?) && op.id == d && d !in s.tables.sessions
    && n.tokens == map[op.csrf := op.now]
    && (if op.Redeem? then n.authMethod.BrowserCode?
        else n.authMethod.Password? && op.login in s.logins && n.subject == s.logins[op.login].username
             && AdministratorCredential(s.tables) == Some(s.logins[op.login]))
  }

  /** The session was given another token by this operation. */
  ghost predicate Reissued(s: Store, op: Op, d: Digest, n: Session) {
    && op.Issue? && op.session == Secret(d) && d in s.tables.sessions && op.newToken !in s.tables.sessions[d].tokens
    && n == s.tables.sessions[d].(tokens := Trim(s.tables.sessions[d].tokens[op.newToken := op.now]))
  }

  ghost predicate Kept(s: Store, d: Digest, n: Session) {
    d in s.tables.sessions && n == s.tables.sessions[d].(lastUsed := n.lastUsed)
  }

  /** Where a session that is stored after an operation comes from. */
  lemma SessionFrame(s: Store, op: Op, d: Digest)
    requires d in Do(s, op).0.tables.sessions
    ensures var n := Do(s, op).0.tables.sessions[d];
            && (Created(s, op, d, n) || Reissued(s, op, d, n) || Kept(s, d, n))
            && (Do(s, op).1.Done? ==> (op.Redeem? || op.LoginCommit?) && op.id == d ==> Created(s, op, d, n))
            && (Do(s, op).1.Done? && op.Issue? && op.session == Secret(d) ==> Reissued(s, op, d, n))
            && (Do(s, op).1.Failed? ==> Kept(s, d, n))
  {
    hide NormalizeUsername, Trim, ResolveOptions, AdministratorCredential, Seconds, ValidPrincipal, ValidPassword;
    match op
    case Redeem(_, _, _, _, _, _) =>
    case LoginCommit(_, _, _, _, _, _) =>
    case Issue(_, _, _, _) =>
    case _ =>
  }

  /** Only two operations change the administrator, and they leave no password session. */
  lemma AdministratorFrame(s: Store, op: Op)
    ensures !op.SetPassword? && !op.Disable? ==> Do(s, op).0.tables.admin == s.tables.admin
    ensures op.SetPassword? || op.Disable? ==>
              if Do(s, op).1.Failed? then Do(s, op).0 == s
              else forall d :: d in Do(s, op).0.tables.sessions ==> Do(s, op).0.tables.sessions[d].authMethod.BrowserCode?
  {
    hide NormalizeUsername, Trim, ResolveOptions, AdministratorCredential, Seconds, ValidPrincipal, ValidPassword, FindSession;
  }
}

module SessionLifetime {
  import opened Text
  import opened Wrappers
  import opened Clock
  import opened CsrfWindow
  import opened BrowserStore

  /** Sessions other than `id` answer as before. */
  ghost predicate SameForOthers(t: Tables, t': Tables, id: Digest) {
    && (forall x: Presented, at :: x != Secret(id) ==> FindSession(t', x, at) == FindSession(t, x, at))
    && (forall x: Presented, csrf, at :: x != Secret(id) ==> ValidateCSRF(t', x, csrf, at) == ValidateCSRF(t, x, csrf, at))
  }

  /** The session `id` is found until `end` and no longer, and knows one token; errors say why. */
  ghost predicate OpenUntil(t: Tables, id: Digest, csrf: Digest, end: int) {
    && (forall at :: FindSession(t, Secret(id), at) == if at < end then Done else Failed(SessionExpired))
    && (forall token, at :: ValidateCSRF(t, Secret(id), Secret(token), at)
                            == if at >= end then Failed(SessionExpired) else if token == csrf then Done else Failed(InvalidCSRF))
  }

  /** A session as it is opened: whose it is, what it may do, and from when. */
  ghost predicate OpenedFor(t: Tables, id: Digest, subject: string, scope: Scope, how: Method, persistent: bool, now: int) {
    && id in t.sessions
    && var s := t.sessions[id];
       && s.subject == subject && s.scope == scope && s.authMethod == how && s.persistent == persistent
       && s.createdAt == now / NANO && s.lastUsed == now / NANO
  }

  /** Which lifetimes may be asked for: none, the usual twelve hours, or up to thirty days for a
      session that is remembered. */
  ghost predicate Allowed(requested: seq<Options>) {
    || requested == []
    || (|requested| == 1 && 0 < requested[0].lifetime <= 30 * 24 * 3600 * NANO
        && (requested[0].persistent || requested[0].lifetime == 12 * 3600 * NANO))
  }

  function LifetimeOf(requested: seq<Options>): int
    requires Allowed(requested)
  {
    if requested == [] then 12 * 3600 * NANO else requested[0].lifetime
  }

  /** Exactly when a code opens a session. */
  lemma RedeemingSucceedsIff(t: Tables, p: Principal, now: int, requested: seq<Options>, id: Digest, csrf: Digest)
    ensures RedeemCode(t, p, now, requested, id, csrf, false).1.Done? <==>
              && p.forBrowser && p.tokenId.Some? && !AllSpace(p.subject) && !p.scope.OtherScope?
              && now < p.expiresAt && p.tokenId.value !in t.codes
              && Allowed(requested) && (now + LifetimeOf(requested)) / NANO > now / NANO
              && id !in t.sessions
  {
    BlankIff(p.subject);
    assert p.subject == [] ==> AllSpace(p.subject);
    hide TrimSpace;
  }

  /** Exactly when a login that compared equal opens a session. */
  lemma LoginSucceedsIff(t: Tables, read: Credential, now: int, requested: seq<Options>, id: Digest, csrf: Digest)
    requires read.username != []
    ensures CommitLogin(t, read, now, requested, id, csrf, false).1.Done? <==>
              && AdministratorCredential(t) == Some(read)
              && Allowed(requested) && (now + LifetimeOf(requested)) / NANO > now / NANO
              && id !in t.sessions
  {
    hide AdministratorCredential;
  }

  /** Redeeming a code uses it up and opens one session, for the lifetime asked for, rounded down
      to a whole second; without a request that is twelve hours. */
  lemma RedeemingOpensASession(t: Tables, p: Principal, now: int, requested: seq<Options>, id: Digest, csrf: Digest)
    requires RedeemCode(t, p, now, requested, id, csrf, false).1.Done?
    ensures var t' := RedeemCode(t, p, now, requested, id, csrf, false).0;
            var lifetime := if requested == [] then 12 * 3600 * NANO else requested[0].lifetime;
            && 0 < lifetime && now < p.expiresAt
            && id !in t.sessions && OpenUntil(t', id, csrf, (now + lifetime) / NANO * NANO) && SameForOthers(t, t', id)
            && OpenedFor(t', id, p.subject, p.scope, BrowserCode, requested != [] && requested[0].persistent, now)
            && (forall later, other, token :: later < p.expiresAt ==>
                  RedeemCode(t', p, later, requested, other, token, false).1 == Failed(CodeConsumed))
            && (forall later, options, other, token, fault ::
                  RedeemCode(t', p, later, options, other, token, fault).1.Failed?)
            && (forall other :: other != p.tokenId.value ==> (other in t'.codes <==> other in t.codes))
  {
  }

  /** The same for a password login, whose session belongs to the administrator. */
  lemma LoginOpensASession(t: Tables, read: Credential, now: int, requested: seq<Options>, id: Digest, csrf: Digest)
    requires CommitLogin(t, read, now, requested, id, csrf, false).1.Done?
    ensures var t' := CommitLogin(t, read, now, requested, id, csrf, false).0;
            var lifetime := if requested == [] then 12 * 3600 * NANO else requested[0].lifetime;
            && AdministratorCredential(t') == Some(read)
            && OpenedFor(t', id, read.username, WriteScope, Password, requested != [] && requested[0].persistent, now)
            && id !in t.sessions && OpenUntil(t', id, csrf, (now + lifetime) / NANO * NANO) && SameForOthers(t, t', id)
  {
  }

  /** Without a session identifier, or without a token, nothing succeeds and nothing changes. */
  lemma BlankSecretsOpenNothing(t: Tables, x: Presented, at: int, token: Digest, fault: bool)
    ensures FindSession(t, Nothing, at) == Failed(SessionNotFound)
    ensures ValidateCSRF(t, Nothing, x, at) == Failed(SessionNotFound) && ValidateCSRF(t, x, Nothing, at).Failed?
    ensures TouchSession(t, Nothing, at, fault) == RevokeSession(t, Nothing, fault) == IssueCSRF(t, Nothing, at, token, fault)
         == (t, Failed(SessionNotFound))
  {
  }

  /** Exactly when a token can be issued; the session gets it unless the trimming takes it, and all
      else stays. */
  lemma IssuingSucceedsIff(t: Tables, id: Digest, now: int, token: Digest)
    ensures var (t', o) := IssueCSRF(t, Secret(id), now, token, false);
            && (o.Done? <==> id in t.sessions && now < t.sessions[id].expiresAt * NANO && token !in t.sessions[id].tokens)
            && (o.Failed? ==> t' == t)
            && (o.Done? ==>
                  && t' == t.(sessions := t.sessions[id := t.sessions[id].(tokens := t'.sessions[id].tokens)])
                  && forall d :: d in t'.sessions[id].tokens ==>
                       if d == token then t'.sessions[id].tokens[d] == now
                       else d in t.sessions[id].tokens && t'.sessions[id].tokens[d] == t.sessions[id].tokens[d])
  {
  }

  /** Touching a session never prolongs it and never changes its tokens. */
  lemma TouchingChangesNoAnswer(t: Tables, id: Digest, now: int)
    ensures TouchSession(t, Secret(id), now, false).1.Done? <==> FindSession(t, Secret(id), now).Done?
    ensures var t' := TouchSession(t, Secret(id), now, false).0;
            && (forall x, at :: FindSession(t', x, at) == FindSession(t, x, at))
            && (forall x, csrf, at :: ValidateCSRF(t', x, csrf, at) == ValidateCSRF(t, x, csrf, at))
            && (FindSession(t, Secret(id), now).Done? ==> t'.sessions[id].lastUsed == now / NANO)
  {
  }

  /** Revoking a session closes it, and no other. */
  lemma RevokingClosesOne(t: Tables, id: Digest)
    ensures var t' := RevokeSession(t, Secret(id), false).0;
            SameForOthers(t, t', id) && forall at :: FindSession(t', Secret(id), at) == Failed(SessionNotFound)
  {
  }
}

module PasswordSessions {
  import opened Clock
  import opened Wrappers
  import opened Text
  import opened CsrfWindow
  import opened BrowserStore
  import opened BrowserFrames

  /** The credential each password session was authenticated with. */
  type Provenance = map<Digest, Credential>

  function ProvenanceAfter(s: Store, op: Op, from: Provenance): Provenance {
    if op.LoginCommit? && op.login in s.logins && Do(s, op).1.Done? then from[op.id := s.logins[op.login]] else from
  }

  function ProvenanceBy(s: Store, ops: seq<Op>, from: Provenance): Provenance
    decreases |ops|
  {
    if ops == [] then from else ProvenanceBy(Do(s, ops[0]).0, ops[1..], ProvenanceAfter(s, ops[0], from))
  }

  ghost predicate Current(t: Tables, from: Provenance) {
    forall d :: d in t.sessions && t.sessions[d].authMethod.Password? ==>
      && d in from && AdministratorCredential(t) == Some(from[d])
      && t.sessions[d].subject == from[d].username
  }

  lemma CurrentKept(s: Store, op: Op, from: Provenance)
    requires Current(s.tables, from)
    ensures Current(Do(s, op).0.tables, ProvenanceAfter(s, op, from))
  {
    AdministratorFrame(s, op);
    var t, t' := s.tables, Do(s, op).0.tables;
    assert t.admin == t'.admin ==> AdministratorCredential(t) == AdministratorCredential(t');
    forall d | d in t'.sessions ensures Created(s, op, d, t'.sessions[d]) || Reissued(s, op, d, t'.sessions[d]) || Kept(s, d, t'.sessions[d])
    {
      SessionFrame(s, op, d);
    }
    CommitDone(s, op);
    hide Do, AdministratorCredential, Trim;
    if !op.SetPassword? && !op.Disable? {
      assert t.admin == t'.admin;
    }
  }

  lemma CommitDone(s: Store, op: Op)
    ensures op.LoginCommit? && Do(s, op).1.Failed? ==> Do(s, op).0.tables == s.tables
    ensures op.LoginCommit? && Do(s, op).1.Done? ==> op.login in s.logins && op.id !in s.tables.sessions
  {
    hide NormalizeUsername, ResolveOptions, AdministratorCredential, Seconds;
  }

  /** Under every interleaving of two-phase logins with password changes, disabling and all other
      operations: each stored password session was authenticated with exactly the username and
      hash that are enabled now. */
  lemma {:induction false} PasswordSessionsAreCurrent(s: Store, ops: seq<Op>, from: Provenance)
    requires Current(s.tables, from)
    ensures Current(After(s, ops).tables, ProvenanceBy(s, ops, from))
    decreases |ops|
  {
    if ops != [] {
      CurrentKept(s, ops[0], from);
      hide Do, ProvenanceAfter, Current;
      PasswordSessionsAreCurrent(Do(s, ops[0]).0, ops[1..], ProvenanceAfter(s, ops[0], from));
    }
  }

  predicate PlainChar(c: char) {
    'a' <= c <= 'z' || '0' <= c <= '9' || c == '.' || c == '_' || c == '-'
  }

  predicate EdgeChar(c: char) {
    'a' <= c <= 'z' || '0' <= c <= '9'
  }

  /** One to 64 lower-case letters, digits, dots, underscores and hyphens, with a letter or digit at
      either end. */
  ghost predicate PlainName(n: string) {
    1 <= |n| <= 64 && (forall i :: 0 <= i < |n| ==> PlainChar(n[i])) && EdgeChar(n[0]) && EdgeChar(n[|n| - 1])
  }

  /** Accepted user names are the spellings of plain names, in any case and with white space around
      them. */
  lemma NameIsAcceptedIff(username: string, n: string)
    ensures NormalizeUsername(username) == Some(n) <==> PlainName(n) && Writes(username, n)
  {
    WritesIff(username, n);
    assert ValidName(n) <==> PlainName(n) by {
      assert forall c :: NameChar(c) <==> PlainChar(c);
      assert forall c :: NameChar(c) && !Separator(c) <==> EdgeChar(c);
    }
  }

  /** When there is a usable credential at all: an enabled administrator of an acceptable name, with
      write access to itself and a hash of the right cost. */
  lemma CredentialIff(t: Tables, c: Credential)
    ensures AdministratorCredential(t) == Some(c) <==>
              && t.admin.Some?
              && var a := t.admin.value;
                 && a.enabled && PlainName(a.username) && a.subject == a.username && a.scope.WriteScope?
                 && a.hash.cost == 12 && c == Credential(a.username, a.hash)
  {
    if t.admin.Some? {
      var n := t.admin.value.username;
      NameIsAcceptedIff(n, n);
      if PlainName(n) {
        PlainNameIsItself(n);
      }
    }
    hide NormalizeUsername, PlainName, Writes;
  }

  ghost predicate Acceptable(p: PasswordText) {
    p.utf8 && 12 <= |p.bytes| <= 72
  }

  /** A password can be set exactly for an acceptable name and an acceptable password; then the
      administrator has that name, and all sessions opened with a code are left as they were. */
  lemma SettingSucceedsIff(t: Tables, username: string, password: PasswordText, salt: nat, now: int, n: string)
    requires Writes(username, n)
    ensures var (t', o) := SetAdministratorPassword(t, username, password, salt, now, false);
            && (o.Done? <==> PlainName(n) && Acceptable(password))
            && (o.Done? ==>
                  && AdministratorCredential(t') == Some(Credential(n, Hash(password.bytes, salt, 12)))
                  && t'.codes == t.codes
                  && forall d :: d in t'.sessions <==> d in t.sessions && t.sessions[d].authMethod.BrowserCode?)
            && (o.Failed? ==> t' == t)
  {
    hide Writes, PlainName, NormalizeUsername;
    AcceptedOrNot(username, n);
    if PlainName(n) {
      PlainNameIsItself(n);
    }
  }

  lemma AcceptedOrNot(username: string, n: string)
    requires Writes(username, n)
    ensures NormalizeUsername(username) == if PlainName(n) then Some(n) else None
  {
    NameIsAcceptedIff(username, n);
    WritesIff(username, n);
    hide Writes, PlainName, TrimSpace, ToLower, ValidName;
  }

  lemma PlainNameIsItself(n: string)
    requires PlainName(n)
    ensures Writes(n, n) && NormalizeUsername(n) == Some(n)
  {
    var none: string := [];
    assert AllSpace(none) && n == none + n + none;
    assert Trimmed(n) && Spells(n, n);
    assert Writes(n, n);
    NameIsAcceptedIff(n, n);
  }

  /** The administrator can be disabled exactly if there is one; then there is no usable credential,
      and exactly the sessions opened with a code stay. */
  lemma DisablingSucceedsIff(t: Tables, now: int)
    ensures var (t', o) := DisableAdministrator(t, now, false);
            && (o.Done? <==> t.admin.Some?)
            && (o.Done? ==>
                  && AdministratorCredential(t').None? && t'.codes == t.codes
                  && forall d :: d in t'.sessions <==> d in t.sessions && t.sessions[d].authMethod.BrowserCode?)
            && (o.Failed? ==> t' == t)
  {
    hide NormalizeUsername;
  }

  /** Which logins then compare equal, in plain text: any spelling of the name, with exactly the
      bytes of the password. */
  lemma LoginsThatCompareEqual(t: Tables, n: string, password: PasswordText, salt: nat, now: int,
                               attempt: string, typed: PasswordText)
    requires PlainName(n) && Acceptable(password)
    ensures var t' := SetAdministratorPassword(t, n, password, salt, now, false).0;
            ReadAndCompare(t', attempt, typed).Some? <==> Writes(attempt, n) && typed.utf8 && typed.bytes == password.bytes
  {
    PlainNameIsItself(n);
    SettingSucceedsIff(t, n, password, salt, now, n);
    OnlyTheSetPasswordOpensASession(t, n, password, salt, now, attempt, typed);
    NameIsAcceptedIff(attempt, n);
    hide Writes, PlainName, TrimSpace, ToLower, NormalizeUsername, ReadAndCompare, SetAdministratorPassword, DisableAdministrator;
  }

  lemma ValidNameIsNormal(name: string)
    requires ValidName(name)
    ensures NormalizeUsername(name) == Some(name)
  {
    TrimSpaceTrims(name);
    assert !IsSpace(name[0]) && !IsSpace(name[|name| - 1]);
    assert forall i :: 0 <= i < |name| ==> LowerChar(name[i]) == name[i];
    assert ToLower(name) == name;
  }

  /** After a password is set, exactly that password opens a session, under any spelling of the
      same username, and disabling the administrator closes that door. */
  lemma OnlyTheSetPasswordOpensASession(t: Tables, username: string, password: PasswordText, salt: nat, now: int,
                                        attempt: string, typed: PasswordText)
    requires SetAdministratorPassword(t, username, password, salt, now, false).1.Done?
    ensures var t' := SetAdministratorPassword(t, username, password, salt, now, false).0;
            && (ReadAndCompare(t', attempt, typed).Some? <==>
                  NormalizeUsername(attempt) == NormalizeUsername(username)
                  && ValidPassword(typed) && typed.bytes == password.bytes)
            && ReadAndCompare(DisableAdministrator(t', now, false).0, attempt, typed).None?
  {
    ValidNameIsNormal(NormalizeUsername(username).value);
    hide ValidName, ToLower, TrimSpace;
  }

  /** A login that read its credential before the password was changed cannot commit after. */
  lemma RotationDefeatsAnEarlierRead(t: Tables, read: Credential, username: string, password: PasswordText, salt: nat,
                                     now: int, requested: seq<Options>, id: Digest, csrf: Digest)
    requires SetAdministratorPassword(t, username, password, salt, now, false).1.Done?
    requires read.hash.salt != salt
    ensures CommitLogin(SetAdministratorPassword(t, username, password, salt, now, false).0,
                        read, now, requested, id, csrf, false).1.Failed?
  {
    hide NormalizeUsername, ValidPassword;
  }
}

module CsrfHistory {
  import opened Text
  import opened Wrappers
  import opened Clock
  import opened CsrfWindow
  import opened BrowserStore
  import opened BrowserFrames

  /** The tokens issued to each session since it was created, the initial one included. */
  type Histories = map<Digest, seq<Issued>>

  function HistoryAfter(s: Store, op: Op, h: Histories): Histories {
    if Do(s, op).1.Failed? then h
    else match op
         case Redeem(_, now, _, id, csrf, _) => h[id := [Issued(csrf, now)]]
         case LoginCommit(_, now, _, id, csrf, _) => h[id := [Issued(csrf, now)]]
         case Issue(p, now, token, _) =>
           if p.Secret? && p.digest in h then h[p.digest := h[p.digest] + [Issued(token, now)]] else h
         case _ => h
  }

  function HistoryBy(s: Store, ops: seq<Op>, h: Histories): Histories
    decreases |ops|
  {
    if ops == [] then h else HistoryBy(Do(s, ops[0]).0, ops[1..], HistoryAfter(s, ops[0], h))
  }

  ghost predicate Bounded(t: Tables) {
    forall d :: d in t.sessions ==> |t.sessions[d].tokens| <= MAX_TOKENS
  }

  lemma BoundedKept(s: Store, op: Op)
    requires Bounded(s.tables)
    ensures Bounded(Do(s, op).0.tables)
  {
    forall d | d in Do(s, op).0.tables.sessions ensures |Do(s, op).0.tables.sessions[d].tokens| <= MAX_TOKENS {
      SessionFrame(s, op, d);
      hide Do, Trim;
      if Reissued(s, op, d, Do(s, op).0.tables.sessions[d]) {
        TrimBounds(s.tables.sessions[d].tokens[op.newToken := op.now]);
      }
    }
  }

  /** No session ever holds more than eight tokens, whatever the clock does. */
  lemma {:induction false} NeverMoreThanEightTokens(s: Store, ops: seq<Op>)
    requires Bounded(s.tables)
    ensures Bounded(After(s, ops).tables)
    decreases |ops|
  {
    if ops != [] {
      BoundedKept(s, ops[0]);
      hide Do, Bounded;
      NeverMoreThanEightTokens(Do(s, ops[0]).0, ops[1..]);
    }
  }

  /** After any run: a token IssueCSRF returns is accepted by ValidateCSRF, while its session lives,
      exactly if the session held fewer than eight tokens or one that ranks behind the new one. */
  lemma ReturnedTokenValidatesIff(s: Store, ops: seq<Op>, id: Digest, now: int, token: Digest, at: int)
    requires Bounded(s.tables)
    requires IssueCSRF(After(s, ops).tables, Secret(id), now, token, false).1.Done?
    requires FindSession(After(s, ops).tables, Secret(id), at).Done?
    ensures var t := After(s, ops).tables; var held := t.sessions[id].tokens;
            ValidateCSRF(IssueCSRF(t, Secret(id), now, token, false).0, Secret(id), Secret(token), at).Done? <==>
              |held| < MAX_TOKENS || exists e :: e in held && (held[e] < now || (held[e] == now && e < token))
  {
    NeverMoreThanEightTokens(s, ops);
    hide After, Trim;
    NewTokenSurvivesIff(After(s, ops).tables.sessions[id].tokens, token, now);
  }

  // ---- a run that loses a token -----------------------------------------------------------

  const Code: Principal := Principal(true, Some(7), "admin", WriteScope, 60 * NANO)
  const Login: Op := Redeem(Code, 10, [], 1, 0, false)

  /** The first token and `k` further ones, each a nanosecond later than the one before. */
  function Stock(k: nat): Tokens {
    if k == 0 then map[0 := 10] else Stock(k - 1)[k := 10 + k]
  }

  function Stocked(tokens: Tokens): Tables {
    Tables(map[1 := Session("admin", WriteScope, BrowserCode, false, 0, 0, 12 * 3600, tokens)], map[7 := 60], None)
  }

  function IssueNext(k: nat): Op {
    Issue(Secret(1), 11 + k, k + 1, false)
  }

  function Refill(k: nat): seq<Op>
    decreases MAX_TOKENS - k
  {
    if k >= MAX_TOKENS - 1 then [] else [IssueNext(k)] + Refill(k + 1)
  }

  lemma {:induction false} StockContents(k: nat)
    ensures |Stock(k)| == k + 1 && forall d :: d in Stock(k) ==> d <= k && 10 <= Stock(k)[d]
  {
    if k > 0 {
      StockContents(k - 1);
    }
  }

  /** Issuing to this session, before it expires. */
  lemma IssueToStock(m: Tokens, now: int, token: Digest)
    requires now < NANO && token !in m
    ensures Do(Store(Stocked(m), map[]), Issue(Secret(1), now, token, false))
         == (Store(Stocked(Trim(m[token := now])), map[]), Done)
  {
    hide Trim;
    var t := Stocked(m);
    var n := t.sessions[1].(tokens := Trim(m[token := now]));
    assert t.sessions[1 := n] == Stocked(Trim(m[token := now])).sessions;
  }

  lemma StockStep(k: nat)
    ensures Stock(k)[k + 1 := 11 + k] == Stock(k + 1)
  {
  }

  lemma StockGrows(k: nat)
    requires k < MAX_TOKENS - 1
    ensures Do(Store(Stocked(Stock(k)), map[]), IssueNext(k)) == (Store(Stocked(Stock(k + 1)), map[]), Done)
  {
    hide Trim, Stock, Stocked, Do;
    StockStep(k);
    StockContents(k);
    StockContents(k + 1);
    TrimKeepsSmall(Stock(k + 1));
    IssueToStock(Stock(k), 11 + k, k + 1);
  }

  lemma {:induction false} StockFills(k: nat)
    requires k < MAX_TOKENS
    ensures After(Store(Stocked(Stock(k)), map[]), Refill(k)) == Store(Stocked(Stock(MAX_TOKENS - 1)), map[])
    decreases MAX_TOKENS - k
  {
    hide Do, Stock, Stocked;
    if k < MAX_TOKENS - 1 {
      StockGrows(k);
      StockFills(k + 1);
    }
  }

  lemma LoginStocks()
    ensures Do(EmptyStore, Login) == (Store(Stocked(Stock(0)), map[]), Done)
  {
    assert TrimSpace("admin") != [] by { TrimSpaceTrims("admin"); }
  }

  lemma LateTokenIsLost(m: Tokens, at: int)
    requires |m| == MAX_TOKENS && 8 !in m && forall d :: d in m ==> 10 <= m[d]
    ensures var (s, o) := Do(Store(Stocked(m), map[]), Issue(Secret(1), 5, 8, false));
            o.Done? && ValidateCSRF(s.tables, Secret(1), Secret(8), at).Failed?
  {
    IssueToStock(m, 5, 8);
    NewTokenSurvivesIff(m, 8, 5);
    hide Do, Trim;
  }

  lemma RunOfIssues()
    ensures After(EmptyStore, [Login] + Refill(0)) == Store(Stocked(Stock(MAX_TOKENS - 1)), map[])
  {
    LoginStocks();
    StockFills(0);
    hide Do, Refill, Stock, Stocked;
    assert ([Login] + Refill(0))[1..] == Refill(0);
  }

  /** Eight tokens issued one after the other, then a ninth by a clock set back: IssueCSRF reports
      success, and ValidateCSRF rejects the token it returned, from the first moment on. */
  lemma SetBackClockLosesAToken(at: int)
    ensures var s := After(EmptyStore, [Login] + Refill(0)); var (s', o) := Do(s, Issue(Secret(1), 5, 8, false));
            o.Done? && ValidateCSRF(s'.tables, Secret(1), Secret(8), at).Failed?
  {
    hide Do, After, Refill, Stock, Stocked, ValidateCSRF;
    RunOfIssues();
    StockContents(MAX_TOKENS - 1);
    LateTokenIsLost(Stock(MAX_TOKENS - 1), at);
  }

  ghost predicate Windowed(t: Tables, h: Histories) {
    forall d :: d in t.sessions ==> d in h && h[d] != [] && Holds(t.sessions[d].tokens, h[d])
  }

  /** Tokens of a session are issued at increasing times. */
  ghost predicate Advancing(s: Store, op: Op, h: Histories) {
    (op.Issue? && op.session.Secret? && op.session.digest in h && h[op.session.digest] != []) ==>
      h[op.session.digest][|h[op.session.digest]| - 1].at < op.now
  }

  ghost predicate AdvancingRun(s: Store, ops: seq<Op>, h: Histories)
    decreases |ops|
  {
    ops == [] || (Advancing(s, ops[0], h) && AdvancingRun(Do(s, ops[0]).0, ops[1..], HistoryAfter(s, ops[0], h)))
  }

  lemma FirstTokenHolds(csrf: Digest, now: int)
    ensures Holds(map[csrf := now], [Issued(csrf, now)])
  {
    var w := [Issued(csrf, now)];
    assert w[1..] == [];
    assert MapOf([]) == map[];
    assert map[][csrf := now] == map[csrf := now];
  }

  /** How an operation moves the history of a session that is stored after it. */
  lemma HistoryMoves(s: Store, op: Op, h: Histories, d: Digest)
    requires d in Do(s, op).0.tables.sessions && (d in s.tables.sessions ==> d in h)
    ensures var h' := HistoryAfter(s, op, h); var n := Do(s, op).0.tables.sessions[d];
            && (d in s.tables.sessions || Created(s, op, d, n)) && d in h'
            && h'[d] == if Do(s, op).1.Failed? then h[d]
                        else if Created(s, op, d, n) then [Issued(op.csrf, op.now)]
                        else if Reissued(s, op, d, n) then h[d] + [Issued(op.newToken, op.now)]
                        else h[d]
  {
    SessionFrame(s, op, d);
    hide Do, Trim, AdministratorCredential;
  }

  lemma SessionWindowed(s: Store, op: Op, h: Histories, d: Digest)
    requires Windowed(s.tables, h) && Advancing(s, op, h) && d in Do(s, op).0.tables.sessions
    ensures var h' := HistoryAfter(s, op, h);
            d in h' && h'[d] != [] && Holds(Do(s, op).0.tables.sessions[d].tokens, h'[d])
  {
    SessionFrame(s, op, d);
    HistoryMoves(s, op, h, d);
    hide Do, Trim, Holds, AdministratorCredential, HistoryAfter;
    var n := Do(s, op).0.tables.sessions[d];
    if Do(s, op).1.Failed? {
      assert Holds(s.tables.sessions[d].tokens, h[d]);
    } else if Created(s, op, d, n) {
      FirstTokenHolds(op.csrf, op.now);
    } else if Reissued(s, op, d, n) {
      assert Holds(s.tables.sessions[d].tokens, h[d]);
      IssueMovesTheWindow(s.tables.sessions[d].tokens, h[d], op.newToken, op.now);
    } else {
      assert Holds(s.tables.sessions[d].tokens, h[d]);
    }
  }

  lemma WindowedKept(s: Store, op: Op, h: Histories)
    requires Windowed(s.tables, h) && Advancing(s, op, h)
    ensures Windowed(Do(s, op).0.tables, HistoryAfter(s, op, h))
  {
    hide Do, HistoryAfter, Holds, Advancing;
    forall d | d in Do(s, op).0.tables.sessions
      ensures var h' := HistoryAfter(s, op, h);
              d in h' && h'[d] != [] && Holds(Do(s, op).0.tables.sessions[d].tokens, h'[d])
    {
      SessionWindowed(s, op, h, d);
    }
  }

  lemma {:induction false} WindowedThroughout(s: Store, ops: seq<Op>, h: Histories)
    requires Windowed(s.tables, h) && AdvancingRun(s, ops, h)
    ensures Windowed(After(s, ops).tables, HistoryBy(s, ops, h))
    decreases |ops|
  {
    if ops != [] {
      WindowedKept(s, ops[0], h);
      hide Do, HistoryAfter, Windowed, Advancing;
      WindowedThroughout(Do(s, ops[0]).0, ops[1..], HistoryAfter(s, ops[0], h));
    }
  }

  ghost predicate Among(token: Digest, w: seq<Issued>) {
    exists i :: 0 <= i < |w| && w[i].token == token
  }

  lemma {:induction false} MapOfMembers(w: seq<Issued>, token: Digest)
    ensures token in MapOf(w) <==> Among(token, w)
  {
    if w != [] {
      MapOfMembers(w[1..], token);
      if Among(token, w[1..]) {
        var i :| 0 <= i < |w[1..]| && w[1..][i].token == token;
        assert w[i + 1].token == token;
      }
      if Among(token, w) && w[0].token != token {
        var i :| 0 <= i < |w| && w[i].token == token;
        assert w[1..][i - 1].token == token;
      }
    }
  }

  /** With increasing issue times, a token validates exactly while its session is stored and not
      expired and it is among the last eight issued to that session. */
  lemma ValidTokensAreTheLastEight(s: Store, ops: seq<Op>, h: Histories, id: Digest, token: Digest, now: int)
    requires Windowed(s.tables, h) && AdvancingRun(s, ops, h)
    ensures var t := After(s, ops).tables;
            var history := HistoryBy(s, ops, h);
            ValidateCSRF(t, Secret(id), Secret(token), now).Done? <==>
              && id in t.sessions && !Expired(t.sessions[id].expiresAt, now)
              && id in history && Among(token, Recent(history[id]))
  {
    WindowedThroughout(s, ops, h);
    var history := HistoryBy(s, ops, h);
    if id in history {
      MapOfMembers(Recent(history[id]), token);
    }
  }

  ghost predicate Recreates(op: Op, id: Digest) {
    (op.Redeem? || op.LoginCommit?) && op.id == id
  }

  lemma StaysAbsent(s: Store, op: Op, id: Digest)
    requires id !in s.tables.sessions && !Recreates(op, id)
    ensures id !in Do(s, op).0.tables.sessions
  {
    if id in Do(s, op).0.tables.sessions {
      SessionFrame(s, op, id);
    }
  }

  /** Once a session is revoked, none of its tokens validates again, whatever happens, unless
      its identifier is drawn a second time. */
  lemma {:induction false} RevokedTokensStayInvalid(s: Store, ops: seq<Op>, id: Digest, token: Presented, now: int)
    requires id !in s.tables.sessions
    requires forall op :: op in ops ==> !Recreates(op, id)
    ensures ValidateCSRF(After(s, ops).tables, Secret(id), token, now).Failed?
    decreases |ops|
  {
    if ops != [] {
      assert ops[0] in ops && !Recreates(ops[0], id);
      StaysAbsent(s, ops[0], id);
      hide Do;
      RevokedTokensStayInvalid(Do(s, ops[0]).0, ops[1..], id, token, now);
    }
  }
}

module Purging {
  import opened Sets
  import opened Wrappers
  import opened Clock
  import opened CsrfWindow
  import opened BrowserStore

  /** The store that never purges. */
  function DoUnpurged(s: Store, op: Op): (Store, Outcome) {
    if op.Purge? then (s, Do(s, op).1) else Do(s, op)
  }

  function UnpurgedAnswers(s: Store, ops: seq<Op>): seq<Outcome>
    decreases |ops|
  {
    if ops == [] then [] else [DoUnpurged(s, ops[0]).1] + UnpurgedAnswers(DoUnpurged(s, ops[0]).0, ops[1..])
  }

  /** The answers as a caller can use them: did it work? */
  function Successes(outcomes: seq<Outcome>): seq<bool> {
    seq(|outcomes|, i requires 0 <= i < |outcomes| => outcomes[i].Done?)
  }

  // ---- what a run may look like -------------------------------------------------------------

  predicate Timed(op: Op) {
    !op.Revoke? && !op.LoginRead?
  }

  ghost predicate ClockRuns(ops: seq<Op>, now: int)
    decreases |ops|
  {
    ops == [] || (if Timed(ops[0]) then now <= ops[0].now && ClockRuns(ops[1..], ops[0].now) else ClockRuns(ops[1..], now))
  }

  /** A code has one signed expiry, in whole seconds. */
  ghost predicate GenuineCodes(ops: seq<Op>, expiry: Digest -> int) {
    forall op :: op in ops && op.Redeem? && op.principal.tokenId.Some? ==>
      op.principal.expiresAt == expiry(op.principal.tokenId.value) * NANO
  }

  /** Purges remove only rows whose time is up, as PurgeChoice makes them. */
  ghost predicate PurgesExpired(s: Store, op: Op) {
    op.Purge? && op.limit > 0 ==>
      && (forall d :: d in op.goneSessions && d in s.tables.sessions ==> s.tables.sessions[d].expiresAt <= Seconds(op.now))
      && (forall c :: c in op.goneCodes && c in s.tables.codes ==> s.tables.codes[c] <= Seconds(op.now))
  }

  ghost predicate PurgesThroughout(s: Store, ops: seq<Op>)
    decreases |ops|
  {
    ops == [] || (PurgesExpired(s, ops[0]) && PurgesThroughout(Do(s, ops[0]).0, ops[1..]))
  }

  /** Identifiers drawn for new sessions are not in use. */
  ghost predicate FreshIds(u: Store, ops: seq<Op>)
    decreases |ops|
  {
    ops == [] || (
      && ((ops[0].Redeem? || ops[0].LoginCommit?) ==> ops[0].id !in u.tables.sessions)
      && FreshIds(DoUnpurged(u, ops[0]).0, ops[1..]))
  }

  /** Purges as the store makes them: bounded, earliest expiry first, from both tables. */
  ghost predicate ChoosesBounded(s: Store, op: Op) {
    op.Purge? && op.limit > 0 ==>
      && PurgeChoice(SessionExpiry(s.tables), op.now, op.limit, op.goneSessions)
      && PurgeChoice(s.tables.codes, op.now, op.limit, op.goneCodes)
  }

  ghost predicate ChoosesThroughout(s: Store, ops: seq<Op>)
    decreases |ops|
  {
    ops == [] || (ChoosesBounded(s, ops[0]) && ChoosesThroughout(Do(s, ops[0]).0, ops[1..]))
  }

  lemma {:induction false} BoundedPurgesAreExpired(s: Store, ops: seq<Op>)
    requires ChoosesThroughout(s, ops)
    ensures PurgesThroughout(s, ops)
    decreases |ops|
  {
    if ops != [] {
      if ops[0].Purge? && ops[0].limit > 0 {
        PurgeChoiceIsExpired(s, ops[0].now, ops[0].limit, ops[0].goneSessions, ops[0].goneCodes);
      }
      hide Do, ChoosesBounded;
      BoundedPurgesAreExpired(Do(s, ops[0]).0, ops[1..]);
    }
  }

  function ExpiredRows(expiry: map<Digest, int>, now: int): set<Digest> {
    set d | d in expiry && expiry[d] * NANO <= now
  }

  /** With a limit that covers them, a purge takes all expired rows and nothing else. */
  lemma GenerousPurgeTakesAll(expiry: map<Digest, int>, now: int, limit: int, gone: set<Digest>)
    requires PurgeChoice(expiry, now, limit, gone) && |ExpiredRows(expiry, now)| <= limit
    ensures gone == ExpiredRows(expiry, now)
  {
    var expired := ExpiredRows(expiry, now);
    forall d | d in expiry ensures expiry[d] <= Seconds(now) <==> expiry[d] * NANO <= now {
      SecondsReached(expiry[d], now);
    }
    assert gone <= expired;
    forall d | d in expired ensures d in gone {
      if d !in gone {
        assert |expired - {d}| == |expired| - 1;
        SubsetSize(gone, expired - {d});
        assert false;
      }
    }
  }

  /** After a purge with room for all expired rows, what is left is exactly what is still live. */
  lemma GenerousPurgeLeavesTheLive(s: Store, now: int, limit: int, gs: set<Digest>, gc: set<Digest>)
    requires limit > 0 && ChoosesBounded(s, Purge(now, limit, gs, gc))
    requires |ExpiredRows(SessionExpiry(s.tables), now)| <= limit && |ExpiredRows(s.tables.codes, now)| <= limit
    ensures var (s', o) := Do(s, Purge(now, limit, gs, gc)); var t, t' := s.tables, s'.tables;
            && o.Done? && t'.admin == t.admin && s'.logins == s.logins
            && (forall d :: d in t'.sessions <==> d in t.sessions && now < t.sessions[d].expiresAt * NANO)
            && (forall d :: d in t'.sessions ==> t'.sessions[d] == t.sessions[d])
            && (forall c :: c in t'.codes <==> c in t.codes && now < t.codes[c] * NANO)
            && (forall c :: c in t'.codes ==> t'.codes[c] == t.codes[c])
  {
    GenerousPurgeTakesAll(SessionExpiry(s.tables), now, limit, gs);
    GenerousPurgeTakesAll(s.tables.codes, now, limit, gc);
  }

  lemma PurgeChoiceIsExpired(s: Store, now: int, limit: int, gs: set<Digest>, gc: set<Digest>)
    requires PurgeChoice(SessionExpiry(s.tables), now, limit, gs) && PurgeChoice(s.tables.codes, now, limit, gc)
    ensures PurgesExpired(s, Purge(now, limit, gs, gc))
  {
    forall d | d in gs ensures d in s.tables.sessions && s.tables.sessions[d].expiresAt <= Seconds(now) {
      assert d in SessionExpiry(s.tables);
    }
  }

  // ---- the relation -------------------------------------------------------------------------

  /** `p` is `u` without some sessions that had expired by `now`. */
  ghost predicate SessionsThinned(p: map<Digest, Session>, u: map<Digest, Session>, now: int) {
    && (forall d :: d in p ==> d in u && p[d] == u[d])
    && (forall d :: d in u && d !in p ==> Expired(u[d].expiresAt, now))
  }

  /** ... and without some code records; each record holds its code's expiry. */
  ghost predicate CodesThinned(p: map<Digest, int>, u: map<Digest, int>, now: int, expiry: Digest -> int) {
    && (forall c :: c in p ==> c in u && p[c] == u[c])
    && (forall c :: c in u ==> u[c] == expiry(c) && (c in p || Expired(u[c], now)))
  }

  ghost predicate Thinned(p: Tables, u: Tables, now: int, expiry: Digest -> int) {
    p.admin == u.admin && SessionsThinned(p.sessions, u.sessions, now) && CodesThinned(p.codes, u.codes, now, expiry)
  }

  ghost predicate Related(p: Store, u: Store, now: int, expiry: Digest -> int) {
    Thinned(p.tables, u.tables, now, expiry) && p.logins == u.logins
  }

  lemma SecondsReached(e: int, now: int)
    ensures e <= Seconds(now) <==> Expired(e, now)
  {
  }

  lemma RelatedAges(p: Store, u: Store, now: int, later: int, expiry: Digest -> int)
    requires Related(p, u, now, expiry) && now <= later
    ensures Related(p, u, later, expiry)
  {
  }

  lemma SessionPut(p: map<Digest, Session>, u: map<Digest, Session>, now: int, id: Digest, s: Session)
    requires SessionsThinned(p, u, now)
    ensures SessionsThinned(p[id := s], u[id := s], now)
  {
  }

  lemma SessionDropped(p: map<Digest, Session>, u: map<Digest, Session>, now: int, id: Digest)
    requires SessionsThinned(p, u, now)
    ensures SessionsThinned(p - {id}, u - {id}, now)
  {
  }

  lemma PasswordSessionsDropped(p: map<Digest, Session>, u: map<Digest, Session>, now: int)
    requires SessionsThinned(p, u, now)
    ensures SessionsThinned(WithoutPasswordSessions(p), WithoutPasswordSessions(u), now)
  {
    hide Expired;
  }

  lemma CodePut(p: map<Digest, int>, u: map<Digest, int>, now: int, expiry: Digest -> int, c: Digest)
    requires CodesThinned(p, u, now, expiry)
    ensures CodesThinned(p[c := expiry(c)], u[c := expiry(c)], now, expiry)
  {
  }

  ghost predicate Admissible(op: Op, p: Store, u: Store, now: int, expiry: Digest -> int) {
    && (Timed(op) ==> op.now == now)
    && (op.Redeem? && op.principal.tokenId.Some? ==>
          op.principal.expiresAt == expiry(op.principal.tokenId.value) * NANO)
    && ((op.Redeem? || op.LoginCommit?) ==> op.id !in u.tables.sessions)
    && PurgesExpired(p, op)
  }

  /** A live session is found in both stores and is the same; any other fails in both. */
  lemma FindAgrees(p: Tables, u: Tables, who: Presented, now: int, expiry: Digest -> int)
    requires Thinned(p, u, now, expiry)
    ensures FindSession(p, who, now).Done? == FindSession(u, who, now).Done?
    ensures FindSession(u, who, now).Done? ==>
              who.Secret? && who.digest in p.sessions && who.digest in u.sessions && p.sessions[who.digest] == u.sessions[who.digest]
    ensures who.Secret? ==>
              ((who.digest in u.sessions && u.sessions[who.digest].expiresAt > Seconds(now)) <==> FindSession(u, who, now).Done?)
              && ((who.digest in p.sessions && p.sessions[who.digest].expiresAt > Seconds(now)) <==> FindSession(p, who, now).Done?)
  {
    if who.Secret? && who.digest in u.sessions {
      SecondsReached(u.sessions[who.digest].expiresAt, now);
    }
    if who.Secret? && who.digest in p.sessions {
      SecondsReached(p.sessions[who.digest].expiresAt, now);
    }
    hide Seconds, Expired;
  }

  lemma SessionOpsAgree(op: Op, p: Store, u: Store, now: int, expiry: Digest -> int)
    requires Related(p, u, now, expiry) && Admissible(op, p, u, now, expiry)
    requires op.Get? || op.Touch? || op.Revoke? || op.Validate? || op.Issue?
    ensures Related(Do(p, op).0, DoUnpurged(u, op).0, now, expiry)
    ensures Do(p, op).1.Done? == DoUnpurged(u, op).1.Done?
  {
    FindAgrees(p.tables, u.tables, op.session, now, expiry);
    hide Seconds, Trim, FindSession, SessionsThinned, CodesThinned, PurgesExpired;
    var P, U := p.tables.sessions, u.tables.sessions;
    match op
    case Touch(Secret(d), _, _) => if d in U && d in P { SessionPut(P, U, now, d, U[d].(lastUsed := Seconds(now))); }
    case Issue(Secret(d), _, token, _) => if d in U && d in P { SessionPut(P, U, now, d, U[d].(tokens := Trim(U[d].tokens[token := now]))); }
    case Revoke(Secret(d), _) => SessionDropped(P, U, now, d);
    case _ =>
  }

  lemma RedeemAgrees(op: Op, p: Store, u: Store, now: int, expiry: Digest -> int)
    requires Related(p, u, now, expiry) && Admissible(op, p, u, now, expiry) && op.Redeem?
    ensures Related(Do(p, op).0, DoUnpurged(u, op).0, now, expiry)
    ensures Do(p, op).1 == DoUnpurged(u, op).1
  {
    if ValidPrincipal(op.principal) && now < op.principal.expiresAt {
      var c := op.principal.tokenId.value;
      assert Seconds(op.principal.expiresAt) == expiry(c) && !Expired(expiry(c), now);
      assert c in u.tables.codes <==> c in p.tables.codes;
      assert op.id !in p.tables.sessions;
      CodePut(p.tables.codes, u.tables.codes, now, expiry, c);
      var o := ResolveOptions(op.requested);
      if o.Some? {
        SessionPut(p.tables.sessions, u.tables.sessions, now, op.id,
                   NewSession(op.principal.subject, op.principal.scope, BrowserCode, now, o.value, op.csrf));
      }
    }
    hide Seconds, ResolveOptions, SessionsThinned, CodesThinned, Expired, PurgesExpired, NewSession, ValidPrincipal;
  }

  lemma PurgeAgrees(op: Op, p: Store, u: Store, now: int, expiry: Digest -> int)
    requires Related(p, u, now, expiry) && Admissible(op, p, u, now, expiry) && op.Purge?
    ensures Related(Do(p, op).0, DoUnpurged(u, op).0, now, expiry)
    ensures Do(p, op).1 == DoUnpurged(u, op).1
  {
    if op.limit <= 0 {
      return;
    }
    forall d | d in op.goneSessions && d in p.tables.sessions ensures Expired(p.tables.sessions[d].expiresAt, now) {
      SecondsReached(p.tables.sessions[d].expiresAt, now);
    }
    forall c | c in op.goneCodes && c in p.tables.codes ensures Expired(p.tables.codes[c], now) {
      SecondsReached(p.tables.codes[c], now);
    }
    hide Seconds, Expired;
  }

  lemma SettingAgrees(op: Op, p: Store, u: Store, now: int, expiry: Digest -> int)
    requires Related(p, u, now, expiry) && (op.SetPassword? || op.Disable? || op.LoginRead?)
    ensures Related(Do(p, op).0, DoUnpurged(u, op).0, now, expiry)
    ensures Do(p, op).1 == DoUnpurged(u, op).1
  {
    assert AdministratorCredential(p.tables) == AdministratorCredential(u.tables);
    PasswordSessionsDropped(p.tables.sessions, u.tables.sessions, now);
    hide Seconds, NormalizeUsername, SessionsThinned, CodesThinned, WithoutPasswordSessions, AdministratorCredential, ValidPassword;
  }

  lemma CommitAgrees(op: Op, p: Store, u: Store, now: int, expiry: Digest -> int)
    requires Related(p, u, now, expiry) && op.LoginCommit? && op.now == now && op.id !in u.tables.sessions
    ensures Related(Do(p, op).0, DoUnpurged(u, op).0, now, expiry)
    ensures Do(p, op).1 == DoUnpurged(u, op).1
  {
    assert AdministratorCredential(p.tables) == AdministratorCredential(u.tables);
    assert op.id !in p.tables.sessions;
    if op.login in u.logins && ResolveOptions(op.requested).Some? {
      SessionPut(p.tables.sessions, u.tables.sessions, now, op.id,
                 NewSession(u.logins[op.login].username, WriteScope, Password, now, ResolveOptions(op.requested).value, op.csrf));
    }
    hide ResolveOptions, SessionsThinned, CodesThinned, AdministratorCredential, NewSession;
  }

  lemma AdmissibleCommit(op: Op, p: Store, u: Store, now: int, expiry: Digest -> int)
    requires Admissible(op, p, u, now, expiry) && op.LoginCommit?
    ensures op.now == now && op.id !in u.tables.sessions
  {
  }

  lemma StepAgrees(op: Op, p: Store, u: Store, now: int, expiry: Digest -> int)
    requires Related(p, u, now, expiry) && Admissible(op, p, u, now, expiry)
    ensures Related(Do(p, op).0, DoUnpurged(u, op).0, now, expiry)
    ensures Do(p, op).1.Done? == DoUnpurged(u, op).1.Done?
  {
    hide Do, DoUnpurged, Related, Admissible;
    match op
    case Redeem(_, _, _, _, _, _) => RedeemAgrees(op, p, u, now, expiry);
    case Purge(_, _, _, _) => PurgeAgrees(op, p, u, now, expiry);
    case SetPassword(_, _, _, _, _) => SettingAgrees(op, p, u, now, expiry);
    case Disable(_, _) => SettingAgrees(op, p, u, now, expiry);
    case LoginRead(_, _, _) => SettingAgrees(op, p, u, now, expiry);
    case LoginCommit(_, _, _, _, _, _) =>
      assert op.now == now && op.id !in u.tables.sessions by { AdmissibleCommit(op, p, u, now, expiry); }
      CommitAgrees(op, p, u, now, expiry);
    case _ => SessionOpsAgree(op, p, u, now, expiry);
  }

  /** Purging, at any moment and with any limit, cannot be told from never purging by which
      operations succeed. */
  lemma {:induction false} PurgingIsUnobservable(p: Store, u: Store, ops: seq<Op>, now: int, expiry: Digest -> int)
    requires Related(p, u, now, expiry)
    requires ClockRuns(ops, now) && GenuineCodes(ops, expiry) && PurgesThroughout(p, ops) && FreshIds(u, ops)
    ensures Successes(Answers(p, ops)) == Successes(UnpurgedAnswers(u, ops))
    decreases |ops|
  {
    if ops == [] {
      assert Successes([]) == [];
    } else {
      var op := ops[0];
      var t := if Timed(op) then op.now else now;
      assert op in ops;
      RelatedAges(p, u, now, t, expiry);
      assert Admissible(op, p, u, t, expiry);
      StepAgrees(op, p, u, t, expiry);
      hide Do, DoUnpurged, Related, Admissible, PurgesExpired;
      var p', u' := Do(p, op).0, DoUnpurged(u, op).0;
      PurgingIsUnobservable(p', u', ops[1..], t, expiry);
      assert Successes(Answers(p, ops)) == [Do(p, op).1.Done?] + Successes(Answers(p', ops[1..]));
      assert Successes(UnpurgedAnswers(u, ops)) == [DoUnpurged(u, op).1.Done?] + Successes(UnpurgedAnswers(u', ops[1..]));
    }
  }

  // ---- codes are single use -----------------------------------------------------------------

  /** The same for the purges the store really makes, against a store that starts out alike. */
  lemma BoundedPurgesAreUnobservable(s: Store, ops: seq<Op>, now: int, expiry: Digest -> int)
    requires forall c :: c in s.tables.codes ==> s.tables.codes[c] == expiry(c)
    requires ClockRuns(ops, now) && GenuineCodes(ops, expiry) && ChoosesThroughout(s, ops) && FreshIds(s, ops)
    ensures Successes(Answers(s, ops)) == Successes(UnpurgedAnswers(s, ops))
  {
    BoundedPurgesAreExpired(s, ops);
    assert Related(s, s, now, expiry);
    PurgingIsUnobservable(s, s, ops, now, expiry);
  }

  ghost predicate Redeems(op: Op, code: Digest) {
    op.Redeem? && op.principal.tokenId == Some(code)
  }

  lemma ConsumedStaysConsumed(u: Store, op: Op, code: Digest)
    requires code in u.tables.codes
    ensures code in DoUnpurged(u, op).0.tables.codes
    ensures Redeems(op, code) ==> DoUnpurged(u, op).1.Failed?
  {
    hide NormalizeUsername, ResolveOptions, Trim;
  }

  lemma {:induction false} ConsumedFailsForever(u: Store, ops: seq<Op>, code: Digest, j: nat)
    requires code in u.tables.codes && j < |ops| && Redeems(ops[j], code)
    ensures |UnpurgedAnswers(u, ops)| == |ops| && UnpurgedAnswers(u, ops)[j].Failed?
    decreases |ops|
  {
    ConsumedStaysConsumed(u, ops[0], code);
    AnswersLength(DoUnpurged(u, ops[0]).0, ops[1..]);
    hide DoUnpurged, Redeems;
    if j > 0 {
      ConsumedFailsForever(DoUnpurged(u, ops[0]).0, ops[1..], code, j - 1);
    }
  }

  lemma {:induction false} AnswersLength(u: Store, ops: seq<Op>)
    ensures |UnpurgedAnswers(u, ops)| == |ops|
    decreases |ops|
  {
    if ops != [] {
      AnswersLength(DoUnpurged(u, ops[0]).0, ops[1..]);
    }
  }

  lemma RedeemConsumes(u: Store, op: Op, code: Digest)
    requires Redeems(op, code) && DoUnpurged(u, op).1.Done?
    ensures code in DoUnpurged(u, op).0.tables.codes
  {
  }

  lemma {:induction false} UnpurgedSingleUse(u: Store, ops: seq<Op>, code: Digest, i: nat, j: nat)
    requires i < j < |ops| && Redeems(ops[i], code) && Redeems(ops[j], code)
    ensures |UnpurgedAnswers(u, ops)| == |ops|
    ensures UnpurgedAnswers(u, ops)[i].Done? ==> UnpurgedAnswers(u, ops)[j].Failed?
    decreases |ops|
  {
    AnswersLength(u, ops);
    var u' := DoUnpurged(u, ops[0]).0;
    if i > 0 {
      hide DoUnpurged, Redeems;
      UnpurgedSingleUse(u', ops[1..], code, i - 1, j - 1);
    } else if DoUnpurged(u, ops[0]).1.Done? {
      RedeemConsumes(u, ops[0], code);
      hide DoUnpurged, Redeems;
      ConsumedFailsForever(u', ops[1..], code, j - 1);
    }
  }

  /** Over any run, purges and all, a code is redeemed at most once. */
  lemma CodesAreSingleUse(s: Store, ops: seq<Op>, now: int, expiry: Digest -> int, code: Digest, i: nat, j: nat)
    requires s.tables.codes == map[]
    requires ClockRuns(ops, now) && GenuineCodes(ops, expiry) && PurgesThroughout(s, ops) && FreshIds(s, ops)
    requires i < j < |ops| && Redeems(ops[i], code) && Redeems(ops[j], code)
    ensures |Answers(s, ops)| == |ops| && !(Answers(s, ops)[i].Done? && Answers(s, ops)[j].Done?)
  {
    PurgingIsUnobservable(s, s, ops, now, expiry);
    UnpurgedSingleUse(s, ops, code, i, j);
    var a, b := Answers(s, ops), UnpurgedAnswers(s, ops);
    assert |Successes(a)| == |Successes(b)|;
    assert Successes(a)[i] == Successes(b)[i] && Successes(a)[j] == Successes(b)[j];
  }

  // ---- ... exactly because expiries are whole seconds ---------------------------------------

  /** Some run in which every code presented is this one redeems it twice. */
  ghost predicate Replayable(p: Principal) {
    exists ops: seq<Op>, now, i, j :: Replay(p, ops, now, i, j)
  }

  ghost predicate Replay(p: Principal, ops: seq<Op>, now: int, i: int, j: int) {
    && (forall op :: op in ops && op.Redeem? ==> op.principal == p)
    && ClockRuns(ops, now) && PurgesThroughout(EmptyStore, ops) && FreshIds(EmptyStore, ops)
    && 0 <= i < j < |ops| && ops[i].Redeem? && ops[j].Redeem?
    && |Answers(EmptyStore, ops)| == |ops| && Answers(EmptyStore, ops)[i].Done? && Answers(EmptyStore, ops)[j].Done?
  }

  lemma WholeSecondsPreventReplay(p: Principal, ops: seq<Op>, now: int, i: int, j: int)
    requires ValidPrincipal(p) && p.expiresAt % NANO == 0
    ensures !Replay(p, ops, now, i, j)
  {
    if Replay(p, ops, now, i, j) {
      hide Answers, PurgesThroughout, FreshIds, ClockRuns, ValidPrincipal;
      CodesAreSingleUse(EmptyStore, ops, now, c => Seconds(p.expiresAt), p.tokenId.value, i, j);
    }
  }

  /** With a fraction of a second left, the record of the first use can already be purged. */
  function ReplayOps(p: Principal): seq<Op> {
    var t := Seconds(p.expiresAt) * NANO;
    var code := if p.tokenId.Some? then {p.tokenId.value} else {};
    [Redeem(p, t, [], 1, 1, false), Purge(t, 1, {}, code), Redeem(p, t, [], 2, 2, false)]
  }

  function Redeemed(t: Tables, p: Principal, id: Digest): Tables
    requires p.tokenId.Some?
  {
    var now := Seconds(p.expiresAt) * NANO;
    var s := NewSession(p.subject, p.scope, BrowserCode, now, Options(BROWSER_SESSION_TTL, false), id);
    t.(codes := t.codes[p.tokenId.value := Seconds(p.expiresAt)], sessions := t.sessions[id := s])
  }

  lemma RedeemsAt(t: Tables, p: Principal, id: Digest)
    requires ValidPrincipal(p) && p.expiresAt % NANO != 0 && p.tokenId.value !in t.codes && id !in t.sessions
    ensures RedeemCode(t, p, Seconds(p.expiresAt) * NANO, [], id, id, false) == (Redeemed(t, p, id), Done)
  {
    var now := Seconds(p.expiresAt) * NANO;
    assert now < p.expiresAt;
    assert Seconds(now + BROWSER_SESSION_TTL) > Seconds(now);
  }

  lemma FractionsAllowReplay(p: Principal)
    requires ValidPrincipal(p) && p.expiresAt % NANO != 0
    ensures Replay(p, ReplayOps(p), Seconds(p.expiresAt) * NANO, 0, 2)
  {
    var now := Seconds(p.expiresAt) * NANO;
    var c := p.tokenId.value;
    var ops := ReplayOps(p);
    RedeemsAt(EmptyStore.tables, p, 1);
    var s1 := Do(EmptyStore, ops[0]).0;
    assert Seconds(now) == Seconds(p.expiresAt);
    assert PurgesExpired(s1, ops[1]);
    var s2 := Do(s1, ops[1]).0;
    assert s2.tables == Purged(s1.tables, {}, {c});
    RedeemsAt(s2.tables, p, 2);
    var s3 := Do(s2, ops[2]).0;
    assert 2 !in DoUnpurged(s1, ops[1]).0.tables.sessions;
    assert Do(EmptyStore, ops[0]).1.Done? && Do(s1, ops[1]).1.Done? && Do(s2, ops[2]).1.Done?;
    hide RedeemCode, NewSession, Seconds, ValidPrincipal, PurgesExpired;
    assert ops[1..][1..] == [ops[2]] && ops[2..] == [ops[2]] && [ops[2]][1..] == [];
    ThreeSteps(ops, now, EmptyStore, s1, s2, s3);
  }

  lemma ThreeSteps(ops: seq<Op>, now: int, s0: Store, s1: Store, s2: Store, s3: Store)
    requires |ops| == 3 && forall k :: 0 <= k < 3 ==> Timed(ops[k]) && ops[k].now == now
    requires s1 == Do(s0, ops[0]).0 && s2 == Do(s1, ops[1]).0 && s3 == Do(s2, ops[2]).0
    requires !ops[0].Purge? && ops[1].Purge? && PurgesExpired(s0, ops[0]) && PurgesExpired(s1, ops[1]) && PurgesExpired(s2, ops[2])
    requires ops[0].Redeem? && ops[2].Redeem? && ops[0].id !in s0.tables.sessions && ops[2].id !in s1.tables.sessions
    ensures ClockRuns(ops, now) && PurgesThroughout(s0, ops) && FreshIds(s0, ops)
    ensures Answers(s0, ops) == [Do(s0, ops[0]).1, Do(s1, ops[1]).1, Do(s2, ops[2]).1]
  {
    hide Do, PurgesExpired;
    var b, c := ops[1..], ops[2..];
    assert b[1..] == c && c[1..] == [];
    assert ClockRuns(c, now) && ClockRuns(b, now);
    assert PurgesThroughout(s2, c) && PurgesThroughout(s1, b);
    assert DoUnpurged(s1, b[0]).0 == s1;
    assert FreshIds(s1, c) && FreshIds(s1, b);
    assert Answers(s2, c) == [Do(s2, ops[2]).1] && Answers(s1, b) == [Do(s1, ops[1]).1] + Answers(s2, c);
  }

  /** A login code can be replayed exactly when its expiry is not a whole second. */
  lemma ReplayableIffFractional(p: Principal)
    requires ValidPrincipal(p)
    ensures Replayable(p) <==> p.expiresAt % NANO != 0
  {
    hide Replay, ValidPrincipal;
    if p.expiresAt % NANO != 0 {
      FractionsAllowReplay(p);
    } else {
      forall ops: seq<Op>, now, i, j ensures !Replay(p, ops, now, i, j) {
        WholeSecondsPreventReplay(p, ops, now, i, j);
      }
    }
  }
}
