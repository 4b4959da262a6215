/**
 The store as an object with its tables changed in place; each method is proved to be the
 corresponding transaction of BrowserStore.
 */
module BrowserAuth {
  import opened Wrappers
  import opened Clock
  import opened CsrfWindow
  import opened BrowserStore

  class SessionStore {
    var sessions: map<Digest, Session>
    var codes: map<Digest, int>
    var admin: Option<Admin>

    function Contents(): Tables
      reads this
    {
      Tables(sessions, codes, admin)
    }

    constructor ()
      ensures Contents() == Tables(map[], map[], None)
    {
      sessions, codes, admin := map[], map[], None;
    }

    method RedeemCode(p: Principal, now: int, requested: seq<Options>, id: Digest, csrf: Digest, fault: bool)
      returns (o: Outcome)
      modifies this`sessions, this`codes
      ensures (Contents(), o) == BrowserStore.RedeemCode(old(Contents()), p, now, requested, id, csrf, fault)
    {
      if !ValidPrincipal(p) {
        return Failed(InvalidPrincipal);
      }
      if now >= p.expiresAt {
        return Failed(CodeExpired);
      }
      var options := ResolveOptions(requested);
      if options.None? {
        return Failed(InvalidOptions);
      }
      if fault {
        return Failed(DatabaseError);
      }
      var code := p.tokenId.value;
      if code in codes {
        return Failed(CodeConsumed);
      }
      var inserted := InsertSession(id, NewSession(p.subject, p.scope, BrowserCode, now, options.value, csrf));
      if !inserted {
        return Failed(DatabaseError);
      }
      codes := codes[code := Seconds(p.expiresAt)];
      return Done;
    }

    method InsertSession(id: Digest, s: Session) returns (ok: bool)
      modifies this`sessions
      ensures ok <==> Insertable(old(Contents()), id, s)
      ensures sessions == if ok then old(sessions)[id := s] else old(sessions)
    {
      ok := id !in sessions && s.subject != [] && s.expiresAt > s.createdAt;
      if ok {
        sessions := sessions[id := s];
      }
    }

    method GetSession(p: Presented, now: int) returns (r: Result<Session, Error>)
      ensures match FindSession(Contents(), p, now)
              case Done => r == Ok(sessions[p.digest])
              case Failed(e) => r == Err(e)
    {
      if p.Nothing? || p.digest !in sessions {
        return Err(SessionNotFound);
      }
      var s := sessions[p.digest];
      if now >= s.expiresAt * NANO {
        return Err(SessionExpired);
      }
      return Ok(s);
    }

    method TouchSession(p: Presented, now: int, fault: bool) returns (o: Outcome)
      modifies this`sessions
      ensures (Contents(), o) == BrowserStore.TouchSession(old(Contents()), p, now, fault)
    {
      if p.Nothing? {
        return Failed(SessionNotFound);
      }
      if fault {
        return Failed(DatabaseError);
      }
      if p.digest in sessions && sessions[p.digest].expiresAt > Seconds(now) {
        sessions := sessions[p.digest := sessions[p.digest].(lastUsed := Seconds(now))];
        return Done;
      }
      return Failed(SessionNotFound);
    }

    method RevokeSession(p: Presented, fault: bool) returns (o: Outcome)
      modifies this`sessions
      ensures (Contents(), o) == BrowserStore.RevokeSession(old(Contents()), p, fault)
    {
      if p.Nothing? {
        return Failed(SessionNotFound);
      }
      if fault {
        return Failed(DatabaseError);
      }
      sessions := sessions - {p.digest};
      return Done;
    }

    /** Every stored hash is compared, whether or not one has matched already. */
    method ValidateCSRF(p: Presented, csrf: Presented, now: int) returns (o: Outcome)
      ensures o == BrowserStore.ValidateCSRF(Contents(), p, csrf, now)
    {
      if p.Nothing? {
        return Failed(SessionNotFound);
      }
      if csrf.Nothing? {
        return Failed(InvalidCSRF);
      }
      var found := GetSession(p, now);
      if found.Err? {
        return Failed(found.error);
      }
      var left := found.value.tokens.Keys;
      var valid := false;
      while left != {}
        invariant left <= found.value.tokens.Keys
        invariant valid <==> csrf.digest in found.value.tokens.Keys - left
        decreases left
      {
        var stored :| stored in left;
        valid := valid || stored == csrf.digest;
        left := left - {stored};
      }
      return if valid then Done else Failed(InvalidCSRF);
    }

    method IssueCSRF(p: Presented, now: int, token: Digest, fault: bool) returns (o: Outcome)
      modifies this`sessions
      ensures (Contents(), o) == BrowserStore.IssueCSRF(old(Contents()), p, now, token, fault)
    {
      var found := GetSession(p, now);
      if found.Err? {
        return Failed(found.error);
      }
      var s := found.value;
      if fault || token in s.tokens {
        return Failed(DatabaseError);
      }
      sessions := sessions[p.digest := s.(tokens := Trim(s.tokens[token := now]))];
      return Done;
    }

    /** At most `limit` expired rows of each table, earliest expiry first. */
    method PurgeExpired(now: int, limit: int) returns (o: Outcome, goneSessions: set<Digest>, goneCodes: set<Digest>)
      modifies this`sessions, this`codes
      ensures limit <= 0 ==> o == Failed(InvalidLimit) && Contents() == old(Contents())
      ensures limit > 0 ==>
                && o == Done && Contents() == Purged(old(Contents()), goneSessions, goneCodes)
                && PurgeChoice(SessionExpiry(old(Contents())), now, limit, goneSessions)
                && PurgeChoice(old(codes), now, limit, goneCodes)
    {
      goneSessions, goneCodes := {}, {};
      if limit <= 0 {
        return Failed(InvalidLimit), {}, {};
      }
      goneSessions := SelectExpired(SessionExpiry(Contents()), Seconds(now), limit);
      sessions := sessions - goneSessions;
      goneCodes := SelectExpired(codes, Seconds(now), limit);
      codes := codes - goneCodes;
      o := Done;
    }

    method SetAdministratorPassword(username: string, password: PasswordText, salt: nat, now: int, fault: bool)
      returns (o: Outcome)
      modifies this`sessions, this`admin
      ensures (Contents(), o) == BrowserStore.SetAdministratorPassword(old(Contents()), username, password, salt, now, fault)
    {
      var name := NormalizeUsername(username);
      if name.None? {
        return Failed(InvalidAdministratorName);
      }
      if !ValidPassword(password) {
        return Failed(InvalidPassword);
      }
      if fault {
        return Failed(DatabaseError);
      }
      var created := if admin.Some? then admin.value.createdAt else Seconds(now);
      admin := Some(Admin(name.value, Hash(password.bytes, salt, BCRYPT_COST), name.value, WriteScope, true, created, Seconds(now)));
      RevokePasswordSessions();
      return Done;
    }

    method DisableAdministrator(now: int, fault: bool) returns (o: Outcome)
      modifies this`sessions, this`admin
      ensures (Contents(), o) == BrowserStore.DisableAdministrator(old(Contents()), now, fault)
    {
      if fault {
        return Failed(DatabaseError);
      }
      if admin.None? {
        return Failed(AdministratorUnavailable);
      }
      admin := Some(admin.value.(enabled := false, updatedAt := Seconds(now)));
      RevokePasswordSessions();
      return Done;
    }

    method RevokePasswordSessions()
      modifies this`sessions
      ensures sessions == WithoutPasswordSessions(old(sessions))
    {
      sessions := map d | d in sessions && sessions[d].authMethod != Password :: sessions[d];
    }

    /** A login whose two halves run with nothing in between. A stand-in hash is compared when
        there is no candidate, so the comparison itself never decides. */
    method CreatePasswordSession(username: string, password: PasswordText, now: int, requested: seq<Options>,
                                 id: Digest, csrf: Digest, fault: bool) returns (o: Outcome)
      modifies this`sessions
      ensures match ReadAndCompare(old(Contents()), username, password)
              case None => o == Failed(InvalidCredentials) && Contents() == old(Contents())
              case Some(c) => (Contents(), o) == CommitLogin(old(Contents()), c, now, requested, id, csrf, fault)
    {
      var name := NormalizeUsername(username);
      var credential := AdministratorCredential(Contents());
      var candidate := name.Some? && credential.Some? && name.value == credential.value.username && ValidPassword(password);
      var matches := candidate && credential.value.hash.password == password.bytes;
      if !candidate || !matches {
        return Failed(InvalidCredentials);
      }
      var options := ResolveOptions(requested);
      if options.None? {
        return Failed(InvalidOptions);
      }
      if fault {
        return Failed(DatabaseError);
      }
      var current := AdministratorCredential(Contents());
      if current != credential {
        return Failed(InvalidCredentials);
      }
      var inserted := InsertSession(id, NewSession(credential.value.username, WriteScope, Password, now, options.value, csrf));
      return if inserted then Done else Failed(DatabaseError);
    }
  }

  /** The rows one bounded delete picks. */
  method SelectExpired(expiry: map<Digest, int>, now: int, limit: int) returns (gone: set<Digest>)
    requires limit > 0
    ensures PurgeChoice(expiry, now * NANO, limit, gone)
  {
    gone := {};
    var left := set d | d in expiry && expiry[d] <= now;
    assert Seconds(now * NANO) == now;
    while left != {} && |gone| < limit
      invariant left !! gone && left + gone == set d | d in expiry && expiry[d] <= now
      invariant |gone| <= limit
      invariant forall d, e :: d in gone && e in left ==> expiry[d] <= expiry[e]
      decreases left
    {
      var first := Earliest(expiry, left);
      gone, left := gone + {first}, left - {first};
    }
  }

  method Earliest(expiry: map<Digest, int>, left: set<Digest>) returns (first: Digest)
    requires left != {} && forall d :: d in left ==> d in expiry
    ensures first in left && forall d :: d in left ==> expiry[first] <= expiry[d]
  {
    first :| first in left;
    var rest := left - {first};
    while rest != {}
      invariant rest <= left && first in left
      invariant forall d :: d in left - rest ==> expiry[first] <= expiry[d]
      decreases rest
    {
      var d :| d in rest;
      if expiry[d] < expiry[first] {
        first := d;
      }
      rest := rest - {d};
    }
  }
}
