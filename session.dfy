/** The in-memory session table (src/auth/session.js). The clock and the
    random draws are parameters: `now` is the time of a call in
    milliseconds and `picks` are the 32 indices `Math.floor(Math.random() *
    62)` yields while an id is generated. The periodic cleanup timer is not
    modelled; its callback is `CleanupExpiredSessions`. */
module Sessions {
  import opened Wrappers
  import opened Text
  import opened JsValues

  /** `SESSION_TIMEOUT` when the environment does not set it: a day. */
  const DefaultTimeout: int := 86400000

  /** `parseInt(process.env.SESSION_TIMEOUT ?? "86400000", 10)`; none stands
      for `NaN`. */
  function SessionTimeout(env: Option<string>): Option<int> {
    ParseInt10(env.GetOr("86400000"))
  }

  lemma DefaultSessionTimeout()
    ensures SessionTimeout(None) == Some(DefaultTimeout)
  {
    ParseIntDecimal(86400000);
    DefaultTimeoutText();
  }

  lemma DefaultTimeoutText()
    ensures IntToDecimal(86400000) == "86400000"
  {
    assert DigitChar(8) == '8' && DigitChar(6) == '6' && DigitChar(4) == '4' && DigitChar(0) == '0';
    assert NatToDecimal(8) == "8";
    assert NatToDecimal(86) == "86";
    assert NatToDecimal(864) == "864";
    assert NatToDecimal(8640) == "8640";
    assert NatToDecimal(86400) == "86400";
    assert NatToDecimal(864000) == "864000";
    assert NatToDecimal(8640000) == "8640000";
    assert NatToDecimal(86400000) == "86400000";
  }

  // ---------------------------------------------------------------------
  // Session records

  /** A stored session: the three named fields and whatever else the
      caller's data added. */
  datatype Session = Session(userId: Value, createdAt: int, expiresAt: int, extra: map<string, Value>)

  /** The caller's `data` object: which of the three named fields it sets
      (with numeric times), and its other fields. */
  datatype SessionData = SessionData(userId: Option<Value>, createdAt: Option<int>, expiresAt: Option<int>, extra: map<string, Value>)

  const NoData := SessionData(None, None, None, map[])

  /** `{ userId, createdAt: now, expiresAt: now + timeout, ...data }`. */
  function NewSession(userId: string, data: SessionData, now: int, timeout: int): (s: Session)
    ensures s.userId == data.userId.GetOr(Str(userId))
    ensures s.createdAt == data.createdAt.GetOr(now)
    ensures s.expiresAt == data.expiresAt.GetOr(now + timeout)
    ensures s.extra == data.extra
  {
    Session(
      if data.userId.Some? then data.userId.value else Str(userId),
      if data.createdAt.Some? then data.createdAt.value else now,
      if data.expiresAt.Some? then data.expiresAt.value else now + timeout,
      data.extra)
  }

  /** Without data the session belongs to `userId`, starts now and lasts
      `timeout`. */
  lemma PlainSession(userId: string, now: int, timeout: int)
    ensures NewSession(userId, NoData, now, timeout) == Session(Str(userId), now, now + timeout, map[])
  {
  }

  /** What `createSession` accepts: a non-empty string of at most 255
      characters. */
  predicate ValidUserId(v: Value) {
    v.Str? && v.s != "" && |v.s| <= 255
  }

  /** A session has expired once the clock is strictly past `expiresAt`. */
  predicate Expired(s: Session, now: int) {
    now > s.expiresAt
  }

  // ---------------------------------------------------------------------
  // Ids

  const Upper: string := "ABCDEFGHIJKLMNOPQRSTUVWXYZ"
  const Lower: string := "abcdefghijklmnopqrstuvwxyz"
  const Digits: string := "0123456789"

  /** The 62 characters an id is drawn from. */
  const IdAlphabet: string := Upper + Lower + Digits

  lemma IdAlphabetShape()
    ensures |IdAlphabet| == 62
    ensures forall i :: 0 <= i < |IdAlphabet| ==> IsAsciiAlnum(IdAlphabet[i])
  {
    assert forall i :: 0 <= i < |Upper| ==> IsAsciiUpper(Upper[i]);
    assert forall i :: 0 <= i < |Lower| ==> IsAsciiLower(Lower[i]);
    assert forall i :: 0 <= i < |Digits| ==> IsAsciiDigit(Digits[i]);
    forall i | 0 <= i < |IdAlphabet| ensures IsAsciiAlnum(IdAlphabet[i]) {
      if i < 26 { assert IdAlphabet[i] == Upper[i]; }
      else if i < 52 { assert IdAlphabet[i] == Lower[i - 26]; }
      else { assert IdAlphabet[i] == Digits[i - 52]; }
    }
  }

  predicate IsSessionId(id: string) {
    |id| == 32 && forall i :: 0 <= i < |id| ==> IsAsciiAlnum(id[i])
  }

  /** `generateSecureSessionId`: 32 characters, the `i`th one the alphabet
      character at `picks[i]`. */
  method GenerateSecureSessionId(picks: seq<nat>) returns (id: string)
    requires |picks| == 32 && forall i :: 0 <= i < 32 ==> picks[i] < 62
    ensures IsSessionId(id)
    ensures forall i :: 0 <= i < 32 ==> id[i] == IdAlphabet[picks[i]]
  {
    IdAlphabetShape();
    id := "";
    for i := 0 to 32
      invariant |id| == i
      invariant forall j :: 0 <= j < i ==> id[j] == IdAlphabet[picks[j]]
    {
      id := id + [IdAlphabet[picks[i]]];
    }
  }

  // ---------------------------------------------------------------------
  // The table, as functions of the old table

  /** What `getSession` returns. */
  function Lookup(sessions: map<string, Session>, id: Option<string>, now: int): Option<Session> {
    if id.None? || id.value == "" || id.value !in sessions || Expired(sessions[id.value], now) then None
    else Some(sessions[id.value])
  }

  /** The table after `getSession`: an expired session it finds is gone. */
  function AfterLookup(sessions: map<string, Session>, id: Option<string>, now: int): map<string, Session> {
    if id.None? || id.value == "" || id.value !in sessions || !Expired(sessions[id.value], now) then sessions
    else sessions - {id.value}
  }

  /** The table after `cleanupExpiredSessions`. */
  function Unexpired(sessions: map<string, Session>, now: int): map<string, Session> {
    map id | id in sessions && !Expired(sessions[id], now) :: sessions[id]
  }

  class SessionManager {
    const timeout: int
    var sessions: map<string, Session>

    /** Every key was produced by the id generator. */
    predicate Valid()
      reads this
    {
      forall id :: id in sessions ==> IsSessionId(id)
    }

    constructor (timeout: int)
      ensures this.timeout == timeout && sessions == map[] && Valid()
    {
      this.timeout := timeout;
      sessions := map[];
    }

    /** `createSession`: an invalid user id throws and stores nothing;
        otherwise a fresh id is drawn and the new session stored under it
        (replacing any session that had the same id). */
    method CreateSession(userId: Value, data: SessionData, now: int, picks: seq<nat>) returns (r: Result<string>)
      requires |picks| == 32 && forall i :: 0 <= i < 32 ==> picks[i] < 62
      requires Valid()
      modifies this
      ensures Valid()
      ensures r.Err? <==> !ValidUserId(userId)
      ensures r.Err? ==> sessions == old(sessions)
      ensures r.Ok? ==> IsSessionId(r.value)
      ensures r.Ok? ==> sessions == old(sessions)[r.value := NewSession(userId.s, data, now, timeout)]
    {
      if !ValidUserId(userId) {
        return Err("Invalid userId");
      }
      var id := GenerateSecureSessionId(picks);
      sessions := sessions[id := NewSession(userId.s, data, now, timeout)];
      return Ok(id);
    }

    /** `getSession`. */
    method GetSession(id: Option<string>, now: int) returns (s: Option<Session>)
      requires Valid()
      modifies this
      ensures Valid()
      ensures s == Lookup(old(sessions), id, now)
      ensures sessions == AfterLookup(old(sessions), id, now)
      ensures id.Some? && !IsSessionId(id.value) ==> s.None? && sessions == old(sessions)
    {
      if id.None? || id.value == "" {
        return None;
      }
      if id.value !in sessions {
        return None;
      }
      var session := sessions[id.value];
      if now > session.expiresAt {
        sessions := sessions - {id.value};
        return None;
      }
      return Some(session);
    }

    /** `destroySession`. */
    method DestroySession(id: string)
      requires Valid()
      modifies this
      ensures Valid()
      ensures sessions == old(sessions) - {id}
    {
      sessions := sessions - {id};
    }

    /** `verifySession`: the live session's `userId`, or null. */
    method VerifySession(id: Option<string>, now: int) returns (u: Value)
      requires Valid()
      modifies this
      ensures Valid()
      ensures sessions == AfterLookup(old(sessions), id, now)
      ensures var s := Lookup(old(sessions), id, now);
        u == if s.None? || s.value.userId.Undefined? || s.value.userId.Null? then Null else s.value.userId
    {
      var s := GetSession(id, now);
      if s.None? || s.value.userId.Undefined? || s.value.userId.Null? {
        return Null;
      }
      return s.value.userId;
    }

    /** `refreshSession`: a live session's expiry moves to `now + timeout`;
        a missing or expired one reports false (an expired one is dropped). */
    method RefreshSession(id: string, now: int) returns (ok: bool)
      requires Valid()
      modifies this
      ensures Valid()
      ensures ok <==> Lookup(old(sessions), Some(id), now).Some?
      ensures ok ==> sessions == old(sessions)[id := old(sessions)[id].(expiresAt := now + timeout)]
      ensures !ok ==> sessions == AfterLookup(old(sessions), Some(id), now)
    {
      var s := GetSession(Some(id), now);
      if s.None? {
        return false;
      }
      sessions := sessions[id := s.value.(expiresAt := now + timeout)];
      return true;
    }

    /** `cleanupExpiredSessions`: exactly the expired sessions are removed. */
    method CleanupExpiredSessions(now: int)
      requires Valid()
      modifies this
      ensures Valid()
      ensures sessions == Unexpired(old(sessions), now)
    {
      ghost var start := sessions;
      var pending := sessions.Keys;
      while pending != {}
        invariant pending <= start.Keys
        invariant sessions == map id | id in start && (id in pending || !Expired(start[id], now)) :: start[id]
        decreases pending
      {
        var id :| id in pending;
        if now > sessions[id].expiresAt {
          sessions := sessions - {id};
        }
        pending := pending - {id};
      }
    }
  }

  // ---------------------------------------------------------------------
  // Properties across calls

  /** A session is live up to and including its `expiresAt`, and is
      dropped by the first lookup after it. */
  lemma ExpiryBoundary(sessions: map<string, Session>, id: string)
    requires id != "" && id in sessions
    ensures Lookup(sessions, Some(id), sessions[id].expiresAt) == Some(sessions[id])
    ensures AfterLookup(sessions, Some(id), sessions[id].expiresAt) == sessions
    ensures Lookup(sessions, Some(id), sessions[id].expiresAt + 1).None?
    ensures id !in AfterLookup(sessions, Some(id), sessions[id].expiresAt + 1)
  {
  }

  /** A session created without data is found by its id at any time up to
      `timeout` later. */
  lemma CreatedThenFound(sessions: map<string, Session>, userId: string, id: string, now: int, timeout: int, later: int)
    requires IsSessionId(id) && now <= later <= now + timeout
    ensures Lookup(sessions[id := NewSession(userId, NoData, now, timeout)], Some(id), later)
      == Some(Session(Str(userId), now, now + timeout, map[]))
  {
  }

  /** After a refresh at `now`, the session is live until `now + timeout`,
      and so a refresh never shortens a session when the timeout holds. */
  lemma RefreshedLive(sessions: map<string, Session>, id: string, now: int, timeout: int, later: int)
    requires id != "" && id in sessions && later <= now + timeout
    ensures Lookup(sessions[id := sessions[id].(expiresAt := now + timeout)], Some(id), later).Some?
  {
  }

  /** A destroyed session is never found again. */
  lemma DestroyedNotFound(sessions: map<string, Session>, id: string, now: int)
    ensures Lookup(sessions - {id}, Some(id), now).None?
  {
  }

  /** Looking up twice is looking up once. */
  lemma LookupIdempotent(sessions: map<string, Session>, id: Option<string>, now: int)
    ensures Lookup(AfterLookup(sessions, id, now), id, now) == Lookup(sessions, id, now)
    ensures AfterLookup(AfterLookup(sessions, id, now), id, now) == AfterLookup(sessions, id, now)
  {
  }

  /** After a cleanup, every lookup at the same time agrees with a lookup
      in the old table, and nothing is left for a lookup to drop. */
  lemma CleanupAgreesWithLookup(sessions: map<string, Session>, id: Option<string>, now: int)
    ensures Lookup(Unexpired(sessions, now), id, now) == Lookup(sessions, id, now)
    ensures AfterLookup(Unexpired(sessions, now), id, now) == Unexpired(sessions, now)
  {
  }
}
