/** Login sessions and the rotation of their refresh tokens (`auth_service.py`,
    `session_tokens.py`, `security.py`). Session identifiers are compared through a keyed
    hash that is taken to be injective, so the rows hold the identifier itself. */
module LoginSessions {
  import opened Options
  import opened RefreshTokens
  import opened Text
  import StableSort

  const MAX_CONCURRENT_SESSIONS := 5
  const SESSION_INACTIVITY := 7 * 24 * 3600
  const REFRESH_TOKEN_EXPIRE := 7 * 24 * 3600

  datatype Session = Session(userId: nat, identifier: string, lastActiveAt: int, revokedAt: Option<int>)

  datatype Tables = Tables(records: seq<Record>, sessions: seq<Session>)

  datatype Error = InvalidToken | InactiveUser | SessionRevoked | SessionExpired

  // ----- Sessions -----

  predicate Inactive(s: Session, now: int) {
    s.lastActiveAt < now - SESSION_INACTIVITY
  }

  function Revoked(s: Session, now: int): Session {
    s.(revokedAt := if s.revokedAt.None? then Some(now) else s.revokedAt)
  }

  function FirstSession(sessions: seq<Session>, userId: nat, identifier: string): (i: nat)
    ensures i <= |sessions|
    ensures i < |sessions| ==> sessions[i].userId == userId && sessions[i].identifier == identifier
    ensures forall j | 0 <= j < i :: !(sessions[j].userId == userId && sessions[j].identifier == identifier)
  {
    if sessions == [] || (sessions[0].userId == userId && sessions[0].identifier == identifier) then 0
    else 1 + FirstSession(sessions[1..], userId, identifier)
  }

  /** The positions of a user's sessions that are not revoked. */
  function Actives(sessions: seq<Session>, userId: nat): (positions: seq<nat>)
    ensures forall p <- positions :: p < |sessions| && sessions[p].userId == userId && sessions[p].revokedAt.None?
  {
    if sessions == [] then []
    else
      var n := |sessions| - 1;
      Actives(sessions[..n], userId)
      + (if sessions[n].userId == userId && sessions[n].revokedAt.None? then [n] else [])
  }

  function LastActive(sessions: seq<Session>, p: nat): int {
    if p < |sessions| then sessions[p].lastActiveAt else 0
  }

  /** Most recently active first. */
  function RecentFirst(sessions: seq<Session>): (nat, nat) -> bool {
    (p: nat, q: nat) => LastActive(sessions, p) >= LastActive(sessions, q)
  }

  function ByRecency(sessions: seq<Session>, userId: nat): (positions: seq<nat>)
    ensures |positions| == |Actives(sessions, userId)|
    ensures forall p <- positions :: p < |sessions| && sessions[p].userId == userId && sessions[p].revokedAt.None?
  {
    var active := Actives(sessions, userId);
    assert forall i <- StableSort.Order(active, RecentFirst(sessions)) :: active[i] in active;
    StableSort.Sorted(active, RecentFirst(sessions))
  }

  function RevokeAt(sessions: seq<Session>, positions: seq<nat>, now: int): (r: seq<Session>)
    ensures |r| == |sessions|
    ensures forall p | 0 <= p < |r| :: r[p] == if p in positions then Revoked(sessions[p], now) else sessions[p]
  {
    seq(|sessions|, p requires 0 <= p < |sessions| =>
      if p in positions then Revoked(sessions[p], now) else sessions[p])
  }

  /** Room for one more session: all but the most recently active are revoked. */
  function MakeRoom(sessions: seq<Session>, userId: nat, now: int): (r: seq<Session>)
    ensures |r| == |sessions|
  {
    var active := ByRecency(sessions, userId);
    if |active| >= MAX_CONCURRENT_SESSIONS
    then RevokeAt(sessions, active[MAX_CONCURRENT_SESSIONS - 1..], now)
    else sessions
  }

  // ----- One request -----

  datatype Op =
    | Login(userId: nat, identifier: string, random: string, now: int)
    | Refresh(token: string, userActive: bool, random: string, now: int)
    | Access(userId: nat, identifier: string, now: int)
    | Logout(userId: nat, identifier: string, now: int)
    | RevokeAll(userId: nat, now: int)
    | ResetRequest(userId: nat, random: string, expiresAt: int)

  /** Why a token is not exchanged, if it is not. */
  function RefreshError(digest: string -> string, t: Tables, op: Op): Option<Error>
    requires op.Refresh?
  {
    var found := Lookup(digest, t.records, op.token, op.now);
    if found.None? then Some(InvalidToken)
    else if !op.userActive then Some(InactiveUser)
    else
      var identifier := ParseSessionIdentifier(op.token);
      if identifier.None? then None
      else
        var i := FirstSession(t.sessions, t.records[found.value].userId, identifier.value);
        if i == |t.sessions| || t.sessions[i].revokedAt.Some? then Some(SessionRevoked)
        else if Inactive(t.sessions[i], op.now) then Some(SessionExpired)
        else None
  }

  function Apply(digest: string -> string, t: Tables, op: Op): Tables {
    match op
    case Login(u, sid, random, now) =>
      Tables(t.records + [Issued(u, BuildRefreshToken(random, Some(sid)), digest, now + REFRESH_TOKEN_EXPIRE)],
             MakeRoom(t.sessions, u, now) + [Session(u, sid, now, None)])
    case Refresh(token, _, random, now) =>
      var error := RefreshError(digest, t, op);
      if error == Some(SessionExpired) then
        var userId := t.records[Lookup(digest, t.records, token, now).value].userId;
        var i := FirstSession(t.sessions, userId, ParseSessionIdentifier(token).value);
        t.(sessions := t.sessions[i := Revoked(t.sessions[i], now)])
      else if error.Some? then t
      else
        var k := Lookup(digest, t.records, token, now).value;
        var next := BuildRefreshToken(random, ParseSessionIdentifier(token));
        t.(records := t.records[k := MarkUsed(t.records[k], now)]
                      + [Issued(t.records[k].userId, next, digest, now + REFRESH_TOKEN_EXPIRE)])
    case Access(u, sid, now) =>
      var i := FirstSession(t.sessions, u, sid);
      if i == |t.sessions| || t.sessions[i].revokedAt.Some? then t
      else if Inactive(t.sessions[i], now) then t.(sessions := t.sessions[i := Revoked(t.sessions[i], now)])
      else t.(sessions := t.sessions[i := t.sessions[i].(lastActiveAt := now)])
    case Logout(u, sid, now) =>
      var i := FirstSession(t.sessions, u, sid);
      if i == |t.sessions| then t else t.(sessions := t.sessions[i := Revoked(t.sessions[i], now)])
    case RevokeAll(u, now) =>
      Tables(Invalidated(t.records, u, now),
             seq(|t.sessions|, p requires 0 <= p < |t.sessions| =>
               if t.sessions[p].userId == u then Revoked(t.sessions[p], now) else t.sessions[p]))
    case ResetRequest(u, random, expiresAt) =>
      t.(records := t.records + [Issued(u, "pr_" + random, digest, expiresAt)])
  }

  // ----- What a request does, in terms of the rows -----

  /** The user's first row with this identifier. */
  predicate IsRow(sessions: seq<Session>, userId: nat, identifier: string, i: nat) {
    && i < |sessions| && sessions[i].userId == userId && sessions[i].identifier == identifier
    && forall j | 0 <= j < i && sessions[j].userId == userId :: sessions[j].identifier != identifier
  }

  /** Not revoked, and active within the last seven days. */
  predicate StillOpen(s: Session, now: int) {
    s.revokedAt == None && now <= s.lastActiveAt + 7 * 24 * 3600
  }

  /** Not revoked, but not active within the last seven days. */
  predicate LeftAlone(s: Session, now: int) {
    s.revokedAt == None && s.lastActiveAt + 7 * 24 * 3600 < now
  }

  /** The token names no session, or one of the user's that is still open. */
  ghost predicate SessionAllows(sessions: seq<Session>, userId: nat, token: string, now: int) {
    forall identifier | NamesSession(token, identifier) ::
      exists i: nat :: IsRow(sessions, userId, identifier, i) && StillOpen(sessions[i], now)
  }

  /** The token names this row, which has not been active for too long. */
  ghost predicate NamesLeftAlone(sessions: seq<Session>, userId: nat, token: string, now: int, i: nat) {
    exists identifier :: NamesSession(token, identifier) && IsRow(sessions, userId, identifier, i) && LeftAlone(sessions[i], now)
  }

  /** The token's record is at `k`, and it is exchanged: its user is active and its session
      still open. */
  ghost predicate MayExchange(digest: string -> string, t: Tables, token: string, userActive: bool, now: int, k: nat) {
    FoundAt(digest, t.records, token, now, k) && userActive && SessionAllows(t.sessions, t.records[k].userId, token, now)
  }

  /** A new token of the session that the old one names, if it names one. */
  ghost predicate Continues(next: string, token: string, random: string) {
    || (exists identifier :: NamesSession(token, identifier) && next == identifier + "." + random)
    || (next == random && forall identifier :: !NamesSession(token, identifier))
  }

  /** The exchange: this record is used up, and one is added for the next token. */
  ghost predicate Exchanged(digest: string -> string, t: Tables, token: string, random: string, now: int, k: nat,
                            t': Tables, next: Option<string>)
    requires k < |t.records|
  {
    && next.Some? && Continues(next.value, token, random) && t'.sessions == t.sessions
    && t'.records == t.records[k := t.records[k].(usedAt := Some(now))]
         + [Record(t.records[k].userId, digest(next.value), Some(Prefix(next.value)), now + 7 * 24 * 3600, None)]
  }

  /** What a refusal says and does: only a session left alone too long is marked revoked. */
  ghost predicate Refused(digest: string -> string, t: Tables, token: string, userActive: bool, now: int,
                          t': Tables, error: Option<Error>) {
    && t'.records == t.records
    && match error
       case None => false
       case Some(InvalidToken) => t' == t && forall k: nat :: !FoundAt(digest, t.records, token, now, k)
       case Some(InactiveUser) => t' == t && !userActive && exists k: nat :: FoundAt(digest, t.records, token, now, k)
       case Some(SessionRevoked) =>
         t' == t && userActive && exists k: nat, identifier ::
           && FoundAt(digest, t.records, token, now, k) && NamesSession(token, identifier)
           && forall i: nat | IsRow(t.sessions, t.records[k].userId, identifier, i) :: t.sessions[i].revokedAt != None
       case Some(SessionExpired) =>
         userActive && exists k: nat, i: nat ::
           && FoundAt(digest, t.records, token, now, k) && i < |t.sessions|
           && NamesLeftAlone(t.sessions, t.records[k].userId, token, now, i)
           && t'.sessions == t.sessions[i := t.sessions[i].(revokedAt := Some(now))]
  }

  /** A refresh hands out a token exactly when the token's record is found, its user is active
      and its session still open. */
  ghost predicate RefreshMeans(digest: string -> string, t: Tables, token: string, userActive: bool, random: string, now: int,
                               t': Tables, next: Option<string>, error: Option<Error>) {
    && (next.Some? <==> exists k: nat :: MayExchange(digest, t, token, userActive, now, k))
    && (next.Some? <==> error.None?)
    && (forall k: nat | MayExchange(digest, t, token, userActive, now, k) :: Exchanged(digest, t, token, random, now, k, t', next))
    && (next.None? ==> Refused(digest, t, token, userActive, now, t', error))
  }

  lemma {:induction false} RowIff(sessions: seq<Session>, userId: nat, identifier: string, i: nat)
    ensures IsRow(sessions, userId, identifier, i) <==> i == FirstSession(sessions, userId, identifier) < |sessions|
  {
  }

  lemma OpenIff(s: Session, now: int)
    ensures StillOpen(s, now) <==> s.revokedAt.None? && !Inactive(s, now)
    ensures LeftAlone(s, now) <==> s.revokedAt.None? && Inactive(s, now)
  {
  }

  function NextToken(digest: string -> string, t: Tables, op: Op): Option<string>
    requires op.Refresh?
  {
    if RefreshError(digest, t, op).None? then Some(BuildRefreshToken(op.random, ParseSessionIdentifier(op.token))) else None
  }

  lemma NoSession(sessions: seq<Session>, userId: nat, token: string, random: string, now: int)
    requires ParseSessionIdentifier(token).None?
    ensures SessionAllows(sessions, userId, token, now)
    ensures Continues(BuildRefreshToken(random, None), token, random)
  {
    forall identifier ensures !NamesSession(token, identifier) {
      ParsedIff(token, identifier);
    }
    hide NamesSession;
  }

  lemma {:induction false} ItsSession(sessions: seq<Session>, userId: nat, token: string, random: string, now: int, identifier: string)
    requires ParseSessionIdentifier(token) == Some(identifier)
    ensures NamesSession(token, identifier)
    ensures var i := FirstSession(sessions, userId, identifier);
      && (SessionAllows(sessions, userId, token, now) <==> i < |sessions| && StillOpen(sessions[i], now))
      && (i < |sessions| ==> IsRow(sessions, userId, identifier, i))
      && (forall j: nat | IsRow(sessions, userId, identifier, j) :: j == i < |sessions|)
    ensures Continues(BuildRefreshToken(random, Some(identifier)), token, random)
  {
    forall other ensures NamesSession(token, other) <==> other == identifier {
      ParsedIff(token, other);
    }
    assert identifier != "" by { ParsedIsNotBlank(token); }
    forall j: nat ensures IsRow(sessions, userId, identifier, j) <==> j == FirstSession(sessions, userId, identifier) < |sessions| {
      RowIff(sessions, userId, identifier, j);
    }
    hide NamesSession, IsRow, StillOpen, FirstSession;
  }

  /** Whether a token whose record is found is exchanged, and why not. */
  lemma FoundTokenMeans(digest: string -> string, t: Tables, op: Op, k: nat)
    requires op.Refresh? && Lookup(digest, t.records, op.token, op.now) == Some(k)
    requires FoundAt(digest, t.records, op.token, op.now, k)
    ensures RefreshError(digest, t, op).None? <==> MayExchange(digest, t, op.token, op.userActive, op.now, k)
    ensures RefreshError(digest, t, op).Some? ==>
      Refused(digest, t, op.token, op.userActive, op.now, Apply(digest, t, op), RefreshError(digest, t, op))
  {
    hide FoundAt, Lookup, SessionAllows, NamesSession, IsRow, Continues, FirstSession, BuildRefreshToken;
    var userId, parsed := t.records[k].userId, ParseSessionIdentifier(op.token);
    if parsed.None? {
      NoSession(t.sessions, userId, op.token, op.random, op.now);
    } else {
      ItsSession(t.sessions, userId, op.token, op.random, op.now, parsed.value);
      var i := FirstSession(t.sessions, userId, parsed.value);
      if i < |t.sessions| {
        OpenIff(t.sessions[i], op.now);
      }
    }
  }

  lemma ExchangeMeans(digest: string -> string, t: Tables, op: Op, k: nat)
    requires op.Refresh? && Lookup(digest, t.records, op.token, op.now) == Some(k) && RefreshError(digest, t, op).None?
    ensures Exchanged(digest, t, op.token, op.random, op.now, k, Apply(digest, t, op), NextToken(digest, t, op))
  {
    hide Lookup, RefreshError, Continues, BuildRefreshToken, ParseSessionIdentifier, Prefix;
    var userId, parsed := t.records[k].userId, ParseSessionIdentifier(op.token);
    if parsed.None? {
      NoSession(t.sessions, userId, op.token, op.random, op.now);
    } else {
      ItsSession(t.sessions, userId, op.token, op.random, op.now, parsed.value);
    }
  }

  /** On any tables, so in every state a run reaches, and for any token. */
  lemma RefreshIsExact(digest: string -> string, t: Tables, op: Op)
    requires op.Refresh?
    ensures RefreshMeans(digest, t, op.token, op.userActive, op.random, op.now,
                         Apply(digest, t, op), NextToken(digest, t, op), RefreshError(digest, t, op))
  {
    var found := Lookup(digest, t.records, op.token, op.now);
    forall k: nat ensures found == Some(k) <==> FoundAt(digest, t.records, op.token, op.now, k) {
      LookupIff(digest, t.records, op.token, op.now, k);
    }
    hide FoundAt, Lookup, SessionAllows, Exchanged;
    if found.Some? {
      FoundTokenMeans(digest, t, op, found.value);
      if RefreshError(digest, t, op).None? {
        ExchangeMeans(digest, t, op, found.value);
      }
      hide RefreshError, Apply, Refused;
    }
  }

  /** A request with an access token goes through exactly while its session is still open,
      which it keeps active; one left alone too long is marked revoked. */
  ghost predicate AccessMeans(t: Tables, userId: nat, identifier: string, now: int, t': Tables, ok: bool) {
    && t'.records == t.records
    && (ok <==> exists i: nat :: IsRow(t.sessions, userId, identifier, i) && StillOpen(t.sessions[i], now))
    && ((forall i: nat | IsRow(t.sessions, userId, identifier, i) :: t.sessions[i].revokedAt != None) ==> t' == t)
    && forall i: nat | IsRow(t.sessions, userId, identifier, i) && t.sessions[i].revokedAt == None ::
         t'.sessions == t.sessions[i := if ok then t.sessions[i].(lastActiveAt := now) else t.sessions[i].(revokedAt := Some(now))]
  }

  lemma AccessIsExact(digest: string -> string, t: Tables, op: Op)
    requires op.Access?
    ensures var i := FirstSession(t.sessions, op.userId, op.identifier);
      AccessMeans(t, op.userId, op.identifier, op.now, Apply(digest, t, op),
                  i < |t.sessions| && t.sessions[i].revokedAt.None? && !Inactive(t.sessions[i], op.now))
  {
    forall i: nat ensures IsRow(t.sessions, op.userId, op.identifier, i)
                          <==> i == FirstSession(t.sessions, op.userId, op.identifier) < |t.sessions|
    {
      RowIff(t.sessions, op.userId, op.identifier, i);
    }
    var i := FirstSession(t.sessions, op.userId, op.identifier);
    if i < |t.sessions| {
      OpenIff(t.sessions[i], op.now);
      assert IsRow(t.sessions, op.userId, op.identifier, i);
    }
    hide IsRow, FirstSession;
  }

  predicate RevokedAs(s: Session, now: int, s': Session) {
    s' == if s.revokedAt == None then s.(revokedAt := Some(now)) else s
  }

  /** What logging in and out, revoking and a reset do to the rows. A login keeps the rows that
      are there, but for the user's sessions that it revokes. */
  ghost predicate OtherwiseMeans(digest: string -> string, t: Tables, op: Op, t': Tables)
    requires !op.Refresh? && !op.Access?
  {
    match op
    case Login(u, identifier, random, now) =>
      var token := if identifier == "" then random else identifier + "." + random;
      && t'.records == t.records + [Record(u, digest(token), Some(Prefix(token)), now + 7 * 24 * 3600, None)]
      && |t'.sessions| == |t.sessions| + 1 && t'.sessions[|t.sessions|] == Session(u, identifier, now, None)
      && forall p | 0 <= p < |t.sessions| ::
           t'.sessions[p] == t.sessions[p] || (t.sessions[p].userId == u && RevokedAs(t.sessions[p], now, t'.sessions[p]))
    case Logout(u, identifier, now) =>
      && t'.records == t.records && |t'.sessions| == |t.sessions|
      && forall p: nat | p < |t.sessions| ::
           if IsRow(t.sessions, u, identifier, p) then RevokedAs(t.sessions[p], now, t'.sessions[p]) else t'.sessions[p] == t.sessions[p]
    case RevokeAll(u, now) =>
      && |t'.records| == |t.records| && |t'.sessions| == |t.sessions|
      && (forall p | 0 <= p < |t.sessions| ::
           if t.sessions[p].userId == u then RevokedAs(t.sessions[p], now, t'.sessions[p]) else t'.sessions[p] == t.sessions[p])
      && (forall p | 0 <= p < |t.records| ::
           t'.records[p] == if t.records[p].userId == u && t.records[p].usedAt == None
                            then t.records[p].(usedAt := Some(now)) else t.records[p])
    case ResetRequest(u, random, expiresAt) =>
      var token := "pr_" + random;
      t' == t.(records := t.records + [Record(u, digest(token), Some(Prefix(token)), expiresAt, None)])
    case _ => false
  }

  lemma OthersAreExact(digest: string -> string, t: Tables, op: Op)
    requires !op.Refresh? && !op.Access?
    ensures OtherwiseMeans(digest, t, op, Apply(digest, t, op))
  {
    hide Prefix, ByRecency, FirstSession;
    if op.Logout? {
      forall i: nat ensures IsRow(t.sessions, op.userId, op.identifier, i)
                            <==> i == FirstSession(t.sessions, op.userId, op.identifier) < |t.sessions|
      {
        RowIff(t.sessions, op.userId, op.identifier, i);
      }
      hide IsRow;
    }
  }

  // ----- The service -----

  class AuthService {
    const refreshTokens: RefreshTokenService
    var sessions: seq<Session>

    constructor (refreshTokens: RefreshTokenService)
      ensures this.refreshTokens == refreshTokens && sessions == []
    {
      this.refreshTokens := refreshTokens;
      sessions := [];
    }

    function Stored(): Tables
      reads this, refreshTokens
    {
      Tables(refreshTokens.records, sessions)
    }

    method FindSession(userId: nat, identifier: string) returns (i: nat)
      ensures i == FirstSession(sessions, userId, identifier)
    {
      i := 0;
      while i < |sessions| && !(sessions[i].userId == userId && sessions[i].identifier == identifier)
        invariant i <= |sessions|
        invariant FirstSession(sessions, userId, identifier) == i + FirstSession(sessions[i..], userId, identifier)
      {
        assert sessions[i..][1..] == sessions[i + 1..];
        i := i + 1;
      }
    }

    /** Marks one session revoked when it has been inactive too long. */
    method RevokeSessionIfInactive(i: nat, now: int) returns (revoked: bool)
      requires i < |sessions|
      modifies this
      ensures revoked <==> old(sessions)[i].revokedAt.None? && Inactive(old(sessions)[i], now)
      ensures revoked <==> LeftAlone(old(sessions)[i], now)
      ensures sessions == if revoked then old(sessions)[i := Revoked(old(sessions)[i], now)] else old(sessions)
    {
      if sessions[i].revokedAt.Some? {
        return false;
      }
      if sessions[i].lastActiveAt >= now - SESSION_INACTIVITY {
        return false;
      }
      sessions := sessions[i := sessions[i].(revokedAt := Some(now))];
      revoked := true;
    }

    /** Revokes the sessions at the given positions. */
    method RevokeEach(positions: seq<nat>, now: int)
      requires forall p <- positions :: p < |sessions|
      modifies this
      ensures sessions == RevokeAt(old(sessions), positions, now)
    {
      ghost var before := sessions;
      for i := 0 to |positions|
        invariant sessions == RevokeAt(before, positions[..i], now)
      {
        var p := positions[i];
        assert p in positions && positions[..i + 1] == positions[..i] + [p];
        sessions := sessions[p := Revoked(sessions[p], now)];
      }
      assert positions[..|positions|] == positions;
    }

    /** The part of a login after the password has been checked. */
    method Authenticate(digest: string -> string, userId: nat, identifier: string, random: string, now: int)
      returns (token: string)
      modifies this, refreshTokens
      ensures Stored() == Apply(digest, old(Stored()), Login(userId, identifier, random, now))
      ensures token == BuildRefreshToken(random, Some(identifier))
      ensures OtherwiseMeans(digest, old(Stored()), Login(userId, identifier, random, now), Stored())
    {
      hide OtherwiseMeans, ByRecency, RevokeAt, BuildRefreshToken, Prefix;
      OthersAreExact(digest, Stored(), Login(userId, identifier, random, now));
      var active := ByRecency(sessions, userId);
      if |active| >= MAX_CONCURRENT_SESSIONS {
        var oldest := active[MAX_CONCURRENT_SESSIONS - 1..];
        assert forall p <- oldest :: p in active;
        RevokeEach(oldest, now);
      }
      sessions := sessions + [Session(userId, identifier, now, None)];
      token := refreshTokens.IssueRefreshToken(digest, userId, Some(identifier), random, now + REFRESH_TOKEN_EXPIRE);
    }

    /** Exchanges a refresh token for the next one of its session. */
    method RefreshAccessToken(digest: string -> string, token: string, userActive: bool, random: string, now: int)
      returns (next: Option<string>, error: Option<Error>)
      modifies this, refreshTokens
      ensures Stored() == Apply(digest, old(Stored()), Refresh(token, userActive, random, now))
      ensures error == RefreshError(digest, old(Stored()), Refresh(token, userActive, random, now))
      ensures next == if error.None? then Some(BuildRefreshToken(random, ParseSessionIdentifier(token))) else None
      ensures RefreshMeans(digest, old(Stored()), token, userActive, random, now, Stored(), next, error)
    {
      RefreshIsExact(digest, Stored(), Refresh(token, userActive, random, now));
      hide RefreshMeans, Lookup, FoundAt, ParseSessionIdentifier, BuildRefreshToken, FirstSession, Prefix;
      var found := refreshTokens.FindValidRecord(digest, token, now);
      if found.None? {
        return None, Some(InvalidToken);
      }
      var k := found.value;
      if !userActive {
        return None, Some(InactiveUser);
      }
      var userId := refreshTokens.records[k].userId;
      var identifier := ParseSessionIdentifier(token);
      if identifier.Some? {
        var i := FindSession(userId, identifier.value);
        if i == |sessions| || sessions[i].revokedAt.Some? {
          return None, Some(SessionRevoked);
        }
        var expired := RevokeSessionIfInactive(i, now);
        if expired {
          return None, Some(SessionExpired);
        }
      }
      refreshTokens.records :=
        refreshTokens.records[k := refreshTokens.records[k].(usedAt := Some(now))];
      var issued := refreshTokens.IssueRefreshToken(digest, userId, identifier, random, now + REFRESH_TOKEN_EXPIRE);
      return Some(issued), None;
    }

    /** A request that carries an access token of the session. */
    method GetCurrentUser(ghost digest: string -> string, userId: nat, identifier: string, now: int) returns (ok: bool)
      modifies this
      ensures Stored() == Apply(digest, old(Stored()), Access(userId, identifier, now))
      ensures ok <==> var i := FirstSession(old(sessions), userId, identifier);
                      i < |old(sessions)| && old(sessions)[i].revokedAt.None? && !Inactive(old(sessions)[i], now)
      ensures AccessMeans(old(Stored()), userId, identifier, now, Stored(), ok)
    {
      AccessIsExact(digest, Stored(), Access(userId, identifier, now));
      hide AccessMeans;
      var i := FindSession(userId, identifier);
      if i == |sessions| || sessions[i].revokedAt.Some? {
        return false;
      }
      var expired := RevokeSessionIfInactive(i, now);
      if expired {
        return false;
      }
      sessions := sessions[i := sessions[i].(lastActiveAt := now)];
      ok := true;
    }
  }

  function Run(digest: string -> string, ops: seq<Op>): Tables {
    if ops == [] then Tables([], []) else Apply(digest, Run(digest, ops[..|ops| - 1]), ops[|ops| - 1])
  }

  // ----- How many sessions a user has -----

  lemma {:induction false} ActivesMembers(sessions: seq<Session>, userId: nat, p: nat)
    ensures p in Actives(sessions, userId)
            <==> p < |sessions| && sessions[p].userId == userId && sessions[p].revokedAt.None?
  {
    if sessions != [] {
      ActivesMembers(sessions[..|sessions| - 1], userId, p);
    }
  }

  lemma {:induction false} ActivesAscend(sessions: seq<Session>, userId: nat, i: nat, j: nat)
    requires i < j < |Actives(sessions, userId)|
    ensures Actives(sessions, userId)[i] < Actives(sessions, userId)[j]
  {
    var n := |sessions| - 1;
    var rest := Actives(sessions[..n], userId);
    if j < |rest| {
      ActivesAscend(sessions[..n], userId, i, j);
    } else {
      assert rest[i] in rest;
    }
  }

  /** Distinct elements of a sequence are no more than it has. */
  lemma {:induction false} NoMoreThan(s: seq<nat>, t: seq<nat>)
    requires forall i, j | 0 <= i < j < |s| :: s[i] != s[j]
    requires forall x <- s :: x in t
    ensures |s| <= |t|
  {
    if s != [] {
      assert s[0] in s;
      var k :| 0 <= k < |t| && t[k] == s[0];
      var rest := t[..k] + t[k + 1..];
      forall x | x in s[1..] ensures x in rest {
        assert x in s && x != s[0];
        var j :| 0 <= j < |t| && t[j] == x;
        assert rest[if j < k then j else j - 1] == x;
      }
      NoMoreThan(s[1..], rest);
    }
  }

  /** Revoking sessions, or touching them, leaves no more of them active. */
  lemma {:induction false} ActivesShrink(before: seq<Session>, after: seq<Session>, userId: nat)
    requires |before| == |after|
    requires forall p | 0 <= p < |before| ::
               after[p].userId == before[p].userId && (after[p].revokedAt.None? ==> before[p].revokedAt.None?)
    ensures |Actives(after, userId)| <= |Actives(before, userId)|
  {
    var s, t := Actives(after, userId), Actives(before, userId);
    forall x | x in s ensures x in t {
      ActivesMembers(before, userId, x);
    }
    forall i, j | 0 <= i < j < |s| ensures s[i] != s[j] {
      ActivesAscend(after, userId, i, j);
    }
    NoMoreThan(s, t);
  }

  lemma {:induction false} ByRecencyMembers(sessions: seq<Session>, userId: nat, p: nat)
    requires p in Actives(sessions, userId)
    ensures p in ByRecency(sessions, userId)
  {
    var active := Actives(sessions, userId);
    var i :| 0 <= i < |active| && active[i] == p;
    var j := StableSort.PlaceOf(active, RecentFirst(sessions), i);
    assert ByRecency(sessions, userId)[j] == p;
  }

  /** Making room leaves at most one session fewer than the limit. */
  lemma {:induction false} MakeRoomBounds(sessions: seq<Session>, userId: nat, now: int)
    ensures |Actives(MakeRoom(sessions, userId, now), userId)| <= MAX_CONCURRENT_SESSIONS - 1
  {
    hide ByRecency, Actives;
    var active := ByRecency(sessions, userId);
    if |active| >= MAX_CONCURRENT_SESSIONS {
      var kept, dropped := active[..MAX_CONCURRENT_SESSIONS - 1], active[MAX_CONCURRENT_SESSIONS - 1..];
      var after := MakeRoom(sessions, userId, now);
      var left := Actives(after, userId);
      forall p | p in left ensures p in kept {
        ActivesMembers(sessions, userId, p);
        ByRecencyMembers(sessions, userId, p);
        assert active == kept + dropped;
      }
      forall i, j | 0 <= i < j < |left| ensures left[i] != left[j] {
        ActivesAscend(after, userId, i, j);
      }
      NoMoreThan(left, kept);
    }
  }

  lemma DroppedAreLast(active: seq<nat>, p: nat, q: nat, x: nat, y: nat)
    requires x < |active| && y < |active| && active[x] == p && active[y] == q
    requires forall i, j | 0 <= i < j < |active| :: active[i] != active[j]
    requires |active| >= MAX_CONCURRENT_SESSIONS
    requires p !in active[MAX_CONCURRENT_SESSIONS - 1..] && q in active[MAX_CONCURRENT_SESSIONS - 1..]
    ensures x < y
  {
    var dropped := active[MAX_CONCURRENT_SESSIONS - 1..];
    forall v | MAX_CONCURRENT_SESSIONS - 1 <= v < |active|
      ensures active[v] in dropped
    {
      assert dropped[v - (MAX_CONCURRENT_SESSIONS - 1)] == active[v];
    }
    var z :| 0 <= z < |dropped| && dropped[z] == q;
    assert active[z + (MAX_CONCURRENT_SESSIONS - 1)] == q;
  }

  /** Each of a user's active sessions once, the most recently active first. */
  lemma ByRecencyFacts(sessions: seq<Session>, userId: nat)
    ensures var active := ByRecency(sessions, userId);
            forall i, j | 0 <= i < j < |active| ::
              active[i] != active[j] && LastActive(sessions, active[i]) >= LastActive(sessions, active[j])
  {
    var all, le := Actives(sessions, userId), RecentFirst(sessions);
    var order := StableSort.Order(all, le);
    StableSort.OrderFacts(all, le);
    var active := ByRecency(sessions, userId);
    forall i, j | 0 <= i < j < |active|
      ensures active[i] != active[j] && LastActive(sessions, active[i]) >= LastActive(sessions, active[j])
    {
      hide StableSort.Order;
      assert active[i] == all[order[i]] && active[j] == all[order[j]];
      assert StableSort.Before(all, le, order[i], order[j]);
      if order[i] < order[j] {
        ActivesAscend(sessions, userId, order[i], order[j]);
      } else {
        ActivesAscend(sessions, userId, order[j], order[i]);
      }
    }
  }

  /** Logging in revokes none of the user's sessions while there are fewer than five, and
      otherwise all but four. */
  lemma {:induction false} MakeRoomLeavesFour(sessions: seq<Session>, userId: nat, now: int)
    ensures |Actives(MakeRoom(sessions, userId, now), userId)|
      == if |Actives(sessions, userId)| < 5 then |Actives(sessions, userId)| else 4
  {
    var room, active := MakeRoom(sessions, userId, now), ByRecency(sessions, userId);
    MakeRoomBounds(sessions, userId, now);
    ByRecencyFacts(sessions, userId);
    hide ByRecency, Actives;
    if |active| >= 5 {
      var kept := active[..4];
      forall p <- kept ensures p in Actives(room, userId) {
        assert p in active;
        assert p !in active[4..];
        ActivesMembers(room, userId, p);
      }
      NoMoreThan(kept, Actives(room, userId));
    }
  }

  /** The sessions a login revokes are the ones active longest ago. */
  lemma {:induction false} MakeRoomKeepsTheRecent(sessions: seq<Session>, userId: nat, now: int, p: nat, q: nat)
    requires p < |sessions| && q < |sessions|
    requires p in Actives(sessions, userId) && q in Actives(sessions, userId)
    requires MakeRoom(sessions, userId, now)[p].revokedAt.None?
    requires MakeRoom(sessions, userId, now)[q].revokedAt.Some?
    ensures sessions[p].lastActiveAt >= sessions[q].lastActiveAt
  {
    hide ByRecency, Actives;
    var active := ByRecency(sessions, userId);
    ByRecencyMembers(sessions, userId, p);
    ByRecencyMembers(sessions, userId, q);
    var x :| 0 <= x < |active| && active[x] == p;
    var y :| 0 <= y < |active| && active[y] == q;
    ByRecencyFacts(sessions, userId);
    DroppedAreLast(active, p, q, x, y);
  }

  lemma {:induction false} LoginBounds(sessions: seq<Session>, u: nat, sid: string, now: int, userId: nat)
    requires |Actives(sessions, userId)| <= MAX_CONCURRENT_SESSIONS
    ensures |Actives(MakeRoom(sessions, u, now) + [Session(u, sid, now, None)], userId)| <= MAX_CONCURRENT_SESSIONS
  {
    var room := MakeRoom(sessions, u, now);
    var after := room + [Session(u, sid, now, None)];
    assert after[..|after| - 1] == room;
    if userId == u {
      MakeRoomBounds(sessions, u, now);
    } else {
      assert Actives(after, userId) == Actives(room, userId);
      hide Actives;
      ActivesShrink(sessions, room, userId);
    }
  }

  /** Only a login adds a session, and nothing takes a revocation back. */
  lemma SessionsStep(digest: string -> string, t: Tables, op: Op)
    ensures var after := Apply(digest, t, op).sessions;
            && |after| == |t.sessions| + (if op.Login? then 1 else 0)
            && (forall p | 0 <= p < |t.sessions| ::
                  && after[p].userId == t.sessions[p].userId && after[p].identifier == t.sessions[p].identifier
                  && (after[p].revokedAt.None? ==> t.sessions[p].revokedAt.None?))
            && (op.Login? ==> after[|t.sessions|] == Session(op.userId, op.identifier, op.now, None))
  {
    hide Lookup, ParseSessionIdentifier, BuildRefreshToken, Invalidated, Issued, MarkUsed, Inactive, ByRecency;
  }

  /** However logins, requests, refreshes and logouts interleave, no user has more sessions
      that are not revoked than the limit. */
  lemma {:induction false} SessionLimit(digest: string -> string, ops: seq<Op>, userId: nat)
    ensures |Actives(Run(digest, ops).sessions, userId)| <= MAX_CONCURRENT_SESSIONS
  {
    if ops != [] {
      var before, op := ops[..|ops| - 1], ops[|ops| - 1];
      SessionLimit(digest, before, userId);
      hide Actives, MakeRoom;
      var t := Run(digest, before);
      if op.Login? {
        LoginBounds(t.sessions, op.userId, op.identifier, op.now, userId);
      } else {
        SessionsStep(digest, t, op);
        hide Apply;
        ActivesShrink(t.sessions, Run(digest, ops).sessions, userId);
      }
    }
  }

  // ----- The tokens of a session -----

  /** The tokens handed out, in the order of their records. */
  function Tokens(digest: string -> string, ops: seq<Op>): seq<string> {
    if ops == [] then []
    else
      var before, op := ops[..|ops| - 1], ops[|ops| - 1];
      Tokens(digest, before) + NewToken(digest, Run(digest, before), op)
  }

  function NewToken(digest: string -> string, t: Tables, op: Op): seq<string> {
    match op
    case Login(_, sid, random, _) => [BuildRefreshToken(random, Some(sid))]
    case Refresh(token, _, random, _) =>
      if RefreshError(digest, t, op).None? then [BuildRefreshToken(random, ParseSessionIdentifier(token))] else []
    case ResetRequest(_, random, _) => ["pr_" + random]
    case _ => []
  }

  /** Each record is that of the token at its place. */
  ghost predicate Recorded(digest: string -> string, tokens: seq<string>, records: seq<Record>) {
    && |tokens| == |records|
    && forall i | 0 <= i < |tokens| ::
         records[i].hash == digest(tokens[i]) && records[i].prefix == Some(Prefix(tokens[i]))
  }

  predicate SameToken(a: Record, b: Record) {
    a.hash == b.hash && a.userId == b.userId && a.prefix == b.prefix && a.expiresAt == b.expiresAt
  }

  /** A request marks records used and adds at most one, for the token it hands out. */
  lemma RecordsStep(digest: string -> string, t: Tables, op: Op)
    ensures var after, new_ := Apply(digest, t, op).records, NewToken(digest, t, op);
            && |after| == |t.records| + |new_| && |new_| <= 1
            && (forall p | 0 <= p < |t.records| ::
                  SameToken(after[p], t.records[p]) && (t.records[p].usedAt.Some? ==> after[p].usedAt.Some?))
            && (new_ != [] ==>
                  var r := after[|t.records|];
                  r.hash == digest(new_[0]) && r.prefix == Some(Prefix(new_[0])) && r.usedAt.None?)
  {
    hide Lookup, ParseSessionIdentifier, BuildRefreshToken, Prefix, MakeRoom;
  }

  lemma RecordedNext(digest: string -> string, tokens: seq<string>, t: Tables, op: Op)
    requires Recorded(digest, tokens, t.records)
    ensures Recorded(digest, tokens + NewToken(digest, t, op), Apply(digest, t, op).records)
  {
    hide Apply, NewToken, Prefix;
    RecordsStep(digest, t, op);
    var all, after := tokens + NewToken(digest, t, op), Apply(digest, t, op).records;
    forall i | 0 <= i < |all|
      ensures after[i].hash == digest(all[i]) && after[i].prefix == Some(Prefix(all[i]))
    {
      if i < |tokens| {
        assert SameToken(after[i], t.records[i]);
      }
    }
  }

  lemma {:induction false} RunIsRecorded(digest: string -> string, ops: seq<Op>)
    ensures Recorded(digest, Tokens(digest, ops), Run(digest, ops).records)
    decreases |ops|
  {
    if ops == [] {
      assert Run(digest, ops) == Tables([], []) && Tokens(digest, ops) == [];
    } else {
      hide *;
      var before, op := LastOp(ops);
      RunIsRecorded(digest, before);
      RecordedNext(digest, Tokens(digest, before), Run(digest, before), op);
      RunUnfolds(digest, before, op);
    }
  }

  const HASHED_LENGTH := 72

  /** The part of a token the password hash reads. */
  function Seen(token: string): string {
    if |token| <= HASHED_LENGTH then token else token[..HASHED_LENGTH]
  }

  /** No two tokens agree in all the hash reads. */
  ghost predicate AllDifferent(tokens: seq<string>) {
    forall i, j | 0 <= i < j < |tokens| :: Seen(tokens[i]) != Seen(tokens[j])
  }

  /** Whatever has the hash of one of these tokens agrees with it in all the hash reads. The
      tokens are those handed out, of one byte a character; two texts outside ASCII can agree
      in 72 bytes and still differ in their first 72 characters. */
  ghost predicate TellsApart(digest: string -> string, tokens: seq<string>) {
    forall i, other | 0 <= i < |tokens| && digest(tokens[i]) == digest(other) :: Seen(tokens[i]) == Seen(other)
  }

  /** Cutting a token off where the hash stops reading meets all that is asked of a hash. */
  lemma CuttingIsAHash(tokens: seq<string>)
    ensures TellsApart(Seen, tokens) && SeesPrefix(Seen)
  {
    forall a, b | Seen(a) == Seen(b) ensures Prefix(a) == Prefix(b) {
      assert Prefix(a) == Prefix(Seen(a)) && Prefix(b) == Prefix(Seen(b));
    }
  }

  lemma SameSeen(digest: string -> string, tokens: seq<string>, i: nat, other: string)
    requires TellsApart(digest, tokens) && i < |tokens| && digest(tokens[i]) == digest(other)
    ensures Seen(tokens[i]) == Seen(other)
  {
    hide Seen;
  }

  lemma {:induction false} TokensGrow(digest: string -> string, before: seq<Op>, op: Op)
    ensures Tokens(digest, before) <= Tokens(digest, before + [op])
  {
    hide Run, Tokens, NewToken;
    RunUnfolds(digest, before, op);
  }

  lemma {:induction false} TellsApartBefore(digest: string -> string, before: seq<Op>, op: Op)
    requires TellsApart(digest, Tokens(digest, before + [op]))
    ensures TellsApart(digest, Tokens(digest, before))
  {
    hide Seen, Tokens;
    TokensGrow(digest, before, op);
    var tokens, all := Tokens(digest, before), Tokens(digest, before + [op]);
    assert forall i | 0 <= i < |tokens| :: tokens[i] == all[i];
  }

  lemma LastOp(ops: seq<Op>) returns (before: seq<Op>, op: Op)
    requires ops != []
    ensures ops == before + [op] && |before| < |ops|
  {
    before, op := ops[..|ops| - 1], ops[|ops| - 1];
  }

  /** A record stays that of its token, and once used stays used. */
  lemma {:induction false} RecordsStay(digest: string -> string, ops: seq<Op>, more: seq<Op>, k: nat)
    requires k < |Run(digest, ops).records|
    ensures k < |Run(digest, ops + more).records|
    ensures SameToken(Run(digest, ops + more).records[k], Run(digest, ops).records[k])
    ensures Run(digest, ops).records[k].usedAt.Some? ==> Run(digest, ops + more).records[k].usedAt.Some?
  {
    if more == [] {
      assert ops + more == ops;
    } else {
      var n := |more| - 1;
      assert (ops + more)[..|ops + more| - 1] == ops + more[..n] && (ops + more)[|ops + more| - 1] == more[n];
      RecordsStay(digest, ops, more[..n], k);
      RecordsStep(digest, Run(digest, ops + more[..n]), more[n]);
      hide Apply, NewToken;
    }
  }

  /** A successful exchange uses up the record of the token presented. */
  lemma ExchangeUses(digest: string -> string, t: Tables, op: Op) returns (k: nat)
    requires op.Refresh? && RefreshError(digest, t, op).None?
    ensures k < |t.records| && k < |Apply(digest, t, op).records|
    ensures t.records[k].hash == digest(op.token) && t.records[k].usedAt.None?
    ensures Apply(digest, t, op).records[k].hash == digest(op.token)
    ensures Apply(digest, t, op).records[k].usedAt.Some?
  {
    k := Lookup(digest, t.records, op.token, op.now).value;
    hide Lookup;
  }

  lemma UsedIsNotFound(digest: string -> string, tokens: seq<string>, records: seq<Record>, token: string, k: nat, now: int)
    requires TellsApart(digest, tokens) && AllDifferent(tokens) && Recorded(digest, tokens, records)
    requires k < |records| && records[k].hash == digest(token) && records[k].usedAt.Some?
    ensures Lookup(digest, records, token, now).None?
  {
    hide Lookup, Seen, TellsApart;
    SameSeen(digest, tokens, k, token);
    forall i | 0 <= i < |records| && records[i].hash == digest(token)
      ensures i == k
    {
      SameSeen(digest, tokens, i, token);
    }
  }

  /** A token is exchanged at most once: after that no lookup, at any time, finds it. */
  lemma {:induction false} ExchangedOnce(digest: string -> string, ops: seq<Op>, refresh: Op, more: seq<Op>, now: int)
    requires TellsApart(digest, Tokens(digest, ops + [refresh] + more)) && refresh.Refresh?
    requires RefreshError(digest, Run(digest, ops), refresh).None?
    requires AllDifferent(Tokens(digest, ops + [refresh] + more))
    ensures Lookup(digest, Run(digest, ops + [refresh] + more).records, refresh.token, now).None?
  {
    var first := ops + [refresh];
    assert first[..|ops|] == ops;
    assert Run(digest, first) == Apply(digest, Run(digest, ops), refresh);
    hide Run, Apply, Lookup, RefreshError, Tokens;
    var k := ExchangeUses(digest, Run(digest, ops), refresh);
    RecordsStay(digest, first, more, k);
    RunIsRecorded(digest, first + more);
    UsedIsNotFound(digest, Tokens(digest, first + more), Run(digest, first + more).records, refresh.token, k, now);
  }

  // ----- After everything of a user is revoked -----

  predicate NoneUnused(records: seq<Record>, userId: nat) {
    forall r <- records :: r.userId == userId ==> r.usedAt.Some?
  }

  predicate Issues(op: Op, userId: nat) {
    (op.Login? || op.ResetRequest?) && op.userId == userId
  }

  lemma NoneUnusedStep(digest: string -> string, t: Tables, op: Op, userId: nat)
    requires NoneUnused(t.records, userId) && !Issues(op, userId)
    ensures NoneUnused(Apply(digest, t, op).records, userId)
  {
    RecordsStep(digest, t, op);
    var after := Apply(digest, t, op).records;
    hide ParseSessionIdentifier, BuildRefreshToken, Prefix, MakeRoom;
    forall p | 0 <= p < |after| && after[p].userId == userId
      ensures after[p].usedAt.Some?
    {
      if p < |t.records| {
        assert t.records[p] in t.records;
      }
    }
  }

  lemma {:induction false} NoneUnusedRun(digest: string -> string, ops: seq<Op>, more: seq<Op>, userId: nat)
    requires NoneUnused(Run(digest, ops).records, userId)
    requires forall op <- more :: !Issues(op, userId)
    ensures NoneUnused(Run(digest, ops + more).records, userId)
  {
    if more == [] {
      assert ops + more == ops;
    } else {
      var n := |more| - 1;
      assert (ops + more)[..|ops + more| - 1] == ops + more[..n] && (ops + more)[|ops + more| - 1] == more[n];
      NoneUnusedRun(digest, ops, more[..n], userId);
      NoneUnusedStep(digest, Run(digest, ops + more[..n]), more[n], userId);
      hide Apply;
    }
  }

  /** After a user's tokens are invalidated no record of that user is found, whatever token is
      presented, until the next login or reset request. */
  lemma {:induction false} RevokedUserIsNotFound(digest: string -> string, ops: seq<Op>, userId: nat, now: int, more: seq<Op>,
                              token: string, later: int)
    requires forall op <- more :: !Issues(op, userId)
    ensures var records := Run(digest, ops + [RevokeAll(userId, now)] + more).records;
            var found := Lookup(digest, records, token, later);
            found.Some? ==> records[found.value].userId != userId
  {
    var first := ops + [RevokeAll(userId, now)];
    assert first[..|ops|] == ops;
    assert NoneUnused(Run(digest, first).records, userId);
    hide Run, Lookup;
    NoneUnusedRun(digest, first, more, userId);
  }

  /** Right after a login its token is found, until it expires, exactly when it does not look
      like a token of another family. */
  lemma {:induction false} LoginTokenIsFound(digest: string -> string, ops: seq<Op>, login: Op, now: int)
    requires TellsApart(digest, Tokens(digest, ops + [login])) && login.Login?
    requires AllDifferent(Tokens(digest, ops + [login])) && now < login.now + REFRESH_TOKEN_EXPIRE
    ensures var token := BuildRefreshToken(login.random, Some(login.identifier));
            Lookup(digest, Run(digest, ops + [login]).records, token, now)
            == if OtherFamily(token) then None else Some(|Run(digest, ops).records|)
  {
    var token := BuildRefreshToken(login.random, Some(login.identifier));
    var all := ops + [login];
    assert all[..|ops|] == ops;
    RunIsRecorded(digest, ops);
    RunIsRecorded(digest, all);
    var n := |Run(digest, ops).records|;
    var records := Run(digest, all).records;
    var tokens := Tokens(digest, all);
    assert tokens[n] == token && Indexed(records[n], token, now);
    hide Run, Tokens, BuildRefreshToken, Prefix, Indexed, Seen, TellsApart;
    forall i | 0 <= i < |records| && Verifies(digest, token, records[i])
      ensures i == n
    {
      SameSeen(digest, tokens, i, token);
    }
  }

  // ----- Sessions and their tokens -----

  /** `secrets.token_urlsafe(32)`. */
  predicate Random(s: string) {
    UrlSafe(s) && |s| == 43
  }

  /** Random strings come from the generator. */
  predicate WellMade(op: Op) {
    match op
    case Login(_, sid, random, _) => Random(sid) && Random(random)
    case Refresh(_, _, random, _) => Random(random)
    case ResetRequest(_, random, _) => Random(random)
    case _ => true
  }

  /** No login repeats an identifier. */
  ghost predicate FreshLogins(ops: seq<Op>) {
    && (forall i | 0 <= i < |ops| :: WellMade(ops[i]))
    && forall i, j | 0 <= i < j < |ops| && ops[i].Login? && ops[j].Login? :: ops[i].identifier != ops[j].identifier
  }

  /** A handed-out token carries the identifier of its login, or of the token it replaces. */
  lemma NewTokenSession(digest: string -> string, t: Tables, op: Op)
    requires WellMade(op) && NewToken(digest, t, op) != []
    ensures ParseSessionIdentifier(NewToken(digest, t, op)[0])
            == match op
               case Login(_, sid, _, _) => Some(sid)
               case Refresh(token, _, _, _) => ParseSessionIdentifier(token)
               case _ => None
  {
    match op
    case Login(_, sid, random, _) =>
      UrlSafeFacts(sid);
      StripShortens(sid);
      ParseBuild(random, Some(sid));
    case Refresh(token, _, random, _) =>
      if ParseSessionIdentifier(token).Some? {
        ParsedIsNotBlank(token);
      }
      ParseBuild(random, ParseSessionIdentifier(token));
    case ResetRequest(_, random, _) =>
      UrlSafeFacts(random);
      assert '.' !in "pr_" + random;
    case _ =>
  }

  predicate LoggedIn(op: Op, userId: nat, sid: string) {
    op.Login? && op.userId == userId && op.identifier == sid
  }

  ghost predicate CameFromLogin(ops: seq<Op>, userId: nat, sid: string) {
    exists k | 0 <= k < |ops| :: LoggedIn(ops[k], userId, sid)
  }

  lemma CameFromEarlier(ops: seq<Op>, op: Op, userId: nat, sid: string)
    ensures CameFromLogin(ops, userId, sid) ==> CameFromLogin(ops + [op], userId, sid)
    ensures LoggedIn(op, userId, sid) ==> CameFromLogin(ops + [op], userId, sid)
  {
    if CameFromLogin(ops, userId, sid) {
      var k :| 0 <= k < |ops| && LoggedIn(ops[k], userId, sid);
      assert LoggedIn((ops + [op])[k], userId, sid);
    }
    assert (ops + [op])[|ops|] == op;
  }

  /** The sessions' rows and the records of tokens that carry an identifier all trace back
      to a login of their user. */
  ghost predicate Traced(digest: string -> string, ops: seq<Op>) {
    var t, tokens := Run(digest, ops), Tokens(digest, ops);
    && |tokens| == |t.records|
    && (forall i | 0 <= i < |tokens| && ParseSessionIdentifier(tokens[i]).Some? ::
          CameFromLogin(ops, t.records[i].userId, ParseSessionIdentifier(tokens[i]).value))
    && (forall p | 0 <= p < |t.sessions| :: CameFromLogin(ops, t.sessions[p].userId, t.sessions[p].identifier))
  }

  /** The hash reads all of the token or at least its identifier and the dot. */
  predicate Legible(token: string) {
    |token| < HASHED_LENGTH || '.' in Seen(token)
  }

  lemma LegibleSession(token: string, other: string)
    requires Legible(token) && Seen(other) == Seen(token)
    ensures ParseSessionIdentifier(other) == ParseSessionIdentifier(token)
    ensures ParseSessionIdentifier(token).Some? ==> |ParseSessionIdentifier(token).value| < HASHED_LENGTH
  {
    var seen := Seen(token);
    if '.' in seen {
      assert token == seen + token[|seen|..] && other == seen + other[|seen|..];
      FirstPieceOfPrefix(seen, token[|seen|..]);
      FirstPieceOfPrefix(seen, other[|seen|..]);
      DotSplits(seen);
      StripShortens(Split(seen, '.')[0]);
    }
  }

  lemma NewTokenIsLegible(digest: string -> string, t: Tables, op: Op)
    requires WellMade(op) && NewToken(digest, t, op) != []
    requires op.Refresh? && ParseSessionIdentifier(op.token).Some? ==>
               |ParseSessionIdentifier(op.token).value| < HASHED_LENGTH
    ensures Legible(NewToken(digest, t, op)[0])
  {
    var token := NewToken(digest, t, op)[0];
    var sid := if op.Login? then Some(op.identifier) else if op.Refresh? then ParseSessionIdentifier(op.token) else None;
    hide RefreshError, Lookup, ParseSessionIdentifier;
    if sid.Some? && sid.value != "" {
      assert Seen(token)[|sid.value|] == '.';
    }
  }

  /** Every token handed out is legible. */
  lemma {:induction false} RunIsLegible(digest: string -> string, ops: seq<Op>)
    requires TellsApart(digest, Tokens(digest, ops)) && forall i | 0 <= i < |ops| :: WellMade(ops[i])
    ensures forall i | 0 <= i < |Tokens(digest, ops)| :: Legible(Tokens(digest, ops)[i])
    decreases |ops|
  {
    if ops != [] {
      hide Run, Tokens, Apply, Lookup, Legible, WellMade, Prefix, ParseSessionIdentifier, Seen, BuildRefreshToken, TellsApart;
      var before, op := LastOp(ops);
      assert WellMade(op) by { assert ops[|before|] == op; }
      assert forall i | 0 <= i < |before| :: before[i] == ops[i];
      var t, tokens := Run(digest, before), Tokens(digest, before);
      RunUnfolds(digest, before, op);
      TellsApartBefore(digest, before, op);
      RunIsLegible(digest, before);
      RunIsRecorded(digest, before);
      RecordsStep(digest, t, op);
      if NewToken(digest, t, op) != [] {
        if op.Refresh? {
          var found := Lookup(digest, t.records, op.token, op.now).value;
          SameSeen(digest, tokens, found, op.token);
          LegibleSession(tokens[found], op.token);
        }
        NewTokenIsLegible(digest, t, op);
      }
    }
  }

  /** A token found agrees with one that was handed out in all the hash reads, and so names
      the same session. */
  lemma FoundIsHandedOut(digest: string -> string, tokens: seq<string>, records: seq<Record>, token: string, now: int)
    requires TellsApart(digest, tokens) && Recorded(digest, tokens, records)
    requires forall i | 0 <= i < |tokens| :: Legible(tokens[i])
    requires Lookup(digest, records, token, now).Some?
    ensures var k := Lookup(digest, records, token, now).value;
            Seen(tokens[k]) == Seen(token) && ParseSessionIdentifier(tokens[k]) == ParseSessionIdentifier(token)
  {
    hide Lookup, ParseSessionIdentifier, Seen, Legible, TellsApart;
    var k := Lookup(digest, records, token, now).value;
    SameSeen(digest, tokens, k, token);
    LegibleSession(tokens[k], token);
  }

  lemma {:induction false} SessionIsTraced(digest: string -> string, before: seq<Op>, op: Op, sessions: seq<Session>, p: nat)
    requires Traced(digest, before) && sessions == Apply(digest, Run(digest, before), op).sessions
    requires p < |sessions|
    ensures CameFromLogin(before + [op], sessions[p].userId, sessions[p].identifier)
  {
    var t := Run(digest, before);
    assert op.Login? ==> LoggedIn(op, op.userId, op.identifier);
    assert forall q | 0 <= q < |t.sessions| :: CameFromLogin(before, t.sessions[q].userId, t.sessions[q].identifier);
    hide *;
    SessionsStep(digest, t, op);
    CameFromEarlier(before, op, sessions[p].userId, sessions[p].identifier);
  }

  /** The new record is for the user who logged in, or whose token was exchanged. */
  lemma NewRecordUser(digest: string -> string, t: Tables, op: Op)
    requires NewToken(digest, t, op) != []
    ensures |Apply(digest, t, op).records| == |t.records| + 1
    ensures Apply(digest, t, op).records[|t.records|].userId
            == match op
               case Login(u, _, _, _) => u
               case Refresh(token, _, _, now) => t.records[Lookup(digest, t.records, token, now).value].userId
               case ResetRequest(u, _, _) => u
               case _ => 0
  {
    hide Lookup, ParseSessionIdentifier, BuildRefreshToken, Prefix, MakeRoom;
  }

  /** The identifier of a new token traces back to a login of the new record's user. */
  lemma {:induction false} NewRecordIsTraced(digest: string -> string, before: seq<Op>, op: Op)
    requires TellsApart(digest, Tokens(digest, before)) && WellMade(op) && Traced(digest, before)
    requires forall i | 0 <= i < |before| :: WellMade(before[i])
    requires NewToken(digest, Run(digest, before), op) != []
    requires ParseSessionIdentifier(NewToken(digest, Run(digest, before), op)[0]).Some?
    ensures var t := Run(digest, before);
            && |Apply(digest, t, op).records| == |t.records| + 1
            && CameFromLogin(before + [op], Apply(digest, t, op).records[|t.records|].userId,
                             ParseSessionIdentifier(NewToken(digest, t, op)[0]).value)
  {
    var t, tokens := Run(digest, before), Tokens(digest, before);
    RunIsRecorded(digest, before);
    RunIsLegible(digest, before);
    NewTokenSession(digest, t, op);
    NewRecordUser(digest, t, op);
    if op.Login? {
      CameFromEarlier(before, op, op.userId, op.identifier);
    } else if op.Refresh? {
      assert RefreshError(digest, t, op).None?;
      hide Run, Tokens, Apply, NewToken, CameFromLogin, ParseSessionIdentifier, Lookup;
      var k := Lookup(digest, t.records, op.token, op.now).value;
      FoundIsHandedOut(digest, tokens, t.records, op.token, op.now);
      CameFromEarlier(before, op, t.records[k].userId, ParseSessionIdentifier(tokens[k]).value);
    }
  }

  lemma {:induction false} OldRecordIsTraced(digest: string -> string, before: seq<Op>, op: Op, i: nat)
    requires Traced(digest, before) && i < |Tokens(digest, before)|
    requires ParseSessionIdentifier(Tokens(digest, before)[i]).Some?
    ensures i < |Run(digest, before).records|
    ensures CameFromLogin(before + [op], Run(digest, before).records[i].userId,
                          ParseSessionIdentifier(Tokens(digest, before)[i]).value)
  {
    hide Run, Tokens, CameFromLogin, ParseSessionIdentifier;
    CameFromEarlier(before, op, Run(digest, before).records[i].userId,
                    ParseSessionIdentifier(Tokens(digest, before)[i]).value);
  }

  lemma {:induction false} RunUnfolds(digest: string -> string, before: seq<Op>, op: Op)
    ensures Run(digest, before + [op]) == Apply(digest, Run(digest, before), op)
    ensures Tokens(digest, before + [op]) == Tokens(digest, before) + NewToken(digest, Run(digest, before), op)
  {
    assert (before + [op])[..|before|] == before;
  }

  lemma {:induction false} RecordIsTraced(digest: string -> string, before: seq<Op>, op: Op, tokens: seq<string>, records: seq<Record>, i: nat)
    requires TellsApart(digest, Tokens(digest, before)) && WellMade(op) && Traced(digest, before)
    requires forall i | 0 <= i < |before| :: WellMade(before[i])
    requires tokens == Tokens(digest, before) + NewToken(digest, Run(digest, before), op)
    requires records == Apply(digest, Run(digest, before), op).records
    requires i < |tokens| == |records| && ParseSessionIdentifier(tokens[i]).Some?
    ensures CameFromLogin(before + [op], records[i].userId, ParseSessionIdentifier(tokens[i]).value)
  {
    hide Run, Tokens, Apply, NewToken, Traced, CameFromLogin, ParseSessionIdentifier, WellMade, TellsApart, Prefix;
    RecordsStep(digest, Run(digest, before), op);
    if i < |Tokens(digest, before)| {
      OldRecordIsTraced(digest, before, op, i);
    } else {
      NewRecordIsTraced(digest, before, op);
    }
  }

  lemma {:induction false} TracedStep(digest: string -> string, before: seq<Op>, op: Op)
    requires TellsApart(digest, Tokens(digest, before)) && WellMade(op) && Traced(digest, before)
    requires forall i | 0 <= i < |before| :: WellMade(before[i])
    ensures Traced(digest, before + [op])
  {
    var ops := before + [op];
    var t, tokens := Run(digest, ops), Tokens(digest, ops);
    RunUnfolds(digest, before, op);
    RunIsRecorded(digest, ops);
    hide Run, Tokens, Apply, NewToken, ParseSessionIdentifier, CameFromLogin;
    forall i | 0 <= i < |tokens| && ParseSessionIdentifier(tokens[i]).Some?
      ensures CameFromLogin(ops, t.records[i].userId, ParseSessionIdentifier(tokens[i]).value)
    {
      RecordIsTraced(digest, before, op, tokens, t.records, i);
    }
    forall p | 0 <= p < |t.sessions|
      ensures CameFromLogin(ops, t.sessions[p].userId, t.sessions[p].identifier)
    {
      SessionIsTraced(digest, before, op, t.sessions, p);
    }
  }

  lemma {:induction false} RunIsTraced(digest: string -> string, ops: seq<Op>)
    requires TellsApart(digest, Tokens(digest, ops)) && forall i | 0 <= i < |ops| :: WellMade(ops[i])
    ensures Traced(digest, ops)
    decreases |ops|
  {
    if ops == [] {
      assert Run(digest, ops) == Tables([], []) && Tokens(digest, ops) == [];
    } else {
      hide Run, Tokens, Traced, TellsApart, WellMade;
      var before, op := LastOp(ops);
      assert WellMade(op) by { assert ops[|before|] == op; }
      assert forall i | 0 <= i < |before| :: before[i] == ops[i];
      TellsApartBefore(digest, before, op);
      RunIsTraced(digest, before);
      TracedStep(digest, before, op);
    }
  }

  /** Of the tokens of a session only the newest can be unused. */
  ghost predicate NewestOnly(tokens: seq<string>, records: seq<Record>) {
    |tokens| == |records| &&
    forall i, j | 0 <= i < j < |tokens| && ParseSessionIdentifier(tokens[i]).Some? ::
      ParseSessionIdentifier(tokens[i]) == ParseSessionIdentifier(tokens[j]) ==> records[i].usedAt.Some?
  }

  lemma LoginIsFresh(before: seq<Op>, op: Op, userId: nat, sid: string)
    requires FreshLogins(before + [op]) && CameFromLogin(before, userId, sid)
    ensures op.Login? ==> op.identifier != sid
  {
    hide WellMade;
    var k :| 0 <= k < |before| && LoggedIn(before[k], userId, sid);
    assert (before + [op])[k] == before[k] && (before + [op])[|before|] == op;
  }

  /** An exchange uses the newest token of its session, so every earlier one is used then. */
  lemma ExchangeUsesNewest(digest: string -> string, tokens: seq<string>, t: Tables, op: Op, i: nat)
    requires TellsApart(digest, tokens) && Recorded(digest, tokens, t.records) && NewestOnly(tokens, t.records)
    requires forall j | 0 <= j < |tokens| :: Legible(tokens[j])
    requires op.Refresh? && RefreshError(digest, t, op).None?
    requires i < |tokens| && ParseSessionIdentifier(tokens[i]).Some?
    requires ParseSessionIdentifier(tokens[i]) == ParseSessionIdentifier(op.token)
    ensures i < |Apply(digest, t, op).records| && Apply(digest, t, op).records[i].usedAt.Some?
  {
    FoundIsHandedOut(digest, tokens, t.records, op.token, op.now);
    hide Lookup, ParseSessionIdentifier, Seen, Legible, Prefix, TellsApart, Recorded, BuildRefreshToken;
    var k := Lookup(digest, t.records, op.token, op.now).value;
    assert t.records[k].usedAt.None?;
    assert i <= k;
  }

  /** The record of an earlier token of the session the new token is for is used by now. */
  lemma {:induction false} EarlierIsUsed(digest: string -> string, before: seq<Op>, op: Op, i: nat)
    requires TellsApart(digest, Tokens(digest, before)) && FreshLogins(before + [op])
    requires NewestOnly(Tokens(digest, before), Run(digest, before).records)
    requires i < |Tokens(digest, before)| && ParseSessionIdentifier(Tokens(digest, before)[i]).Some?
    requires var new_ := NewToken(digest, Run(digest, before), op);
             new_ != [] && ParseSessionIdentifier(new_[0]) == ParseSessionIdentifier(Tokens(digest, before)[i])
    ensures var after := Apply(digest, Run(digest, before), op).records; i < |after| && after[i].usedAt.Some?
  {
    var t, tokens := Run(digest, before), Tokens(digest, before);
    FreshBefore(before, op);
    RunIsRecorded(digest, before);
    RunIsLegible(digest, before);
    RunIsTraced(digest, before);
    hide Run, Tokens, Apply, Lookup, ParseSessionIdentifier, CameFromLogin, NewestOnly, Recorded, Legible, FreshLogins, WellMade;
    NewTokenSession(digest, t, op);
    LoginIsFresh(before, op, t.records[i].userId, ParseSessionIdentifier(tokens[i]).value);
    if op.Refresh? {
      ExchangeUsesNewest(digest, tokens, t, op, i);
    }
  }

  lemma FreshBefore(before: seq<Op>, op: Op)
    requires FreshLogins(before + [op])
    ensures FreshLogins(before) && WellMade(op)
  {
    var ops := before + [op];
    assert forall i | 0 <= i < |before| :: ops[i] == before[i];
    assert ops[|before|] == op;
  }

  /** However tokens are exchanged, at most the newest token of a session is unused. */
  lemma {:induction false} RunKeepsNewestOnly(digest: string -> string, ops: seq<Op>)
    requires TellsApart(digest, Tokens(digest, ops)) && FreshLogins(ops)
    ensures NewestOnly(Tokens(digest, ops), Run(digest, ops).records)
    decreases |ops|
  {
    if ops == [] {
      assert Run(digest, ops) == Tables([], []) && Tokens(digest, ops) == [];
    } else {
      hide Tokens, Run, ParseSessionIdentifier, Apply, NewToken, FreshLogins, TellsApart;
      var before, op := LastOp(ops);
      FreshBefore(before, op);
      TellsApartBefore(digest, before, op);
      RunKeepsNewestOnly(digest, before);
      RunIsRecorded(digest, ops);
      RecordsStep(digest, Run(digest, before), op);
      RunUnfolds(digest, before, op);
      var n := |Tokens(digest, before)|;
      var tokens, records := Tokens(digest, ops), Run(digest, ops).records;
      forall i, j | 0 <= i < j < |tokens| && ParseSessionIdentifier(tokens[i]).Some?
                    && ParseSessionIdentifier(tokens[i]) == ParseSessionIdentifier(tokens[j])
        ensures records[i].usedAt.Some?
      {
        if j == n {
          EarlierIsUsed(digest, before, op, i);
        }
      }
    }
  }

  ghost predicate DistinctIdentifiers(sessions: seq<Session>) {
    forall p, q | 0 <= p < q < |sessions| :: sessions[p].identifier != sessions[q].identifier
  }

  lemma {:induction false} RunKeepsDistinct(digest: string -> string, ops: seq<Op>)
    requires TellsApart(digest, Tokens(digest, ops)) && FreshLogins(ops)
    ensures DistinctIdentifiers(Run(digest, ops).sessions)
    decreases |ops|
  {
    if ops == [] {
      assert Run(digest, ops) == Tables([], []);
    } else {
      var before, op := LastOp(ops);
      FreshBefore(before, op);
      RunUnfolds(digest, before, op);
      hide Run, Apply, Tokens, NewToken, CameFromLogin, TellsApart, FreshLogins, WellMade;
      TellsApartBefore(digest, before, op);
      RunKeepsDistinct(digest, before);
      WellMadeAll(before);
      RunIsTraced(digest, before);
      var t, after := Run(digest, before), Run(digest, ops).sessions;
      SessionsStep(digest, t, op);
      forall p, q | 0 <= p < q < |after| ensures after[p].identifier != after[q].identifier {
        LoginIsFresh(before, op, t.sessions[p].userId, t.sessions[p].identifier);
      }
    }
  }

  lemma WellMadeAll(ops: seq<Op>)
    requires FreshLogins(ops)
    ensures forall i | 0 <= i < |ops| :: WellMade(ops[i])
  {
    hide WellMade;
  }

  lemma {:induction false} RevocationStays(digest: string -> string, ops: seq<Op>, more: seq<Op>, p: nat)
    requires p < |Run(digest, ops).sessions| && Run(digest, ops).sessions[p].revokedAt.Some?
    ensures p < |Run(digest, ops + more).sessions| && Run(digest, ops + more).sessions[p].revokedAt.Some?
    ensures Run(digest, ops + more).sessions[p].identifier == Run(digest, ops).sessions[p].identifier
    ensures Run(digest, ops + more).sessions[p].userId == Run(digest, ops).sessions[p].userId
  {
    if more == [] {
      assert ops + more == ops;
    } else {
      var n := |more| - 1;
      assert (ops + more)[..|ops + more| - 1] == ops + more[..n] && (ops + more)[|ops + more| - 1] == more[n];
      RevocationStays(digest, ops, more[..n], p);
      SessionsStep(digest, Run(digest, ops + more[..n]), more[n]);
      hide Apply;
    }
  }

  /** An identifier names one login, so one user. */
  lemma OneUser(ops: seq<Op>, u: nat, v: nat, sid: string)
    requires FreshLogins(ops) && CameFromLogin(ops, u, sid) && CameFromLogin(ops, v, sid)
    ensures u == v
  {
    var k :| 0 <= k < |ops| && LoggedIn(ops[k], u, sid);
    var l :| 0 <= l < |ops| && LoggedIn(ops[l], v, sid);
    assert !(k < l) && !(l < k);
  }

  /** Once a session is revoked, by logout, inactivity, the session limit or a reset, no token
      that carries its identifier is ever exchanged again. */
  lemma {:induction false} RevokedSessionEndsItsTokens(digest: string -> string, ops: seq<Op>, more: seq<Op>, p: nat, refresh: Op)
    requires TellsApart(digest, Tokens(digest, ops + more)) && FreshLogins(ops + more) && refresh.Refresh?
    requires p < |Run(digest, ops).sessions| && Run(digest, ops).sessions[p].revokedAt.Some?
    requires ParseSessionIdentifier(refresh.token) == Some(Run(digest, ops).sessions[p].identifier)
    ensures RefreshError(digest, Run(digest, ops + more), refresh).Some?
  {
    var all := ops + more;
    var t := Run(digest, all);
    RevocationStays(digest, ops, more, p);
    RunKeepsDistinct(digest, all);
    RunIsTraced(digest, all);
    RunIsRecorded(digest, all);
    RunIsLegible(digest, all);
    hide Run, Lookup, ParseSessionIdentifier, Tokens, CameFromLogin, Seen, Legible;
    var found := Lookup(digest, t.records, refresh.token, refresh.now);
    if found.Some? {
      FoundIsHandedOut(digest, Tokens(digest, all), t.records, refresh.token, refresh.now);
      OneUser(all, t.records[found.value].userId, t.sessions[p].userId, t.sessions[p].identifier);
      var i := FirstSession(t.sessions, t.sessions[p].userId, t.sessions[p].identifier);
      assert i <= p;
      assert i == p;
    }
  }
}
