/** Collaboration sessions and their activities (`session_manager.py`). Every request is one
    transaction; the two tables are sequences of rows in the order they were added. */
module CollaborationSessions {
  import opened Options
  import opened Sequences
  import Decimal
  import opened Text

  /** Microseconds. */
  type Time = int

  datatype ActivityType =
    | SessionStart | SessionEnd | UserJoined | UserLeft | ContentEdited | CursorMoved | SelectionChanged
    | VersionCreated | CommentAdded | SnapshotCreated | SnapshotRestored

  datatype Details =
    | Joined(username: string)
    | Left(username: string, durationSeconds: int, editsCount: int)
    | Given(text: Option<string>)

  datatype User = User(id: nat, username: string)

  datatype Session = Session(documentId: nat, userId: nat, sessionId: string, startedAt: Time,
                             endedAt: Option<Time>, isActive: bool, editsCount: int, lastActivityAt: Time)

  datatype Activity = Activity(documentId: nat, userId: nat, sessionId: Option<string>, kind: ActivityType,
                               details: Details)

  datatype Tables = Tables(sessions: seq<Session>, activities: seq<Activity>)

  /** What the document lookup and the permission check answer. */
  datatype Access = Missing | Denied | Readable

  datatype Error = NotFound(what: string) | PermissionDenied(what: string) | Invalid(what: string)

  datatype Op =
    | Start(user: User, documentId: nat, access: Access, suffix: string, now: Time)
    | End(user: User, sessionId: string, editsCount: int, now: Time)
    | Log(user: User, documentId: nat, access: Access, activityType: string, details: Option<string>,
          session: Option<string>, now: Time)

  // ----- One request -----

  function TypeNamed(name: string): Option<ActivityType> {
    if name == "session_start" then Some(SessionStart)
    else if name == "session_end" then Some(SessionEnd)
    else if name == "user_joined" then Some(UserJoined)
    else if name == "user_left" then Some(UserLeft)
    else if name == "content_edited" then Some(ContentEdited)
    else if name == "cursor_moved" then Some(CursorMoved)
    else if name == "selection_changed" then Some(SelectionChanged)
    else if name == "version_created" then Some(VersionCreated)
    else if name == "comment_added" then Some(CommentAdded)
    else if name == "snapshot_created" then Some(SnapshotCreated)
    else if name == "snapshot_restored" then Some(SnapshotRestored)
    else None
  }

  /** `suffix` is eight random hexadecimal digits. */
  function SessionId(userId: nat, documentId: nat, suffix: string): string {
    "collab_" + Decimal.Print(userId) + "_" + Decimal.Print(documentId) + "_" + suffix
  }

  function AccessError(access: Access): Option<Error> {
    match access
    case Missing => Some(NotFound("document"))
    case Denied => Some(PermissionDenied("document"))
    case Readable => None
  }

  /** Whole seconds, truncated toward zero as `int` does. */
  function Seconds(t: Time): int {
    if t >= 0 then t / 1_000_000 else -(-t / 1_000_000)
  }

  predicate HasId(s: Session, id: string) {
    s.sessionId == id
  }

  predicate IsOpenFor(s: Session, id: string, userId: nat) {
    s.sessionId == id && s.userId == userId && s.isActive
  }

  function LogError(t: Tables, op: Op): Option<Error>
    requires op.Log?
  {
    if TypeNamed(op.activityType).None? then Some(Invalid("activity type"))
    else if AccessError(op.access).Some? then AccessError(op.access)
    else if op.session.None? || op.session.value == "" then None
    else
      var i := First(s => HasId(s, op.session.value), t.sessions);
      if i == |t.sessions| || !t.sessions[i].isActive then Some(NotFound("session"))
      else if t.sessions[i].userId != op.user.id then Some(PermissionDenied("session"))
      else if t.sessions[i].documentId != op.documentId then Some(Invalid("session"))
      else None
  }

  function Failure(t: Tables, op: Op): Option<Error> {
    match op
    case Start(_, _, access, _, _) => AccessError(access)
    case End(user, id, _, _) =>
      if First(s => IsOpenFor(s, id, user.id), t.sessions) == |t.sessions| then Some(NotFound("session")) else None
    case Log(_, _, _, _, _, _, _) => LogError(t, op)
  }

  function Touched(s: Session, kind: ActivityType, now: Time): Session {
    s.(lastActivityAt := now, editsCount := if kind == ContentEdited then s.editsCount + 1 else s.editsCount)
  }

  /** The tables after a request; a refused request changes nothing. */
  function Apply(t: Tables, op: Op): Tables {
    if Failure(t, op).Some? then t
    else
      match op
      case Start(user, d, _, suffix, now) =>
        var id := SessionId(user.id, d, suffix);
        Tables(t.sessions + [Session(d, user.id, id, now, None, true, 0, now)],
               t.activities + [Activity(d, user.id, Some(id), UserJoined, Joined(user.username))])
      case End(user, id, edits, now) =>
        var i := First(s => IsOpenFor(s, id, user.id), t.sessions);
        var s := t.sessions[i];
        Tables(t.sessions[i := s.(endedAt := Some(now), isActive := false, editsCount := edits)],
               t.activities + [Activity(s.documentId, user.id, Some(id), UserLeft,
                                        Left(user.username, Seconds(now - s.startedAt), edits))])
      case Log(user, d, _, name, details, session, now) =>
        var kind := TypeNamed(name).value;
        var activities := t.activities + [Activity(d, user.id, session, kind, Given(details))];
        if session.None? || session.value == "" then Tables(t.sessions, activities)
        else
          var i := First(s => HasId(s, session.value), t.sessions);
          Tables(t.sessions[i := Touched(t.sessions[i], kind, now)], activities)
  }

  // ----- What a request does, in terms of the rows -----

  /** A readable document gets a row and a joining; a missing or closed one changes nothing. */
  ghost predicate StartMeans(t: Tables, user: User, documentId: nat, access: Access, suffix: string, now: Time,
                             t': Tables, result: Option<string>, error: Option<Error>) {
    var id := "collab_" + Decimal.Print(user.id) + "_" + Decimal.Print(documentId) + "_" + suffix;
    match access
    case Readable =>
      && error == None && result == Some(id)
      && t'.sessions == t.sessions + [Session(documentId, user.id, id, now, None, true, 0, now)]
      && t'.activities == t.activities + [Activity(documentId, user.id, Some(id), UserJoined, Joined(user.username))]
    case Missing => t' == t && result == None && error == Some(NotFound("document"))
    case Denied => t' == t && result == None && error == Some(PermissionDenied("document"))
  }

  /** The first active row with this id and user. */
  predicate IsOpenRow(sessions: seq<Session>, id: string, userId: nat, i: nat) {
    && i < |sessions| && sessions[i].sessionId == id && sessions[i].userId == userId && sessions[i].isActive
    && forall j | 0 <= j < i && sessions[j].sessionId == id && sessions[j].userId == userId :: !sessions[j].isActive
  }

  /** Whole seconds, toward zero. */
  predicate IsSeconds(span: Time, seconds: int) {
    if span >= 0 then seconds * 1_000_000 <= span < (seconds + 1) * 1_000_000
    else (seconds - 1) * 1_000_000 < span <= seconds * 1_000_000
  }

  /** An active row of the user is closed and a leaving added; without one nothing changes. */
  ghost predicate EndMeans(t: Tables, user: User, id: string, editsCount: int, now: Time, t': Tables, error: Option<Error>) {
    && (error == None <==> exists i: nat :: IsOpenRow(t.sessions, id, user.id, i))
    && (error != None ==> t' == t && error == Some(NotFound("session")))
    && forall i: nat | IsOpenRow(t.sessions, id, user.id, i) ::
         && t'.sessions == t.sessions[i := t.sessions[i].(endedAt := Some(now), isActive := false, editsCount := editsCount)]
         && exists seconds: int :: IsSeconds(now - t.sessions[i].startedAt, seconds)
              && t'.activities == t.activities + [Activity(t.sessions[i].documentId, user.id, Some(id), UserLeft,
                                                           Left(user.username, seconds, editsCount))]
  }

  /** The names of the kinds of activity. */
  const KIND_NAMES: seq<(string, ActivityType)> :=
    [("session_start", SessionStart), ("session_end", SessionEnd), ("user_joined", UserJoined), ("user_left", UserLeft),
     ("content_edited", ContentEdited), ("cursor_moved", CursorMoved), ("selection_changed", SelectionChanged),
     ("version_created", VersionCreated), ("comment_added", CommentAdded), ("snapshot_created", SnapshotCreated),
     ("snapshot_restored", SnapshotRestored)]

  predicate Names(name: string, kind: ActivityType) {
    (name, kind) in KIND_NAMES
  }

  /** The first row with this id. */
  predicate IsRow(sessions: seq<Session>, id: string, i: nat) {
    && i < |sessions| && sessions[i].sessionId == id
    && forall j | 0 <= j < i :: sessions[j].sessionId != id
  }

  predicate GivesSession(session: Option<string>) {
    session != None && session != Some("")
  }

  /** No session is given, or an active one of this user on this document. */
  ghost predicate SessionFits(sessions: seq<Session>, session: Option<string>, userId: nat, documentId: nat) {
    GivesSession(session) ==>
      exists i: nat :: IsRow(sessions, session.value, i)
        && sessions[i].isActive && sessions[i].userId == userId && sessions[i].documentId == documentId
  }

  /** The activity is added under the kind named, and the session given is touched. */
  ghost predicate LogAdds(t: Tables, user: User, documentId: nat, name: string, details: Option<string>, session: Option<string>,
                         now: Time, t': Tables) {
    && (forall kind | Names(name, kind) ::
         t'.activities == t.activities + [Activity(documentId, user.id, session, kind, Given(details))])
    && (!GivesSession(session) ==> t'.sessions == t.sessions)
    && (GivesSession(session) ==> forall i: nat | IsRow(t.sessions, session.value, i) ::
         t'.sessions == t.sessions[i := t.sessions[i].(
           lastActivityAt := now, editsCount := t.sessions[i].editsCount + if name == "content_edited" then 1 else 0)])
  }

  /** Why nothing is logged: the name, the document, then the session. */
  ghost predicate LogRefused(t: Tables, user: User, documentId: nat, access: Access, name: string, session: Option<string>,
                             error: Error) {
    if forall kind :: !Names(name, kind) then error == Invalid("activity type")
    else if access == Missing then error == NotFound("document")
    else if access == Denied then error == PermissionDenied("document")
    else
      && GivesSession(session)
      && (error == NotFound("session")
          <==> forall i: nat | IsRow(t.sessions, session.value, i) :: !t.sessions[i].isActive)
      && (error == PermissionDenied("session")
          <==> exists i: nat :: IsRow(t.sessions, session.value, i) && t.sessions[i].isActive && t.sessions[i].userId != user.id)
      && (error == Invalid("session")
          <==> exists i: nat :: IsRow(t.sessions, session.value, i) && t.sessions[i].isActive && t.sessions[i].userId == user.id
                 && t.sessions[i].documentId != documentId)
      && error in {NotFound("session"), PermissionDenied("session"), Invalid("session")}
  }

  /** An activity is logged exactly when its name is one of the eleven, the document is readable
      and the session, when given, is an active one of this user on this document. */
  ghost predicate LogMeans(t: Tables, user: User, documentId: nat, access: Access, name: string, details: Option<string>,
                           session: Option<string>, now: Time, t': Tables, error: Option<Error>) {
    && (error == None <==> (exists kind :: Names(name, kind)) && access == Readable
                             && SessionFits(t.sessions, session, user.id, documentId))
    && (error == None ==> LogAdds(t, user, documentId, name, details, session, now, t'))
    && (error != None ==> t' == t && LogRefused(t, user, documentId, access, name, session, error.value))
  }

  lemma {:induction false} RowIff(sessions: seq<Session>, id: string, i: nat)
    ensures IsRow(sessions, id, i) <==> i == First(s => HasId(s, id), sessions) < |sessions|
  {
    hide First;
  }

  lemma {:induction false} OpenRowIff(sessions: seq<Session>, id: string, userId: nat, i: nat)
    ensures IsOpenRow(sessions, id, userId, i) <==> i == First(s => IsOpenFor(s, id, userId), sessions) < |sessions|
  {
    hide First;
  }

  lemma NamesIff(name: string, kind: ActivityType)
    ensures Names(name, kind) <==> TypeNamed(name) == Some(kind)
    ensures Names(name, ContentEdited) <==> name == "content_edited"
  {
  }

  lemma StartIsExact(t: Tables, op: Op)
    requires op.Start?
    ensures StartMeans(t, op.user, op.documentId, op.access, op.suffix, op.now, Apply(t, op),
                       if Failure(t, op).None? then Some(SessionId(op.user.id, op.documentId, op.suffix)) else None, Failure(t, op))
  {
  }

  lemma EndIsExact(t: Tables, op: Op)
    requires op.End?
    ensures EndMeans(t, op.user, op.sessionId, op.editsCount, op.now, Apply(t, op), Failure(t, op))
  {
    var i := First(s => IsOpenFor(s, op.sessionId, op.user.id), t.sessions);
    forall j: nat ensures IsOpenRow(t.sessions, op.sessionId, op.user.id, j) <==> j == i < |t.sessions| {
      OpenRowIff(t.sessions, op.sessionId, op.user.id, j);
    }
    hide IsOpenRow, IsOpenFor, First;
    if i < |t.sessions| {
      var span := op.now - t.sessions[i].startedAt;
      assert IsSeconds(span, Seconds(span));
      hide IsSeconds, Seconds;
      assert IsOpenRow(t.sessions, op.sessionId, op.user.id, i);
      assert Apply(t, op).activities == t.activities + [Activity(t.sessions[i].documentId, op.user.id, Some(op.sessionId), UserLeft,
                                                                 Left(op.user.username, Seconds(span), op.editsCount))];
    }
  }

  /** What naming a row and a kind comes to. */
  lemma LogNames(t: Tables, op: Op)
    requires op.Log?
    ensures forall kind :: Names(op.activityType, kind) <==> TypeNamed(op.activityType) == Some(kind)
    ensures TypeNamed(op.activityType) == Some(ContentEdited) <==> op.activityType == "content_edited"
    ensures op.session.Some? ==> forall j: nat ::
      IsRow(t.sessions, op.session.value, j) <==> j == First(s => HasId(s, op.session.value), t.sessions) < |t.sessions|
  {
    forall kind ensures Names(op.activityType, kind) <==> TypeNamed(op.activityType) == Some(kind) {
      NamesIff(op.activityType, kind);
    }
    NamesIff(op.activityType, ContentEdited);
    if op.session.Some? {
      forall j: nat ensures IsRow(t.sessions, op.session.value, j)
                            <==> j == First(s => HasId(s, op.session.value), t.sessions) < |t.sessions|
      {
        RowIff(t.sessions, op.session.value, j);
      }
    }
  }

  lemma LogFailsIff(t: Tables, op: Op)
    requires op.Log?
    ensures Failure(t, op) == None <==> (exists kind :: Names(op.activityType, kind)) && op.access == Readable
                                         && SessionFits(t.sessions, op.session, op.user.id, op.documentId)
    ensures Failure(t, op) != None ==>
      LogRefused(t, op.user, op.documentId, op.access, op.activityType, op.session, Failure(t, op).value)
  {
    hide IsRow, HasId, First, TypeNamed, Names;
    LogNames(t, op);
    if op.session.Some? {
      var i := First(s => HasId(s, op.session.value), t.sessions);
      assert i < |t.sessions| ==> IsRow(t.sessions, op.session.value, i);
    }
  }

  lemma LogIsExact(t: Tables, op: Op)
    requires op.Log?
    ensures LogMeans(t, op.user, op.documentId, op.access, op.activityType, op.details, op.session, op.now,
                     Apply(t, op), Failure(t, op))
  {
    hide IsRow, HasId, First, TypeNamed, Names, LogRefused, SessionFits, LogError;
    LogFailsIff(t, op);
    LogNames(t, op);
  }

  // ----- The manager -----

  class SessionManager {
    var sessions: seq<Session>
    var activities: seq<Activity>

    constructor ()
      ensures Stored() == Tables([], [])
    {
      sessions, activities := [], [];
    }

    function Stored(): Tables
      reads this
    {
      Tables(sessions, activities)
    }

    method FindFirst(p: Session -> bool) returns (i: nat)
      ensures i == First(p, sessions)
    {
      i := 0;
      while i < |sessions| && !p(sessions[i])
        invariant i <= |sessions|
        invariant First(p, sessions) == i + First(p, sessions[i..])
      {
        assert sessions[i..][1..] == sessions[i + 1..];
        i := i + 1;
      }
    }

    method StartCollaborationSession(user: User, documentId: nat, access: Access, suffix: string, now: Time)
      returns (result: Option<string>, error: Option<Error>)
      modifies this
      ensures Stored() == Apply(old(Stored()), Start(user, documentId, access, suffix, now))
      ensures error == Failure(old(Stored()), Start(user, documentId, access, suffix, now))
      ensures result == if error.None? then Some(SessionId(user.id, documentId, suffix)) else None
      ensures StartMeans(old(Stored()), user, documentId, access, suffix, now, Stored(), result, error)
    {
      hide StartMeans;
      StartIsExact(Stored(), Start(user, documentId, access, suffix, now));
      error := AccessError(access);
      if error.Some? {
        return None, error;
      }
      var sessionId := SessionId(user.id, documentId, suffix);
      sessions := sessions + [Session(documentId, user.id, sessionId, now, None, true, 0, now)];
      activities := activities +
        [Activity(documentId, user.id, Some(sessionId), UserJoined, Joined(user.username))];
      result := Some(sessionId);
    }

    method EndCollaborationSession(user: User, sessionId: string, editsCount: int, now: Time)
      returns (error: Option<Error>)
      modifies this
      ensures Stored() == Apply(old(Stored()), End(user, sessionId, editsCount, now))
      ensures error == Failure(old(Stored()), End(user, sessionId, editsCount, now))
      ensures EndMeans(old(Stored()), user, sessionId, editsCount, now, Stored(), error)
    {
      hide EndMeans;
      EndIsExact(Stored(), End(user, sessionId, editsCount, now));
      var i := FindFirst(s => IsOpenFor(s, sessionId, user.id));
      if i == |sessions| {
        return Some(NotFound("session"));
      }
      var session := sessions[i].(endedAt := Some(now));
      session := session.(isActive := false);
      session := session.(editsCount := editsCount);
      sessions := sessions[i := session];
      activities := activities +
        [Activity(session.documentId, user.id, Some(sessionId), UserLeft,
                  Left(user.username, Seconds(now - session.startedAt), editsCount))];
      error := None;
    }

    method LogActivity(user: User, documentId: nat, access: Access, activityType: string,
                       details: Option<string>, sessionId: Option<string>, now: Time)
      returns (error: Option<Error>)
      modifies this
      ensures Stored() == Apply(old(Stored()), Log(user, documentId, access, activityType, details, sessionId, now))
      ensures error == Failure(old(Stored()), Log(user, documentId, access, activityType, details, sessionId, now))
      ensures LogMeans(old(Stored()), user, documentId, access, activityType, details, sessionId, now, Stored(), error)
    {
      hide LogMeans;
      LogIsExact(Stored(), Log(user, documentId, access, activityType, details, sessionId, now));
      var kind := TypeNamed(activityType);
      if kind.None? {
        return Some(Invalid("activity type"));
      }
      error := AccessError(access);
      if error.Some? {
        return;
      }
      var i := |sessions|;
      if sessionId.Some? && sessionId.value != "" {
        i := FindFirst(s => HasId(s, sessionId.value));
        if i == |sessions| || !sessions[i].isActive {
          return Some(NotFound("session"));
        }
        if sessions[i].userId != user.id {
          return Some(PermissionDenied("session"));
        }
        if sessions[i].documentId != documentId {
          return Some(Invalid("session"));
        }
      }
      activities := activities + [Activity(documentId, user.id, sessionId, kind.value, Given(details))];
      if i < |sessions| {
        sessions := sessions[i := sessions[i].(lastActivityAt := now)];
        if kind.value == ContentEdited {
          sessions := sessions[i := sessions[i].(editsCount := sessions[i].editsCount + 1)];
        }
      }
    }
  }

  // ----- A session and the activities that carry its id -----

  function InSession(id: string): Activity -> Option<Activity> {
    (a: Activity) => if a.sessionId == Some(id) then Some(a) else None
  }

  function IsEdit(): Activity -> Option<Activity> {
    (a: Activity) => if a.kind == ContentEdited then Some(a) else None
  }

  function History(activities: seq<Activity>, id: string): seq<Activity> {
    FilterMap(InSession(id), activities)
  }

  function Edits(history: seq<Activity>): nat {
    |FilterMap(IsEdit(), history)|
  }

  /** What a session's row says of the activities with its id. While it is active its edit
      count is their number of edits; once ended, the last of them is its end, with the
      count and duration the row shows. All are by its user, on its document. */
  ghost predicate Tells(s: Session, history: seq<Activity>) {
    && s.sessionId != "" && (s.isActive <==> s.endedAt.None?)
    && (forall a <- history :: a.userId == s.userId && a.documentId == s.documentId)
    && history != [] && history[0].kind == UserJoined && history[0].details.Joined?
    && (s.isActive ==> s.editsCount == Edits(history))
    && (!s.isActive ==>
          history[|history| - 1].kind == UserLeft && history[|history| - 1].details.Left?
          && history[|history| - 1].details.editsCount == s.editsCount
          && history[|history| - 1].details.durationSeconds == Seconds(s.endedAt.value - s.startedAt))
  }

  ghost predicate DistinctIds(sessions: seq<Session>) {
    forall i, j | 0 <= i < j < |sessions| :: sessions[i].sessionId != sessions[j].sessionId
  }

  predicate HasSession(sessions: seq<Session>, id: string) {
    exists i | 0 <= i < |sessions| :: sessions[i].sessionId == id
  }

  ghost predicate Consistent(t: Tables) {
    && DistinctIds(t.sessions)
    && (forall s <- t.sessions :: Tells(s, History(t.activities, s.sessionId)))
    && (forall a <- t.activities | a.sessionId.Some? && a.sessionId.value != "" ::
          HasSession(t.sessions, a.sessionId.value))
  }

  lemma HistoryAppend(activities: seq<Activity>, a: Activity, id: string)
    ensures History(activities + [a], id) == History(activities, id) + (if a.sessionId == Some(id) then [a] else [])
  {
    FilterMapAppend(InSession(id), activities, a);
  }

  lemma EditsAppend(history: seq<Activity>, a: Activity)
    ensures Edits(history + [a]) == Edits(history) + (if a.kind == ContentEdited then 1 else 0)
  {
    FilterMapAppend(IsEdit(), history, a);
  }

  lemma NoHistory(t: Tables, id: string)
    requires Consistent(t) && !HasSession(t.sessions, id) && id != ""
    ensures History(t.activities, id) == []
  {
    FilterMapNone(InSession(id), t.activities);
  }

  /** A new row and its first activity, for an id no row has. */
  lemma AddedKeepsConsistent(t: Tables, s: Session, a: Activity)
    requires Consistent(t) && !HasSession(t.sessions, s.sessionId)
    requires a.sessionId == Some(s.sessionId) && s.sessionId != ""
    requires Tells(s, [a])
    ensures Consistent(Tables(t.sessions + [s], t.activities + [a]))
  {
    hide History, Tells;
    NoHistory(t, s.sessionId);
    var t' := Tables(t.sessions + [s], t.activities + [a]);
    forall s' | s' in t'.sessions
      ensures Tells(s', History(t'.activities, s'.sessionId))
    {
      HistoryAppend(t.activities, a, s'.sessionId);
      assert History(t.activities, s.sessionId) + [a] == [a];
      if s' in t.sessions {
        assert s'.sessionId != s.sessionId;
        assert History(t.activities, s'.sessionId) + [] == History(t.activities, s'.sessionId);
      }
    }
    forall b | b in t'.activities && b.sessionId.Some? && b.sessionId.value != ""
      ensures HasSession(t'.sessions, b.sessionId.value)
    {
      if b in t.activities {
        var i :| 0 <= i < |t.sessions| && t.sessions[i].sessionId == b.sessionId.value;
        assert t'.sessions[i].sessionId == b.sessionId.value;
      } else {
        assert t'.sessions[|t.sessions|].sessionId == b.sessionId.value;
      }
    }
  }

  /** A row rewritten, with one more activity under its id. */
  lemma ChangedKeepsConsistent(t: Tables, i: nat, s: Session, a: Activity)
    requires Consistent(t) && i < |t.sessions| && s.sessionId == t.sessions[i].sessionId
    requires a.sessionId == Some(s.sessionId)
    requires Tells(s, History(t.activities, s.sessionId) + [a])
    ensures Consistent(Tables(t.sessions[i := s], t.activities + [a]))
  {
    hide History, Tells;
    var t' := Tables(t.sessions[i := s], t.activities + [a]);
    forall j | 0 <= j < |t'.sessions|
      ensures Tells(t'.sessions[j], History(t'.activities, t'.sessions[j].sessionId))
    {
      HistoryAppend(t.activities, a, t'.sessions[j].sessionId);
      if j != i {
        assert t.sessions[j] in t.sessions;
        assert t.sessions[j].sessionId != s.sessionId;
        assert History(t.activities, t.sessions[j].sessionId) + [] == History(t.activities, t.sessions[j].sessionId);
      }
    }
    forall b | b in t'.activities && b.sessionId.Some? && b.sessionId.value != ""
      ensures HasSession(t'.sessions, b.sessionId.value)
    {
      if b in t.activities {
        var j :| 0 <= j < |t.sessions| && t.sessions[j].sessionId == b.sessionId.value;
        assert t'.sessions[j].sessionId == b.sessionId.value;
      } else {
        assert t'.sessions[i].sessionId == b.sessionId.value;
      }
    }
  }

  /** An activity outside any session. */
  lemma LooseKeepsConsistent(t: Tables, a: Activity)
    requires Consistent(t) && (a.sessionId.None? || a.sessionId.value == "")
    ensures Consistent(Tables(t.sessions, t.activities + [a]))
  {
    assert forall s <- t.sessions :: s.sessionId != "";
    hide History, Tells;
    forall s | s in t.sessions
      ensures Tells(s, History(t.activities + [a], s.sessionId))
    {
      HistoryAppend(t.activities, a, s.sessionId);
      assert History(t.activities, s.sessionId) + [] == History(t.activities, s.sessionId);
    }
  }

  /** The id a start creates is not one that a session already has. */
  predicate Fresh(t: Tables, op: Op) {
    op.Start? && Failure(t, op).None? ==> !HasSession(t.sessions, SessionId(op.user.id, op.documentId, op.suffix))
  }

  lemma TouchedTells(s: Session, history: seq<Activity>, kind: ActivityType, now: Time, a: Activity)
    requires Tells(s, history) && s.isActive
    requires a.kind == kind && a.userId == s.userId && a.documentId == s.documentId
    ensures Tells(Touched(s, kind, now), history + [a])
  {
    EditsAppend(history, a);
  }

  lemma EndedTells(s: Session, history: seq<Activity>, edits: int, now: Time, a: Activity)
    requires Tells(s, history) && s.isActive
    requires a.kind == UserLeft && a.userId == s.userId && a.documentId == s.documentId
    requires a.details.Left? && a.details.editsCount == edits && a.details.durationSeconds == Seconds(now - s.startedAt)
    ensures Tells(s.(endedAt := Some(now), isActive := false, editsCount := edits), history + [a])
  {
  }

  lemma TellsItsHistory(t: Tables, i: nat)
    requires Consistent(t) && i < |t.sessions|
    ensures Tells(t.sessions[i], History(t.activities, t.sessions[i].sessionId))
  {
    hide Tells, History;
    assert t.sessions[i] in t.sessions;
  }

  lemma JoinedTells(s: Session, a: Activity)
    requires s.sessionId != "" && s.isActive && s.endedAt.None? && s.editsCount == 0
    requires a.kind == UserJoined && a.details.Joined? && a.userId == s.userId && a.documentId == s.documentId
    ensures Tells(s, [a])
  {
    FilterMapOne(IsEdit(), a);
  }

  lemma StartKeepsConsistent(t: Tables, op: Op)
    requires Consistent(t) && Fresh(t, op) && op.Start? && Failure(t, op).None?
    ensures Consistent(Apply(t, op))
  {
    hide Consistent, History, Tells, Edits, Decimal.Print;
    var s := Session(op.documentId, op.user.id, SessionId(op.user.id, op.documentId, op.suffix), op.now, None, true, 0, op.now);
    var a := Activity(op.documentId, op.user.id, Some(s.sessionId), UserJoined, Joined(op.user.username));
    assert s.sessionId[0] == 'c';
    hide SessionId;
    JoinedTells(s, a);
    AddedKeepsConsistent(t, s, a);
  }

  lemma EndKeepsConsistent(t: Tables, op: Op)
    requires Consistent(t) && op.End? && Failure(t, op).None?
    ensures Consistent(Apply(t, op))
  {
    hide Consistent, History, Tells;
    var i := First(s => IsOpenFor(s, op.sessionId, op.user.id), t.sessions);
    var s := t.sessions[i];
    TellsItsHistory(t, i);
    var a := Activity(s.documentId, op.user.id, Some(op.sessionId), UserLeft,
                      Left(op.user.username, Seconds(op.now - s.startedAt), op.editsCount));
    EndedTells(s, History(t.activities, s.sessionId), op.editsCount, op.now, a);
    ChangedKeepsConsistent(t, i, s.(endedAt := Some(op.now), isActive := false, editsCount := op.editsCount), a);
  }

  lemma LogKeepsConsistent(t: Tables, op: Op)
    requires Consistent(t) && op.Log? && Failure(t, op).None?
    ensures Consistent(Apply(t, op))
  {
    hide Consistent, History, Tells, TypeNamed;
    var kind := TypeNamed(op.activityType).value;
    var a := Activity(op.documentId, op.user.id, op.session, kind, Given(op.details));
    if op.session.None? || op.session.value == "" {
      LooseKeepsConsistent(t, a);
    } else {
      var i := First(s => HasId(s, op.session.value), t.sessions);
      var s := t.sessions[i];
      TellsItsHistory(t, i);
      TouchedTells(s, History(t.activities, s.sessionId), kind, op.now, a);
      ChangedKeepsConsistent(t, i, Touched(s, kind, op.now), a);
    }
  }

  /** Every request keeps the two tables consistent. */
  lemma StepKeepsConsistent(t: Tables, op: Op)
    requires Consistent(t) && Fresh(t, op)
    ensures Consistent(Apply(t, op))
  {
    if Failure(t, op).None? {
      hide *;
      match op
      case Start(_, _, _, _, _) => StartKeepsConsistent(t, op);
      case End(_, _, _, _) => EndKeepsConsistent(t, op);
      case Log(_, _, _, _, _, _, _) => LogKeepsConsistent(t, op);
    }
  }

  // ----- Whole runs -----

  function Run(ops: seq<Op>): Tables {
    if ops == [] then Tables([], []) else Apply(Run(ops[..|ops| - 1]), ops[|ops| - 1])
  }

  predicate SameStart(a: Op, b: Op)
    requires a.Start? && b.Start?
  {
    a.user.id == b.user.id && a.documentId == b.documentId && a.suffix == b.suffix
  }

  /** No start repeats the digits of an earlier one by the same user on the same document. */
  ghost predicate FreshSuffixes(ops: seq<Op>) {
    forall i, j | 0 <= i < j < |ops| && ops[i].Start? && ops[j].Start? :: !SameStart(ops[i], ops[j])
  }

  lemma {:induction false} UnderscoreSplits(a: string, b: string, a': string, b': string)
    requires Decimal.AllDigits(a) && Decimal.AllDigits(a')
    requires a + "_" + b == a' + "_" + b'
    ensures a == a' && b == b'
  {
    Decimal.DigitRunOf(a, "_" + b);
    Decimal.DigitRunOf(a', "_" + b');
    assert a + ("_" + b) == a + "_" + b && a' + ("_" + b') == a' + "_" + b';
    assert a == (a + "_" + b)[..|a|] && a' == (a' + "_" + b')[..|a'|];
    assert b == (a + "_" + b)[|a| + 1..] && b' == (a' + "_" + b')[|a'| + 1..];
  }

  lemma {:induction false} SessionIdTail(u: nat, d: nat, x: string)
    ensures SessionId(u, d, x)[7..] == Decimal.Print(u) + "_" + (Decimal.Print(d) + "_" + x)
  {
    hide Decimal.Print;
  }

  /** Session ids show whose session on which document they name. */
  lemma SessionIdInjective(u: nat, d: nat, x: string, u': nat, d': nat, x': string)
    requires SessionId(u, d, x) == SessionId(u', d', x')
    ensures u == u' && d == d' && x == x'
  {
    SessionIdTail(u, d, x);
    SessionIdTail(u', d', x');
    hide SessionId, Decimal.Print;
    UnderscoreSplits(Decimal.Print(u), Decimal.Print(d) + "_" + x, Decimal.Print(u'), Decimal.Print(d') + "_" + x');
    UnderscoreSplits(Decimal.Print(d), x, Decimal.Print(d'), x');
    Decimal.PrintInjective(u, u');
    Decimal.PrintInjective(d, d');
  }

  predicate StartedAs(op: Op, s: Session) {
    op.Start? && s.sessionId == SessionId(op.user.id, op.documentId, op.suffix)
  }

  /** Every session row came from a start of the run. */
  lemma {:induction false} SessionsWereStarted(ops: seq<Op>, i: nat)
    requires i < |Run(ops).sessions|
    ensures exists k :: 0 <= k < |ops| && StartedAs(ops[k], Run(ops).sessions[i])
  {
    var before, op := ops[..|ops| - 1], ops[|ops| - 1];
    if i < |Run(before).sessions| {
      SessionsWereStarted(before, i);
      var k :| 0 <= k < |before| && StartedAs(before[k], Run(before).sessions[i]);
      assert StartedAs(ops[k], Run(ops).sessions[i]);
    } else {
      assert StartedAs(ops[|ops| - 1], Run(ops).sessions[i]);
    }
  }

  lemma LastIsFresh(ops: seq<Op>)
    requires ops != [] && FreshSuffixes(ops)
    ensures Fresh(Run(ops[..|ops| - 1]), ops[|ops| - 1])
  {
    var before, op := ops[..|ops| - 1], ops[|ops| - 1];
    if op.Start? && HasSession(Run(before).sessions, SessionId(op.user.id, op.documentId, op.suffix)) {
      var i :| 0 <= i < |Run(before).sessions|
               && Run(before).sessions[i].sessionId == SessionId(op.user.id, op.documentId, op.suffix);
      SessionsWereStarted(before, i);
      var k :| 0 <= k < |before| && StartedAs(before[k], Run(before).sessions[i]);
      SessionIdInjective(op.user.id, op.documentId, op.suffix,
                         before[k].user.id, before[k].documentId, before[k].suffix);
      assert SameStart(ops[k], ops[|ops| - 1]);
    }
  }

  /** In every run without repeated suffixes, an active session's count is its number of
      edits, an ended session's last activity is its end, and every activity that carries
      a session id agrees with that session's user and document. */
  lemma {:induction false} RunIsConsistent(ops: seq<Op>)
    requires FreshSuffixes(ops)
    ensures Consistent(Run(ops))
  {
    if ops != [] {
      RunIsConsistent(ops[..|ops| - 1]);
      LastIsFresh(ops);
      StepKeepsConsistent(Run(ops[..|ops| - 1]), ops[|ops| - 1]);
    }
  }

  // ----- An ended session is final -----

  lemma EndedStepIsFinal(t: Tables, op: Op, i: nat)
    requires Consistent(t) && Fresh(t, op)
    requires i < |t.sessions| && !t.sessions[i].isActive
    ensures i < |Apply(t, op).sessions| && Apply(t, op).sessions[i] == t.sessions[i]
    ensures History(Apply(t, op).activities, t.sessions[i].sessionId) == History(t.activities, t.sessions[i].sessionId)
  {
    hide History, TypeNamed, SessionId;
    var id := t.sessions[i].sessionId;
    var t' := Apply(t, op);
    assert t.sessions[i] in t.sessions;
    if t' != t {
      var a := t'.activities[|t.activities|];
      assert t'.activities == t.activities + [a];
      HistoryAppend(t.activities, a, id);
      assert a.sessionId != Some(id);
    }
  }

  /** Once a session has ended, nothing a later request does changes its row or the
      activities that carry its id. */
  lemma {:induction false} EndedIsFinal(ops: seq<Op>, more: seq<Op>, i: nat)
    requires FreshSuffixes(ops + more)
    requires i < |Run(ops).sessions| && !Run(ops).sessions[i].isActive
    ensures i < |Run(ops + more).sessions| && Run(ops + more).sessions[i] == Run(ops).sessions[i]
    ensures History(Run(ops + more).activities, Run(ops).sessions[i].sessionId)
            == History(Run(ops).activities, Run(ops).sessions[i].sessionId)
  {
    hide History, Apply;
    if more == [] {
      assert ops + more == ops;
    } else {
      var n := |more| - 1;
      var all := ops + more;
      assert all[..|all| - 1] == ops + more[..n] && all[|all| - 1] == more[n];
      EndedIsFinal(ops, more[..n], i);
      RunIsConsistent(ops + more[..n]);
      LastIsFresh(all);
      EndedStepIsFinal(Run(ops + more[..n]), more[n], i);
    }
  }

  /** Freshness is exactly what a request needs: a start that repeats an id leaves two rows
      with that id, and the new one shows no edits however many the id already has. */
  lemma ConsistentIffFresh(t: Tables, op: Op)
    requires Consistent(t)
    ensures Consistent(Apply(t, op)) <==> Fresh(t, op)
    ensures !Fresh(t, op) ==>
              var id := SessionId(op.user.id, op.documentId, op.suffix);
              var t' := Apply(t, op);
              && HasSession(t.sessions, id) && t'.sessions[|t.sessions|].sessionId == id
              && t'.sessions[|t.sessions|].isActive && t'.sessions[|t.sessions|].editsCount == 0
              && Edits(History(t'.activities, id)) == Edits(History(t.activities, id))
  {
    if Fresh(t, op) {
      StepKeepsConsistent(t, op);
    } else {
      hide History, Edits, Tells, SessionId;
      var id := SessionId(op.user.id, op.documentId, op.suffix);
      var t' := Apply(t, op);
      var i :| 0 <= i < |t.sessions| && t.sessions[i].sessionId == id;
      assert t'.sessions[i].sessionId == t'.sessions[|t.sessions|].sessionId;
      var joined := Activity(op.documentId, op.user.id, Some(id), UserJoined, Joined(op.user.username));
      HistoryAppend(t.activities, joined, id);
      EditsAppend(History(t.activities, id), joined);
    }
  }

  // ----- The activity feed -----

  function OnDocument(documentId: nat): Activity -> Option<Activity> {
    (a: Activity) => if a.documentId == documentId then Some(a) else None
  }

  /** A document's activities in the order they were added. */
  function Logged(activities: seq<Activity>, documentId: nat): seq<Activity> {
    FilterMap(OnDocument(documentId), activities)
  }

  /** The rows the feed is read from, newest first. */
  function Feed(activities: seq<Activity>, documentId: nat): seq<Activity> {
    if activities == [] then []
    else
      var last := activities[|activities| - 1];
      (if last.documentId == documentId then [last] else []) + Feed(activities[..|activities| - 1], documentId)
  }

  function Reversed<T>(s: seq<T>): (r: seq<T>)
    ensures |r| == |s| && forall i | 0 <= i < |s| :: r[i] == s[|s| - 1 - i]
  {
    seq(|s|, i requires 0 <= i < |s| => s[|s| - 1 - i])
  }

  lemma ReversedAppend<T>(s: seq<T>, x: T)
    ensures Reversed(s + [x]) == [x] + Reversed(s)
    ensures Reversed(s + []) == [] + Reversed(s)
  {
    assert s + [] == s;
  }

  /** The feed holds exactly the document's activities, each once, the last first. */
  lemma {:induction false} FeedIsReversed(activities: seq<Activity>, documentId: nat)
    ensures Feed(activities, documentId) == Reversed(Logged(activities, documentId))
  {
    if activities != [] {
      var n := |activities| - 1;
      var last := activities[n];
      FeedIsReversed(activities[..n], documentId);
      FilterMapAppend(OnDocument(documentId), activities[..n], last);
      assert activities[..n] + [last] == activities;
      hide Reversed;
      ReversedAppend(Logged(activities[..n], documentId), last);
    }
  }

  lemma {:induction false} FeedGrows(activities: seq<Activity>, more: seq<Activity>, documentId: nat)
    ensures Feed(activities + more, documentId) == Feed(more, documentId) + Feed(activities, documentId)
  {
    var all := activities + more;
    if more == [] {
      assert all == activities;
    } else {
      var n := |more| - 1;
      assert all[..|all| - 1] == activities + more[..n] && all[|all| - 1] == more[n];
      FeedGrows(activities, more[..n], documentId);
      var first := if more[n].documentId == documentId then [more[n]] else [];
      assert first + (Feed(more[..n], documentId) + Feed(activities, documentId))
          == first + Feed(more[..n], documentId) + Feed(activities, documentId);
    }
  }

  function Min(a: nat, b: nat): nat {
    if a <= b then a else b
  }

  function Page(feed: seq<Activity>, offset: nat, limit: nat): seq<Activity> {
    feed[Min(offset, |feed|)..Min(offset + limit, |feed|)]
  }

  predicate HasMore(feed: seq<Activity>, offset: nat, limit: nat) {
    offset + limit < |feed|
  }

  function RunOn(t: Tables, ops: seq<Op>): Tables
    decreases |ops|
  {
    if ops == [] then t else RunOn(Apply(t, ops[0]), ops[1..])
  }

  /** The tables at the next page, after the requests made since the last one. */
  function Meanwhile(t: Tables, gaps: seq<seq<Op>>): Tables {
    if gaps == [] then t else RunOn(t, gaps[0])
  }

  function Later(gaps: seq<seq<Op>>): seq<seq<Op>> {
    if gaps == [] then [] else gaps[1..]
  }

  /** All that is shown when pages are read from `offset` on for as long as there is more,
      while others make the requests of the `gaps` between them. */
  function ReadOn(t: Tables, documentId: nat, offset: nat, limit: nat, gaps: seq<seq<Op>>): seq<Activity>
    requires limit > 0
    decreases |gaps|, |Feed(t.activities, documentId)| - offset
  {
    var feed := Feed(t.activities, documentId);
    Page(feed, offset, limit)
    + (if HasMore(feed, offset, limit)
       then ReadOn(Meanwhile(t, gaps), documentId, offset + limit, limit, Later(gaps))
       else [])
  }

  /** The tables when the last of these pages is read. */
  function AtLastPage(t: Tables, documentId: nat, offset: nat, limit: nat, gaps: seq<seq<Op>>): Tables
    requires limit > 0
    decreases |gaps|, |Feed(t.activities, documentId)| - offset
  {
    if HasMore(Feed(t.activities, documentId), offset, limit)
    then AtLastPage(Meanwhile(t, gaps), documentId, offset + limit, limit, Later(gaps))
    else t
  }

  lemma ApplyAppends(t: Tables, op: Op) returns (more: seq<Activity>)
    ensures Apply(t, op).activities == t.activities + more
  {
    hide TypeNamed, SessionId, Seconds;
    more := if Apply(t, op) == t then [] else [Apply(t, op).activities[|t.activities|]];
  }

  lemma {:induction false} RunOnAppends(t: Tables, ops: seq<Op>) returns (more: seq<Activity>)
    ensures RunOn(t, ops).activities == t.activities + more
    decreases |ops|
  {
    if ops == [] {
      more := [];
    } else {
      var first := ApplyAppends(t, ops[0]);
      var rest := RunOnAppends(Apply(t, ops[0]), ops[1..]);
      more := first + rest;
    }
  }

  /** The feed of later tables goes on where it began. */
  lemma FeedIsKept(t: Tables, gaps: seq<seq<Op>>, documentId: nat) returns (newer: seq<Activity>)
    ensures Feed(Meanwhile(t, gaps).activities, documentId) == newer + Feed(t.activities, documentId)
    ensures gaps == [] ==> newer == []
  {
    if gaps == [] {
      newer := [];
    } else {
      var more := RunOnAppends(t, gaps[0]);
      FeedGrows(t.activities, more, documentId);
      newer := Feed(more, documentId);
    }
  }

  lemma ShiftedRest(feed: seq<Activity>, newer: seq<Activity>, n: nat)
    requires n <= |feed|
    ensures n <= |newer + feed| && |(newer + feed)[n..]| == |newer| + |feed[n..]|
    ensures multiset(feed[n..]) <= multiset((newer + feed)[n..])
  {
    var all := newer + feed;
    var from := |newer| + n;
    assert all[from..] == feed[n..];
    assert all[n..] == all[n..from] + all[from..];
  }

  lemma PageThenRest(feed: seq<Activity>, offset: nat, limit: nat)
    requires HasMore(feed, offset, limit)
    ensures Page(feed, offset, limit) == feed[offset..offset + limit]
    ensures feed[offset..] == feed[offset..offset + limit] + feed[offset + limit..]
  {
  }

  /** The feed has grown at its head to `last`, and from `offset` on `read` misses no entry of
      it and shows as many entries too many as came in: it is the feed as it was, each entry
      once and in order, if and only if none came in. */
  ghost predicate ShownAs(feed: seq<Activity>, offset: nat, last: seq<Activity>, read: seq<Activity>) {
    && offset <= |feed| <= |last| && last[|last| - |feed|..] == feed
    && |read| == |feed[offset..]| + (|last| - |feed|)
    && multiset(feed[offset..]) <= multiset(read)
    && (read == feed[offset..] <==> |last| == |feed|)
  }

  /** What is shown later comes after a page of what was there, `newer` entries further down. */
  lemma PageAndLater(feed: seq<Activity>, newer: seq<Activity>, n: nat, page: seq<Activity>,
                     last: seq<Activity>, later: seq<Activity>, offset: nat)
    requires offset <= n <= |feed| && feed[offset..] == page + feed[n..]
    requires ShownAs(newer + feed, n, last, later)
    ensures ShownAs(feed, offset, last, page + later)
  {
    var all := newer + feed;
    ShiftedRest(feed, newer, n);
    assert all[|newer|..] == feed;
    assert last[|last| - |feed|..] == last[|last| - |all|..][|newer|..];
    assert multiset(page + feed[n..]) == multiset(page) + multiset(feed[n..]);
    assert multiset(page + later) == multiset(page) + multiset(later);
    if |last| == |feed| {
      assert newer == [] && all == feed;
    }
  }

  lemma LastPage(feed: seq<Activity>, offset: nat, limit: nat)
    requires offset <= |feed| && !HasMore(feed, offset, limit)
    ensures ShownAs(feed, offset, feed, Page(feed, offset, limit) + [])
  {
    assert Page(feed, offset, limit) + [] == feed[offset..];
  }

  /** Reading on while others make requests shows the feed as it was at the first page, each
      entry once, if and only if no activity of the document comes in before the last page.
      What comes in makes entries show up again; none is missed. */
  lemma {:induction false} PagesWhileLogging(t: Tables, documentId: nat, offset: nat, limit: nat, gaps: seq<seq<Op>>)
    requires limit > 0 && offset <= |Feed(t.activities, documentId)|
    ensures ShownAs(Feed(t.activities, documentId), offset,
                    Feed(AtLastPage(t, documentId, offset, limit, gaps).activities, documentId),
                    ReadOn(t, documentId, offset, limit, gaps))
    decreases |gaps|, |Feed(t.activities, documentId)| - offset
  {
    hide Feed, Meanwhile, ShownAs, Page;
    var feed := Feed(t.activities, documentId);
    if HasMore(feed, offset, limit) {
      var next := Meanwhile(t, gaps);
      var newer := FeedIsKept(t, gaps, documentId);
      PageThenRest(feed, offset, limit);
      PagesWhileLogging(next, documentId, offset + limit, limit, Later(gaps));
      PageAndLater(feed, newer, offset + limit, Page(feed, offset, limit),
                   Feed(AtLastPage(next, documentId, offset + limit, limit, Later(gaps)).activities, documentId),
                   ReadOn(next, documentId, offset + limit, limit, Later(gaps)), offset);
    } else {
      LastPage(feed, offset, limit);
    }
  }

  lemma {:induction false} NothingLogged(t: Tables, documentId: nat, offset: nat, limit: nat)
    requires limit > 0
    ensures AtLastPage(t, documentId, offset, limit, []) == t
    decreases |Feed(t.activities, documentId)| - offset
  {
    if HasMore(Feed(t.activities, documentId), offset, limit) {
      NothingLogged(t, documentId, offset + limit, limit);
    }
  }

  /** After any run, following `has_more` from the start shows exactly the document's
      activities, each once, the last first, whatever the page size above zero. */
  lemma {:induction false} PagesCoverTheFeed(ops: seq<Op>, documentId: nat, limit: nat)
    requires limit > 0
    ensures ReadOn(Run(ops), documentId, 0, limit, []) == Reversed(Logged(Run(ops).activities, documentId))
  {
    var t := Run(ops);
    hide ReadOn, AtLastPage, Reversed, Feed, Run;
    FeedIsReversed(t.activities, documentId);
    PagesWhileLogging(t, documentId, 0, limit, []);
    NothingLogged(t, documentId, 0, limit);
    assert Feed(t.activities, documentId)[0..] == Feed(t.activities, documentId);
  }

  /** One activity logged between two page reads makes the second page begin with the entry
      that ended the first. */
  lemma {:induction false} LoggedBetweenRepeats(activities: seq<Activity>, a: Activity, documentId: nat, offset: nat, limit: nat)
    requires a.documentId == documentId && limit > 0
    requires HasMore(Feed(activities, documentId), offset, limit)
    ensures var before := Page(Feed(activities, documentId), offset, limit);
            var after := Page(Feed(activities + [a], documentId), offset + limit, limit);
            |before| == limit && after != [] && after[0] == before[limit - 1]
  {
    var feed := Feed(activities, documentId);
    FeedGrows(activities, [a], documentId);
    assert [a][..0] == [];
    assert Feed([a], documentId) == [a] + Feed([], documentId);
    hide Feed;
    assert Feed(activities + [a], documentId) == [a] + feed;
  }

  // ----- A page size of zero -----

  function OffsetAfter(offset: nat, limit: nat, pages: nat): nat
    decreases pages
  {
    if pages == 0 then offset else OffsetAfter(offset + limit, limit, pages - 1)
  }

  lemma {:induction false} OffsetGrows(offset: nat, limit: nat, pages: nat)
    ensures limit == 0 ==> OffsetAfter(offset, limit, pages) == offset
    ensures limit > 0 ==> OffsetAfter(offset, limit, pages) >= offset + pages
    decreases pages
  {
    if pages > 0 {
      OffsetGrows(offset + limit, limit, pages - 1);
    }
  }

  /** Following `has_more` comes to an end if and only if the page size is above zero or
      nothing was left to begin with: pages of size zero are empty and there is always more. */
  lemma ReadingEndsIff(feed: seq<Activity>, offset: nat, limit: nat)
    ensures (exists pages: nat :: !HasMore(feed, OffsetAfter(offset, limit, pages), limit))
            <==> limit > 0 || offset >= |feed|
    ensures limit == 0 ==> forall pages: nat :: Page(feed, OffsetAfter(offset, limit, pages), limit) == []
  {
    forall pages: nat
      ensures limit == 0 ==> OffsetAfter(offset, limit, pages) == offset
    {
      OffsetGrows(offset, limit, pages);
    }
    if limit > 0 {
      OffsetGrows(offset, limit, |feed|);
      assert !HasMore(feed, OffsetAfter(offset, limit, |feed|), limit);
    } else if offset >= |feed| {
      assert !HasMore(feed, OffsetAfter(offset, limit, 0), limit);
    }
  }
}
