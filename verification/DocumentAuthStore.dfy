/** Tokens of the connections to each document (`documentAuthStore.ts`): the store, and
    what it holds in terms of the calls made so far. */
module DocumentAuthStore {
  import opened Options
  import opened OrderedMap

  type DocId = string
  type ConnId = string

  /** A token and the document its payload names; only a non-empty one decodes. */
  datatype RawToken = RawToken(text: string, claim: Option<DocId>)
  type Token = t: RawToken | t.claim.Some? ==> t.text != "" witness RawToken("", None)

  /** Connections keep the order they were added in. */
  datatype AuthState = AuthState(tokens: OMap<ConnId, Token>, writers: seq<ConnId>, lastAccess: int)

  type Store = map<DocId, AuthState>

  const AUTH_TTL_MS := 60 * 60 * 1000

  // ----- One call -----

  datatype Op =
    | Register(doc: DocId, conn: ConnId, token: Token, write: bool, now: int)
    | Unregister(doc: DocId, conn: ConnId)
    | ReadToken(doc: DocId, now: int)
    | Sweep(now: int)
    | Clear(doc: DocId)

  function Added(writers: seq<ConnId>, c: ConnId): seq<ConnId> {
    if c in writers then writers else writers + [c]
  }

  function Registered(s: AuthState, op: Op): AuthState
    requires op.Register?
  {
    AuthState(s.tokens.Set(op.conn, op.token),
              if op.write then Added(s.writers, op.conn) else Without(s.writers, op.conn), op.now)
  }

  predicate Stale(s: AuthState, now: int) {
    now - s.lastAccess > AUTH_TTL_MS
  }

  /** The store after a call; registering a token for another document is refused. */
  function Apply(store: Store, op: Op): Store {
    match op
    case Register(d, c, t, w, now) =>
      if t.claim != Some(d) then store
      else store[d := Registered(if d in store then store[d] else AuthState(OMap([], map[]), [], now), op)]
    case Unregister(d, c) =>
      if d !in store then store
      else
        var tokens := store[d].tokens.Delete(c);
        if |tokens.keys| == 0 then store - {d}
        else store[d := store[d].(tokens := tokens, writers := Without(store[d].writers, c))]
    case ReadToken(d, now) =>
      if d in store then store[d := store[d].(lastAccess := now)] else store
    case Sweep(now) => map d | d in store && !Stale(store[d], now) :: store[d]
    case Clear(d) => store - {d}
  }

  function WriteToken(s: AuthState): Option<Token> {
    FirstWithToken(s, s.writers)
  }

  function FirstWithToken(s: AuthState, writers: seq<ConnId>): Option<Token> {
    if writers == [] then None
    else if writers[0] in s.tokens.vals && s.tokens.vals[writers[0]].text != "" then Some(s.tokens.vals[writers[0]])
    else FirstWithToken(s, writers[1..])
  }

  function FirstToken(s: AuthState): Option<Token> {
    if s.tokens.keys != [] && s.tokens.keys[0] in s.tokens.vals then Some(s.tokens.vals[s.tokens.keys[0]]) else None
  }

  function StoreToken(store: Store, d: DocId): Option<Token> {
    if d in store then WriteToken(store[d]) else None
  }

  function LoadToken(store: Store, d: DocId): Option<Token> {
    if d !in store then None
    else if WriteToken(store[d]).Some? then WriteToken(store[d])
    else FirstToken(store[d])
  }

  // ----- The module's state -----

  class Module {
    var documentAuth: Store

    constructor ()
      ensures documentAuth == map[]
    {
      documentAuth := map[];
    }

    /** Fails, changing nothing, when the token names another document. */
    method RegisterConnection(documentId: DocId, connectionId: ConnId, token: Token, writeCapable: bool, now: int)
      returns (ok: bool)
      modifies this
      ensures ok <==> token.claim == Some(documentId)
      ensures documentAuth == Apply(old(documentAuth), Register(documentId, connectionId, token, writeCapable, now))
    {
      hide Added, Without;
      if token.claim != Some(documentId) {
        return false;
      }
      if documentId !in documentAuth {
        documentAuth := documentAuth[documentId := AuthState(OMap([], map[]), [], now)];
      }
      var state := documentAuth[documentId].(lastAccess := now);
      state := state.(tokens := state.tokens.Set(connectionId, token));
      if writeCapable {
        state := state.(writers := Added(state.writers, connectionId));
      } else {
        state := state.(writers := Without(state.writers, connectionId));
      }
      documentAuth := documentAuth[documentId := state];
      ok := true;
    }

    method UnregisterConnection(documentId: DocId, connectionId: ConnId) returns (remaining: nat)
      modifies this
      ensures documentAuth == Apply(old(documentAuth), Unregister(documentId, connectionId))
      ensures remaining == if documentId in documentAuth then |documentAuth[documentId].tokens.keys| else 0
    {
      if documentId !in documentAuth {
        return 0;
      }
      var state := documentAuth[documentId];
      state := AuthState(state.tokens.Delete(connectionId), Without(state.writers, connectionId), state.lastAccess);
      remaining := |state.tokens.keys|;
      if remaining == 0 {
        documentAuth := documentAuth - {documentId};
      } else {
        documentAuth := documentAuth[documentId := state];
      }
    }

    method TokenForLoad(documentId: DocId, now: int) returns (token: Option<Token>)
      modifies this
      ensures documentAuth == Apply(old(documentAuth), ReadToken(documentId, now))
      ensures token == LoadToken(old(documentAuth), documentId)
    {
      if documentId !in documentAuth {
        return None;
      }
      var state := documentAuth[documentId];
      documentAuth := documentAuth[documentId := state.(lastAccess := now)];
      token := FindWriteToken(state);
      if token.None? {
        token := FirstToken(state);
      }
    }

    method TokenForStore(documentId: DocId, now: int) returns (token: Option<Token>)
      modifies this
      ensures documentAuth == Apply(old(documentAuth), ReadToken(documentId, now))
      ensures token == StoreToken(old(documentAuth), documentId)
    {
      if documentId !in documentAuth {
        return None;
      }
      var state := documentAuth[documentId];
      documentAuth := documentAuth[documentId := state.(lastAccess := now)];
      token := FindWriteToken(state);
    }

    method FindWriteToken(state: AuthState) returns (token: Option<Token>)
      ensures token == WriteToken(state)
    {
      for i := 0 to |state.writers|
        invariant WriteToken(state) == FirstWithToken(state, state.writers[i..])
      {
        var connectionId := state.writers[i];
        assert state.writers[i..][1..] == state.writers[i + 1..];
        if connectionId in state.tokens.vals && state.tokens.vals[connectionId].text != "" {
          return Some(state.tokens.vals[connectionId]);
        }
      }
      return None;
    }

    method SweepStaleEntries(now: int)
      modifies this
      ensures documentAuth == Apply(old(documentAuth), Sweep(now))
    {
      var pending := documentAuth.Keys;
      ghost var before := documentAuth;
      while pending != {}
        invariant pending <= before.Keys
        invariant documentAuth == map d | d in before && (d in pending || !Stale(before[d], now)) :: before[d]
        decreases pending
      {
        var d :| d in pending;
        pending := pending - {d};
        if Stale(documentAuth[d], now) {
          documentAuth := documentAuth - {d};
        }
      }
    }

    method ClearDocumentAuth(documentId: DocId)
      modifies this
      ensures documentAuth == Apply(old(documentAuth), Clear(documentId))
    {
      documentAuth := documentAuth - {documentId};
    }
  }

  // ----- What the calls so far say -----

  function Run(ops: seq<Op>): Store {
    if ops == [] then map[] else Apply(Run(ops[..|ops| - 1]), ops[|ops| - 1])
  }

  /** When the document was last registered for or read: only these touch it. */
  function LastTouch(ops: seq<Op>, d: DocId): int {
    if ops == [] then 0
    else
      var last := ops[|ops| - 1];
      if last.Register? && last.doc == d && last.token.claim == Some(d) then last.now
      else if last.ReadToken? && last.doc == d then last.now
      else LastTouch(ops[..|ops| - 1], d)
  }

  /** The registration of a connection that still stands: its latest accepted one, with
      no unregistering, clearing or sweeping away since. */
  function Standing(ops: seq<Op>, d: DocId, c: ConnId): Option<(Token, bool)> {
    if ops == [] then None
    else
      var before, last := ops[..|ops| - 1], ops[|ops| - 1];
      match last
      case Register(d', c', t, w, _) =>
        if d' == d && c' == c && t.claim == Some(d) then Some((t, w)) else Standing(before, d, c)
      case Unregister(d', c') => if d' == d && c' == c then None else Standing(before, d, c)
      case ReadToken(_, _) => Standing(before, d, c)
      case Sweep(now) => if now - LastTouch(before, d) > AUTH_TTL_MS then None else Standing(before, d, c)
      case Clear(d') => if d' == d then None else Standing(before, d, c)
  }

  /** A tracked document's state says exactly what stands, and some connection stands. */
  ghost predicate Describes(ops: seq<Op>, d: DocId, s: AuthState) {
    && s.tokens.Valid() && s.tokens.keys != [] && Distinct(s.writers)
    && s.lastAccess == LastTouch(ops, d)
    && (forall c :: c in s.tokens.vals <==> Standing(ops, d, c).Some?)
    && (forall c | c in s.tokens.vals :: Standing(ops, d, c).value.0 == s.tokens.vals[c] && s.tokens.vals[c].claim == Some(d))
    && (forall c :: c in s.writers <==> Standing(ops, d, c).Some? && Standing(ops, d, c).value.1)
  }

  ghost predicate Explained(ops: seq<Op>) {
    && (forall d | d in Run(ops) :: Describes(ops, d, Run(ops)[d]))
    && (forall d, c | d !in Run(ops) :: Standing(ops, d, c) == None)
  }

  function Before(ops: seq<Op>): seq<Op>
    requires ops != []
  {
    ops[..|ops| - 1]
  }

  function Last(ops: seq<Op>): Op
    requires ops != []
  {
    ops[|ops| - 1]
  }

  lemma AddedMembers(writers: seq<ConnId>, c: ConnId)
    requires Distinct(writers)
    ensures Distinct(Added(writers, c))
    ensures forall x :: x in Added(writers, c) <==> x in writers || x == c
  {
  }

  lemma {:induction false} WithoutExact(writers: seq<ConnId>, c: ConnId)
    requires Distinct(writers)
    ensures Distinct(Without(writers, c))
    ensures forall x :: x in Without(writers, c) <==> x in writers && x != c
  {
    WithoutMembers(writers, c);
  }

  /** A call about another document leaves a document's state and story alone. */
  lemma {:induction false} OtherDocument(ops: seq<Op>, d: DocId)
    requires ops != [] && !Last(ops).Sweep? && Last(ops).doc != d
    ensures d in Run(ops) <==> d in Run(Before(ops))
    ensures d in Run(ops) ==> Run(ops)[d] == Run(Before(ops))[d]
    ensures LastTouch(ops, d) == LastTouch(Before(ops), d)
    ensures forall c :: Standing(ops, d, c) == Standing(Before(ops), d, c)
  {
  }

  lemma {:induction false} RegisterExplained(ops: seq<Op>)
    requires ops != [] && Last(ops).Register? && Last(ops).token.claim == Some(Last(ops).doc)
    requires Explained(Before(ops))
    ensures Last(ops).doc in Run(ops) && Describes(ops, Last(ops).doc, Run(ops)[Last(ops).doc])
  {
    var before, op := Before(ops), Last(ops);
    var was := if op.doc in Run(before) then Run(before)[op.doc] else AuthState(OMap([], map[]), [], op.now);
    assert Run(ops)[op.doc] == Registered(was, op);
    assert was.tokens.Valid() && Distinct(was.writers);
    AddedMembers(was.writers, op.conn);
    WithoutExact(was.writers, op.conn);
    var s := Registered(was, op);
    assert op.conn in s.tokens.vals && s.tokens.Valid();
    forall c
      ensures c in s.tokens.vals <==> Standing(ops, op.doc, c).Some?
      ensures c in s.tokens.vals ==> Standing(ops, op.doc, c).value.0 == s.tokens.vals[c] && s.tokens.vals[c].claim == Some(op.doc)
      ensures c in s.writers <==> Standing(ops, op.doc, c).Some? && Standing(ops, op.doc, c).value.1
    {
      assert Standing(ops, op.doc, c) == if c == op.conn then Some((op.token, op.write)) else Standing(before, op.doc, c);
    }
  }

  lemma {:induction false} UnregisterExplained(ops: seq<Op>)
    requires ops != [] && Last(ops).Unregister?
    requires Explained(Before(ops))
    ensures Last(ops).doc in Run(ops) ==> Describes(ops, Last(ops).doc, Run(ops)[Last(ops).doc])
    ensures Last(ops).doc !in Run(ops) ==> forall c :: Standing(ops, Last(ops).doc, c) == None
  {
    var before, op := Before(ops), Last(ops);
    if op.doc in Run(before) {
      var was := Run(before)[op.doc];
      var tokens := was.tokens.Delete(op.conn);
      WithoutExact(was.writers, op.conn);
      assert tokens.Valid();
      forall c
        ensures c in tokens.vals <==> Standing(ops, op.doc, c).Some?
      {
        assert Standing(ops, op.doc, c) == if c == op.conn then None else Standing(before, op.doc, c);
      }
      if tokens.keys == [] {
        assert tokens.vals.Keys == {};
      }
    }
  }

  lemma SweepExplained(ops: seq<Op>)
    requires ops != [] && Last(ops).Sweep?
    requires Explained(Before(ops))
    ensures Explained(ops)
  {
    var before, op := Before(ops), Last(ops);
    forall d | d in Run(ops)
      ensures Describes(ops, d, Run(ops)[d])
    {
      assert Describes(before, d, Run(before)[d]);
      assert forall c :: Standing(ops, d, c) == Standing(before, d, c);
    }
    forall d, c | d !in Run(ops)
      ensures Standing(ops, d, c) == None
    {
      if d in Run(before) {
        assert Describes(before, d, Run(before)[d]);
      }
    }
  }

  /** What a document's state is, in terms of the calls, is kept by every call. */
  lemma StepKeepsExplained(ops: seq<Op>)
    requires ops != [] && Explained(Before(ops))
    ensures Explained(ops)
  {
    var before, op := Before(ops), Last(ops);
    if op.Sweep? {
      SweepExplained(ops);
    } else if op.Register? && op.token.claim != Some(op.doc) {
      assert forall d, c :: Standing(ops, d, c) == Standing(before, d, c);
    } else {
      if op.Register? {
        RegisterExplained(ops);
      } else if op.Unregister? {
        UnregisterExplained(ops);
      } else {
        assert op.doc in Run(before) ==> Describes(before, op.doc, Run(before)[op.doc]);
      }
      forall d | d in Run(ops)
        ensures Describes(ops, d, Run(ops)[d])
      {
        if d != op.doc {
          OtherDocument(ops, d);
        }
      }
      forall d, c | d !in Run(ops)
        ensures Standing(ops, d, c) == None
      {
        if d != op.doc {
          OtherDocument(ops, d);
        }
      }
    }
  }

  lemma {:induction false} RunIsExplained(ops: seq<Op>)
    ensures Explained(ops)
  {
    if ops != [] {
      RunIsExplained(Before(ops));
      StepKeepsExplained(ops);
    }
  }

  // ----- What callers get -----

  predicate IsWriter(ops: seq<Op>, d: DocId, c: ConnId) {
    Standing(ops, d, c).Some? && Standing(ops, d, c).value.1
  }

  /** A token is found for storing exactly when some connection's standing registration
      was write-capable, and it is the token of such a registration. */
  lemma {:induction false} StoreTokenIsAWriters(ops: seq<Op>, d: DocId)
    ensures StoreToken(Run(ops), d).Some? <==> exists c :: IsWriter(ops, d, c)
    ensures StoreToken(Run(ops), d).Some? ==>
              exists c :: IsWriter(ops, d, c) && Standing(ops, d, c).value.0 == StoreToken(Run(ops), d).value
  {
    RunIsExplained(ops);
    if d in Run(ops) {
      var s := Run(ops)[d];
      if s.writers != [] {
        assert s.writers[0] in s.writers;
        assert IsWriter(ops, d, s.writers[0]);
        assert StoreToken(Run(ops), d) == Some(s.tokens.vals[s.writers[0]]);
      }
    }
  }

  /** A token is found for loading exactly when some connection stands: a writer's if there
      is one, and in any case one that names the document. */
  lemma {:induction false} LoadTokenPrefersWriters(ops: seq<Op>, d: DocId)
    ensures LoadToken(Run(ops), d).Some? <==> exists c :: Standing(ops, d, c).Some?
    ensures StoreToken(Run(ops), d).Some? ==> LoadToken(Run(ops), d) == StoreToken(Run(ops), d)
    ensures LoadToken(Run(ops), d).Some? ==> LoadToken(Run(ops), d).value.claim == Some(d)
    ensures LoadToken(Run(ops), d).Some? ==>
              exists c :: Standing(ops, d, c).Some? && Standing(ops, d, c).value.0 == LoadToken(Run(ops), d).value
  {
    RunIsExplained(ops);
    StoreTokenIsAWriters(ops, d);
    if d in Run(ops) {
      var s := Run(ops)[d];
      assert s.tokens.keys[0] in s.tokens.keys;
      assert Standing(ops, d, s.tokens.keys[0]).Some?;
      assert StoreToken(Run(ops), d).None? ==> LoadToken(Run(ops), d) == FirstToken(s);
    }
  }

  /** The connection whose token is used for storing. */
  function Holder(ops: seq<Op>, d: DocId): Option<ConnId> {
    if d in Run(ops) && Run(ops)[d].writers != [] then Some(Run(ops)[d].writers[0]) else None
  }

  /** The holder's standing token is the one returned for storing, and no call but a new
      registration or an end of the holder's own connection, a clearing or a sweep changes it:
      in particular no other user connecting or leaving. */
  lemma {:induction false} StoreTokenIsStable(ops: seq<Op>, d: DocId)
    requires ops != [] && Holder(Before(ops), d).Some?
    requires match Last(ops)
             case Register(d', c, _, _, _) => d' == d ==> Some(c) != Holder(Before(ops), d)
             case Unregister(d', c) => d' == d ==> Some(c) != Holder(Before(ops), d)
             case ReadToken(_, _) => true
             case Sweep(_) => false
             case Clear(d') => d' != d
    ensures Holder(ops, d) == Holder(Before(ops), d)
    ensures StoreToken(Run(ops), d) == StoreToken(Run(Before(ops)), d)
    ensures StoreToken(Run(ops), d).Some?
  {
    RunIsExplained(Before(ops));
    var s := Run(Before(ops))[d];
    var op := Last(ops);
    assert s.writers[0] in s.writers && s.writers[0] in s.tokens.vals;
    if op.doc == d && (op.Register? || op.Unregister?) {
      assert Without(s.writers, op.conn)[0] == s.writers[0];
      var tokens := s.tokens.Delete(op.conn);
      assert tokens.Valid() && s.writers[0] in tokens.vals.Keys;
      assert s.writers[0] in tokens.keys;
    }
  }

  /** The connection that has stood the longest. */
  function Eldest(ops: seq<Op>, d: DocId): Option<ConnId> {
    if d in Run(ops) && Run(ops)[d].tokens.keys != [] then Some(Run(ops)[d].tokens.keys[0]) else None
  }

  /** While no connection may write, the token returned for loading is the eldest's, and only a
      new registration or an end of that connection, a clearing or a sweep changes it. */
  lemma {:induction false} LoadTokenIsTheEldests(ops: seq<Op>, d: DocId)
    requires ops != [] && Eldest(Before(ops), d).Some?
    requires StoreToken(Run(Before(ops)), d).None? && StoreToken(Run(ops), d).None?
    requires match Last(ops)
             case Register(d', c, _, _, _) => d' == d ==> Some(c) != Eldest(Before(ops), d)
             case Unregister(d', c) => d' == d ==> Some(c) != Eldest(Before(ops), d)
             case ReadToken(_, _) => true
             case Sweep(_) => false
             case Clear(d') => d' != d
    ensures Eldest(ops, d) == Eldest(Before(ops), d)
    ensures Standing(ops, d, Eldest(ops, d).value).Some?
    ensures LoadToken(Run(ops), d) == LoadToken(Run(Before(ops)), d) == Some(Standing(ops, d, Eldest(ops, d).value).value.0)
  {
    RunIsExplained(Before(ops));
    RunIsExplained(ops);
    var s := Run(Before(ops))[d];
    var op := Last(ops);
    var c := s.tokens.keys[0];
    assert c in s.tokens.keys && c in s.tokens.vals.Keys;
    if op.doc == d && op.Unregister? {
      var tokens := s.tokens.Delete(op.conn);
      assert Without(s.tokens.keys, op.conn)[0] == c;
      assert tokens.Valid() && tokens.keys[0] == c;
    } else if op.doc != d {
      OtherDocument(ops, d);
    }
  }

  /** A sweep forgets exactly the documents not touched within the time allowed, and
      changes no other. */
  lemma {:induction false} SweepForgetsTheStale(ops: seq<Op>, now: int, d: DocId)
    requires d in Run(ops)
    ensures d in Run(ops + [Sweep(now)]) <==> now - LastTouch(ops, d) <= AUTH_TTL_MS
    ensures d in Run(ops + [Sweep(now)]) ==> Run(ops + [Sweep(now)])[d] == Run(ops)[d]
  {
    RunIsExplained(ops);
    assert (ops + [Sweep(now)])[..|ops|] == ops;
  }
}
