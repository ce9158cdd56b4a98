/** One collaboration server's cache of document states (`cacheSet` and the map it
    keeps in collab-server/src/persistence.ts). */
module DocumentCache {
  import opened Options
  import opened OrderedMap

  type DocId = string
  type State = seq<bv8>
  type Cache = OMap<DocId, State>

  const MAX_CACHE_SIZE := 200
  const EMPTY: Cache := OMap([], map[])

  /** Keeps the newest entries, at most the limit. */
  function Evicted(m: Cache): (r: Cache)
    ensures m.Valid() ==> r.Valid()
    ensures |r.keys| <= MAX_CACHE_SIZE
    ensures forall d | d in r.vals :: d in m.vals && r.vals[d] == m.vals[d]
  {
    if |m.keys| <= MAX_CACHE_SIZE then m else Keep(m, m.keys[|m.keys| - MAX_CACHE_SIZE..])
  }

  function Keep(m: Cache, kept: seq<DocId>): Cache {
    OMap(kept, map d | d in kept && d in m.vals :: m.vals[d])
  }

  /** Writing an entry makes it the newest, then the oldest beyond the limit go. */
  function CacheSet(m: Cache, d: DocId, s: State): (r: Cache)
    ensures m.Valid() ==> r.Valid()
    ensures |r.keys| <= MAX_CACHE_SIZE
  {
    Evicted(m.Delete(d).Set(d, s))
  }

  class Instance {
    var documentCache: Cache

    constructor ()
      ensures documentCache == EMPTY
    {
      documentCache := EMPTY;
    }

    method SetEntry(documentId: DocId, state: State)
      requires documentCache.Valid()
      modifies this
      ensures documentCache == CacheSet(old(documentCache), documentId, state)
      ensures documentCache.Valid()
    {
      documentCache := documentCache.Delete(documentId);
      documentCache := documentCache.Set(documentId, state);
      ghost var full := documentCache;
      while |documentCache.keys| > MAX_CACHE_SIZE
        invariant documentCache.Valid() && Evicted(documentCache) == Evicted(full)
      {
        EvictOldest(documentCache);
        var oldest := documentCache.keys[0];
        documentCache := documentCache.Delete(oldest);
      }
    }

    /** The subscriber: an accepted invalidation drops the entry, anything else is
        ignored. */
    method OnInvalidation(message: Option<DocId>)
      requires documentCache.Valid()
      modifies this
      ensures documentCache == if message.Some? then old(documentCache).Delete(message.value) else old(documentCache)
      ensures documentCache.Valid()
    {
      if message.Some? && message.value in documentCache.vals {
        documentCache := documentCache.Delete(message.value);
      } else if message.Some? {
        WithoutAbsent(documentCache.keys, message.value);
        assert documentCache.vals - {message.value} == documentCache.vals;
      }
    }

    /** `loadDocument`, given the document its token claims and what the backend would
        answer (nothing when the request fails): a foreign token reads nothing, a
        cached state is returned as it is, a non-empty answer is cached. */
    method LoadDocument(documentId: DocId, claim: Option<DocId>, answer: Option<State>) returns (state: Option<State>)
      requires documentCache.Valid()
      modifies this
      ensures claim != Some(documentId) ==> state == None && documentCache == old(documentCache)
      ensures claim == Some(documentId) && documentId in old(documentCache).vals ==>
        state == Some(old(documentCache).vals[documentId]) && documentCache == old(documentCache)
      ensures claim == Some(documentId) && documentId !in old(documentCache).vals ==>
        if answer.Some? && answer.value != [] then
          state == answer && documentCache == CacheSet(old(documentCache), documentId, answer.value)
        else state == None && documentCache == old(documentCache)
      ensures documentCache.Valid()
    {
      if claim != Some(documentId) {
        return None;
      }
      if documentId in documentCache.vals {
        return Some(documentCache.vals[documentId]);
      }
      if answer.Some? && answer.value != [] {
        SetEntry(documentId, answer.value);
        return answer;
      }
      return None;
    }

    /** `saveDocument`, given whether the backend accepts the state: the cache is
        written before the request, so a failed save leaves the new state behind; only
        an accepted save is published. */
    method SaveDocument(documentId: DocId, claim: Option<DocId>, state: State, accepted: bool)
      returns (success: bool, published: bool)
      requires documentCache.Valid()
      modifies this
      ensures claim != Some(documentId) ==> !success && !published && documentCache == old(documentCache)
      ensures claim == Some(documentId) ==>
        success == published == accepted && documentCache == CacheSet(old(documentCache), documentId, state)
      ensures documentCache.Valid()
    {
      if claim != Some(documentId) {
        return false, false;
      }
      SetEntry(documentId, state);
      return accepted, accepted;
    }

    method ClearDocumentCache(documentId: DocId)
      requires documentCache.Valid()
      modifies this
      ensures documentCache == old(documentCache).Delete(documentId) && documentCache.Valid()
    {
      documentCache := documentCache.Delete(documentId);
    }
  }

  lemma EvictOldest(m: Cache)
    requires m.Valid() && |m.keys| > MAX_CACHE_SIZE
    ensures m.Delete(m.keys[0]).keys == m.keys[1..]
    ensures Evicted(m.Delete(m.keys[0])) == Evicted(m)
  {
    hide Without, Distinct, Keep;
    var k, tail := m.keys[0], m.keys[1..];
    WithoutFirst(m.keys);
    var m' := m.Delete(k);
    var n := |m.keys| - MAX_CACHE_SIZE;
    var kept := m.keys[n..];
    assert kept == tail[n - 1..];
    assert forall d <- kept :: d in tail;
    KeepTail(m, k, kept);
    if n == 1 {
      assert kept == tail;
      KeepAll(m');
    }
  }

  lemma KeepTail(m: Cache, k: DocId, kept: seq<DocId>)
    requires k !in kept
    ensures Keep(m.Delete(k), kept) == Keep(m, kept)
  {
    assert forall d <- kept :: d != k;
  }

  lemma KeepAll(m: Cache)
    requires m.Valid()
    ensures Keep(m, m.keys) == m
  {
    assert forall d :: d in m.vals.Keys <==> d in (set k | k in m.keys);
  }

  // ----- What the cache holds after any sequence of writes -----

  datatype Write = Write(doc: DocId, state: State)

  function Written(ws: seq<Write>): Cache {
    if ws == [] then EMPTY
    else
      var w := ws[|ws| - 1];
      CacheSet(Written(ws[..|ws| - 1]), w.doc, w.state)
  }

  /** Index of the last write of `d`, or the length when there is none. */
  function LastWrite(ws: seq<Write>, d: DocId): (n: nat)
    ensures n <= |ws|
    ensures n < |ws| ==> ws[n].doc == d
    ensures forall i | 0 <= i < |ws| && (n < i || n == |ws|) :: ws[i].doc != d
  {
    if ws == [] then 0
    else if ws[|ws| - 1].doc == d then |ws| - 1
    else
      var n := LastWrite(ws[..|ws| - 1], d);
      if n == |ws| - 1 then |ws| else n
  }

  /** The documents written after the last write of `d`. */
  function Newer(ws: seq<Write>, d: DocId): set<DocId> {
    set i | LastWrite(ws, d) < i < |ws| :: ws[i].doc
  }

  /** The documents in order of last write, without a limit. */
  function Recency(ws: seq<Write>): seq<DocId> {
    if ws == [] then []
    else Without(Recency(ws[..|ws| - 1]), ws[|ws| - 1].doc) + [ws[|ws| - 1].doc]
  }

  lemma {:induction false} RecencyMembers(ws: seq<Write>, d: DocId)
    ensures d in Recency(ws) <==> LastWrite(ws, d) < |ws|
  {
    if ws != [] {
      RecencyMembers(ws[..|ws| - 1], d);
      WithoutMembers(Recency(ws[..|ws| - 1]), ws[|ws| - 1].doc);
    }
  }

  predicate Sorted(ws: seq<Write>, s: seq<DocId>) {
    forall i, j | 0 <= i < j < |s| :: LastWrite(ws, s[i]) < LastWrite(ws, s[j])
  }

  lemma {:induction false} RecencySorted(ws: seq<Write>)
    ensures Sorted(ws, Recency(ws))
  {
    if ws != [] {
      var before, d := ws[..|ws| - 1], ws[|ws| - 1].doc;
      RecencySorted(before);
      var t := Without(Recency(before), d);
      WithoutMembers(Recency(before), d);
      WithoutSorted(before, Recency(before), d);
      forall i | 0 <= i < |t| ensures LastWrite(ws, t[i]) == LastWrite(before, t[i]) < |before| {
        assert t[i] in t;
        RecencyMembers(before, t[i]);
      }
    }
  }

  lemma {:induction false} WithoutSorted(ws: seq<Write>, s: seq<DocId>, d: DocId)
    requires Sorted(ws, s)
    ensures Sorted(ws, Without(s, d))
  {
    if s != [] {
      var rest := Without(s[1..], d);
      assert forall e <- s[1..] :: LastWrite(ws, s[0]) < LastWrite(ws, e);
      WithoutSorted(ws, s[1..], d);
      WithoutMembers(s[1..], d);
      hide LastWrite;
      assert forall j | 0 <= j < |rest| :: rest[j] in rest && rest[j] in s[1..];
    }
  }

  function Newest(s: seq<DocId>): seq<DocId> {
    if |s| <= MAX_CACHE_SIZE then s else s[|s| - MAX_CACHE_SIZE..]
  }

  lemma {:induction false} CacheSetKeys(m: Cache, d: DocId, s: State)
    ensures CacheSet(m, d, s).keys == Newest(Without(m.keys, d) + [d])
  {
  }

  lemma DistinctParts(a: seq<DocId>, b: seq<DocId>)
    requires Distinct(a + b)
    ensures Distinct(b) && forall d <- b :: d !in a
  {
    var s := a + b;
    assert forall i | 0 <= i < |b| :: b[i] == s[|a| + i];
    forall d <- b ensures d !in a {
      var j :| 0 <= j < |b| && b[j] == d;
      assert forall i | 0 <= i < |a| :: a[i] == s[i] && s[i] != s[|a| + j];
    }
  }

  /** Keeping the newest before moving a document to the end loses nothing. */
  lemma {:induction false} NewestStep(u: seq<DocId>, d: DocId)
    requires Distinct(u)
    ensures Newest(Without(Newest(u), d) + [d]) == Newest(Without(u, d) + [d])
  {
    if |u| > MAX_CACHE_SIZE {
      hide Without, Distinct;
      var n := |u| - MAX_CACHE_SIZE;
      var older, kept := u[..n], u[n..];
      assert u == older + kept;
      DistinctParts(older, kept);
      WithoutAppend(older, kept, d);
      WithoutLength(kept, d);
      if d in kept {
        WithoutAbsent(older, d);
      }
      DropOlder(Without(older, d), Without(kept, d) + [d]);
      assert Without(older, d) + Without(kept, d) + [d] == Without(older, d) + (Without(kept, d) + [d]);
      assert d in kept ==> older + (Without(kept, d) + [d]) == Without(u, d) + [d];
    }
  }

  /** What stands before the newest does not matter. */
  lemma DropOlder(older: seq<DocId>, rest: seq<DocId>)
    requires |rest| >= MAX_CACHE_SIZE
    ensures Newest(older + rest) == Newest(rest)
  {
  }

  lemma {:induction false} KeysAreNewest(ws: seq<Write>)
    ensures Written(ws).Valid() && Written(ws).keys == Newest(Recency(ws)) && Distinct(Recency(ws))
  {
    if ws != [] {
      hide CacheSet, Newest;
      var before, w := ws[..|ws| - 1], ws[|ws| - 1];
      KeysAreNewest(before);
      CacheSetKeys(Written(before), w.doc, w.state);
      NewestStep(Recency(before), w.doc);
      WithoutMembers(Recency(before), w.doc);
      assert w.doc !in Without(Recency(before), w.doc);
    }
  }

  lemma {:induction false} ValuesAreLatest(ws: seq<Write>)
    ensures forall d | d in Written(ws).vals :: LastWrite(ws, d) < |ws| && Written(ws).vals[d] == ws[LastWrite(ws, d)].state
  {
    if ws != [] {
      var before := ws[..|ws| - 1];
      ValuesAreLatest(before);
      var d := ws[|ws| - 1].doc;
      forall e | e in Written(ws).vals && e != d
        ensures LastWrite(ws, e) < |ws| && Written(ws).vals[e] == ws[LastWrite(ws, e)].state
      {
        assert e in Written(before).vals;
      }
    }
  }

  lemma {:induction false} DistinctSetSize<T>(s: seq<T>)
    requires Distinct(s)
    ensures |set x | x in s| == |s|
  {
    if s != [] {
      DistinctSetSize(s[1..]);
      assert (set x | x in s) == {s[0]} + (set x | x in s[1..]);
    }
  }

  /** After any sequence of writes a document is cached exactly when it was written
      and fewer than 200 other documents were written since; it then holds its latest
      state, and the entries stand in order of last write. */
  lemma {:induction false} CacheHoldsTheNewest(ws: seq<Write>)
    ensures forall d :: d in Written(ws).vals <==> LastWrite(ws, d) < |ws| && |Newer(ws, d)| < MAX_CACHE_SIZE
    ensures forall d | d in Written(ws).vals :: Written(ws).vals[d] == ws[LastWrite(ws, d)].state
    ensures Sorted(ws, Written(ws).keys) && Written(ws).Valid()
  {
    hide LastWrite, Newer, Recency, Written;
    KeysAreNewest(ws);
    ValuesAreLatest(ws);
    RecencySorted(ws);
    var u, m := Recency(ws), Written(ws);
    forall d ensures d in m.vals <==> LastWrite(ws, d) < |ws| && |Newer(ws, d)| < MAX_CACHE_SIZE {
      RecencyMembers(ws, d);
      assert d in m.vals <==> d in m.keys by { assert m.vals.Keys == set k | k in m.keys; }
      if d in u {
        var p :| 0 <= p < |u| && u[p] == d;
        NewerIsTheRest(ws, p);
        assert d in m.keys <==> p >= |u| - MAX_CACHE_SIZE;
      }
    }
  }

  lemma {:induction false} NewerIsTheRest(ws: seq<Write>, p: nat)
    requires p < |Recency(ws)|
    ensures |Newer(ws, Recency(ws)[p])| == |Recency(ws)| - p - 1
  {
    hide LastWrite, Recency, Written;
    KeysAreNewest(ws);
    RecencySorted(ws);
    var u := Recency(ws);
    var d, rest := u[p], u[p + 1..];
    DistinctSetSize(rest);
    forall e ensures e in Newer(ws, d) <==> e in rest {
      RecencyMembers(ws, e);
      if e in Newer(ws, d) {
        var i :| LastWrite(ws, d) < i < |ws| && ws[i].doc == e;
        assert LastWrite(ws, e) >= i;
        var q :| 0 <= q < |u| && u[q] == e;
        assert q > p;
        assert rest[q - p - 1] == e;
      }
      if e in rest {
        var q :| 0 <= q < |rest| && rest[q] == e;
        assert u[p + 1 + q] == e;
        assert ws[LastWrite(ws, e)].doc == e;
      }
    }
    assert Newer(ws, d) == set x | x in rest;
  }

  // ----- With evictions from outside -----

  /** What can happen to the cache: a write, or an entry dropped on invalidation or
      clearing. */
  datatype Op = Put(doc: DocId, state: State) | Drop(doc: DocId)

  function Cached(ops: seq<Op>): Cache {
    if ops == [] then EMPTY
    else
      var before := Cached(ops[..|ops| - 1]);
      match ops[|ops| - 1]
      case Put(d, s) => CacheSet(before, d, s)
      case Drop(d) => before.Delete(d)
  }

  /** The same operations on a map without a limit. */
  function Unbounded(ops: seq<Op>): map<DocId, State> {
    if ops == [] then map[]
    else
      var before := Unbounded(ops[..|ops| - 1]);
      match ops[|ops| - 1]
      case Put(d, s) => before[d := s]
      case Drop(d) => before - {d}
  }

  /** The cache never holds more than 200 entries, and never an entry the unbounded
      map would not hold. */
  lemma {:induction false} CacheIsBoundedSubmap(ops: seq<Op>)
    ensures Cached(ops).Valid() && |Cached(ops).keys| <= MAX_CACHE_SIZE
    ensures forall d | d in Cached(ops).vals :: d in Unbounded(ops) && Cached(ops).vals[d] == Unbounded(ops)[d]
  {
    if ops != [] {
      var before, last := Cached(ops[..|ops| - 1]), ops[|ops| - 1];
      CacheIsBoundedSubmap(ops[..|ops| - 1]);
      if last.Drop? {
        WithoutLength(before.keys, last.doc);
      }
    }
  }
}
