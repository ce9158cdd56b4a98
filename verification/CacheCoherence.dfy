/** Several collaboration servers over one backend: saves, loads and invalidations as
    interleaved steps, and what every run keeps about the caches.

    A save writes the local cache, then the backend, then publishes; the three are
    separate steps, as are a load's cache miss, backend read and cache write. Whatever
    can go wrong is a step too: a save fails before or after the backend took it, or is
    given up after its time limit while its request is still under way and may be taken
    later, an invalidation is rejected (its signature or age), or it arrives between a
    load's read and its cache write. Such troubles are recorded in `lost`, which no step
    of the servers reads. */
module CacheCoherence {
  import opened DocumentCache
  import opened Options
  import opened OrderedMap

  datatype Phase = Begun | Committed

  datatype Save = Save(inst: nat, doc: DocId, state: State, phase: Phase)

  /** A load in flight; `crossed` once an invalidation of its document was delivered to
      its instance after the backend was read. */
  datatype Load = Load(inst: nat, doc: DocId, read: Option<State>, crossed: bool)

  /** `late` are the requests of saves that were given up and that the backend may still
      take. */
  datatype World = World(
    caches: seq<Cache>,
    channels: seq<seq<DocId>>,
    backend: map<DocId, State>,
    saves: map<nat, Save>,
    loads: map<nat, Load>,
    lost: set<(nat, DocId)>,
    late: multiset<(DocId, State)>)

  datatype Step =
    | SaveBegin(id: nat, inst: nat, doc: DocId, state: State)
    | SaveCommit(id: nat)
    | SavePublish(id: nat)
    | SaveFail(id: nat)
    | SaveTimeout(id: nat)
    | LateCommit(doc: DocId, state: State)
    | LoadStart(id: nat, inst: nat, doc: DocId)
    | LoadRead(id: nat)
    | LoadInstall(id: nat)
    | LoadFail(id: nat)
    | Deliver(inst: nat)
    | Reject(inst: nat)
    | Clear(inst: nat, doc: DocId)

  ghost predicate WellFormed(w: World) {
    && |w.caches| == |w.channels|
    && (forall i | 0 <= i < |w.caches| :: w.caches[i].Valid() && |w.caches[i].keys| <= MAX_CACHE_SIZE)
    && (forall id | id in w.saves :: w.saves[id].inst < |w.caches|)
    && (forall id | id in w.loads :: w.loads[id].inst < |w.caches|)
  }

  ghost predicate Enabled(w: World, s: Step) {
    WellFormed(w) &&
    match s
    case SaveBegin(id, i, d, v) => i < |w.caches| && id !in w.saves
    case SaveCommit(id) => id in w.saves && w.saves[id].phase.Begun?
    case SavePublish(id) => id in w.saves && w.saves[id].phase.Committed?
    case SaveFail(id) => id in w.saves
    case SaveTimeout(id) => id in w.saves && w.saves[id].phase.Begun?
    case LateCommit(d, v) => (d, v) in w.late
    case LoadStart(id, i, d) => i < |w.caches| && id !in w.loads && d !in w.caches[i].vals
    case LoadRead(id) => id in w.loads && w.loads[id].read.None?
    case LoadInstall(id) => id in w.loads && w.loads[id].read.Some?
    case LoadFail(id) => id in w.loads
    case Deliver(i) => i < |w.caches| && w.channels[i] != []
    case Reject(i) => i < |w.caches| && w.channels[i] != []
    case Clear(i, d) => i < |w.caches|
  }

  function Everywhere(n: nat, d: DocId): set<(nat, DocId)> {
    set i | 0 <= i < n :: (i, d)
  }

  /** Loads of `d` at instance `i` that have read the backend are crossed. */
  function Crossed(loads: map<nat, Load>, i: nat, d: DocId): map<nat, Load> {
    map id | id in loads ::
      var l := loads[id]; if l.inst == i && l.doc == d && l.read.Some? then l.(crossed := true) else l
  }

  function Published(channels: seq<seq<DocId>>, d: DocId): seq<seq<DocId>> {
    seq(|channels|, i requires 0 <= i < |channels| => channels[i] + [d])
  }

  ghost function Apply(w: World, s: Step): (after: World)
    requires Enabled(w, s)
    ensures WellFormed(after) && |after.caches| == |w.caches|
  {
    match s
    case SaveBegin(id, i, d, v) =>
      w.(caches := w.caches[i := CacheSet(w.caches[i], d, v)], saves := w.saves[id := Save(i, d, v, Begun)])
    case SaveCommit(id) =>
      var save := w.saves[id];
      w.(backend := w.backend[save.doc := save.state], saves := w.saves[id := save.(phase := Committed)])
    case SavePublish(id) =>
      w.(channels := Published(w.channels, w.saves[id].doc), saves := w.saves - {id})
    case SaveFail(id) =>
      var save := w.saves[id];
      w.(saves := w.saves - {id},
         lost := w.lost + if save.phase.Begun? then {(save.inst, save.doc)} else Everywhere(|w.caches|, save.doc))
    case SaveTimeout(id) =>
      var save := w.saves[id];
      w.(saves := w.saves - {id},
         late := w.late + multiset{(save.doc, save.state)},
         lost := w.lost + {(save.inst, save.doc)})
    case LateCommit(d, v) =>
      w.(backend := w.backend[d := v],
         late := w.late - multiset{(d, v)},
         lost := w.lost + Everywhere(|w.caches|, d))
    case LoadStart(id, i, d) =>
      w.(loads := w.loads[id := Load(i, d, None, false)])
    case LoadRead(id) =>
      var l := w.loads[id];
      if l.doc in w.backend && w.backend[l.doc] != []
      then w.(loads := w.loads[id := l.(read := Some(w.backend[l.doc]))])
      else w.(loads := w.loads - {id})
    case LoadInstall(id) =>
      var l := w.loads[id];
      w.(caches := w.caches[l.inst := CacheSet(w.caches[l.inst], l.doc, l.read.value)],
         loads := w.loads - {id},
         lost := w.lost + if l.crossed then {(l.inst, l.doc)} else {})
    case LoadFail(id) =>
      w.(loads := w.loads - {id})
    case Deliver(i) =>
      var d := w.channels[i][0];
      DeleteShrinks(w.caches[i], d);
      w.(caches := w.caches[i := w.caches[i].Delete(d)],
         channels := w.channels[i := w.channels[i][1..]],
         loads := Crossed(w.loads, i, d),
         lost := w.lost - {(i, d)})
    case Reject(i) =>
      w.(channels := w.channels[i := w.channels[i][1..]], lost := w.lost + {(i, w.channels[i][0])})
    case Clear(i, d) =>
      DeleteShrinks(w.caches[i], d);
      w.(caches := w.caches[i := w.caches[i].Delete(d)])
  }

  lemma DeleteShrinks(m: Cache, d: DocId)
    requires m.Valid()
    ensures |m.Delete(d).keys| <= |m.keys|
  {
    WithoutLength(m.keys, d);
  }

  // ----- The invariant -----

  /** Instance `i` caches a state of `d` that is not the backend's. */
  predicate Stale(w: World, i: nat, d: DocId)
    requires i < |w.caches|
  {
    d in w.caches[i].vals && !(d in w.backend && w.backend[d] == w.caches[i].vals[d])
  }

  /** A save of `d` took the backend but its invalidation is not published yet. */
  ghost predicate Unpublished(w: World, d: DocId) {
    exists id | id in w.saves :: w.saves[id].doc == d && w.saves[id].phase.Committed?
  }

  ghost predicate SavingAt(w: World, i: nat, d: DocId) {
    exists id | id in w.saves :: w.saves[id].doc == d && w.saves[id].inst == i
  }

  /** An invalidation of `d` is on its way to `i`, or will be, or was lost for `i`. */
  ghost predicate Due(w: World, i: nat, d: DocId)
    requires i < |w.channels|
  {
    d in w.channels[i] || Unpublished(w, d) || (i, d) in w.lost
  }

  /** Every stale entry is due for eviction or belongs to a save still in flight at its
      instance; every state read by a load in flight is current, due, or crossed. */
  ghost predicate Explained(w: World) {
    && WellFormed(w)
    && (forall i, d | 0 <= i < |w.caches| && Stale(w, i, d) :: Due(w, i, d) || SavingAt(w, i, d))
    && (forall id | id in w.loads && w.loads[id].read.Some? && !w.loads[id].crossed ::
         var l := w.loads[id];
         (l.doc in w.backend && w.backend[l.doc] == l.read.value) || Due(w, l.inst, l.doc))
  }

  lemma DueKept(w: World, after: World, i: nat, d: DocId)
    requires i < |w.channels| && i < |after.channels| && Due(w, i, d)
    requires d in w.channels[i] ==> d in after.channels[i]
    requires w.lost <= after.lost
    requires forall id | id in w.saves && w.saves[id].doc == d && w.saves[id].phase.Committed? ::
      id in after.saves && after.saves[id] == w.saves[id]
    ensures Due(after, i, d)
  {
  }

  lemma StepKeepsExplained(w: World, s: Step)
    requires Explained(w) && Enabled(w, s)
    ensures Explained(Apply(w, s))
  {
    match s
    case SaveBegin(id, i, d, v) => SaveBeginKeeps(w, s);
    case SaveCommit(id) => SaveCommitKeeps(w, s);
    case SavePublish(id) => SavePublishKeeps(w, s);
    case SaveFail(id) => SaveFailKeeps(w, s);
    case SaveTimeout(id) => SaveTimeoutKeeps(w, s);
    case LateCommit(d, v) => LateCommitKeeps(w, s);
    case LoadStart(id, i, d) => LoadsOnlyKeeps(w, s);
    case LoadRead(id) => LoadsOnlyKeeps(w, s);
    case LoadFail(id) => LoadsOnlyKeeps(w, s);
    case LoadInstall(id) => LoadInstallKeeps(w, s);
    case Deliver(i) => DeliverKeeps(w, s);
    case Reject(i) => RejectKeeps(w, s);
    case Clear(i, d) => ClearKeeps(w, s);
  }

  lemma CacheSetEntries(m: Cache, d: DocId, v: State)
    ensures var r := CacheSet(m, d, v).vals;
      (d in r ==> r[d] == v) && forall e | e in r && e != d :: e in m.vals && r[e] == m.vals[e]
  {
  }

  lemma SaveBeginKeeps(w: World, s: Step)
    requires Explained(w) && Enabled(w, s) && s.SaveBegin?
    ensures Explained(Apply(w, s))
  {
    hide CacheSet;
    var after := Apply(w, s);
    CacheSetEntries(w.caches[s.inst], s.doc, s.state);
    assert s.id in after.saves && after.saves[s.id] == Save(s.inst, s.doc, s.state, Begun);
    forall i, d | 0 <= i < |after.caches| && Stale(after, i, d) ensures Due(after, i, d) || SavingAt(after, i, d) {
      if i != s.inst || d != s.doc {
        assert Stale(w, i, d);
        if Due(w, i, d) {
          DueKept(w, after, i, d);
        } else {
          var id :| id in w.saves && w.saves[id].doc == d && w.saves[id].inst == i;
          assert id in after.saves && after.saves[id] == w.saves[id];
        }
      }
    }
    forall id | id in after.loads && after.loads[id].read.Some? && !after.loads[id].crossed
      ensures var l := after.loads[id]; (l.doc in after.backend && after.backend[l.doc] == l.read.value) || Due(after, l.inst, l.doc)
    {
      var l := w.loads[id];
      if Due(w, l.inst, l.doc) { DueKept(w, after, l.inst, l.doc); }
    }
  }

  lemma SaveCommitKeeps(w: World, s: Step)
    requires Explained(w) && Enabled(w, s) && s.SaveCommit?
    ensures Explained(Apply(w, s))
  {
    var after := Apply(w, s);
    var save := w.saves[s.id];
    assert s.id in after.saves && after.saves[s.id] == save.(phase := Committed);
    assert Unpublished(after, save.doc);
    forall i, d | 0 <= i < |after.caches| && Stale(after, i, d) && d != save.doc
      ensures Due(after, i, d) || SavingAt(after, i, d)
    {
      assert Stale(w, i, d);
      if Due(w, i, d) {
        DueKept(w, after, i, d);
      } else {
        var id :| id in w.saves && w.saves[id].doc == d && w.saves[id].inst == i;
        assert id in after.saves && after.saves[id] == w.saves[id];
      }
    }
    forall id | id in after.loads && after.loads[id].read.Some? && !after.loads[id].crossed && after.loads[id].doc != save.doc
      ensures var l := after.loads[id]; (l.doc in after.backend && after.backend[l.doc] == l.read.value) || Due(after, l.inst, l.doc)
    {
      var l := w.loads[id];
      if Due(w, l.inst, l.doc) { DueKept(w, after, l.inst, l.doc); }
    }
  }

  /** Steps that end a save make its document due wherever the save excused it. */
  lemma SaveEnds(w: World, after: World, id: nat)
    requires Explained(w) && WellFormed(after) && id in w.saves
    requires after.caches == w.caches && after.backend == w.backend && after.loads == w.loads && after.saves == w.saves - {id}
    requires w.lost <= after.lost && forall i, d | 0 <= i < |w.channels| && d in w.channels[i] :: d in after.channels[i]
    requires var save := w.saves[id];
      && Due(after, save.inst, save.doc)
      && (save.phase.Committed? ==> forall i | 0 <= i < |w.channels| :: Due(after, i, save.doc))
    ensures Explained(after)
  {
    var save := w.saves[id];
    forall i, d | 0 <= i < |after.caches| && Due(w, i, d) ensures Due(after, i, d) {
      if !(d == save.doc && save.phase.Committed?) {
        DueKept(w, after, i, d);
      }
    }
    forall i, d | 0 <= i < |after.caches| && Stale(after, i, d) ensures Due(after, i, d) || SavingAt(after, i, d) {
      assert Stale(w, i, d);
      if !Due(w, i, d) {
        var k :| k in w.saves && w.saves[k].doc == d && w.saves[k].inst == i;
        if k != id {
          assert k in after.saves && after.saves[k] == w.saves[k];
        }
      }
    }
    forall k | k in after.loads && after.loads[k].read.Some? && !after.loads[k].crossed
      ensures var l := after.loads[k]; (l.doc in after.backend && after.backend[l.doc] == l.read.value) || Due(after, l.inst, l.doc)
    {
      var l := w.loads[k];
      assert l.inst < |w.caches|;
    }
  }

  lemma SavePublishKeeps(w: World, s: Step)
    requires Explained(w) && Enabled(w, s) && s.SavePublish?
    ensures Explained(Apply(w, s))
  {
    var after := Apply(w, s);
    var d := w.saves[s.id].doc;
    forall i | 0 <= i < |w.channels| ensures d in after.channels[i] && Due(after, i, d) {
      assert after.channels[i] == w.channels[i] + [d];
    }
    assert forall i | 0 <= i < |w.channels| :: after.channels[i] == w.channels[i] + [d];
    SaveEnds(w, after, s.id);
  }

  lemma SaveFailKeeps(w: World, s: Step)
    requires Explained(w) && Enabled(w, s) && s.SaveFail?
    ensures Explained(Apply(w, s))
  {
    var after := Apply(w, s);
    SaveEnds(w, after, s.id);
  }

  lemma SaveTimeoutKeeps(w: World, s: Step)
    requires Explained(w) && Enabled(w, s) && s.SaveTimeout?
    ensures Explained(Apply(w, s))
  {
    var after := Apply(w, s);
    SaveEnds(w, after, s.id);
  }

  lemma LateCommitKeeps(w: World, s: Step)
    requires Explained(w) && Enabled(w, s) && s.LateCommit?
    ensures Explained(Apply(w, s))
  {
    var after := Apply(w, s);
    forall i | 0 <= i < |after.caches| ensures Due(after, i, s.doc) {
      assert (i, s.doc) in Everywhere(|w.caches|, s.doc);
    }
    forall i, d | 0 <= i < |after.caches| && Due(w, i, d) ensures Due(after, i, d) {
      DueKept(w, after, i, d);
    }
    forall i, d | 0 <= i < |after.caches| && Stale(after, i, d) && d != s.doc
      ensures Due(after, i, d) || SavingAt(after, i, d)
    {
      assert Stale(w, i, d);
      assert SavingAt(w, i, d) ==> SavingAt(after, i, d);
    }
    forall k | k in after.loads && after.loads[k].read.Some? && !after.loads[k].crossed
      ensures var l := after.loads[k]; (l.doc in after.backend && after.backend[l.doc] == l.read.value) || Due(after, l.inst, l.doc)
    {
      assert after.loads[k] == w.loads[k];
    }
  }

  lemma LoadsOnlyKeeps(w: World, s: Step)
    requires Explained(w) && Enabled(w, s) && (s.LoadStart? || s.LoadRead? || s.LoadFail?)
    ensures Explained(Apply(w, s))
  {
    var after := Apply(w, s);
    forall i, d | 0 <= i < |after.caches| && Stale(after, i, d) ensures Due(after, i, d) || SavingAt(after, i, d) {
      assert Stale(w, i, d);
    }
    forall k | k in after.loads && after.loads[k].read.Some? && !after.loads[k].crossed
      ensures var l := after.loads[k]; (l.doc in after.backend && after.backend[l.doc] == l.read.value) || Due(after, l.inst, l.doc)
    {
      if k != s.id {
        assert after.loads[k] == w.loads[k];
        var l := w.loads[k];
        if Due(w, l.inst, l.doc) { DueKept(w, after, l.inst, l.doc); }
      }
    }
  }

  lemma LoadInstallKeeps(w: World, s: Step)
    requires Explained(w) && Enabled(w, s) && s.LoadInstall?
    ensures Explained(Apply(w, s))
  {
    hide CacheSet;
    var after := Apply(w, s);
    var l := w.loads[s.id];
    CacheSetEntries(w.caches[l.inst], l.doc, l.read.value);
    forall i, d | 0 <= i < |after.caches| && Due(w, i, d) ensures Due(after, i, d) {
      DueKept(w, after, i, d);
    }
    forall i, d | 0 <= i < |after.caches| && Stale(after, i, d) ensures Due(after, i, d) || SavingAt(after, i, d) {
      if i != l.inst || d != l.doc {
        assert Stale(w, i, d);
        assert SavingAt(w, i, d) ==> SavingAt(after, i, d);
      }
    }
    forall k | k in after.loads && after.loads[k].read.Some? && !after.loads[k].crossed
      ensures var l := after.loads[k]; (l.doc in after.backend && after.backend[l.doc] == l.read.value) || Due(after, l.inst, l.doc)
    {
      assert after.loads[k] == w.loads[k];
    }
  }

  lemma DeliverKeeps(w: World, s: Step)
    requires Explained(w) && Enabled(w, s) && s.Deliver?
    ensures Explained(Apply(w, s))
  {
    var after := Apply(w, s);
    var d0 := w.channels[s.inst][0];
    forall i, d | 0 <= i < |after.caches| && Due(w, i, d) && (i != s.inst || d != d0) ensures Due(after, i, d) {
      assert d in w.channels[i] ==> d in after.channels[i];
      assert Unpublished(w, d) ==> Unpublished(after, d);
    }
    forall i, d | 0 <= i < |after.caches| && Stale(after, i, d) ensures Due(after, i, d) || SavingAt(after, i, d) {
      assert i != s.inst || d != d0;
      assert Stale(w, i, d);
      assert SavingAt(w, i, d) ==> SavingAt(after, i, d);
    }
    forall k | k in after.loads && after.loads[k].read.Some? && !after.loads[k].crossed
      ensures var l := after.loads[k]; (l.doc in after.backend && after.backend[l.doc] == l.read.value) || Due(after, l.inst, l.doc)
    {
      assert after.loads[k] == w.loads[k];
      assert w.loads[k].inst != s.inst || w.loads[k].doc != d0;
    }
  }

  lemma RejectKeeps(w: World, s: Step)
    requires Explained(w) && Enabled(w, s) && s.Reject?
    ensures Explained(Apply(w, s))
  {
    var after := Apply(w, s);
    forall i, d | 0 <= i < |after.caches| && Due(w, i, d) ensures Due(after, i, d) {
      assert d in w.channels[i] ==> d in after.channels[i] || (i, d) in after.lost;
      assert Unpublished(w, d) ==> Unpublished(after, d);
    }
    forall i, d | 0 <= i < |after.caches| && Stale(after, i, d) ensures Due(after, i, d) || SavingAt(after, i, d) {
      assert Stale(w, i, d);
      assert SavingAt(w, i, d) ==> SavingAt(after, i, d);
    }
    forall k | k in after.loads && after.loads[k].read.Some? && !after.loads[k].crossed
      ensures var l := after.loads[k]; (l.doc in after.backend && after.backend[l.doc] == l.read.value) || Due(after, l.inst, l.doc)
    {
      assert after.loads[k] == w.loads[k];
    }
  }

  lemma ClearKeeps(w: World, s: Step)
    requires Explained(w) && Enabled(w, s) && s.Clear?
    ensures Explained(Apply(w, s))
  {
    var after := Apply(w, s);
    forall i, d | 0 <= i < |after.caches| && Due(w, i, d) ensures Due(after, i, d) {
      DueKept(w, after, i, d);
    }
    forall i, d | 0 <= i < |after.caches| && Stale(after, i, d) ensures Due(after, i, d) || SavingAt(after, i, d) {
      assert Stale(w, i, d);
      assert SavingAt(w, i, d) ==> SavingAt(after, i, d);
    }
    forall k | k in after.loads && after.loads[k].read.Some? && !after.loads[k].crossed
      ensures var l := after.loads[k]; (l.doc in after.backend && after.backend[l.doc] == l.read.value) || Due(after, l.inst, l.doc)
    {
      assert after.loads[k] == w.loads[k];
    }
  }

  // ----- Runs -----

  ghost predicate Runs(w: World, steps: seq<Step>)
    decreases |steps|
  {
    steps == [] || (Enabled(w, steps[0]) && Runs(Apply(w, steps[0]), steps[1..]))
  }

  ghost function Exec(w: World, steps: seq<Step>): World
    requires Runs(w, steps)
    decreases |steps|
  {
    if steps == [] then w else Exec(Apply(w, steps[0]), steps[1..])
  }

  /** Empty caches and channels, nothing in flight, any backend. */
  function Start(n: nat, backend: map<DocId, State>): World {
    World(seq(n, i => EMPTY), seq(n, i => []), backend, map[], map[], {}, multiset{})
  }

  lemma StartExplained(n: nat, backend: map<DocId, State>)
    ensures Explained(Start(n, backend))
  {
  }

  lemma {:induction false} RunKeepsExplained(w: World, steps: seq<Step>)
    requires Explained(w) && Runs(w, steps)
    ensures Explained(Exec(w, steps))
    decreases |steps|
  {
    if steps != [] {
      StepKeepsExplained(w, steps[0]);
      RunKeepsExplained(Apply(w, steps[0]), steps[1..]);
    }
  }

  /** A failed save or one given up, a late commit of such a one, a rejected invalidation, or a
      load whose window was crossed. */
  ghost predicate Trouble(w: World, s: Step)
    requires Enabled(w, s)
  {
    s.SaveFail? || s.SaveTimeout? || s.LateCommit? || s.Reject? || (s.LoadInstall? && w.loads[s.id].crossed)
  }

  ghost predicate TroubleFree(w: World, steps: seq<Step>)
    requires Runs(w, steps)
    decreases |steps|
  {
    steps == [] || (!Trouble(w, steps[0]) && TroubleFree(Apply(w, steps[0]), steps[1..]))
  }

  lemma {:induction false} TroubleFreeLosesNothing(w: World, steps: seq<Step>)
    requires w.lost == {} && Runs(w, steps) && TroubleFree(w, steps)
    ensures Exec(w, steps).lost == {}
    decreases |steps|
  {
    if steps != [] {
      TroubleFreeLosesNothing(Apply(w, steps[0]), steps[1..]);
    }
  }

  /** No save in flight and every invalidation delivered. */
  predicate Quiet(w: World) {
    w.saves == map[] && forall i | 0 <= i < |w.channels| :: w.channels[i] == []
  }

  ghost predicate Coherent(w: World) {
    forall i, d | 0 <= i < |w.caches| :: !Stale(w, i, d)
  }

  /** Safety over every run: a stale entry is always waiting for an invalidation, or
      belongs to a save in flight, or is recorded as lost; the caches stay bounded. */
  lemma {:induction false} EveryRunIsExplained(n: nat, backend: map<DocId, State>, steps: seq<Step>)
    requires Runs(Start(n, backend), steps)
    ensures Explained(Exec(Start(n, backend), steps))
    ensures var w := Exec(Start(n, backend), steps);
      Quiet(w) ==> forall i, d | 0 <= i < |w.caches| && Stale(w, i, d) :: (i, d) in w.lost
  {
    StartExplained(n, backend);
    RunKeepsExplained(Start(n, backend), steps);
  }

  /** Whenever a run without trouble comes to rest, every cached state is the
      backend's. */
  lemma {:induction false} QuietRunsAreCoherent(n: nat, backend: map<DocId, State>, steps: seq<Step>)
    requires Runs(Start(n, backend), steps) && TroubleFree(Start(n, backend), steps)
    requires Quiet(Exec(Start(n, backend), steps))
    ensures Coherent(Exec(Start(n, backend), steps))
  {
    EveryRunIsExplained(n, backend, steps);
    TroubleFreeLosesNothing(Start(n, backend), steps);
  }

  // ----- Coming to rest, and recovering from trouble -----

  /** From any state without saves in flight, delivering what is pending reaches a
      quiet state, without trouble; every document that had an invalidation pending at
      an instance has left its cache and its troubles are forgotten. */
  lemma {:induction false} Drain(w: World, k: nat) returns (steps: seq<Step>)
    requires Explained(w) && w.saves == map[] && k <= |w.channels|
    requires forall i | 0 <= i < k :: w.channels[i] == []
    ensures Runs(w, steps) && TroubleFree(w, steps)
    ensures var after := Exec(w, steps);
      && Explained(after) && Quiet(after) && |after.caches| == |w.caches|
      && after.backend == w.backend && after.lost <= w.lost
      && (forall i, d | 0 <= i < |w.caches| && d in after.caches[i].vals :: d in w.caches[i].vals && d !in w.channels[i])
      && (forall i, d | 0 <= i < |w.caches| && d in w.channels[i] :: (i, d) !in after.lost)
    decreases |w.channels| - k, if k < |w.channels| then |w.channels[k]| else 0
  {
    if k == |w.channels| {
      steps := [];
    } else if w.channels[k] == [] {
      steps := Drain(w, k + 1);
    } else {
      var s := Deliver(k);
      var w1 := Apply(w, s);
      StepKeepsExplained(w, s);
      assert forall i | 0 <= i < |w.channels| && i != k :: w1.channels[i] == w.channels[i];
      assert forall i | 0 <= i < |w.caches| && i != k :: w1.caches[i] == w.caches[i];
      assert w.channels[k] == [w.channels[k][0]] + w1.channels[k];
      var rest := Drain(w1, k);
      steps := [s] + rest;
      assert steps[1..] == rest;
    }
  }

  /** From any state without saves in flight there is a way to heal a document: one successful
      save and the delivery of what is pending. Then no instance caches the document, not even
      the one that saved it, and no trouble with it is remembered. */
  lemma SaveHeals(w: World, id: nat, i: nat, d: DocId, v: State) returns (steps: seq<Step>)
    requires Explained(w) && w.saves == map[] && i < |w.caches|
    ensures Runs(w, steps)
    ensures var after := Exec(w, steps);
      && Quiet(after) && |after.caches| == |w.caches| && d in after.backend && after.backend[d] == v
      && forall j | 0 <= j < |w.caches| :: d !in after.caches[j].vals && (j, d) !in after.lost
  {
    var s1, s2, s3 := SaveBegin(id, i, d, v), SaveCommit(id), SavePublish(id);
    var w1, w2, w3 := SaveSteps(w, id, i, d, v);
    var rest := Drain(w3, 0);
    steps := [s1] + ([s2] + ([s3] + rest));
    assert forall j | 0 <= j < |w.caches| :: d in w3.channels[j];
    ExecOne(w2, s3, rest);
    ExecOne(w1, s2, [s3] + rest);
    ExecOne(w, s1, [s2] + ([s3] + rest));
  }

  lemma SaveSteps(w: World, id: nat, i: nat, d: DocId, v: State) returns (w1: World, w2: World, w3: World)
    requires Explained(w) && w.saves == map[] && i < |w.caches|
    ensures Enabled(w, SaveBegin(id, i, d, v)) && w1 == Apply(w, SaveBegin(id, i, d, v))
    ensures Enabled(w1, SaveCommit(id)) && w2 == Apply(w1, SaveCommit(id))
    ensures Enabled(w2, SavePublish(id)) && w3 == Apply(w2, SavePublish(id))
    ensures Explained(w3) && w3.saves == map[] && |w3.caches| == |w.caches| && w3.backend == w.backend[d := v]
    ensures forall j | 0 <= j < |w3.channels| :: d in w3.channels[j]
  {
    var s1, s2, s3 := SaveBegin(id, i, d, v), SaveCommit(id), SavePublish(id);
    StepKeepsExplained(w, s1);
    w1 := Apply(w, s1);
    assert id in w1.saves && w1.saves[id] == Save(i, d, v, Begun);
    StepKeepsExplained(w1, s2);
    w2 := Apply(w1, s2);
    assert id in w2.saves && w2.saves[id] == Save(i, d, v, Committed);
    StepKeepsExplained(w2, s3);
    w3 := Apply(w2, s3);
    assert w3.saves == map[];
    assert forall j | 0 <= j < |w3.channels| :: w3.channels[j] == w2.channels[j] + [d];
  }

  /** A failed save or one given up, a late commit, a rejected invalidation or a crossed load of
      this document. */
  ghost predicate TroubleWith(w: World, s: Step, d: DocId)
    requires Enabled(w, s)
  {
    || ((s.SaveFail? || s.SaveTimeout?) && w.saves[s.id].doc == d)
    || (s.LateCommit? && s.doc == d)
    || (s.Reject? && w.channels[s.inst][0] == d)
    || (s.LoadInstall? && w.loads[s.id].crossed && w.loads[s.id].doc == d)
  }

  ghost predicate CalmFor(w: World, steps: seq<Step>, d: DocId)
    requires Runs(w, steps)
    decreases |steps|
  {
    steps == [] || (!TroubleWith(w, steps[0], d) && CalmFor(Apply(w, steps[0]), steps[1..], d))
  }

  /** An invalidation of `d` is on its way to `i`, or no trouble with it is remembered. */
  predicate OnItsWay(w: World, i: nat, d: DocId)
    requires i < |w.channels|
  {
    d in w.channels[i] || (i, d) !in w.lost
  }

  lemma CalmStepKeeps(w: World, s: Step, i: nat, d: DocId)
    requires Enabled(w, s) && !TroubleWith(w, s, d) && i < |w.channels| && OnItsWay(w, i, d)
    ensures OnItsWay(Apply(w, s), i, d)
  {
    hide CacheSet, Crossed;
    var after := Apply(w, s);
    if s.Deliver? || s.Reject? {
      if s.inst == i {
        assert w.channels[i] == [w.channels[i][0]] + after.channels[i];
      }
    }
  }

  lemma {:induction false} CalmRunKeeps(w: World, steps: seq<Step>, d: DocId)
    requires Explained(w) && Runs(w, steps) && CalmFor(w, steps, d)
    requires forall i | 0 <= i < |w.channels| :: OnItsWay(w, i, d)
    ensures var after := Exec(w, steps);
            && Explained(after) && |after.channels| == |w.channels|
            && forall i | 0 <= i < |after.channels| :: OnItsWay(after, i, d)
    decreases |steps|
  {
    if steps != [] {
      hide Apply, Explained, OnItsWay, TroubleWith;
      var after := Apply(w, steps[0]);
      assert |after.channels| == |w.channels| by { assert WellFormed(w) && WellFormed(after); }
      forall i | 0 <= i < |after.channels| ensures OnItsWay(after, i, d) {
        CalmStepKeeps(w, steps[0], i, d);
      }
      StepKeepsExplained(w, steps[0]);
      CalmRunKeeps(after, steps[1..], d);
    }
  }

  /** No save of `d` in flight and no invalidation of it pending. A save that was given up is
      not in flight; that the backend takes it later is a trouble of its own. */
  predicate AtRest(w: World, d: DocId) {
    && (forall id | id in w.saves :: w.saves[id].doc != d)
    && (forall i | 0 <= i < |w.channels| :: d !in w.channels[i])
  }

  lemma RestIsFresh(w: World, d: DocId)
    requires Explained(w) && AtRest(w, d)
    requires forall i | 0 <= i < |w.channels| :: OnItsWay(w, i, d)
    ensures forall i | 0 <= i < |w.caches| :: !Stale(w, i, d) && (i, d) !in w.lost
  {
    forall i | 0 <= i < |w.caches| ensures !Stale(w, i, d) && (i, d) !in w.lost {
      assert OnItsWay(w, i, d) && !Due(w, i, d) && !SavingAt(w, i, d);
    }
  }

  /** Whatever went wrong before, once a save of `d` is published the document heals: in every
      run from there without new trouble with `d`, whatever else happens, no instance caches a
      stale state of it when it is at rest, and no trouble with it is remembered. */
  lemma {:induction false} PublishHeals(w: World, id: nat, steps: seq<Step>)
    requires Explained(w) && Enabled(w, SavePublish(id))
    requires var w1 := Apply(w, SavePublish(id));
             Runs(w1, steps) && CalmFor(w1, steps, w.saves[id].doc) && AtRest(Exec(w1, steps), w.saves[id].doc)
    ensures var after, d := Exec(Apply(w, SavePublish(id)), steps), w.saves[id].doc;
            forall i | 0 <= i < |after.caches| :: !Stale(after, i, d) && (i, d) !in after.lost
  {
    var d := w.saves[id].doc;
    var w1 := Apply(w, SavePublish(id));
    StepKeepsExplained(w, SavePublish(id));
    forall i | 0 <= i < |w1.channels| ensures OnItsWay(w1, i, d) {
      assert w1.channels[i] == w.channels[i] + [d];
    }
    hide *;
    CalmRunKeeps(w1, steps, d);
    RestIsFresh(Exec(w1, steps), d);
  }

  // ----- Each trouble can leave a stale entry behind -----

  /** A run that comes to rest with instance 0 caching something else than the backend. */
  ghost predicate EndsStale(w: World, steps: seq<Step>) {
    Runs(w, steps) && Quiet(Exec(w, steps)) && 0 < |Exec(w, steps).caches| && exists d :: Stale(Exec(w, steps), 0, d)
  }

  lemma CacheOne(d: DocId, v: State)
    ensures CacheSet(EMPTY, d, v) == OMap([d], map[d := v])
    ensures forall u :: CacheSet(OMap([d], map[d := u]), d, v) == OMap([d], map[d := v])
  {
    forall u ensures CacheSet(OMap([d], map[d := u]), d, v) == OMap([d], map[d := v]) {
      assert [d][1..] == [];
      assert Without([d], d) == [];
    }
  }

  lemma {:induction false} ExecOne(w: World, s: Step, rest: seq<Step>)
    requires Enabled(w, s)
    ensures Runs(w, [s] + rest) <==> Runs(Apply(w, s), rest)
    ensures Runs(w, [s] + rest) ==> Exec(w, [s] + rest) == Exec(Apply(w, s), rest)
    ensures EndsStale(w, [s] + rest) <==> EndsStale(Apply(w, s), rest)
  {
    assert ([s] + rest)[1..] == rest;
  }

  function One(d: DocId, v: State): Cache {
    OMap([d], map[d := v])
  }

  function Loading(d: DocId, read: Option<State>, crossed: bool): map<nat, Load> {
    map[0 := Load(0, d, read, crossed)]
  }

  function Saving(i: nat, d: DocId, v: State, phase: Phase): map<nat, Save> {
    map[0 := Save(i, d, v, phase)]
  }

  /** A save that fails after the cache was written. */
  lemma FailedSaveEndsStale(d: DocId, earlier: State, later: State)
    requires earlier != later
    ensures EndsStale(Start(1, map[d := earlier]), [SaveBegin(0, 0, d, later)] + ([SaveFail(0)] + []))
  {
    hide CacheSet;
    CacheOne(d, later);
    var w := Start(1, map[d := earlier]);
    var s1, s2 := SaveBegin(0, 0, d, later), SaveFail(0);
    var w1 := World([One(d, later)], [[]], map[d := earlier], Saving(0, d, later, Begun), map[], {}, multiset{});
    var w2 := w1.(saves := map[], lost := {(0, d)});
    assert Apply(w, s1) == w1;
    assert Apply(w1, s2) == w2;
    assert Stale(w2, 0, d) && EndsStale(w2, []);
    ExecOne(w1, s2, []);
    ExecOne(w, s1, [s2] + []);
  }

  lemma DeliverOne(d: DocId, v: State)
    ensures One(d, v).Delete(d) == EMPTY
  {
    assert Without([d], d) == [];
  }

  lemma StaleAtOnce(w: World, d: DocId)
    requires Quiet(w) && 0 < |w.caches| && Stale(w, 0, d)
    ensures EndsStale(w, [])
  {
    assert Exec(w, []) == w;
  }

  lemma WindowDelivers(d: DocId, earlier: State, later: State)
    ensures var w := World([One(d, later)], [[d]], map[d := later], map[], Loading(d, Some(earlier), false), {}, multiset{});
            Enabled(w, Deliver(0))
            && Apply(w, Deliver(0)) == World([EMPTY], [[]], map[d := later], map[], Loading(d, Some(earlier), true), {}, multiset{})
  {
    hide CacheSet;
    DeliverOne(d, later);
    var w := World([One(d, later)], [[d]], map[d := later], map[], Loading(d, Some(earlier), false), {}, multiset{});
    assert [d][1..] == [] && [[d]][0 := [d][1..]] == [[]];
    assert Crossed(w.loads, 0, d) == Loading(d, Some(earlier), true);
  }

  lemma WindowInstalls(d: DocId, earlier: State, later: State)
    ensures var w := World([EMPTY], [[]], map[d := later], map[], Loading(d, Some(earlier), true), {}, multiset{});
            Enabled(w, LoadInstall(0))
            && Apply(w, LoadInstall(0)) == World([One(d, earlier)], [[]], map[d := later], map[], map[], {(0, d)}, multiset{})
  {
    hide CacheSet;
    CacheOne(d, earlier);
  }

  /** The invalidation arrives while a read state waits to be cached. */
  lemma WindowCloses(d: DocId, earlier: State, later: State)
    requires earlier != later
    ensures EndsStale(World([One(d, later)], [[d]], map[d := later], map[], Loading(d, Some(earlier), false), {}, multiset{}),
                      [Deliver(0)] + ([LoadInstall(0)] + []))
  {
    var w := World([One(d, later)], [[d]], map[d := later], map[], Loading(d, Some(earlier), false), {}, multiset{});
    var w1 := World([EMPTY], [[]], map[d := later], map[], Loading(d, Some(earlier), true), {}, multiset{});
    var w2 := World([One(d, earlier)], [[]], map[d := later], map[], map[], {(0, d)}, multiset{});
    WindowDelivers(d, earlier, later);
    WindowInstalls(d, earlier, later);
    StaleAtOnce(w2, d);
    hide *;
    ExecOne(w1, LoadInstall(0), []);
    ExecOne(w, Deliver(0), [LoadInstall(0)] + []);
  }

  lemma PublishedToAll(d: DocId)
    ensures Published([[]], d) == [[d]] && Published([[], []], d) == [[d], [d]]
  {
    var none: seq<DocId> := [];
    assert none + [d] == [d];
  }

  /** A save by one of `n` instances from a world with nothing else pending. */
  lemma SaveThenPublish(w: World, i: nat, d: DocId, later: State, rest: seq<Step>)
    requires WellFormed(w) && w.saves == map[] && i < |w.caches|
    requires EndsStale(w.(caches := w.caches[i := CacheSet(w.caches[i], d, later)], backend := w.backend[d := later],
                          channels := Published(w.channels, d)), rest)
    ensures EndsStale(w, [SaveBegin(0, i, d, later)] + ([SaveCommit(0)] + ([SavePublish(0)] + rest)))
  {
    hide CacheSet;
    var s1, s2, s3 := SaveBegin(0, i, d, later), SaveCommit(0), SavePublish(0);
    var w1 := w.(caches := w.caches[i := CacheSet(w.caches[i], d, later)], saves := Saving(i, d, later, Begun));
    var w2 := w1.(backend := w.backend[d := later], saves := Saving(i, d, later, Committed));
    var w3 := w2.(channels := Published(w.channels, d), saves := map[]);
    assert Apply(w, s1) == w1;
    assert Apply(w1, s2) == w2;
    assert Apply(w2, s3) == w3;
    ExecOne(w2, s3, rest);
    ExecOne(w1, s2, [s3] + rest);
    ExecOne(w, s1, [s2] + ([s3] + rest));
  }

  /** A load whose document was saved and invalidated between its read and its write. */
  lemma CrossedLoadEndsStale(d: DocId, earlier: State, later: State)
    requires earlier != later && earlier != []
    ensures EndsStale(Start(1, map[d := earlier]),
      [LoadStart(0, 0, d)] + ([LoadRead(0)]
      + ([SaveBegin(0, 0, d, later)] + ([SaveCommit(0)] + ([SavePublish(0)] + ([Deliver(0)] + ([LoadInstall(0)] + [])))))))
  {
    hide CacheSet, EndsStale;
    CacheOne(d, later);
    WindowCloses(d, earlier, later);
    var rest := [Deliver(0)] + ([LoadInstall(0)] + []);
    var w := Start(1, map[d := earlier]);
    var w1 := World([EMPTY], [[]], map[d := earlier], map[], Loading(d, None, false), {}, multiset{});
    var w2 := w1.(loads := Loading(d, Some(earlier), false));
    assert Apply(w, LoadStart(0, 0, d)) == w1;
    assert Apply(w1, LoadRead(0)) == w2;
    PublishedToAll(d);
    assert map[d := earlier][d := later] == map[d := later];
    assert [EMPTY][0 := One(d, later)] == [One(d, later)];
    SaveThenPublish(w2, 0, d, later, rest);
    hide *;
    ExecOne(w1, LoadRead(0), [SaveBegin(0, 0, d, later)] + ([SaveCommit(0)] + ([SavePublish(0)] + rest)));
    ExecOne(w, LoadStart(0, 0, d), [LoadRead(0)] + ([SaveBegin(0, 0, d, later)] + ([SaveCommit(0)] + ([SavePublish(0)] + rest))));
  }

  /** Two instances, the first of which has loaded the document. */
  function FirstLoaded(d: DocId, v: State): World {
    World([One(d, v), EMPTY], [[], []], map[d := v], map[], map[], {}, multiset{})
  }

  lemma FirstStarts(d: DocId, v: State)
    requires v != []
    ensures var w := Start(2, map[d := v]);
            var w1 := World([EMPTY, EMPTY], [[], []], map[d := v], map[], Loading(d, None, false), {}, multiset{});
            && Enabled(w, LoadStart(0, 0, d)) && Apply(w, LoadStart(0, 0, d)) == w1
            && Enabled(w1, LoadRead(0)) && Apply(w1, LoadRead(0)) == w1.(loads := Loading(d, Some(v), false))
  {
  }

  lemma FirstInstalls(d: DocId, v: State)
    ensures var w := World([EMPTY, EMPTY], [[], []], map[d := v], map[], Loading(d, Some(v), false), {}, multiset{});
            Enabled(w, LoadInstall(0)) && Apply(w, LoadInstall(0)) == FirstLoaded(d, v)
  {
    hide CacheSet;
    CacheOne(d, v);
  }

  lemma FirstLoads(d: DocId, v: State, rest: seq<Step>)
    requires v != [] && EndsStale(FirstLoaded(d, v), rest)
    ensures EndsStale(Start(2, map[d := v]), [LoadStart(0, 0, d)] + ([LoadRead(0)] + ([LoadInstall(0)] + rest)))
  {
    var w := Start(2, map[d := v]);
    var w1 := World([EMPTY, EMPTY], [[], []], map[d := v], map[], Loading(d, None, false), {}, multiset{});
    var w2 := w1.(loads := Loading(d, Some(v), false));
    FirstStarts(d, v);
    FirstInstalls(d, v);
    hide *;
    ExecOne(w2, LoadInstall(0), rest);
    ExecOne(w1, LoadRead(0), [LoadInstall(0)] + rest);
    ExecOne(w, LoadStart(0, 0, d), [LoadRead(0)] + ([LoadInstall(0)] + rest));
  }

  /** A save the backend took, but whose response never came back: the others are not
      told. */
  lemma LostResponseEndsStale(d: DocId, earlier: State, later: State)
    requires earlier != later && earlier != []
    ensures EndsStale(Start(2, map[d := earlier]),
      [LoadStart(0, 0, d)] + ([LoadRead(0)] + ([LoadInstall(0)]
      + ([SaveBegin(0, 1, d, later)] + ([SaveCommit(0)] + ([SaveFail(0)] + []))))))
  {
    hide CacheSet;
    CacheOne(d, later);
    var s1, s2, s3 := SaveBegin(0, 1, d, later), SaveCommit(0), SaveFail(0);
    var w := FirstLoaded(d, earlier);
    var w1 := w.(caches := [One(d, earlier), One(d, later)], saves := Saving(1, d, later, Begun));
    var w2 := w1.(backend := map[d := later], saves := Saving(1, d, later, Committed));
    var w3 := w2.(saves := map[], lost := {(0, d), (1, d)});
    assert Apply(w, s1) == w1;
    assert Apply(w1, s2) == w2;
    assert Everywhere(2, d) == {(0, d), (1, d)} by {
      assert (0, d) in Everywhere(2, d) && (1, d) in Everywhere(2, d);
    }
    assert Apply(w2, s3) == w3;
    StaleAtOnce(w3, d);
    hide *;
    ExecOne(w2, s3, []);
    ExecOne(w1, s2, [s3] + []);
    ExecOne(w, s1, [s2] + ([s3] + []));
    FirstLoads(d, earlier, [s1] + ([s2] + ([s3] + [])));
  }

  lemma Refuses(d: DocId, earlier: State, later: State)
    ensures var w := World([One(d, earlier), One(d, later)], [[d], [d]], map[d := later], map[], map[], {}, multiset{});
            Enabled(w, Reject(0)) && Apply(w, Reject(0)) == w.(channels := [[], [d]], lost := {(0, d)})
  {
    assert [d][1..] == [] && [[d], [d]][0 := [d][1..]] == [[], [d]];
  }

  lemma OtherAccepts(d: DocId, earlier: State, later: State)
    ensures var w := World([One(d, earlier), One(d, later)], [[], [d]], map[d := later], map[], map[], {(0, d)}, multiset{});
            Enabled(w, Deliver(1)) && Apply(w, Deliver(1)) == w.(caches := [One(d, earlier), EMPTY], channels := [[], []])
  {
    DeliverOne(d, later);
    assert [d][1..] == [] && [[], [d]][1 := [d][1..]] == [[], []];
    assert Crossed(map[], 1, d) == map[];
  }

  lemma FirstRefuses(d: DocId, earlier: State, later: State)
    requires earlier != later
    ensures EndsStale(World([One(d, earlier), One(d, later)], [[d], [d]], map[d := later], map[], map[], {}, multiset{}),
                      [Reject(0)] + ([Deliver(1)] + []))
  {
    var w1 := World([One(d, earlier), One(d, later)], [[d], [d]], map[d := later], map[], map[], {}, multiset{});
    var w2 := w1.(channels := [[], [d]], lost := {(0, d)});
    var w3 := w2.(caches := [One(d, earlier), EMPTY], channels := [[], []]);
    StaleAtOnce(w3, d);
    Refuses(d, earlier, later);
    OtherAccepts(d, earlier, later);
    hide *;
    ExecOne(w2, Deliver(1), []);
    ExecOne(w1, Reject(0), [Deliver(1)] + []);
  }

  /** An invalidation that instance 0 refuses (too old, or badly signed). */
  lemma RejectedInvalidationEndsStale(d: DocId, earlier: State, later: State)
    requires earlier != later && earlier != []
    ensures EndsStale(Start(2, map[d := earlier]),
      [LoadStart(0, 0, d)] + ([LoadRead(0)] + ([LoadInstall(0)]
      + ([SaveBegin(0, 1, d, later)] + ([SaveCommit(0)] + ([SavePublish(0)] + ([Reject(0)] + ([Deliver(1)] + []))))))))
  {
    hide CacheSet, EndsStale;
    CacheOne(d, later);
    FirstRefuses(d, earlier, later);
    PublishedToAll(d);
    assert map[d := earlier][d := later] == map[d := later];
    assert [One(d, earlier), EMPTY][1 := One(d, later)] == [One(d, earlier), One(d, later)];
    SaveThenPublish(FirstLoaded(d, earlier), 1, d, later, [Reject(0)] + ([Deliver(1)] + []));
    FirstLoads(d, earlier, [SaveBegin(0, 1, d, later)] + ([SaveCommit(0)] + ([SavePublish(0)] + ([Reject(0)] + ([Deliver(1)] + [])))));
  }

  /** A loaded state is overtaken by the late commit of a save that was given up. */
  lemma LateAfterLoad(d: DocId, earlier: State, later: State)
    requires earlier != later && later != []
    ensures EndsStale(World([EMPTY], [[]], map[d := later], map[], map[], {}, multiset{(d, earlier)}),
                      [LoadStart(0, 0, d)] + ([LoadRead(0)] + ([LoadInstall(0)] + ([LateCommit(d, earlier)] + []))))
  {
    hide CacheSet;
    CacheOne(d, later);
    var w := World([EMPTY], [[]], map[d := later], map[], map[], {}, multiset{(d, earlier)});
    var w1 := w.(loads := Loading(d, None, false));
    var w2 := w.(loads := Loading(d, Some(later), false));
    var w3 := w.(caches := [One(d, later)]);
    var w4 := World([One(d, later)], [[]], map[d := earlier], map[], map[], {(0, d)}, multiset{});
    assert Apply(w, LoadStart(0, 0, d)) == w1;
    assert Apply(w1, LoadRead(0)) == w2;
    assert Apply(w2, LoadInstall(0)) == w3;
    assert Everywhere(1, d) == {(0, d)} by {
      assert (0, d) in Everywhere(1, d);
    }
    assert w3.backend[d := earlier] == w4.backend;
    assert Apply(w3, LateCommit(d, earlier)) == w4;
    StaleAtOnce(w4, d);
    hide *;
    ExecOne(w3, LateCommit(d, earlier), []);
    ExecOne(w2, LoadInstall(0), [LateCommit(d, earlier)] + []);
    ExecOne(w1, LoadRead(0), [LoadInstall(0)] + ([LateCommit(d, earlier)] + []));
    ExecOne(w, LoadStart(0, 0, d), [LoadRead(0)] + ([LoadInstall(0)] + ([LateCommit(d, earlier)] + [])));
  }

  lemma GivesUp(d: DocId, before: State, state: State)
    ensures var w := Start(1, map[d := before]);
            var w1 := World([One(d, state)], [[]], map[d := before], Saving(0, d, state, Begun), map[], {}, multiset{});
            && Enabled(w, SaveBegin(0, 0, d, state)) && Apply(w, SaveBegin(0, 0, d, state)) == w1
            && Enabled(w1, SaveTimeout(0))
            && Apply(w1, SaveTimeout(0)) == w1.(saves := map[], lost := {(0, d)}, late := multiset{(d, state)})
  {
    hide CacheSet;
    CacheOne(d, state);
  }

  lemma TroubleForgotten(d: DocId, earlier: State, later: State)
    ensures var w := World([One(d, later)], [[d]], map[d := later], map[], map[], {(0, d)}, multiset{(d, earlier)});
            Enabled(w, Deliver(0)) && Apply(w, Deliver(0)) == w.(caches := [EMPTY], channels := [[]], lost := {})
  {
    DeliverOne(d, later);
    assert [d][1..] == [] && [[d]][0 := [d][1..]] == [[]];
    assert Crossed(map[], 0, d) == map[];
  }

  /** A save that is given up and taken by the backend after a newer one was published,
      delivered and loaded again. */
  lemma LateCommitEndsStale(d: DocId, before: State, earlier: State, later: State)
    requires earlier != later && later != []
    ensures EndsStale(Start(1, map[d := before]),
      [SaveBegin(0, 0, d, earlier)] + ([SaveTimeout(0)]
      + ([SaveBegin(0, 0, d, later)] + ([SaveCommit(0)] + ([SavePublish(0)] + ([Deliver(0)]
      + ([LoadStart(0, 0, d)] + ([LoadRead(0)] + ([LoadInstall(0)] + ([LateCommit(d, earlier)] + []))))))))))
  {
    hide CacheSet, EndsStale;
    CacheOne(d, later);
    PublishedToAll(d);
    LateAfterLoad(d, earlier, later);
    GivesUp(d, before, earlier);
    TroubleForgotten(d, earlier, later);
    hide Apply, Enabled, WellFormed;
    var reload := [LoadStart(0, 0, d)] + ([LoadRead(0)] + ([LoadInstall(0)] + ([LateCommit(d, earlier)] + [])));
    var newer := [SaveBegin(0, 0, d, later)] + ([SaveCommit(0)] + ([SavePublish(0)] + ([Deliver(0)] + reload)));
    var w := Start(1, map[d := before]);
    var w1 := World([One(d, earlier)], [[]], map[d := before], Saving(0, d, earlier, Begun), map[], {}, multiset{});
    var w2 := World([One(d, earlier)], [[]], map[d := before], map[], map[], {(0, d)}, multiset{(d, earlier)});
    var w3 := World([One(d, later)], [[d]], map[d := later], map[], map[], {(0, d)}, multiset{(d, earlier)});
    assert map[d := before][d := later] == map[d := later];
    assert [One(d, earlier)][0 := One(d, later)] == [One(d, later)];
    ExecOne(w3, Deliver(0), reload);
    SaveThenPublish(w2, 0, d, later, [Deliver(0)] + reload);
    ExecOne(w1, SaveTimeout(0), newer);
    ExecOne(w, SaveBegin(0, 0, d, earlier), [SaveTimeout(0)] + newer);
  }
}
