/** Linking contents entries to headings (`_link_toc_to_nodes`): the greedy forward
    walk over per-title candidate lists, what it computes, and when it recovers the
    intended links. */
module ContentsLinking {
  import opened Options

  /** What the walk compares: a normalized title and a level. */
  datatype Mark = Mark(key: string, level: nat)

  // ----- What a link is -----

  /** The first heading at or after `from` with this title and level. */
  function NextSame(hs: seq<Mark>, e: Mark, from: nat): (r: Option<nat>)
    ensures r.Some? ==> from <= r.value < |hs| && hs[r.value] == e && forall h | from <= h < r.value :: hs[h] != e
    ensures r.None? ==> forall h | from <= h < |hs| :: hs[h] != e
    decreases |hs| - from
  {
    if from >= |hs| then None
    else if hs[from] == e then Some(from)
    else NextSame(hs, e, from + 1)
  }

  /** The first heading at or after `from` with this title. */
  function NextKey(hs: seq<Mark>, key: string, from: nat): (r: Option<nat>)
    ensures r.Some? ==> from <= r.value < |hs| && hs[r.value].key == key && forall h | from <= h < r.value :: hs[h].key != key
    ensures r.None? ==> forall h | from <= h < |hs| :: hs[h].key != key
    decreases |hs| - from
  {
    if from >= |hs| then None
    else if hs[from].key == key then Some(from)
    else NextKey(hs, key, from + 1)
  }

  /** Same title and level if there is one left, else same title. */
  function Match(hs: seq<Mark>, e: Mark, from: nat): (r: Option<nat>)
    ensures r.Some? ==> from <= r.value < |hs| && hs[r.value].key == e.key
  {
    if NextSame(hs, e, from).Some? then NextSame(hs, e, from) else NextKey(hs, e.key, from)
  }

  /** One past the heading the latest of the first `n` entries with this title took. */
  function NextFree(es: seq<Mark>, links: seq<Option<nat>>, key: string, n: nat): nat
    requires n <= |es| && n <= |links|
  {
    if n == 0 then 0
    else if es[n - 1].key == key && links[n - 1].Some? then links[n - 1].value + 1
    else NextFree(es, links, key, n - 1)
  }

  /** An entry is matched among the headings after its title's latest link. */
  predicate LinkedAt(hs: seq<Mark>, es: seq<Mark>, links: seq<Option<nat>>, a: nat)
    requires a < |links| <= |es|
  {
    links[a] == Match(hs, es[a], NextFree(es, links, es[a].key, a))
  }

  predicate Linked(hs: seq<Mark>, es: seq<Mark>, links: seq<Option<nat>>) {
    |links| <= |es| && forall a | 0 <= a < |links| :: LinkedAt(hs, es, links, a)
  }

  // ----- The walk -----

  /** `cs` lists the positions below `n` of the headings with this title. */
  predicate Lists(hs: seq<Mark>, key: string, n: nat, cs: seq<nat>)
    requires n <= |hs|
  {
    && (forall i | 0 <= i < |cs| :: cs[i] < n && hs[cs[i]].key == key)
    && (forall i, j | 0 <= i < j < |cs| :: cs[i] < cs[j])
    && (forall h | 0 <= h < n && hs[h].key == key :: h in cs)
  }

  function At<T>(m: map<string, T>, key: string, default: T): T {
    if key in m then m[key] else default
  }

  /** The first candidate not yet passed over is the first heading from `from` on. */
  predicate Passed(cs: seq<nat>, c: nat, from: nat) {
    && c <= |cs|
    && (forall i | 0 <= i < c :: cs[i] < from)
    && (forall i | c <= i < |cs| :: from <= cs[i])
  }

  method GroupByTitle(hs: seq<Mark>) returns (byTitle: map<string, seq<nat>>)
    ensures forall key :: Lists(hs, key, |hs|, At(byTitle, key, []))
  {
    byTitle := map[];
    for i := 0 to |hs|
      invariant forall key :: Lists(hs, key, i, At(byTitle, key, []))
    {
      ListsStep(hs, At(byTitle, hs[i].key, []), i);
      ghost var before := byTitle;
      byTitle := byTitle[hs[i].key := At(byTitle, hs[i].key, []) + [i]];
      forall key ensures Lists(hs, key, i + 1, At(byTitle, key, [])) {
        assert Lists(hs, key, i, At(before, key, []));
      }
    }
  }

  lemma ListsStep(hs: seq<Mark>, cs: seq<nat>, i: nat)
    requires i < |hs| && Lists(hs, hs[i].key, i, cs)
    ensures Lists(hs, hs[i].key, i + 1, cs + [i])
  {
    assert forall h | 0 <= h < i && hs[h].key == hs[i].key :: h in cs;
  }

  /** A heading with the title before a candidate is a candidate before it. */
  lemma EarlierCandidate(hs: seq<Mark>, cs: seq<nat>, key: string, c: nat, from: nat, k: nat, h: nat) returns (i: nat)
    requires Lists(hs, key, |hs|, cs) && Passed(cs, c, from) && c <= k < |cs|
    requires from <= h < cs[k] && hs[h].key == key
    ensures c <= i < k && cs[i] == h
  {
    i :| 0 <= i < |cs| && cs[i] == h;
  }

  lemma {:induction false} FirstIsNext(hs: seq<Mark>, e: Mark, from: nat, h: nat)
    requires from <= h < |hs| && hs[h].key == e.key
    ensures hs[h] == e && (forall g | from <= g < h :: hs[g] != e) ==> NextSame(hs, e, from) == Some(h)
    ensures (forall g | from <= g < h :: hs[g].key != e.key) ==> NextKey(hs, e.key, from) == Some(h)
  {
    hide NextSame, NextKey;
  }

  lemma {:induction false} CandidateIsNext(hs: seq<Mark>, cs: seq<nat>, e: Mark, c: nat, from: nat, k: nat)
    requires Lists(hs, e.key, |hs|, cs) && Passed(cs, c, from) && c <= k < |cs|
    requires forall i | c <= i < k :: hs[cs[i]].level != e.level
    ensures cs[k] < |hs|
    ensures hs[cs[k]].level == e.level ==> NextSame(hs, e, from) == Some(cs[k])
    ensures k == c ==> NextKey(hs, e.key, from) == Some(cs[c])
  {
    var h := cs[k];
    assert from <= h < |hs| && hs[h].key == e.key;
    hide Lists, Passed, NextSame, NextKey;
    forall g | from <= g < h
      ensures hs[g] != e && (k == c ==> hs[g].key != e.key)
    {
      if hs[g].key == e.key {
        var i := EarlierCandidate(hs, cs, e.key, c, from, k, g);
      }
    }
    FirstIsNext(hs, e, from, h);
  }

  lemma {:induction false} NoCandidate(hs: seq<Mark>, cs: seq<nat>, e: Mark, c: nat, from: nat)
    requires Lists(hs, e.key, |hs|, cs) && Passed(cs, c, from)
    requires forall i | c <= i < |cs| :: hs[cs[i]].level != e.level
    ensures NextSame(hs, e, from) == None
    ensures c == |cs| ==> NextKey(hs, e.key, from) == None
  {
    forall h | from <= h < |hs| && hs[h].key == e.key
      ensures exists i | c <= i < |cs| :: cs[i] == h
    {
      var i :| 0 <= i < |cs| && cs[i] == h;
    }
  }

  /** The search among the candidates of one entry: the offset it settles on. */
  method FindCandidate(hs: seq<Mark>, cs: seq<nat>, e: Mark, position: nat, ghost from: nat) returns (found: Option<nat>)
    requires Lists(hs, e.key, |hs|, cs) && Passed(cs, position, from)
    ensures found.Some? ==> position <= found.value < |cs| && Match(hs, e, from) == Some(cs[found.value])
    ensures found.None? ==> Match(hs, e, from) == None
  {
    for offset := position to |cs|
      invariant forall i | position <= i < offset :: hs[cs[i]].level != e.level
    {
      if hs[cs[offset]].level == e.level {
        CandidateIsNext(hs, cs, e, position, from, offset);
        return Some(offset);
      }
    }
    NoCandidate(hs, cs, e, position, from);
    if position < |cs| {
      CandidateIsNext(hs, cs, e, position, from, position);
      return Some(position);
    }
    return None;
  }

  /** For every title the consumed counter stands where the next free heading does. */
  ghost predicate AllPassed(byTitle: map<string, seq<nat>>, consumed: map<string, nat>, es: seq<Mark>, links: seq<Option<nat>>)
    requires |links| <= |es|
  {
    forall key :: Passed(At(byTitle, key, []), At(consumed, key, 0), NextFree(es, links, key, |links|))
  }

  lemma AllPassedStep(byTitle: map<string, seq<nat>>, consumed: map<string, nat>, es: seq<Mark>,
                      links: seq<Option<nat>>, last: Option<nat>, count: nat)
    requires |links| < |es| && AllPassed(byTitle, consumed, es, links)
    requires var key := es[|links|].key; var cs := At(byTitle, key, []);
      && (forall i, j | 0 <= i < j < |cs| :: cs[i] < cs[j])
      && (last.Some? ==> 0 < count <= |cs| && last.value == cs[count - 1])
      && (last.None? ==> count == At(consumed, key, 0))
    ensures var key := es[|links|].key;
      AllPassed(byTitle, if last.Some? then consumed[key := count] else consumed, es, links + [last])
  {
    var more := links + [last];
    forall key
      ensures Passed(At(byTitle, key, []), At(if last.Some? then consumed[es[|links|].key := count] else consumed, key, 0),
                     NextFree(es, more, key, |more|))
    {
      assert Passed(At(byTitle, key, []), At(consumed, key, 0), NextFree(es, links, key, |links|));
      NextFreePrefix(es, links, more, key, |links|);
    }
  }

  /** `_link_toc_to_nodes`: the walk over per-title lists with consumed counters
      computes the links defined above. */
  method Link(hs: seq<Mark>, es: seq<Mark>) returns (links: seq<Option<nat>>)
    ensures |links| == |es| && Linked(hs, es, links)
  {
    var byTitle := GroupByTitle(hs);
    var consumed: map<string, nat> := map[];
    links := [];
    for a := 0 to |es|
      invariant |links| == a && Linked(hs, es, links)
      invariant AllPassed(byTitle, consumed, es, links)
    {
      hide Passed, Match, LinkedAt;
      assert Passed(At(byTitle, es[a].key, []), At(consumed, es[a].key, 0), NextFree(es, links, es[a].key, a));
      var e := es[a];
      var candidates := At(byTitle, e.key, []);
      ghost var from := NextFree(es, links, e.key, a);
      var found := FindCandidate(hs, candidates, e, At(consumed, e.key, 0), from);
      ghost var before, wasConsumed := links, consumed;
      if found.Some? {
        links := links + [Some(candidates[found.value])];
        consumed := consumed[e.key := found.value + 1];
      } else {
        links := links + [None];
      }
      AllPassedStep(byTitle, wasConsumed, es, before, links[a], At(consumed, e.key, 0));
      LinkedExtends(hs, es, before, links[a]);
      assert links == before + [links[a]];
    }
  }

  lemma {:induction false} NextFreePrefix(es: seq<Mark>, l1: seq<Option<nat>>, l2: seq<Option<nat>>, key: string, n: nat)
    requires n <= |es| && n <= |l1| <= |l2| && l1[..n] == l2[..n]
    ensures NextFree(es, l1, key, n) == NextFree(es, l2, key, n)
  {
    if n > 0 {
      assert l1[n - 1] == l1[..n][n - 1] == l2[..n][n - 1] == l2[n - 1];
      assert l1[..n - 1] == l1[..n][..n - 1] && l2[..n - 1] == l2[..n][..n - 1];
      NextFreePrefix(es, l1, l2, key, n - 1);
    }
  }

  lemma {:induction false} LinkedExtends(hs: seq<Mark>, es: seq<Mark>, links: seq<Option<nat>>, last: Option<nat>)
    requires Linked(hs, es, links) && |links| < |es|
    requires last == Match(hs, es[|links|], NextFree(es, links, es[|links|].key, |links|))
    ensures Linked(hs, es, links + [last])
  {
    var more := links + [last];
    forall a: nat | a < |more| ensures LinkedAt(hs, es, more, a) {
      if a < |links| {
        assert LinkedAt(hs, es, links, a);
      }
      NextFreePrefix(es, links, more, es[a].key, a);
    }
  }

  // ----- What links mean -----

  /** The next free heading of a title lies after every heading linked so far. */
  lemma {:induction false} LinksBelowNextFree(hs: seq<Mark>, es: seq<Mark>, links: seq<Option<nat>>, key: string, b: nat, n: nat)
    requires Linked(hs, es, links) && b < n <= |links| && es[b].key == key && links[b].Some?
    ensures links[b].value < NextFree(es, links, key, n)
    decreases n
  {
    if b < n - 1 {
      LinksBelowNextFree(hs, es, links, key, b, n - 1);
      assert LinkedAt(hs, es, links, n - 1);
    }
  }

  /** On any input: a link keeps the title, later entries of a title go to later
      headings, and no heading is taken twice. */
  lemma LinksAreInjective(hs: seq<Mark>, es: seq<Mark>, links: seq<Option<nat>>)
    requires Linked(hs, es, links)
    ensures forall a | 0 <= a < |links| && links[a].Some? ::
      links[a].value < |hs| && hs[links[a].value].key == es[a].key
    ensures forall a, b | 0 <= a < b < |links| && links[a].Some? && links[b].Some? ::
      && (es[a].key == es[b].key ==> links[a].value < links[b].value)
      && links[a].value != links[b].value
  {
    forall a, b | 0 <= a < b < |links| && links[a].Some? && links[b].Some?
      ensures (es[a].key == es[b].key ==> links[a].value < links[b].value) && links[a].value != links[b].value
    {
      assert LinkedAt(hs, es, links, a) && LinkedAt(hs, es, links, b);
      if es[a].key == es[b].key {
        LinksBelowNextFree(hs, es, links, es[b].key, a, b);
      }
    }
    forall a | 0 <= a < |links| && links[a].Some?
      ensures links[a].value < |hs| && hs[links[a].value].key == es[a].key
    {
      assert LinkedAt(hs, es, links, a);
    }
  }

  lemma {:induction false} NextFreeIsPastALink(es: seq<Mark>, links: seq<Option<nat>>, key: string, n: nat)
    requires n <= |es| && n <= |links|
    ensures NextFree(es, links, key, n) == 0
      || exists b | 0 <= b < n && links[b].Some? :: es[b].key == key && NextFree(es, links, key, n) == links[b].value + 1
  {
    if n > 0 && !(es[n - 1].key == key && links[n - 1].Some?) {
      NextFreeIsPastALink(es, links, key, n - 1);
    }
  }

  /** The heading has the entry's title and comes after every heading that an earlier entry
      of this title is linked to. */
  predicate IsFree(hs: seq<Mark>, es: seq<Mark>, links: seq<Option<nat>>, a: nat, h: nat)
    requires a < |es| && a <= |links| && h < |hs|
  {
    && hs[h].key == es[a].key
    && forall b | 0 <= b < a && es[b].key == es[a].key && links[b].Some? :: links[b].value < h
  }

  /** The first free heading of the entry's level, without one the first free heading. */
  predicate TakesFirstFree(hs: seq<Mark>, es: seq<Mark>, links: seq<Option<nat>>, a: nat)
    requires a < |es| && a < |links|
  {
    match links[a]
    case None => forall h | 0 <= h < |hs| :: !IsFree(hs, es, links, a, h)
    case Some(h) =>
      && h < |hs| && IsFree(hs, es, links, a, h)
      && (hs[h].level == es[a].level
          ==> forall g | 0 <= g < h && IsFree(hs, es, links, a, g) :: hs[g].level != es[a].level)
      && (hs[h].level != es[a].level
          ==> && (forall g | 0 <= g < |hs| && IsFree(hs, es, links, a, g) :: hs[g].level != es[a].level)
              && (forall g | 0 <= g < h :: !IsFree(hs, es, links, a, g)))
  }

  lemma {:induction false} FreeIff(hs: seq<Mark>, es: seq<Mark>, links: seq<Option<nat>>, a: nat, h: nat)
    requires Linked(hs, es, links) && a < |links| && h < |hs|
    ensures IsFree(hs, es, links, a, h) <==> hs[h].key == es[a].key && NextFree(es, links, es[a].key, a) <= h
  {
    assert |links| <= |es|;
    hide Linked, NextFree;
    NextFreeIsPastALink(es, links, es[a].key, a);
    forall b | 0 <= b < a && es[b].key == es[a].key && links[b].Some?
      ensures links[b].value < NextFree(es, links, es[a].key, a)
    {
      LinksBelowNextFree(hs, es, links, es[a].key, b, a);
    }
  }

  /** What the walk gives every entry, whatever the other titles. */
  lemma {:induction false} LinksTakeFirstFree(hs: seq<Mark>, es: seq<Mark>, links: seq<Option<nat>>, a: nat)
    requires Linked(hs, es, links) && a < |links|
    ensures TakesFirstFree(hs, es, links, a)
  {
    assert LinkedAt(hs, es, links, a);
    forall h | 0 <= h < |hs|
      ensures IsFree(hs, es, links, a, h) <==> hs[h].key == es[a].key && NextFree(es, links, es[a].key, a) <= h
    {
      FreeIff(hs, es, links, a, h);
    }
    hide Linked, NextFree, IsFree;
  }

  // ----- Exact recovery -----

  /** `src` lists, in order, the headings of level at most `limit`, and the contents
      page has one entry for each of them. */
  predicate ListsUpTo(hs: seq<Mark>, es: seq<Mark>, src: seq<nat>, limit: nat) {
    && |src| == |es|
    && (forall a | 0 <= a < |src| :: src[a] < |hs| && hs[src[a]] == es[a] && es[a].level <= limit)
    && (forall a, b | 0 <= a < b < |src| :: src[a] < src[b])
    && (forall h | 0 <= h < |hs| && hs[h].level <= limit :: h in src)
  }

  /** Between the next free heading of a title and its next entry's own heading, no
      heading of that title is shallow enough to be listed. */
  lemma {:induction false} NextFreeIsClose(hs: seq<Mark>, es: seq<Mark>, links: seq<Option<nat>>, src: seq<nat>, limit: nat, key: string, n: nat)
    requires ListsUpTo(hs, es, src, limit) && n <= |links| <= |es|
    requires forall a | 0 <= a < n :: links[a] == Some(src[a])
    ensures forall h | NextFree(es, links, key, n) <= h < |hs| && hs[h].key == key && hs[h].level <= limit ::
      exists a | n <= a < |es| :: src[a] == h
    ensures forall a | n <= a < |es| :: NextFree(es, links, key, n) <= src[a]
    decreases n
  {
    if n > 0 {
      NextFreeIsClose(hs, es, links, src, limit, key, n - 1);
      forall h | NextFree(es, links, key, n) <= h < |hs| && hs[h].key == key && hs[h].level <= limit
        ensures exists a | n <= a < |es| :: src[a] == h
      {
        if es[n - 1].key == key {
          assert NextFree(es, links, key, n) == src[n - 1] + 1;
        } else {
          assert NextFree(es, links, key, n) == NextFree(es, links, key, n - 1);
        }
        var b :| n - 1 <= b < |es| && src[b] == h;
        assert b != n - 1;
      }
    } else {
      forall h | 0 <= h < |hs| && hs[h].level <= limit
        ensures exists a | 0 <= a < |es| :: src[a] == h
      {
        var a :| 0 <= a < |src| && src[a] == h;
      }
    }
  }

  /** If the contents page lists exactly the headings down to some level, in order,
      then each entry is linked to its own heading, whatever titles repeat and
      whatever deeper headings share a title. */
  lemma {:induction false} ExactRecovery(hs: seq<Mark>, es: seq<Mark>, links: seq<Option<nat>>, src: seq<nat>, limit: nat)
    requires Linked(hs, es, links) && ListsUpTo(hs, es, src, limit)
    ensures forall a | 0 <= a < |links| :: links[a] == Some(src[a])
    decreases |links|
  {
    if links != [] {
      var n := |links| - 1;
      var before := links[..n];
      forall a: nat | a < n ensures LinkedAt(hs, es, before, a) {
        assert LinkedAt(hs, es, links, a);
        NextFreePrefix(es, before, links, es[a].key, a);
      }
      ExactRecovery(hs, es, before, src, limit);
      assert forall a | 0 <= a < n :: links[a] == before[a];
      assert LinkedAt(hs, es, links, n);
      var e := es[n];
      var from := NextFree(es, links, e.key, n);
      NextFreeIsClose(hs, es, links, src, limit, e.key, n);
      assert hs[src[n]] == e && from <= src[n];
      var found := NextSame(hs, e, from);
      assert found.Some? && found.value <= src[n];
      var a :| n <= a < |es| && src[a] == found.value;
    }
  }
}
