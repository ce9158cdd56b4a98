/** Turning platform names on documents into references (`20260321_0001_h14_consolidate_platform.py`).
    The migration runs in one transaction: when an insertion breaks the uniqueness of platform
    slugs (`models/content.py`), nothing changes. Lower-casing is ASCII. */
module PlatformMigration {
  import opened Options
  import opened Text

  datatype Platform = Platform(id: nat, name: string, slug: string)

  datatype Document = Document(platform: Option<string>, platformId: Option<nat>)

  datatype Tables = Tables(platforms: seq<Platform>, documents: seq<Document>)

  function Slug(key: string): (r: string)
    ensures |r| == |key|
  {
    seq(|key|, i requires 0 <= i < |key| => if key[i] == ' ' || key[i] == '/' then '-' else key[i])
  }

  predicate Selected(d: Document) {
    d.platform.Some? && d.platform.value != "" && d.platformId.None?
  }

  function Key(d: Document): string
    requires Selected(d)
  {
    LowerAll(Strip(d.platform.value))
  }

  /** A selected document whose name is not blank. */
  predicate Pending(d: Document) {
    Selected(d) && Key(d) != ""
  }

  /** Platform ids by lower-case name; of names that differ only in case the last counts. */
  function IdsByName(platforms: seq<Platform>): map<string, nat> {
    if platforms == [] then map[]
    else
      var n := |platforms| - 1;
      IdsByName(platforms[..n])[LowerAll(platforms[n].name) := platforms[n].id]
  }

  function NextId(platforms: seq<Platform>): (id: nat)
    ensures forall p <- platforms :: p.id < id
  {
    if platforms == [] then 1
    else
      var n := |platforms| - 1;
      var rest := NextId(platforms[..n]);
      assert forall p <- platforms :: p in platforms[..n] || p == platforms[n];
      if platforms[n].id < rest then rest else platforms[n].id + 1
  }

  predicate HasSlug(platforms: seq<Platform>, slug: string) {
    exists i | 0 <= i < |platforms| :: platforms[i].slug == slug
  }

  function NewPlatform(platforms: seq<Platform>, d: Document): Platform
    requires Selected(d)
  {
    Platform(NextId(platforms), Strip(d.platform.value), Slug(Key(d)))
  }

  /** The platforms after a document's platform has been found or created. */
  function WithPlatform(platforms: seq<Platform>, d: Document): Option<seq<Platform>> {
    if !Pending(d) || Key(d) in IdsByName(platforms) then Some(platforms)
    else if HasSlug(platforms, Slug(Key(d))) then None
    else Some(platforms + [NewPlatform(platforms, d)])
  }

  function Linked(platforms: seq<Platform>, d: Document): Document {
    if Pending(d) && Key(d) in IdsByName(platforms) then d.(platformId := Some(IdsByName(platforms)[Key(d)])) else d
  }

  /** What the migration makes of the tables, unless it fails. */
  function Upgraded(platforms: seq<Platform>, documents: seq<Document>): Option<Tables>
    decreases |documents|
  {
    if documents == [] then Some(Tables(platforms, []))
    else
      match WithPlatform(platforms, documents[0])
      case None => None
      case Some(more) =>
        match Upgraded(more, documents[1..])
        case None => None
        case Some(t) => Some(Tables(t.platforms, [Linked(more, documents[0])] + t.documents))
  }

  /** A result with the documents already rewritten put in front. */
  function After(done: seq<Document>, rest: Option<Tables>): Option<Tables> {
    match rest
    case None => None
    case Some(t) => Some(Tables(t.platforms, done + t.documents))
  }

  lemma {:induction false} AfterOne(platforms: seq<Platform>, more: seq<Platform>, done: seq<Document>, documents: seq<Document>)
    requires documents != [] && WithPlatform(platforms, documents[0]) == Some(more)
    ensures After(done, Upgraded(platforms, documents))
            == After(done + [Linked(more, documents[0])], Upgraded(more, documents[1..]))
  {
    var rest := Upgraded(more, documents[1..]);
    var d := Linked(more, documents[0]);
    assert rest.Some? ==> done + ([d] + rest.value.documents) == done + [d] + rest.value.documents;
  }

  lemma {:induction false} FailsAtOnce(platforms: seq<Platform>, documents: seq<Document>)
    requires documents != []
    ensures WithPlatform(platforms, documents[0]).None? ==> Upgraded(platforms, documents).None?
  {
  }

  lemma LowerStripped(d: Document)
    requires Selected(d)
    ensures LowerAll(Strip(d.platform.value)) == Key(d)
  {
  }

  lemma {:induction false} IdsByNameAppend(platforms: seq<Platform>, p: Platform)
    ensures IdsByName(platforms + [p]) == IdsByName(platforms)[LowerAll(p.name) := p.id]
  {
    assert (platforms + [p])[..|platforms|] == platforms;
  }

  lemma AfterNothing(result: Option<Tables>)
    ensures After([], result) == result
  {
    assert result.Some? ==> [] + result.value.documents == result.value.documents;
  }

  /** A document whose name is new, and free as a slug, gets the platform created for it. */
  lemma {:induction false} CreatedLinks(platforms: seq<Platform>, d: Document)
    requires Pending(d) && Key(d) !in IdsByName(platforms) && !HasSlug(platforms, NewPlatform(platforms, d).slug)
    ensures var created := NewPlatform(platforms, d);
            && WithPlatform(platforms, d) == Some(platforms + [created])
            && IdsByName(platforms + [created]) == IdsByName(platforms)[Key(d) := created.id]
            && Linked(platforms + [created], d) == d.(platformId := Some(created.id))
  {
    LowerStripped(d);
    hide NextId, HasSlug, Slug, Key;
    IdsByNameAppend(platforms, NewPlatform(platforms, d));
  }

  class Database {
    var platforms: seq<Platform>
    var documents: seq<Document>

    constructor (platforms: seq<Platform>, documents: seq<Document>)
      ensures this.platforms == platforms && this.documents == documents
    {
      this.platforms := platforms;
      this.documents := documents;
    }

    method Upgrade() returns (ok: bool)
      modifies this
      ensures var result := Upgraded(old(platforms), old(documents));
              && (ok <==> result.Some?)
              && platforms == (if ok then result.value.platforms else old(platforms))
              && documents == (if ok then result.value.documents else old(documents))
    {
      ghost var before := documents;
      var savedPlatforms, savedDocuments := platforms, documents;
      var nameToId := IdsByName(platforms);
      assert before[0..] == before;
      AfterNothing(Upgraded(platforms, before));
      for i := 0 to |documents|
        invariant |documents| == |before|
        invariant nameToId == IdsByName(platforms)
        invariant documents[i..] == before[i..]
        invariant Upgraded(old(platforms), before) == After(documents[..i], Upgraded(platforms, before[i..]))
      {
        hide Key, Slug, NextId, HasSlug, NewPlatform, Upgraded, IdsByName, After;
        ghost var was, earlier := platforms, documents;
        var document := documents[i];
        assert before[i..][0] == document && before[i..][1..] == before[i + 1..];
        FailsAtOnce(platforms, before[i..]);
        if Selected(document) {
          var key := Key(document);
          if key != "" {
            if key !in nameToId {
              var created := NewPlatform(platforms, document);
              if HasSlug(platforms, created.slug) {
                platforms, documents := savedPlatforms, savedDocuments;
                return false;
              }
              CreatedLinks(platforms, document);
              platforms := platforms + [created];
              nameToId := nameToId[key := created.id];
            }
            documents := documents[i := document.(platformId := Some(nameToId[key]))];
          }
        }
        assert WithPlatform(was, document) == Some(platforms);
        AfterOne(was, platforms, earlier[..i], before[i..]);
        assert documents[..i + 1] == earlier[..i] + [Linked(platforms, document)];
      }
      assert before[|documents|..] == [];
      ok := true;
    }
  }

  // ----- What a successful migration does -----

  lemma {:induction false} IdsByNameNames(platforms: seq<Platform>, key: string)
    requires key in IdsByName(platforms)
    ensures exists p <- platforms :: p.id == IdsByName(platforms)[key] && LowerAll(p.name) == key
    ensures exists j: nat :: IsLastNamed(platforms, key, j) && platforms[j].id == IdsByName(platforms)[key]
  {
    hide LowerAll;
    var n := |platforms| - 1;
    if LowerAll(platforms[n].name) == key {
      assert platforms[n] in platforms;
      assert IsLastNamed(platforms, key, n);
    } else {
      var before := platforms[..n];
      IdsByNameNames(before, key);
      var j: nat :| IsLastNamed(before, key, j) && before[j].id == IdsByName(before)[key];
      assert before[j] == platforms[j] && platforms[j] in platforms;
      assert IsLastNamed(platforms, key, j);
    }
  }

  /** Of the platforms with this lower-case name, the last. */
  predicate IsLastNamed(platforms: seq<Platform>, key: string, j: nat) {
    j < |platforms| && LowerAll(platforms[j].name) == key && forall k | j < k < |platforms| :: LowerAll(platforms[k].name) != key
  }

  /** Finding or creating a document's platform gives its key an id and changes no other. */
  lemma {:induction false} WithPlatformFacts(platforms: seq<Platform>, d: Document)
    requires WithPlatform(platforms, d).Some?
    ensures var more := WithPlatform(platforms, d).value;
            && platforms <= more
            && (Pending(d) ==> Key(d) in IdsByName(more))
            && (forall k <- IdsByName(platforms) :: k in IdsByName(more) && IdsByName(more)[k] == IdsByName(platforms)[k])
            && (forall k <- IdsByName(more) :: k in IdsByName(platforms) || (Pending(d) && k == Key(d)))
  {
    hide Key, Slug, NextId, HasSlug;
    if Pending(d) && Key(d) !in IdsByName(platforms) {
      IdsByNameAppend(platforms, NewPlatform(platforms, d));
      LowerStripped(d);
    }
  }

  /** Every pending document is linked to the platform with its trimmed name in some case, the
      same one for equal names; no other document, and no platform there before, changes. */
  lemma {:induction false} LinksByName(platforms: seq<Platform>, documents: seq<Document>)
    requires Upgraded(platforms, documents).Some?
    ensures var t := Upgraded(platforms, documents).value;
            && platforms <= t.platforms && |t.documents| == |documents|
            && (forall k <- IdsByName(platforms) ::
                  k in IdsByName(t.platforms) && IdsByName(t.platforms)[k] == IdsByName(platforms)[k])
            && (forall i | 0 <= i < |documents| && Pending(documents[i]) :: Key(documents[i]) in IdsByName(t.platforms))
            && (forall i | 0 <= i < |documents| ::
                  t.documents[i] == if Pending(documents[i])
                    then documents[i].(platformId := Some(IdsByName(t.platforms)[Key(documents[i])]))
                    else documents[i])
    decreases |documents|
  {
    if documents != [] {
      hide Key, WithPlatform, Pending, IdsByName;
      var more := WithPlatform(platforms, documents[0]).value;
      var t := Upgraded(platforms, documents).value;
      WithPlatformFacts(platforms, documents[0]);
      LinksByName(more, documents[1..]);
      assert t.documents == [Linked(more, documents[0])] + Upgraded(more, documents[1..]).value.documents;
      forall i | 0 <= i < |documents| && Pending(documents[i])
        ensures Key(documents[i]) in IdsByName(t.platforms)
      {
        if i > 0 {
          assert documents[i] == documents[1..][i - 1];
        }
      }
      forall i | 0 <= i < |documents|
        ensures t.documents[i] == if Pending(documents[i])
                  then documents[i].(platformId := Some(IdsByName(t.platforms)[Key(documents[i])]))
                  else documents[i]
      {
        if i > 0 {
          assert documents[i] == documents[1..][i - 1];
        }
      }
    }
  }

  /** So each link names a platform whose name is the document's, up to case and blanks. */
  lemma {:induction false} LinkNamesPlatform(platforms: seq<Platform>, documents: seq<Document>, i: nat)
    requires Upgraded(platforms, documents).Some? && i < |documents| && Pending(documents[i])
    ensures var t := Upgraded(platforms, documents).value;
            && |t.documents| == |documents| && t.documents[i].platformId.Some?
            && exists p <- t.platforms :: p.id == t.documents[i].platformId.value && LowerAll(p.name) == Key(documents[i])
  {
    LinksByName(platforms, documents);
    IdsByNameNames(Upgraded(platforms, documents).value.platforms, Key(documents[i]));
  }

  // ----- What it does, in terms of the names -----

  /** The document has no platform yet, but the name of one, once trimmed. */
  predicate Wants(d: Document, name: string) {
    d.platformId == None && d.platform != None && name != "" && IsStripped(name, d.platform.value)
  }

  /** In lower case, with dashes for blanks and slashes. */
  predicate IsSlug(slug: string, name: string) {
    |slug| == |name| && forall k | 0 <= k < |name| ::
      if name[k] == ' ' || name[k] == '/' then slug[k] == '-' else LowerOf(slug[k], name[k])
  }

  lemma WantsIff(d: Document, name: string)
    ensures Wants(d, name) <==> Pending(d) && name == Strip(d.platform.value)
    ensures Pending(d) ==> Key(d) == LowerAll(Strip(d.platform.value))
  {
    if d.platform.Some? {
      StripIff(name, d.platform.value);
      assert Strip("") == "";
    }
  }

  lemma SlugIs(name: string)
    ensures IsSlug(Slug(LowerAll(name)), name)
  {
    forall k | 0 <= k < |name| ensures var slug := Slug(LowerAll(name));
      if name[k] == ' ' || name[k] == '/' then slug[k] == '-' else LowerOf(slug[k], name[k])
    {
      LowerIsLowerOf(name[k]);
    }
  }

  /** A platform that the migration adds: after those before it in `all`, for the name of one of
      the documents, which none before it has. */
  ghost predicate IsAdded(all: seq<Platform>, j: nat, documents: seq<Document>) {
    && j < |all| && IsSlug(all[j].slug, all[j].name)
    && (exists i | 0 <= i < |documents| :: Wants(documents[i], all[j].name))
    && forall k | 0 <= k < j :: all[k].id < all[j].id && !SameButForCase(all[k].name, all[j].name)
  }

  lemma NewPlatformIs(platforms: seq<Platform>, d: Document)
    requires Pending(d)
    ensures var p := NewPlatform(platforms, d);
      Wants(d, p.name) && IsSlug(p.slug, p.name) && Key(d) == LowerAll(p.name) && forall q <- platforms :: q.id < p.id
  {
    WantsIff(d, Strip(d.platform.value));
    SlugIs(Strip(d.platform.value));
    hide Wants, IsSlug, Slug, Strip, LowerAll, NextId;
  }

  lemma {:induction false} NewPlatformIsAdded(platforms: seq<Platform>, d: Document)
    requires Pending(d) && Key(d) !in IdsByName(platforms)
    ensures IsAdded(platforms + [NewPlatform(platforms, d)], |platforms|, [d])
  {
    hide Wants, IsSlug, Key, LowerAll, SameButForCase, IdsByName, NewPlatform, IsAdded;
    NewPlatformIs(platforms, d);
    var p := NewPlatform(platforms, d);
    forall k | 0 <= k < |platforms| ensures platforms[k].id < p.id && !SameButForCase(platforms[k].name, p.name) {
      LowerAllAgree(platforms[k].name, p.name);
      KeyOfPlatform(platforms, k);
    }
    AddedLast(platforms, p, [d], 0);
  }

  lemma AddedLast(platforms: seq<Platform>, p: Platform, documents: seq<Document>, i: nat)
    requires i < |documents| && Wants(documents[i], p.name) && IsSlug(p.slug, p.name)
    requires forall k | 0 <= k < |platforms| :: platforms[k].id < p.id && !SameButForCase(platforms[k].name, p.name)
    ensures IsAdded(platforms + [p], |platforms|, documents)
  {
    hide Wants, IsSlug, SameButForCase;
  }

  lemma {:induction false} KeyOfPlatform(platforms: seq<Platform>, k: nat)
    requires k < |platforms|
    ensures LowerAll(platforms[k].name) in IdsByName(platforms)
  {
    hide LowerAll;
    if k < |platforms| - 1 {
      KeyOfPlatform(platforms[..|platforms| - 1], k);
    }
  }

  lemma AddedElsewhere(some: seq<Platform>, all: seq<Platform>, j: nat, few: seq<Document>, documents: seq<Document>, at: nat)
    requires IsAdded(some, j, few) && some <= all && at + |few| <= |documents| && documents[at..at + |few|] == few
    ensures IsAdded(all, j, documents)
  {
    hide Wants, IsSlug, SameButForCase;
    assert forall k | 0 <= k <= j :: all[k] == some[k];
    var i :| 0 <= i < |few| && Wants(few[i], some[j].name);
    assert documents[at + i] == few[i];
  }

  lemma {:induction false} PlatformsAreAdded(platforms: seq<Platform>, documents: seq<Document>, j: nat)
    requires Upgraded(platforms, documents).Some?
    requires |platforms| <= j < |Upgraded(platforms, documents).value.platforms|
    ensures IsAdded(Upgraded(platforms, documents).value.platforms, j, documents)
    decreases |documents|
  {
    var d, rest := documents[0], documents[1..];
    var more, all := WithPlatform(platforms, d).value, Upgraded(platforms, documents).value.platforms;
    LinksByName(more, rest);
    assert more <= all;
    hide IsAdded, Key, Pending, IdsByName, NewPlatform, HasSlug;
    if j < |more| {
      NewPlatformIsAdded(platforms, d);
      AddedElsewhere(more, all, j, [d], documents, 0);
    } else {
      PlatformsAreAdded(more, rest, j);
      AddedElsewhere(all, all, j, rest, documents, 1);
    }
  }

  /** Whatever the names: a document that wants a platform is linked to the last one with its
      trimmed name in some case, the others stay as they are, and so do the platforms; those
      added behind them have new names that are wanted. */
  lemma {:induction false} UpgradeGivesTheWanted(platforms: seq<Platform>, documents: seq<Document>)
    requires Upgraded(platforms, documents).Some?
    ensures var t := Upgraded(platforms, documents).value;
      && platforms <= t.platforms && |t.documents| == |documents|
      && (forall j: nat | |platforms| <= j < |t.platforms| :: IsAdded(t.platforms, j, documents))
      && (forall i | 0 <= i < |documents| && (forall name :: !Wants(documents[i], name)) :: t.documents[i] == documents[i])
      && (forall i, name | 0 <= i < |documents| && Wants(documents[i], name) ::
            exists j | 0 <= j < |t.platforms| ::
              && SameButForCase(t.platforms[j].name, name) && t.documents[i] == documents[i].(platformId := Some(t.platforms[j].id))
              && forall k | j < k < |t.platforms| :: !SameButForCase(t.platforms[k].name, name))
  {
    var t := Upgraded(platforms, documents).value;
    LinksByName(platforms, documents);
    forall j: nat | |platforms| <= j < |t.platforms| ensures IsAdded(t.platforms, j, documents) {
      PlatformsAreAdded(platforms, documents, j);
    }
    hide Upgraded, IsAdded, Wants, Pending, Key, LowerAll, SameButForCase, IdsByName, Strip;
    forall i | 0 <= i < |documents| && (forall name :: !Wants(documents[i], name)) ensures t.documents[i] == documents[i] {
      if Pending(documents[i]) {
        NameWanted(documents[i]);
      }
    }
    forall i, name | 0 <= i < |documents| && Wants(documents[i], name)
      ensures exists j | 0 <= j < |t.platforms| ::
        && SameButForCase(t.platforms[j].name, name) && t.documents[i] == documents[i].(platformId := Some(t.platforms[j].id))
        && forall k | j < k < |t.platforms| :: !SameButForCase(t.platforms[k].name, name)
    {
      WantsIff(documents[i], name);
      IdsByNameNames(t.platforms, LowerAll(name));
      var j: nat :| IsLastNamed(t.platforms, LowerAll(name), j) && t.platforms[j].id == IdsByName(t.platforms)[LowerAll(name)];
      forall k | 0 <= k < |t.platforms| ensures LowerAll(t.platforms[k].name) == LowerAll(name) <==> SameButForCase(t.platforms[k].name, name) {
        LowerAllAgree(t.platforms[k].name, name);
      }
    }
  }

  lemma NameWanted(d: Document)
    requires Pending(d)
    ensures exists name :: Wants(d, name)
  {
    WantsIff(d, Strip(d.platform.value));
  }

  lemma {:induction false} NothingPending(platforms: seq<Platform>, documents: seq<Document>)
    requires forall d <- documents :: !Pending(d)
    ensures Upgraded(platforms, documents) == Some(Tables(platforms, documents))
    decreases |documents|
  {
    if documents != [] {
      assert !Pending(documents[0]);
      NothingPending(platforms, documents[1..]);
      assert documents == [documents[0]] + documents[1..];
    }
  }

  /** Running it again changes nothing. */
  lemma {:induction false} UpgradedTwice(platforms: seq<Platform>, documents: seq<Document>)
    requires Upgraded(platforms, documents).Some?
    ensures var t := Upgraded(platforms, documents).value; Upgraded(t.platforms, t.documents) == Some(t)
  {
    LinksByName(platforms, documents);
    hide Upgraded;
    var t := Upgraded(platforms, documents).value;
    NothingPending(t.platforms, t.documents);
  }

  // ----- When it succeeds -----

  /** The keys no known platform has, in the order they are first met. */
  function NewKeys(known: set<string>, documents: seq<Document>): seq<string>
    decreases |documents|
  {
    if documents == [] then []
    else if Pending(documents[0]) && Key(documents[0]) !in known then
      [Key(documents[0])] + NewKeys(known + {Key(documents[0])}, documents[1..])
    else NewKeys(known, documents[1..])
  }

  /** The new keys' slugs are free and different. */
  ghost predicate SlugsFree(platforms: seq<Platform>, keys: seq<string>) {
    && (forall i | 0 <= i < |keys| :: !HasSlug(platforms, Slug(keys[i])))
    && (forall i, j | 0 <= i < j < |keys| :: Slug(keys[i]) != Slug(keys[j]))
  }

  lemma HasSlugAppend(platforms: seq<Platform>, p: Platform, slug: string)
    ensures HasSlug(platforms + [p], slug) <==> HasSlug(platforms, slug) || p.slug == slug
  {
    var more := platforms + [p];
    if HasSlug(platforms, slug) {
      var i :| 0 <= i < |platforms| && platforms[i].slug == slug;
      assert more[i].slug == slug;
    }
    assert more[|platforms|] == p;
  }

  /** A first new key: its slug must be free, and taken for the rest. */
  lemma SlugsFreeStep(platforms: seq<Platform>, p: Platform, keys: seq<string>)
    requires keys != [] && p.slug == Slug(keys[0])
    ensures SlugsFree(platforms, keys) <==> !HasSlug(platforms, Slug(keys[0])) && SlugsFree(platforms + [p], keys[1..])
  {
    hide Slug, HasSlug;
    var rest := keys[1..];
    forall i | 0 <= i < |rest|
      ensures HasSlug(platforms + [p], Slug(rest[i])) <==> HasSlug(platforms, Slug(keys[i + 1])) || Slug(keys[0]) == Slug(keys[i + 1])
    {
      HasSlugAppend(platforms, p, Slug(rest[i]));
    }
    if !HasSlug(platforms, Slug(keys[0])) && SlugsFree(platforms + [p], rest) {
      forall i, j | 0 <= i < j < |keys| ensures Slug(keys[i]) != Slug(keys[j]) {
        assert keys[j] == rest[j - 1] && (i > 0 ==> keys[i] == rest[i - 1]);
      }
      forall i | 0 <= i < |keys| ensures !HasSlug(platforms, Slug(keys[i])) {
        assert i > 0 ==> keys[i] == rest[i - 1];
      }
    }
    if SlugsFree(platforms, keys) {
      forall i | 0 <= i < |rest| ensures !HasSlug(platforms + [p], Slug(rest[i])) {
        assert rest[i] == keys[i + 1];
      }
      forall i, j | 0 <= i < j < |rest| ensures Slug(rest[i]) != Slug(rest[j]) {
        assert rest[i] == keys[i + 1] && rest[j] == keys[j + 1];
      }
    }
  }

  /** The migration succeeds exactly when the names that need a new platform have slugs that
      are free and different; it then adds one platform for each. */
  lemma {:induction false} SucceedsIffSlugsFree(platforms: seq<Platform>, documents: seq<Document>)
    ensures var keys := NewKeys(IdsByName(platforms).Keys, documents);
            && (Upgraded(platforms, documents).Some? <==> SlugsFree(platforms, keys))
            && (Upgraded(platforms, documents).Some? ==>
                  |Upgraded(platforms, documents).value.platforms| == |platforms| + |keys|)
    decreases |documents|
  {
    if documents != [] {
      hide Key, Slug, HasSlug, SlugsFree, IdsByName, NextId;
      var d, rest := documents[0], documents[1..];
      var known := IdsByName(platforms).Keys;
      if Pending(d) && Key(d) !in known {
        var p := NewPlatform(platforms, d);
        var keys := NewKeys(known, documents);
        IdsByNameAppend(platforms, p);
        LowerStripped(d);
        assert IdsByName(platforms + [p]).Keys == known + {Key(d)};
        assert keys[1..] == NewKeys(known + {Key(d)}, rest);
        SlugsFreeStep(platforms, p, keys);
        SucceedsIffSlugsFree(platforms + [p], rest);
      } else {
        SucceedsIffSlugsFree(platforms, rest);
      }
    } else {
      assert SlugsFree(platforms, []);
    }
  }
}
