/** Refresh-token records (`refresh_token_service.py`): issuing, the lookup by an indexed
    prefix, and invalidation. A stored hash is compared through `digest`, what the password
    hash depends on; clocks and random strings are parameters. */
module RefreshTokens {
  import opened Options
  import opened Sequences
  import opened Text

  const TOKEN_PREFIX_LENGTH := 8

  /** `prefix` is missing on rows older than the column. */
  datatype Record = Record(userId: nat, hash: string, prefix: Option<string>, expiresAt: int, usedAt: Option<int>)

  // ----- Tokens -----

  /** `secrets.token_urlsafe`. */
  predicate UrlSafe(s: string) {
    s != "" && forall i | 0 <= i < |s| ::
      'A' <= s[i] <= 'Z' || 'a' <= s[i] <= 'z' || '0' <= s[i] <= '9' || s[i] == '-' || s[i] == '_'
  }

  function BuildRefreshToken(random: string, sessionIdentifier: Option<string>): string {
    if sessionIdentifier.Some? && sessionIdentifier.value != ""
    then sessionIdentifier.value + "." + random
    else random
  }

  function ParseSessionIdentifier(token: string): Option<string> {
    if '.' !in token then None
    else
      var identifier := Strip(Split(token, '.')[0]);
      if identifier == "" then None else Some(identifier)
  }

  function Prefix(token: string): (p: string)
    ensures p <= token && |p| == if |token| < 8 then |token| else 8
  {
    if |token| <= TOKEN_PREFIX_LENGTH then token else token[..TOKEN_PREFIX_LENGTH]
  }

  /** Password-reset and email-verification tokens. */
  predicate OtherFamily(token: string) {
    StartsWith(token, "pr_") || StartsWith(token, "ev_")
  }

  lemma UrlSafeFacts(s: string)
    requires UrlSafe(s)
    ensures '.' !in s && Strip(s) == s
  {
    assert !IsSpace(s[0]) && !IsSpace(s[|s| - 1]);
  }

  lemma {:induction false} DotSplits(s: string)
    requires '.' in s
    ensures |Split(s, '.')[0]| < |s| && '.' !in Split(s, '.')[0]
  {
    SplitPieces(s, '.');
    if s[0] != '.' {
      assert '.' in s[1..];
      DotSplits(s[1..]);
    }
  }

  lemma StripShortens(s: string)
    ensures |Strip(s)| <= |s|
    ensures Strip(s) == s <==> Trimmed(s)
  {
    var lo, hi := StripMiddle(s);
    if Trimmed(s) && s != "" {
      assert lo == 0 && hi == |s|;
    }
    if Strip(s) == s && s != "" {
      assert |s[lo..hi]| == |s|;
    }
  }

  /** Parsing a built token gives the identifier back exactly when that is absent, or
      non-empty, trimmed and without a dot. */
  lemma ParseBuild(random: string, sessionIdentifier: Option<string>)
    requires UrlSafe(random)
    ensures ParseSessionIdentifier(BuildRefreshToken(random, sessionIdentifier)) == sessionIdentifier
            <==> (sessionIdentifier.Some? ==>
                    sessionIdentifier.value != "" && Trimmed(sessionIdentifier.value) && '.' !in sessionIdentifier.value)
  {
    UrlSafeFacts(random);
    if sessionIdentifier.Some? && sessionIdentifier.value != "" {
      var sid := sessionIdentifier.value;
      var token := BuildRefreshToken(random, sessionIdentifier);
      assert token[|sid|] == '.';
      if '.' !in sid {
        SplitFirst(sid, random, '.');
        StripShortens(sid);
      } else {
        var head := Split(sid, '.')[0];
        DotSplits(sid);
        FirstPieceOfPrefix(sid, "." + random);
        assert sid + ("." + random) == token;
        StripShortens(head);
      }
    }
  }

  lemma {:induction false} FirstPieceOfPrefix(s: string, rest: string)
    requires '.' in s
    ensures Split(s + rest, '.')[0] == Split(s, '.')[0]
  {
    assert (s + rest)[1..] == s[1..] + rest;
    if s[0] != '.' {
      FirstPieceOfPrefix(s[1..], rest);
    }
  }

  /** A parsed identifier is never blank, which is what hashing it asks for. */
  lemma ParsedIsNotBlank(token: string)
    requires ParseSessionIdentifier(token).Some?
    ensures ParseSessionIdentifier(token).value != "" && Trimmed(ParseSessionIdentifier(token).value)
    ensures '.' !in ParseSessionIdentifier(token).value
  {
    var head := Split(token, '.')[0];
    StripTrims(head);
    DotSplits(token);
    var lo, hi := StripMiddle(head);
  }

  // ----- Lookup -----

  predicate Live(r: Record, now: int) {
    r.expiresAt > now && r.usedAt.None?
  }

  predicate Indexed(r: Record, token: string, now: int) {
    Live(r, now) && r.prefix == Some(Prefix(token))
  }

  predicate Legacy(r: Record, now: int) {
    Live(r, now) && r.prefix.None?
  }

  predicate Verifies(digest: string -> string, token: string, r: Record) {
    r.hash == digest(token)
  }

  /** Index of the record found: among the rows with the token's prefix, and only when there
      are none of those, among the rows without a prefix. */
  function Lookup(digest: string -> string, records: seq<Record>, token: string, now: int): (found: Option<nat>)
    ensures found.Some? ==>
              && found.value < |records| && Live(records[found.value], now)
              && Verifies(digest, token, records[found.value])
  {
    if OtherFamily(token) then None
    else
      var i := First(r => Indexed(r, token, now) && Verifies(digest, token, r), records);
      if i < |records| then Some(i)
      else if First(r => Indexed(r, token, now), records) < |records| then None
      else
        var j := First(r => Legacy(r, now) && Verifies(digest, token, r), records);
        if j < |records| then Some(j) else None
  }

  /** What a scan of all live records would accept. */
  ghost predicate ScanFinds(digest: string -> string, records: seq<Record>, token: string, now: int) {
    exists i | 0 <= i < |records| :: Live(records[i], now) && Verifies(digest, token, records[i])
  }

  /** Tokens the hash cannot tell apart begin alike. */
  ghost predicate SeesPrefix(digest: string -> string) {
    forall a, b :: digest(a) == digest(b) ==> Prefix(a) == Prefix(b)
  }

  /** A filled-in prefix is that of a token with the row's hash. */
  ghost predicate WellIndexed(digest: string -> string, r: Record) {
    r.prefix.Some? ==> exists token :: digest(token) == r.hash && Prefix(token) == r.prefix.value
  }

  /** Some live row has the token's prefix, but only a row without a prefix is the token's. */
  ghost predicate Shadowed(digest: string -> string, records: seq<Record>, token: string, now: int) {
    && (exists i | 0 <= i < |records| :: Indexed(records[i], token, now))
    && (forall i | 0 <= i < |records| && Verifies(digest, token, records[i]) :: !Indexed(records[i], token, now))
  }

  /** The indexed lookup finds a record exactly when a full scan does, unless the token's own
      record has no prefix and another token's live record shares its prefix. */
  lemma LookupAgreesWithScan(digest: string -> string, records: seq<Record>, token: string, now: int)
    requires SeesPrefix(digest) && forall r <- records :: WellIndexed(digest, r)
    requires !OtherFamily(token)
    ensures Lookup(digest, records, token, now).Some?
            <==> ScanFinds(digest, records, token, now) && !Shadowed(digest, records, token, now)
  {
    var i := First(r => Indexed(r, token, now) && Verifies(digest, token, r), records);
    var any := First(r => Indexed(r, token, now), records);
    var j := First(r => Legacy(r, now) && Verifies(digest, token, r), records);
    if i < |records| {
      assert Live(records[i], now) && Verifies(digest, token, records[i]);
    } else if any < |records| {
      assert Indexed(records[any], token, now);
    } else if j < |records| {
      assert Live(records[j], now) && Verifies(digest, token, records[j]);
    } else {
      forall k | 0 <= k < |records| && Live(records[k], now)
        ensures !Verifies(digest, token, records[k])
      {
        assert WellIndexed(digest, records[k]);
      }
    }
  }

  // ----- The lookup, in terms of rows and characters -----

  /** An unused row of the token that has not expired. */
  predicate IsTokens(r: Record, hash: string, now: int) {
    r.hash == hash && r.usedAt == None && now < r.expiresAt
  }

  /** The row is the token's, and no token of another family asks: the first such row under
      the token's prefix, or, when nothing usable is under it, the first without a prefix. */
  predicate FoundAt(digest: string -> string, records: seq<Record>, token: string, now: int, k: nat) {
    && !(|token| >= 3 && (token[..3] == "pr_" || token[..3] == "ev_"))
    && k < |records| && IsTokens(records[k], digest(token), now)
    && (forall j | 0 <= j < k && IsTokens(records[j], digest(token), now) :: records[j].prefix != records[k].prefix)
    && (records[k].prefix == Some(Prefix(token))
        || (records[k].prefix == None
            && forall j | 0 <= j < |records| && records[j].prefix == Some(Prefix(token)) ::
                 !IsTokens(records[j], records[j].hash, now)))
  }

  /** What stands before the first dot of the token is, without the white space around it, this
      identifier, and not blank. */
  ghost predicate NamesSession(token: string, identifier: string) {
    identifier != "" && exists d | 0 <= d < |token| :: token[d] == '.' && '.' !in token[..d] && identifier == Strip(token[..d])
  }

  lemma ParsedIff(token: string, identifier: string)
    ensures ParseSessionIdentifier(token) == Some(identifier) <==> NamesSession(token, identifier)
  {
    hide Strip;
    forall d | 0 <= d < |token| && token[d] == '.' && '.' !in token[..d]
      ensures '.' in token && Split(token, '.')[0] == token[..d]
    {
      SplitFirst(token[..d], token[d + 1..], '.');
      assert token[..d] + ['.'] + token[d + 1..] == token;
    }
    if '.' in token {
      var d := FirstDot(token);
    }
  }

  lemma {:induction false} FirstDot(token: string) returns (d: nat)
    requires '.' in token
    ensures d < |token| && token[d] == '.' && '.' !in token[..d]
  {
    if token[0] == '.' {
      d := 0;
    } else {
      d := FirstDot(token[1..]);
      d := d + 1;
      assert token[..d] == [token[0]] + token[1..][..d - 1];
    }
  }

  lemma OtherFamilyIff(token: string)
    ensures OtherFamily(token) <==> |token| >= 3 && (token[..3] == "pr_" || token[..3] == "ev_")
  {
  }

  /** The lookup finds exactly that row. */
  lemma LookupIff(digest: string -> string, records: seq<Record>, token: string, now: int, k: nat)
    ensures Lookup(digest, records, token, now) == Some(k) <==> FoundAt(digest, records, token, now, k)
  {
    OtherFamilyIff(token);
    hide OtherFamily, Prefix;
    var i := First(r => Indexed(r, token, now) && Verifies(digest, token, r), records);
    var any := First(r => Indexed(r, token, now), records);
    var j := First(r => Legacy(r, now) && Verifies(digest, token, r), records);
    hide First;
    forall r: Record
      ensures Indexed(r, token, now) && Verifies(digest, token, r)
              <==> IsTokens(r, digest(token), now) && r.prefix == Some(Prefix(token))
      ensures Legacy(r, now) && Verifies(digest, token, r) <==> IsTokens(r, digest(token), now) && r.prefix == None
      ensures Indexed(r, token, now) <==> r.prefix == Some(Prefix(token)) && IsTokens(r, r.hash, now)
    {
    }
    hide Indexed, Legacy, Verifies, IsTokens;
  }

  // ----- Changes of the records -----

  function Issued(userId: nat, token: string, digest: string -> string, expiresAt: int): Record {
    Record(userId, digest(token), Some(Prefix(token)), expiresAt, None)
  }

  function MarkUsed(r: Record, now: int): Record {
    r.(usedAt := if r.usedAt.None? then Some(now) else r.usedAt)
  }

  function Invalidated(records: seq<Record>, userId: nat, now: int): (r: seq<Record>)
    ensures |r| == |records|
  {
    seq(|records|, i requires 0 <= i < |records| =>
      if records[i].userId == userId then MarkUsed(records[i], now) else records[i])
  }

  // ----- Every state the service reaches -----

  /** What changes the records: a token issued, one exchanged, a user's tokens invalidated. */
  datatype Change =
    | Issue(userId: nat, sessionIdentifier: Option<string>, random: string, expiresAt: int)
    | Redeem(position: nat, now: int)
    | Invalidate(userId: nat, now: int)

  function Changed(digest: string -> string, records: seq<Record>, change: Change): seq<Record> {
    match change
    case Issue(u, sid, random, expiresAt) => records + [Issued(u, BuildRefreshToken(random, sid), digest, expiresAt)]
    case Redeem(k, now) => if k < |records| then records[k := MarkUsed(records[k], now)] else records
    case Invalidate(u, now) => Invalidated(records, u, now)
  }

  function ChangedAll(digest: string -> string, records: seq<Record>, changes: seq<Change>): seq<Record>
    decreases |changes|
  {
    if changes == [] then records else ChangedAll(digest, Changed(digest, records, changes[0]), changes[1..])
  }

  ghost predicate AllWellIndexed(digest: string -> string, records: seq<Record>) {
    forall i | 0 <= i < |records| :: WellIndexed(digest, records[i])
  }

  lemma ChangeKeepsIndex(digest: string -> string, records: seq<Record>, change: Change)
    requires AllWellIndexed(digest, records)
    ensures AllWellIndexed(digest, Changed(digest, records, change))
  {
    var after := Changed(digest, records, change);
    if change.Issue? {
      var token := BuildRefreshToken(change.random, change.sessionIdentifier);
      assert digest(token) == after[|records|].hash && Prefix(token) == after[|records|].prefix.value;
    }
    hide Prefix, BuildRefreshToken;
    forall i | 0 <= i < |after| ensures WellIndexed(digest, after[i]) {
      if i < |records| {
        assert WellIndexed(digest, records[i]);
        assert after[i].hash == records[i].hash && after[i].prefix == records[i].prefix;
      }
    }
  }

  lemma {:induction false} ChangesKeepIndex(digest: string -> string, records: seq<Record>, changes: seq<Change>)
    requires AllWellIndexed(digest, records)
    ensures AllWellIndexed(digest, ChangedAll(digest, records, changes))
    decreases |changes|
  {
    if changes != [] {
      hide AllWellIndexed, Changed;
      ChangeKeepsIndex(digest, records, changes[0]);
      ChangesKeepIndex(digest, Changed(digest, records, changes[0]), changes[1..]);
    }
  }

  /** From any table, with or without prefixes, whatever is issued, exchanged and invalidated,
      the indexed lookup finds a record exactly when a full scan does and the token's own
      record is not one without a prefix behind another token's live one. */
  lemma {:induction false} LookupAgreesInEveryState(digest: string -> string, existing: seq<Record>, changes: seq<Change>, token: string, now: int)
    requires SeesPrefix(digest) && AllWellIndexed(digest, existing)
    requires !OtherFamily(token)
    ensures var records := ChangedAll(digest, existing, changes);
            Lookup(digest, records, token, now).Some?
            <==> ScanFinds(digest, records, token, now) && !Shadowed(digest, records, token, now)
  {
    var records := ChangedAll(digest, existing, changes);
    ChangesKeepIndex(digest, existing, changes);
    hide Lookup, ScanFinds, Shadowed, WellIndexed, ChangedAll;
    LookupAgreesWithScan(digest, records, token, now);
  }

  ghost predicate AllPrefixed(records: seq<Record>) {
    forall i | 0 <= i < |records| :: records[i].prefix.Some?
  }

  lemma {:induction false} ChangesKeepPrefixes(digest: string -> string, records: seq<Record>, changes: seq<Change>)
    requires AllPrefixed(records)
    ensures AllPrefixed(ChangedAll(digest, records, changes))
    decreases |changes|
  {
    if changes != [] {
      hide Prefix, BuildRefreshToken;
      ChangesKeepPrefixes(digest, Changed(digest, records, changes[0]), changes[1..]);
    }
  }

  /** Without rows older than the column the two agree in every state. */
  lemma {:induction false} PrefixedLookupIsScan(digest: string -> string, existing: seq<Record>, changes: seq<Change>, token: string, now: int)
    requires SeesPrefix(digest) && AllWellIndexed(digest, existing) && AllPrefixed(existing)
    requires !OtherFamily(token)
    ensures var records := ChangedAll(digest, existing, changes);
            Lookup(digest, records, token, now).Some? <==> ScanFinds(digest, records, token, now)
  {
    var records := ChangedAll(digest, existing, changes);
    ChangesKeepPrefixes(digest, existing, changes);
    ChangesKeepIndex(digest, existing, changes);
    LookupAgreesInEveryState(digest, existing, changes, token, now);
    hide Lookup, ChangedAll, Prefix;
    if ScanFinds(digest, records, token, now) {
      var i :| 0 <= i < |records| && Live(records[i], now) && Verifies(digest, token, records[i]);
      assert WellIndexed(digest, records[i]);
      assert Indexed(records[i], token, now);
    }
  }

  /** Issuing a token hides a live row without a prefix whose token begins alike. */
  lemma IssueHidesLegacy(digest: string -> string, userId: nat, token: string, expiresAt: int, issue: Change, now: int)
    requires issue.Issue? && issue.expiresAt > now && expiresAt > now && !OtherFamily(token)
    requires Prefix(BuildRefreshToken(issue.random, issue.sessionIdentifier)) == Prefix(token)
    requires digest(BuildRefreshToken(issue.random, issue.sessionIdentifier)) != digest(token)
    ensures var legacy := [Record(userId, digest(token), None, expiresAt, None)];
            && Lookup(digest, legacy, token, now) == Some(0)
            && ScanFinds(digest, ChangedAll(digest, legacy, [issue]), token, now)
            && Lookup(digest, ChangedAll(digest, legacy, [issue]), token, now) == None
  {
    var legacy := [Record(userId, digest(token), None, expiresAt, None)];
    var issued := BuildRefreshToken(issue.random, issue.sessionIdentifier);
    var records := Changed(digest, legacy, issue);
    hide Prefix, BuildRefreshToken, OtherFamily;
    assert [issue][1..] == [];
    assert ChangedAll(digest, legacy, [issue]) == ChangedAll(digest, records, []) == records;
    assert Live(records[0], now) && Verifies(digest, token, records[0]);
    assert Indexed(records[1], token, now);
    assert Live(legacy[0], now) && Verifies(digest, token, legacy[0]);
  }

  // ----- The service -----

  class RefreshTokenService {
    var records: seq<Record>

    constructor (existing: seq<Record>)
      ensures records == existing
    {
      records := existing;
    }

    method IssueRefreshToken(digest: string -> string, userId: nat, sessionIdentifier: Option<string>,
                             random: string, expiresAt: int) returns (token: string)
      modifies this
      ensures token == BuildRefreshToken(random, sessionIdentifier)
      ensures token == if sessionIdentifier.None? || sessionIdentifier.value == "" then random else sessionIdentifier.value + "." + random
      ensures records == old(records) + [Record(userId, digest(token), Some(Prefix(token)), expiresAt, None)]
    {
      token := BuildRefreshToken(random, sessionIdentifier);
      var tokenPrefix := Prefix(token);
      records := records + [Record(userId, digest(token), Some(tokenPrefix), expiresAt, None)];
    }

    method FindValidRecord(digest: string -> string, token: string, now: int) returns (found: Option<nat>)
      ensures found == Lookup(digest, records, token, now)
      ensures forall k: nat :: found == Some(k) <==> FoundAt(digest, records, token, now, k)
    {
      forall k: nat ensures Lookup(digest, records, token, now) == Some(k) <==> FoundAt(digest, records, token, now, k) {
        LookupIff(digest, records, token, now, k);
      }
      hide FoundAt;
      if OtherFamily(token) {
        return None;
      }
      var any := false;
      var i := 0;
      while i < |records|
        invariant i <= |records|
        invariant forall j | 0 <= j < i :: !(Indexed(records[j], token, now) && Verifies(digest, token, records[j]))
        invariant any <==> exists j | 0 <= j < i :: Indexed(records[j], token, now)
      {
        if Indexed(records[i], token, now) {
          any := true;
          if Verifies(digest, token, records[i]) {
            return Some(i);
          }
        }
        i := i + 1;
      }
      if !any {
        i := 0;
        while i < |records|
          invariant i <= |records|
          invariant forall j | 0 <= j < i :: !(Legacy(records[j], now) && Verifies(digest, token, records[j]))
        {
          if Legacy(records[i], now) && Verifies(digest, token, records[i]) {
            return Some(i);
          }
          i := i + 1;
        }
      }
      return None;
    }

    method InvalidateUserTokens(userId: nat, now: int)
      modifies this
      ensures records == Invalidated(old(records), userId, now)
      ensures |records| == |old(records)| && forall i | 0 <= i < |records| ::
        records[i] == if old(records)[i].userId == userId && old(records)[i].usedAt == None
                      then old(records)[i].(usedAt := Some(now)) else old(records)[i]
    {
      ghost var before := records;
      var i := 0;
      while i < |records|
        invariant i <= |records| == |before|
        invariant forall j | 0 <= j < i :: records[j] == Invalidated(before, userId, now)[j]
        invariant forall j | i <= j < |records| :: records[j] == before[j]
      {
        if records[i].userId == userId && records[i].usedAt.None? {
          records := records[i := records[i].(usedAt := Some(now))];
        }
        i := i + 1;
      }
    }
  }
}
