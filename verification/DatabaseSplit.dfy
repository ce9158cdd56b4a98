/** Splitting one database into three (`split_databases.py`): what copying and cleaning up
    do to the rows, and when no row is lost. The files' backups are not part of this model. */
module DatabaseSplit {
  import opened Options
  import opened Sequences

  datatype Row = Row(key: int, data: string)

  type Tables = map<string, seq<Row>>

  /** A target table's constraints: which rows may be stored at all (NOT NULL, CHECK), and
      which two rows break a uniqueness constraint together. */
  datatype Rules = Rules(fits: Row -> bool, clash: (Row, Row) -> bool)

  type Schema = string -> Rules

  const ANALYTICS_TABLES := [
    "audit_logs", "security_events", "search_analytics", "nps_surveys", "onboarding_events",
    "activation_milestones", "domain_event_outbox"]

  const CHAT_TABLES_ORDERED := [
    "chats", "chat_participants", "chat_messages", "notifications", "assistant_conversations",
    "assistant_messages", "assistant_uploaded_files", "collaboration_sessions",
    "collaboration_activities", "collaboration_snapshots"]

  function RowsOf(db: Tables, table: string): seq<Row> {
    if table in db then db[table] else []
  }

  predicate Clashes(rules: Rules, rows: seq<Row>, row: Row) {
    exists r <- rows :: rules.clash(r, row)
  }

  /** What `INSERT OR IGNORE` passes over. */
  predicate Refused(rules: Rules, rows: seq<Row>, row: Row) {
    !rules.fits(row) || Clashes(rules, rows, row)
  }

  /** `INSERT OR IGNORE` of the rows, one after another. */
  function Inserted(rules: Rules, have: seq<Row>, rows: seq<Row>): seq<Row>
    decreases |rows|
  {
    if rows == [] then have
    else Inserted(rules, if Refused(rules, have, rows[0]) then have else have + [rows[0]], rows[1..])
  }

  /** Whether copying looks at the rows at all. */
  predicate Copies(src: Tables, dst: Tables, table: string) {
    |RowsOf(dst, table)| < |RowsOf(src, table)|
  }

  function Copied(schema: Schema, src: Tables, dst: Tables, table: string): Tables {
    if Copies(src, dst, table) then dst[table := Inserted(schema(table), RowsOf(dst, table), RowsOf(src, table))] else dst
  }

  function CopiedAll(schema: Schema, src: Tables, dst: Tables, tables: seq<string>): Tables {
    if tables == [] then dst
    else
      var n := |tables| - 1;
      Copied(schema, src, CopiedAll(schema, src, dst, tables[..n]), tables[n])
  }

  function Emptied(db: Tables, tables: seq<string>): Tables {
    map t | t in db :: if t in tables then [] else db[t]
  }

  predicate Verified(src: Tables, dst: Tables, tables: seq<string>) {
    forall t <- tables :: |RowsOf(dst, t)| >= |RowsOf(src, t)|
  }

  class Database {
    var tables: Tables

    constructor (tables: Tables)
      ensures this.tables == tables
    {
      this.tables := tables;
    }

    function TableExists(table: string): bool
      reads this
    {
      table in tables
    }

    function RowCount(table: string): (n: nat)
      reads this
      ensures n == |RowsOf(tables, table)|
    {
      if TableExists(table) then |tables[table]| else 0
    }

    method InsertOrIgnore(rules: Rules, table: string, rows: seq<Row>)
      requires table in tables
      modifies this
      ensures tables == old(tables)[table := Inserted(rules, old(tables)[table], rows)]
    {
      ghost var before := tables;
      for i := 0 to |rows|
        invariant table in tables && tables == before[table := tables[table]]
        invariant Inserted(rules, tables[table], rows[i..]) == Inserted(rules, before[table], rows)
      {
        assert rows[i..][0] == rows[i] && rows[i..][1..] == rows[i + 1..];
        if !Refused(rules, tables[table], rows[i]) {
          tables := tables[table := tables[table] + [rows[i]]];
        }
      }
      assert rows[|rows|..] == [];
    }
  }

  /** Copies one table; returns how many rows were, or in a dry run would be, copied. */
  method CopyTable(schema: Schema, src: Database, dst: Database, table: string, dryRun: bool)
    returns (copied: int)
    requires src != dst
    modifies dst
    ensures dst.tables == if dryRun then old(dst.tables) else Copied(schema, src.tables, old(dst.tables), table)
    ensures copied == if |RowsOf(src.tables, table)| <= |RowsOf(old(dst.tables), table)| then 0
                      else if dryRun then |RowsOf(src.tables, table)|
                      else |RowsOf(dst.tables, table)| - |RowsOf(old(dst.tables), table)|
  {
    if !src.TableExists(table) {
      return 0;
    }
    var srcCount := src.RowCount(table);
    if srcCount == 0 {
      return 0;
    }
    if !dst.TableExists(table) {
      if !dryRun {
        dst.tables := dst.tables[table := []];
      }
    }
    var dstCount := dst.RowCount(table);
    if dstCount >= srcCount {
      return 0;
    }
    var rows := src.tables[table];
    if dryRun {
      return |rows|;
    }
    ghost var before := old(dst.tables);
    dst.InsertOrIgnore(schema(table), table, rows);
    assert dst.tables == before[table := Inserted(schema(table), RowsOf(before, table), rows)];
    var newCount: int := dst.RowCount(table);
    copied := newCount - dstCount;
  }

  /** Copies a list of tables in order. */
  method CopyTables(schema: Schema, src: Database, dst: Database, tables: seq<string>, dryRun: bool)
    requires src != dst
    modifies dst
    ensures dst.tables == if dryRun then old(dst.tables) else CopiedAll(schema, src.tables, old(dst.tables), tables)
  {
    for i := 0 to |tables|
      invariant dst.tables == if dryRun then old(dst.tables) else CopiedAll(schema, src.tables, old(dst.tables), tables[..i])
    {
      var copied := CopyTable(schema, src, dst, tables[i], dryRun);
      assert tables[..i + 1][..i] == tables[..i];
    }
    assert tables[..|tables|] == tables;
  }

  /** Empties the tables, last first. */
  method DeleteMigrated(db: Database, tables: seq<string>)
    modifies db
    ensures db.tables == Emptied(old(db.tables), tables)
  {
    var i := |tables|;
    ghost var before := db.tables;
    while i > 0
      invariant 0 <= i <= |tables|
      invariant db.tables == Emptied(before, tables[i..])
    {
      i := i - 1;
      var table := tables[i];
      assert tables[i..] == [table] + tables[i + 1..];
      if !db.TableExists(table) {
        continue;
      }
      var count := db.RowCount(table);
      if count == 0 {
        continue;
      }
      db.tables := db.tables[table := []];
    }
    assert tables[0..] == tables;
  }

  method VerifyCounts(src: Database, dst: Database, tables: seq<string>) returns (ok: bool)
    ensures ok <==> Verified(src.tables, dst.tables, tables)
  {
    ok := true;
    for i := 0 to |tables|
      invariant ok <==> Verified(src.tables, dst.tables, tables[..i])
    {
      assert tables[..i + 1] == tables[..i] + [tables[i]];
      if dst.RowCount(tables[i]) < src.RowCount(tables[i]) {
        ok := false;
      }
    }
    assert tables[..|tables|] == tables;
  }

  lemma EmptiedTwice(db: Tables, first: seq<string>, second: seq<string>)
    ensures Emptied(Emptied(db, first), second) == Emptied(db, first + second)
  {
  }

  /** The whole script on open databases; returns its exit code. */
  method SplitDatabases(schema: Schema, src: Database, analytics: Database, chat: Database,
                        execute: bool, cleanup: bool) returns (code: int)
    requires src != analytics && src != chat && analytics != chat
    modifies src, analytics, chat
    ensures !execute ==> src.tables == old(src.tables) && analytics.tables == old(analytics.tables) && chat.tables == old(chat.tables)
    ensures execute ==> analytics.tables == CopiedAll(schema, old(src.tables), old(analytics.tables), ANALYTICS_TABLES)
    ensures execute ==> chat.tables == CopiedAll(schema, old(src.tables), old(chat.tables), CHAT_TABLES_ORDERED)
    ensures execute ==> src.tables == if cleanup then Emptied(old(src.tables), ANALYTICS_TABLES + CHAT_TABLES_ORDERED) else old(src.tables)
    ensures code == if execute then (if Verified(src.tables, analytics.tables, ANALYTICS_TABLES)
                                        && Verified(src.tables, chat.tables, CHAT_TABLES_ORDERED) then 0 else 1)
                    else if cleanup then 1 else 0
    ensures code == 0 || code == 1
    ensures code == 0 <==>
      if execute then && (forall t <- ANALYTICS_TABLES :: |RowsOf(src.tables, t)| <= |RowsOf(analytics.tables, t)|)
                      && (forall t <- CHAT_TABLES_ORDERED :: |RowsOf(src.tables, t)| <= |RowsOf(chat.tables, t)|)
      else !cleanup
    ensures execute && cleanup ==> code == 0
  {
    hide CopiedAll, Emptied;
    var dryRun := !execute;
    if cleanup && dryRun {
      return 1;
    }
    CopyTables(schema, src, analytics, ANALYTICS_TABLES, dryRun);
    CopyTables(schema, src, chat, CHAT_TABLES_ORDERED, dryRun);
    if cleanup {
      DeleteMigrated(src, ANALYTICS_TABLES);
      DeleteMigrated(src, CHAT_TABLES_ORDERED);
      EmptiedTwice(old(src.tables), ANALYTICS_TABLES, CHAT_TABLES_ORDERED);
      CleanedUpAlwaysVerifies(old(src.tables), analytics.tables, ANALYTICS_TABLES, ANALYTICS_TABLES + CHAT_TABLES_ORDERED);
      CleanedUpAlwaysVerifies(old(src.tables), chat.tables, CHAT_TABLES_ORDERED, ANALYTICS_TABLES + CHAT_TABLES_ORDERED);
    }
    var ok := VerifyCounts(src, analytics, ANALYTICS_TABLES);
    var chatOk := VerifyCounts(src, chat, CHAT_TABLES_ORDERED);
    var allOk := (ok && chatOk) || dryRun;
    code := if allOk then 0 else 1;
  }

  // ----- What an insertion keeps -----

  /** A row always clashes with itself: its primary key. */
  ghost predicate Reflexive(rules: Rules) {
    forall r :: rules.clash(r, r)
  }

  /** Rows that satisfy the constraints together, as those of one table do. */
  ghost predicate Constrained(rules: Rules, rows: seq<Row>) {
    forall i, j | 0 <= i < j < |rows| :: !rules.clash(rows[i], rows[j])
  }

  /** The rows that fit and clash with none of `have`. */
  function Accepted(rules: Rules, have: seq<Row>, rows: seq<Row>): seq<Row> {
    if rows == [] then []
    else (if Refused(rules, have, rows[0]) then [] else [rows[0]]) + Accepted(rules, have, rows[1..])
  }

  lemma ClashesGrows(rules: Rules, have: seq<Row>, r: Row, x: Row)
    requires !rules.clash(r, x)
    ensures Clashes(rules, have + [r], x) == Clashes(rules, have, x)
  {
    if Clashes(rules, have, x) {
      var y :| y in have && rules.clash(y, x);
      assert y in have + [r];
    }
  }

  lemma {:induction false} AcceptedGrows(rules: Rules, have: seq<Row>, r: Row, rows: seq<Row>)
    requires forall i | 0 <= i < |rows| :: !rules.clash(r, rows[i])
    ensures Accepted(rules, have + [r], rows) == Accepted(rules, have, rows)
  {
    if rows != [] {
      hide Clashes;
      ClashesGrows(rules, have, r, rows[0]);
      assert forall i | 0 <= i < |rows| - 1 :: rows[1..][i] == rows[i + 1];
      AcceptedGrows(rules, have, r, rows[1..]);
    }
  }

  lemma ConstrainedRest(rules: Rules, rows: seq<Row>)
    requires Constrained(rules, rows) && rows != []
    ensures Constrained(rules, rows[1..])
    ensures forall i | 0 <= i < |rows[1..]| :: !rules.clash(rows[0], rows[1..][i])
  {
    assert forall i | 0 <= i < |rows| - 1 :: rows[1..][i] == rows[i + 1];
  }

  /** Inserting the rows of a table adds, in order, exactly those that fit and clash with no
      row that was there before. */
  lemma {:induction false} InsertedIsAccepted(rules: Rules, have: seq<Row>, rows: seq<Row>)
    requires Constrained(rules, rows)
    ensures Inserted(rules, have, rows) == have + Accepted(rules, have, rows)
    decreases |rows|
  {
    if rows == [] {
      assert have + [] == have;
    } else {
      var r, rest := rows[0], rows[1..];
      ConstrainedRest(rules, rows);
      hide Constrained, Refused;
      if Refused(rules, have, r) {
        InsertedIsAccepted(rules, have, rest);
        assert [] + Accepted(rules, have, rest) == Accepted(rules, have, rest);
      } else {
        InsertedIsAccepted(rules, have + [r], rest);
        AcceptedGrows(rules, have, r, rest);
        assert have + [r] + Accepted(rules, have, rest) == have + ([r] + Accepted(rules, have, rest));
      }
    }
  }

  lemma {:induction false} AcceptedMembers(rules: Rules, have: seq<Row>, rows: seq<Row>, r: Row)
    ensures r in Accepted(rules, have, rows) <==> r in rows && !Refused(rules, have, r)
  {
    if rows != [] {
      AcceptedMembers(rules, have, rows[1..], r);
    }
  }

  lemma {:induction false} AcceptedCount(rules: Rules, have: seq<Row>, rows: seq<Row>)
    ensures |Accepted(rules, have, rows)| <= |rows|
    ensures |Accepted(rules, have, rows)| == |rows| <==> forall r <- rows :: !Refused(rules, have, r)
  {
    if rows != [] {
      AcceptedCount(rules, have, rows[1..]);
      assert forall r <- rows :: r == rows[0] || r in rows[1..];
    }
  }

  // ----- One table -----

  predicate AllThere(src: Tables, dst: Tables, table: string) {
    forall r <- RowsOf(src, table) :: r in RowsOf(dst, table)
  }

  /** Copying looks at the table and each row is already there, or fits and clashes with none;
      or it skips the table, and each row is already there. */
  predicate Safe(schema: Schema, src: Tables, dst: Tables, table: string) {
    forall r <- RowsOf(src, table) ::
      r in RowsOf(dst, table) || (Copies(src, dst, table) && !Refused(schema(table), RowsOf(dst, table), r))
  }

  function IfTaken(rules: Rules, have: seq<Row>): Row -> Option<Row> {
    (r: Row) => if Refused(rules, have, r) then None else Some(r)
  }

  lemma {:induction false} AcceptedAreFound(rules: Rules, have: seq<Row>, rows: seq<Row>)
    ensures Accepted(rules, have, rows) == FilterMap(IfTaken(rules, have), rows)
  {
    if rows != [] {
      hide Refused;
      AcceptedAreFound(rules, have, rows[1..]);
    }
  }

  /** The row fits and clashes with none of those. */
  predicate Free(rules: Rules, have: seq<Row>, r: Row) {
    rules.fits(r) && forall i | 0 <= i < |have| :: !rules.clash(have[i], r)
  }

  /** A shorter target gets, behind its own rows and in their order, exactly the rows that fit
      and clash with none of its own; a target that is no shorter stays as it is. */
  lemma CopiedRowsInOrder(schema: Schema, src: Tables, dst: Tables, table: string) returns (at: seq<nat>)
    requires Constrained(schema(table), RowsOf(src, table))
    ensures var rows, have := RowsOf(src, table), RowsOf(dst, table);
      && (forall i | 0 <= i < |at| :: at[i] < |rows|) && (forall i, j | 0 <= i < j < |at| :: at[i] < at[j])
      && (forall k | 0 <= k < |rows| :: k in at <==> |have| < |rows| && Free(schema(table), have, rows[k]))
      && RowsOf(Copied(schema, src, dst, table), table) == have + Pick(rows, at)
  {
    var rules, rows, have := schema(table), RowsOf(src, table), RowsOf(dst, table);
    if |have| < |rows| {
      InsertedIsAccepted(rules, have, rows);
      AcceptedAreFound(rules, have, rows);
      at := FilterMapPositions(IfTaken(rules, have), rows);
      forall r: Row ensures Refused(rules, have, r) <==> !Free(rules, have, r) {
      }
      hide Refused, Free, Inserted, FilterMap, Constrained;
      assert Accepted(rules, have, rows) == Pick(rows, at);
    } else {
      at := [];
      assert have + Pick(rows, at) == have;
    }
  }

  /** A row of the source is in the target afterwards exactly when it was there before, or
      the table is looked at and the row is not refused. */
  lemma RowIsKeptIff(schema: Schema, src: Tables, dst: Tables, table: string, r: Row)
    requires Constrained(schema(table), RowsOf(src, table)) && r in RowsOf(src, table)
    ensures r in RowsOf(Copied(schema, src, dst, table), table)
            <==> r in RowsOf(dst, table) || (|RowsOf(dst, table)| < |RowsOf(src, table)| && !Refused(schema(table), RowsOf(dst, table), r))
  {
    if Copies(src, dst, table) {
      InsertedIsAccepted(schema(table), RowsOf(dst, table), RowsOf(src, table));
      AcceptedMembers(schema(table), RowsOf(dst, table), RowsOf(src, table), r);
    }
  }

  /** A table's rows are all in the target afterwards exactly when copying it is safe. */
  lemma CopiedIsLosslessIffSafe(schema: Schema, src: Tables, dst: Tables, table: string)
    requires Constrained(schema(table), RowsOf(src, table))
    ensures AllThere(src, Copied(schema, src, dst, table), table) <==> Safe(schema, src, dst, table)
  {
    hide Copied, Refused, Constrained;
    forall r | r in RowsOf(src, table)
      ensures r in RowsOf(Copied(schema, src, dst, table), table)
              <==> r in RowsOf(dst, table) || (Copies(src, dst, table) && !Refused(schema(table), RowsOf(dst, table), r))
    {
      RowIsKeptIff(schema, src, dst, table, r);
    }
  }

  /** Rows that were in the target stay, first and in order; no other table is touched. */
  lemma CopiedKeepsTarget(schema: Schema, src: Tables, dst: Tables, table: string, other: string)
    requires Constrained(schema(table), RowsOf(src, table))
    ensures RowsOf(dst, table) <= RowsOf(Copied(schema, src, dst, table), table)
    ensures other != table ==> RowsOf(Copied(schema, src, dst, table), other) == RowsOf(dst, other)
  {
    InsertedIsAccepted(schema(table), RowsOf(dst, table), RowsOf(src, table));
  }

  /** The number a dry run announces is the number copied exactly when no row is refused. */
  lemma DryRunPredicts(schema: Schema, src: Tables, dst: Tables, table: string)
    requires Constrained(schema(table), RowsOf(src, table)) && |RowsOf(dst, table)| < |RowsOf(src, table)|
    ensures |RowsOf(Copied(schema, src, dst, table), table)| - |RowsOf(dst, table)| == |RowsOf(src, table)|
            <==> forall r <- RowsOf(src, table) :: !Refused(schema(table), RowsOf(dst, table), r)
  {
    InsertedIsAccepted(schema(table), RowsOf(dst, table), RowsOf(src, table));
    AcceptedCount(schema(table), RowsOf(dst, table), RowsOf(src, table));
  }

  lemma {:induction false} NoneAccepted(rules: Rules, have: seq<Row>, rows: seq<Row>)
    requires forall r <- rows :: Refused(rules, have, r)
    ensures Accepted(rules, have, rows) == []
  {
    if rows != [] {
      NoneAccepted(rules, have, rows[1..]);
    }
  }

  lemma {:induction false} InsertingAgain(rules: Rules, have: seq<Row>, rows: seq<Row>)
    requires Reflexive(rules) && Constrained(rules, rows)
    ensures var now := Inserted(rules, have, rows); Inserted(rules, now, rows) == now
  {
    var now := Inserted(rules, have, rows);
    InsertedIsAccepted(rules, have, rows);
    InsertedIsAccepted(rules, now, rows);
    hide Inserted, Accepted;
    forall r | r in rows ensures Refused(rules, now, r) {
      AcceptedMembers(rules, have, rows, r);
      if Clashes(rules, have, r) {
        var y :| y in have && rules.clash(y, r);
        assert y in now;
      } else if rules.fits(r) {
        assert r in now && rules.clash(r, r);
      }
    }
    NoneAccepted(rules, now, rows);
  }

  /** Copying twice is copying once. */
  lemma CopyingAgainChangesNothing(schema: Schema, src: Tables, dst: Tables, table: string)
    requires Reflexive(schema(table)) && Constrained(schema(table), RowsOf(src, table))
    ensures var once := Copied(schema, src, dst, table); Copied(schema, src, once, table) == once
  {
    if Copies(src, dst, table) {
      InsertingAgain(schema(table), RowsOf(dst, table), RowsOf(src, table));
      hide Constrained, Reflexive, Inserted;
      var once := Copied(schema, src, dst, table);
      assert once[table := once[table]] == once;
    }
  }

  // ----- The whole script -----

  ghost predicate Distinct(tables: seq<string>) {
    forall i, j | 0 <= i < j < |tables| :: tables[i] != tables[j]
  }

  /** Copying a list of tables is copying each from the state at the start. */
  lemma {:induction false} EachTableIsCopied(schema: Schema, src: Tables, dst: Tables, tables: seq<string>, t: string)
    requires Distinct(tables)
    ensures RowsOf(CopiedAll(schema, src, dst, tables), t)
            == if t in tables then RowsOf(Copied(schema, src, dst, t), t) else RowsOf(dst, t)
  {
    if tables != [] {
      var n := |tables| - 1;
      EachTableIsCopied(schema, src, dst, tables[..n], t);
      EachTableIsCopied(schema, src, dst, tables[..n], tables[n]);
      assert tables == tables[..n] + [tables[n]];
    }
  }

  /** After copying and emptying, every row of the listed tables is in the new database
      exactly when each of the tables was safe to copy. */
  lemma {:induction false} SplitLosesNothingIffSafe(schema: Schema, src: Tables, dst: Tables, tables: seq<string>)
    requires Distinct(tables) && forall t <- tables :: Constrained(schema(t), RowsOf(src, t))
    ensures (forall t <- tables :: AllThere(src, CopiedAll(schema, src, dst, tables), t))
            <==> (forall t <- tables :: Safe(schema, src, dst, t))
  {
    hide Safe, Copied, CopiedAll, Constrained;
    forall t | t in tables
      ensures AllThere(src, CopiedAll(schema, src, dst, tables), t) <==> Safe(schema, src, dst, t)
    {
      EachTableIsCopied(schema, src, dst, tables, t);
      CopiedIsLosslessIffSafe(schema, src, dst, t);
    }
  }

  /** Into a target without rows nothing is lost exactly when every row fits. */
  lemma EmptyTargetIsSafeIffFitting(schema: Schema, src: Tables, dst: Tables, t: string)
    requires RowsOf(dst, t) == [] && Constrained(schema(t), RowsOf(src, t))
    ensures Safe(schema, src, dst, t) <==> forall r <- RowsOf(src, t) :: schema(t).fits(r)
    ensures Safe(schema, src, dst, t) <==> RowsOf(Copied(schema, src, dst, t), t) == RowsOf(src, t)
  {
    var rows := RowsOf(src, t);
    InsertedIsAccepted(schema(t), [], rows);
    assert [] + Accepted(schema(t), [], rows) == Accepted(schema(t), [], rows);
    if forall r <- rows :: schema(t).fits(r) {
      AllAccepted(schema(t), rows);
    }
    hide Inserted, Accepted, Constrained;
    CopiedIsLosslessIffSafe(schema, src, dst, t);
  }

  lemma {:induction false} AllAccepted(rules: Rules, rows: seq<Row>)
    requires forall r <- rows :: rules.fits(r)
    ensures Accepted(rules, [], rows) == rows
  {
    if rows != [] {
      AllAccepted(rules, rows[1..]);
      assert rows == [rows[0]] + rows[1..];
    }
  }

  /** The final check compares with the emptied source, so after a clean-up it passes whatever
      the target holds; before one it says only that no target is shorter. */
  lemma CleanedUpAlwaysVerifies(src: Tables, dst: Tables, tables: seq<string>, emptied: seq<string>)
    requires forall t <- tables :: t in emptied
    ensures Verified(Emptied(src, emptied), dst, tables)
  {
  }

  /** A row that is refused, or whose table is skipped because the target holds as many other
      rows, is gone after a clean-up, though the script reports success. */
  lemma {:induction false} SkippedRowIsLost(schema: Schema, src: Tables, dst: Tables, tables: seq<string>, t: string, r: Row)
    requires Distinct(tables) && t in tables && Constrained(schema(t), RowsOf(src, t))
    requires r in RowsOf(src, t) && r !in RowsOf(dst, t)
    requires |RowsOf(src, t)| <= |RowsOf(dst, t)| || Refused(schema(t), RowsOf(dst, t), r)
    ensures r !in RowsOf(CopiedAll(schema, src, dst, tables), t) && r !in RowsOf(Emptied(src, tables), t)
    ensures Verified(Emptied(src, tables), CopiedAll(schema, src, dst, tables), tables)
  {
    EachTableIsCopied(schema, src, dst, tables, t);
    RowIsKeptIff(schema, src, dst, t, r);
    hide Constrained, Copied, CopiedAll, Refused;
    CleanedUpAlwaysVerifies(src, CopiedAll(schema, src, dst, tables), tables, tables);
  }
}
