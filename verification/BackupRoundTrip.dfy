/** What restoring a backup guarantees: it touches only rows of the payload, doing it twice is
    doing it once, and a dump survives the round trip through another database. */
module BackupRoundTrip {
  import opened Wrappers
  import opened Backup

  // ---------------------------------------------------------------- restore, table by table

  lemma PositionOf(i: nat)
    requires i < TABLES
    ensures Position(TableAt(i)) == i
  {
  }

  function UpsertedTable(c: Codec, schema: Schema, db: Database, p: Payload, t: Table): Result<seq<Row>, Error> {
    Upserted(c, schema(t), t, Rows(db, t), BlockOf(p, t))
  }

  /** The tables do not interact: each one restored is the upsert of its own block. */
  ghost predicate RestoredIn(c: Codec, schema: Schema, db: Database, p: Payload, after: Database, n: nat, t: Table) {
    if Position(t) < n then t in after && Ok(after[t]) == UpsertedTable(c, schema, db, p, t)
    else Rows(after, t) == Rows(db, t)
  }

  lemma RestoredInStep(c: Codec, schema: Schema, db: Database, p: Payload, before: Database, n: nat, t: Table, rows: seq<Row>)
    requires n < TABLES && RestoredIn(c, schema, db, p, before, n, t)
    requires t == TableAt(n) ==> Upserted(c, schema(t), t, Rows(before, t), BlockOf(p, t)) == Ok(rows)
    ensures RestoredIn(c, schema, db, p, before[TableAt(n) := rows], n + 1, t)
  {
    hide Upserted, BlockOf, TableAt, Position;
    PositionOf(n);
  }

  lemma {:induction false} TableAfter(c: Codec, schema: Schema, db: Database, p: Payload, n: nat, t: Table)
    requires n <= TABLES && RestoredTables(c, schema, db, p, n).Ok?
    ensures RestoredIn(c, schema, db, p, RestoredTables(c, schema, db, p, n).value, n, t)
  {
    hide RestoredIn, Upserted, BlockOf, Rows, TableAt, Position;
    if n == 0 {
      NothingRestoredIn(c, schema, db, p, t);
    } else {
      TableAfter(c, schema, db, p, n - 1, t);
      RestoredInStep(c, schema, db, p, RestoredTables(c, schema, db, p, n - 1).value, n - 1, t,
                     RestoredTables(c, schema, db, p, n).value[TableAt(n - 1)]);
    }
  }

  lemma NothingRestoredIn(c: Codec, schema: Schema, db: Database, p: Payload, t: Table)
    ensures RestoredIn(c, schema, db, p, db, 0, t)
  {
  }

  lemma {:induction false} RestoreSucceeds(c: Codec, schema: Schema, db: Database, p: Payload, n: nat)
    requires n <= TABLES && forall t :: UpsertedTable(c, schema, db, p, t).Ok?
    ensures RestoredTables(c, schema, db, p, n).Ok?
  {
    hide Upserted, BlockOf, Rows, TableAt, Position;
    if n > 0 {
      var t := TableAt(n - 1);
      RestoreSucceeds(c, schema, db, p, n - 1);
      PositionOf(n - 1);
      TableAfter(c, schema, db, p, n - 1, t);
      assert UpsertedTable(c, schema, db, p, t).Ok?;
    }
  }

  // ---------------------------------------------------------------- one table

  lemma {:induction false} MergedKeepsId(rows: seq<Row>, id: Value)
    ensures var m := MergedFor(rows, id); m == map[] || ("id" in m && m["id"] == id)
  {
    if rows != [] {
      MergedKeepsId(rows[..|rows| - 1], id);
    }
  }

  /** An updated row keeps its id, and updating it again changes nothing. */
  lemma RowUpdatedTwice(row: Row, rows: seq<Row>)
    ensures HasId(row) ==> SameId(row, RowUpdated(row, rows))
    ensures RowUpdated(RowUpdated(row, rows), rows) == RowUpdated(row, rows)
  {
    hide MergedFor;
    if HasId(row) {
      var m := MergedFor(rows, row["id"]);
      MergedKeepsId(rows, row["id"]);
      assert (row + m) + m == row + m;
    }
  }

  lemma {:induction false} InsertedAreAbsent(c: Codec, t: Table, table: seq<Row>, rows: seq<Row>)
    requires forall r :: r in rows ==> HasId(r)
    ensures forall r :: r in Inserted(c, t, table, rows) <==> r in rows && !Present(table, r)
  {
    if rows != [] {
      InsertedAreAbsent(c, t, table, rows[..|rows| - 1]);
    }
  }

  lemma {:induction false} MergedNone(rows: seq<Row>, row: Row)
    requires HasId(row) && forall r :: r in rows ==> !SameId(r, row)
    ensures MergedFor(rows, row["id"]) == map[]
  {
    if rows != [] {
      assert rows[|rows| - 1] in rows;
      MergedNone(rows[..|rows| - 1], row);
    }
  }

  lemma PresentSame(table: seq<Row>, a: Row, b: Row)
    requires SameId(a, b)
    ensures Present(table, a) <==> Present(table, b)
  {
    if Present(table, a) {
      var i :| 0 <= i < |table| && SameId(table[i], a);
      assert SameId(table[i], b);
    }
    if Present(table, b) {
      var i :| 0 <= i < |table| && SameId(table[i], b);
      assert SameId(table[i], a);
    }
  }

  /** Inserted rows have distinct ids, so nothing else merges into them. */
  lemma {:induction false} InsertedMergeAlone(c: Codec, t: Table, table: seq<Row>, rows: seq<Row>, x: Row)
    requires (forall r :: r in rows ==> HasId(r)) && DistinctIds(Inserted(c, t, table, rows))
    requires x in Inserted(c, t, table, rows)
    ensures HasId(x) && MergedFor(rows, x["id"]) == x
  {
    hide Present;
    var n := |rows| - 1;
    var before, k := rows[..n], rows[n];
    InsertedAreAbsent(c, t, table, rows);
    InsertedAreAbsent(c, t, table, before);
    var old' := Inserted(c, t, table, before);
    if Present(table, k) {
      InsertedMergeAlone(c, t, table, before, x);
      if SameId(k, x) {
        PresentSame(table, k, x);
      }
    } else {
      var all := Inserted(c, t, table, rows);
      assert all == old' + [k];
      forall r | r in old' ensures !SameId(r, k) {
        var i :| 0 <= i < |old'| && old'[i] == r;
        assert all[i] == r && all[|old'|] == k;
      }
      assert DistinctIds(old') by {
        assert forall i :: 0 <= i < |old'| ==> old'[i] == all[i];
      }
      if x in old' {
        InsertedMergeAlone(c, t, table, before, x);
      } else {
        forall r | r in before ensures !SameId(r, k) {
          if SameId(r, k) {
            PresentSame(table, r, k);
          }
        }
        MergedNone(before, k);
        assert map[] + k == k;
      }
    }
  }

  /** Upserting the same rows again finds every one of them, and changes none. */
  lemma UpsertTwice(c: Codec, t: Table, table: seq<Row>, rows: seq<Row>)
    requires DistinctIds(Updated(table, rows) + Inserted(c, t, table, rows))
    requires forall r :: r in rows ==> HasId(r)
    ensures var after := Updated(table, rows) + Inserted(c, t, table, rows);
            Updated(after, rows) == after && Inserted(c, t, after, rows) == []
  {
    hide MergedFor, Inserted, SameId, HasId, RowUpdated;
    var updated, new' := Updated(table, rows), Inserted(c, t, table, rows);
    var after := updated + new';
    forall i | 0 <= i < |after| ensures RowUpdated(after[i], rows) == after[i] {
      if i < |table| {
        RowUpdatedTwice(table[i], rows);
      } else {
        InsertedUpdates(c, t, table, rows, i - |table|);
      }
    }
    assert Updated(after, rows) == after;
    forall r | r in rows ensures Present(after, r) {
      PresentAfter(c, t, table, rows, r);
    }
    NothingInserted(c, t, after, rows);
  }

  lemma InsertedUpdates(c: Codec, t: Table, table: seq<Row>, rows: seq<Row>, i: nat)
    requires DistinctIds(Updated(table, rows) + Inserted(c, t, table, rows))
    requires forall r :: r in rows ==> HasId(r)
    requires i < |Inserted(c, t, table, rows)|
    ensures RowUpdated(Inserted(c, t, table, rows)[i], rows) == Inserted(c, t, table, rows)[i]
  {
    hide MergedFor, Inserted, SameId;
    var updated, new' := Updated(table, rows), Inserted(c, t, table, rows);
    forall j, k | 0 <= j < k < |new'| ensures !SameId(new'[j], new'[k]) {
      assert (updated + new')[|updated| + j] == new'[j] && (updated + new')[|updated| + k] == new'[k];
    }
    InsertedMergeAlone(c, t, table, rows, new'[i]);
    assert new'[i] + new'[i] == new'[i];
  }

  lemma PresentAfter(c: Codec, t: Table, table: seq<Row>, rows: seq<Row>, r: Row)
    requires r in rows && forall k :: k in rows ==> HasId(k)
    ensures Present(Updated(table, rows) + Inserted(c, t, table, rows), r)
  {
    hide RowUpdated, Inserted;
    var updated, new' := Updated(table, rows), Inserted(c, t, table, rows);
    if Present(table, r) {
      var i :| 0 <= i < |table| && SameId(table[i], r);
      RowUpdatedTwice(table[i], rows);
      assert (updated + new')[i] == RowUpdated(table[i], rows);
    } else {
      InsertedAreAbsent(c, t, table, rows);
      var i :| 0 <= i < |new'| && new'[i] == r;
      assert (updated + new')[|updated| + i] == r;
      assert SameId(r, r);
    }
  }

  lemma {:induction false} NothingInserted(c: Codec, t: Table, table: seq<Row>, rows: seq<Row>)
    requires forall r :: r in rows ==> Present(table, r)
    ensures Inserted(c, t, table, rows) == []
  {
    if rows != [] {
      hide Present;
      NothingInserted(c, t, table, rows[..|rows| - 1]);
      assert rows[|rows| - 1] in rows;
    }
  }

  /** A row without an id is inserted every time. */
  lemma {:induction false} NoIdInserts(c: Codec, t: Table, table: seq<Row>, rows: seq<Row>)
    requires exists r :: r in rows && !HasId(r)
    ensures Inserted(c, t, table, rows) != []
  {
    var n := |rows| - 1;
    if HasId(rows[n]) {
      var r :| r in rows && !HasId(r);
      assert rows == rows[..n] + [rows[n]];
      assert r in rows[..n];
      NoIdInserts(c, t, table, rows[..n]);
    }
  }

  // ---------------------------------------------------------------- restoring twice

  /** Every payload row, coerced, carries an id. */
  ghost predicate AllHaveIds(c: Codec, schema: Schema, p: Payload) {
    forall t: Table, r :: CoercedAll(c, schema(t), BlockOf(p, t)).Ok? && r in CoercedAll(c, schema(t), BlockOf(p, t)).value
      ==> HasId(r)
  }

  lemma TableTwice(c: Codec, cols: seq<Column>, t: Table, table: seq<Row>, payload: seq<Row>)
    requires Upserted(c, cols, t, table, payload).Ok?
    ensures var after := Upserted(c, cols, t, table, payload).value;
            Upserted(c, cols, t, after, payload) == Ok(after)
            <==> forall r :: r in CoercedAll(c, cols, payload).value ==> HasId(r)
  {
    hide Inserted, CoercedAll, DistinctIds, HasId;
    var rows := CoercedAll(c, cols, payload).value;
    var after := Upserted(c, cols, t, table, payload).value;
    if forall r :: r in rows ==> HasId(r) {
      UpsertTwice(c, t, table, rows);
      assert after + [] == after;
    } else {
      NoIdInserts(c, t, after, rows);
      assert |Updated(after, rows) + Inserted(c, t, after, rows)| > |after|;
    }
  }

  /** Main result: restore is idempotent exactly for payloads whose rows all carry ids. After a
      successful restore, restoring the same payload again is a no-op if and only if they do. */
  lemma RestoreTwice(c: Codec, schema: Schema, db: Database, p: Payload)
    requires Restored(c, schema, db, p).Ok?
    ensures var after := Restored(c, schema, db, p).value;
            Restored(c, schema, after, p) == Ok(after) <==> AllHaveIds(c, schema, p)
  {
    hide RestoredTables, Upserted, CoercedAll, BlockOf, Rows;
    var after := Restored(c, schema, db, p).value;
    forall t: Table
      ensures CoercedAll(c, schema(t), BlockOf(p, t)).Ok? && t in after && Rows(after, t) == after[t]
      ensures UpsertedTable(c, schema, after, p, t) == Ok(after[t])
              <==> forall r :: r in CoercedAll(c, schema(t), BlockOf(p, t)).value ==> HasId(r)
    {
      OneTableTwice(c, schema, db, p, t);
    }
    if AllHaveIds(c, schema, p) {
      Unchanged(c, schema, after, p, TABLES);
    } else {
      var t: Table, r :| CoercedAll(c, schema(t), BlockOf(p, t)).Ok? && r in CoercedAll(c, schema(t), BlockOf(p, t)).value && !HasId(r);
      if Restored(c, schema, after, p) == Ok(after) {
        TableAfter(c, schema, after, p, TABLES, t);
      }
    }
  }

  lemma OneTableTwice(c: Codec, schema: Schema, db: Database, p: Payload, t: Table)
    requires RestoredTables(c, schema, db, p, TABLES).Ok?
    ensures var after := RestoredTables(c, schema, db, p, TABLES).value;
            && CoercedAll(c, schema(t), BlockOf(p, t)).Ok? && t in after && Rows(after, t) == after[t]
            && (UpsertedTable(c, schema, after, p, t) == Ok(after[t])
                <==> forall r :: r in CoercedAll(c, schema(t), BlockOf(p, t)).value ==> HasId(r))
  {
    hide RestoredTables, CoercedAll, BlockOf, Inserted, Updated, DistinctIds, HasId;
    TableAfter(c, schema, db, p, TABLES, t);
    TableTwice(c, schema(t), t, Rows(db, t), BlockOf(p, t));
  }

  lemma {:induction false} Unchanged(c: Codec, schema: Schema, db: Database, p: Payload, n: nat)
    requires n <= TABLES && forall t :: t in db && UpsertedTable(c, schema, db, p, t) == Ok(db[t])
    ensures RestoredTables(c, schema, db, p, n) == Ok(db)
  {
    hide TableAt, Upserted, BlockOf, Rows;
    if n > 0 {
      var t := TableAt(n - 1);
      Unchanged(c, schema, db, p, n - 1);
      assert UpsertedTable(c, schema, db, p, t) == Ok(db[t]);
      assert db[t := db[t]] == db;
    }
  }

  /** Main result: restore leaves alone every row whose id is not in the payload. */
  lemma RestoreLeavesOthers(c: Codec, schema: Schema, db: Database, p: Payload, t: Table, i: nat)
    requires Restored(c, schema, db, p).Ok? && i < |Rows(db, t)|
    requires CoercedAll(c, schema(t), BlockOf(p, t)).Ok? ==>
               forall r :: r in CoercedAll(c, schema(t), BlockOf(p, t)).value ==> !SameId(r, Rows(db, t)[i])
    ensures var after := Rows(Restored(c, schema, db, p).value, t);
            i < |after| && after[i] == Rows(db, t)[i]
  {
    hide RestoredTables, CoercedAll, BlockOf, Inserted, DistinctIds, MergedFor;
    TableAfter(c, schema, db, p, TABLES, t);
    var row, rows := Rows(db, t)[i], CoercedAll(c, schema(t), BlockOf(p, t)).value;
    if HasId(row) {
      MergedNone(rows, row);
      assert row + map[] == row;
    }
  }

  // ---------------------------------------------------------------- dump, restore, dump

  predicate Fits(kind: Kind, v: Value) {
    match kind
    case UuidColumn => v.IdV? || v.Null?
    case TimeColumn => v.TimeV? || v.Null?
    case PlainColumn => !v.IdV? && !v.TimeV?
  }

  ghost predicate TypedOn(cols: seq<Column>, row: Row) {
    forall i :: 0 <= i < |cols| ==> cols[i].name in row && Fits(cols[i].kind, row[cols[i].name])
  }

  function Names(cols: seq<Column>): set<string> {
    set col | col in cols :: col.name
  }

  /** A stored row: exactly the table's columns, each of its type, with an id. */
  ghost predicate Typed(cols: seq<Column>, row: Row) {
    TypedOn(cols, row) && row.Keys == Names(cols) && HasId(row)
  }

  lemma {:induction false} NoTrailingZ(s: string)
    requires s != "" && s[|s| - 1] != 'Z'
    ensures StripZ(s) == s
  {
  }

  /** Coercion undoes serialization on a value of the column's type. */
  lemma CoerceSerialized(c: Codec, kind: Kind, v: Value)
    requires Faithful(c) && Fits(kind, v)
    ensures Coerce(c, kind, Serialize(c, v)) == Ok(v)
  {
    if v.TimeV? {
      NoTrailingZ(c.iso(v.time));
    }
  }

  lemma NamesStep(cols: seq<Column>)
    requires cols != []
    ensures Names(cols) == Names(cols[..|cols| - 1]) + {cols[|cols| - 1].name}
  {
    assert cols == cols[..|cols| - 1] + [cols[|cols| - 1]];
  }

  lemma {:induction false} CoercedOfDict(c: Codec, cols: seq<Column>, row: Row)
    requires Faithful(c) && TypedOn(cols, row)
    ensures Coerced(c, cols, RowToDict(c, row)) == Ok(map k | k in row && k in Names(cols) :: row[k])
  {
    if cols != [] {
      hide Coerce, Serialize, Faithful;
      var n := |cols| - 1;
      CoercedOfDict(c, cols[..n], row);
      CoerceSerialized(c, cols[n].kind, row[cols[n].name]);
      assert RowToDict(c, row)[cols[n].name] == Serialize(c, row[cols[n].name]);
      NamesStep(cols);
      var before := map k | k in row && k in Names(cols[..n]) :: row[k];
      assert before[cols[n].name := row[cols[n].name]] == map k | k in row && k in Names(cols) :: row[k];
    }
  }

  lemma {:induction false} CoercedAllOfDicts(c: Codec, cols: seq<Column>, rows: seq<Row>)
    requires Faithful(c) && forall r :: r in rows ==> Typed(cols, r)
    ensures CoercedAll(c, cols, DictsOf(c, rows)) == Ok(rows)
  {
    if rows != [] {
      hide Coerced, Faithful, RowToDict;
      var n := |rows| - 1;
      assert rows[n] in rows;
      assert DictsOf(c, rows)[..n] == DictsOf(c, rows[..n]);
      CoercedAllOfDicts(c, cols, rows[..n]);
      CoercedOfDict(c, cols, rows[n]);
      assert (map k | k in rows[n] && k in Names(cols) :: rows[n][k]) == rows[n];
      assert rows == rows[..n] + [rows[n]];
    }
  }

  /** Rows none of whose ids occur in the table are appended to it as they are. */
  lemma UpsertNewRows(c: Codec, cols: seq<Column>, t: Table, table: seq<Row>, rows: seq<Row>)
    requires Faithful(c) && DistinctIds(table) && DistinctIds(rows)
    requires forall r :: r in rows ==> Typed(cols, r)
    requires forall r, s :: r in rows && s in table ==> !SameId(r, s)
    ensures Upserted(c, cols, t, table, DictsOf(c, rows)) == Ok(table + rows)
  {
    hide Faithful, Inserted, SameId, Typed;
    CoercedAllOfDicts(c, cols, rows);
    forall i | 0 <= i < |table| ensures RowUpdated(table[i], rows) == table[i] {
      assert table[i] in table;
      NotUpdated(table[i], rows);
    }
    assert Updated(table, rows) == table;
    InsertedAll(c, cols, t, table, rows);
    var all := table + rows;
    forall i, j | 0 <= i < j < |all| ensures !SameId(all[i], all[j]) {
      if i < |table| && |table| <= j {
        assert table[i] in table && rows[j - |table|] in rows;
        SameIdSymmetric(table[i], rows[j - |table|]);
      }
    }
  }

  lemma SameIdSymmetric(a: Row, b: Row)
    ensures SameId(a, b) <==> SameId(b, a)
  {
  }

  lemma NotUpdated(row: Row, rows: seq<Row>)
    requires forall r :: r in rows ==> !SameId(r, row)
    ensures RowUpdated(row, rows) == row
  {
    if HasId(row) {
      MergedNone(rows, row);
      assert row + map[] == row;
    }
  }

  lemma {:induction false} InsertedAll(c: Codec, cols: seq<Column>, t: Table, table: seq<Row>, rows: seq<Row>)
    requires forall r :: r in rows ==> Typed(cols, r)
    requires forall r, s :: r in rows && s in table ==> !SameId(r, s)
    ensures Inserted(c, t, table, rows) == rows
  {
    if rows != [] {
      var n := |rows| - 1;
      InsertedAll(c, cols, t, table, rows[..n]);
      assert rows[n] in rows && Typed(cols, rows[n]);
      forall i | 0 <= i < |table| ensures !SameId(table[i], rows[n]) {
        assert table[i] in table;
        SameIdSymmetric(table[i], rows[n]);
      }
      assert rows == rows[..n] + [rows[n]];
    }
  }

  lemma {:induction false} SelectConcat(a: seq<Row>, b: seq<Row>, column: string, values: set<Value>)
    ensures SelectRows(a + b, column, values) == SelectRows(a, column, values) + SelectRows(b, column, values)
  {
    if b == [] {
      assert a + b == a;
    } else {
      var n := |b| - 1;
      assert (a + b)[..|a + b| - 1] == a + b[..n];
      SelectConcat(a, b[..n], column, values);
    }
  }

  lemma {:induction false} SelectFacts(rows: seq<Row>, column: string, values: set<Value>)
    ensures forall r :: r in SelectRows(rows, column, values) <==> r in rows && column in r && r[column] in values
  {
    if rows != [] {
      var n := |rows| - 1;
      SelectFacts(rows[..n], column, values);
      assert forall r :: r in rows <==> r in rows[..n] || r == rows[n];
    }
  }

  lemma {:induction false} SelectTwice(rows: seq<Row>, column: string, values: set<Value>)
    ensures SelectRows(SelectRows(rows, column, values), column, values) == SelectRows(rows, column, values)
  {
    if rows != [] {
      var n := |rows| - 1;
      SelectTwice(rows[..n], column, values);
      var before := SelectRows(rows[..n], column, values);
      assert (before + [rows[n]])[..|before|] == before;
      assert before + [] == before;
    }
  }

  lemma {:induction false} SelectDistinct(rows: seq<Row>, column: string, values: set<Value>)
    requires DistinctIds(rows)
    ensures DistinctIds(SelectRows(rows, column, values))
  {
    if rows != [] {
      hide SameId;
      var n := |rows| - 1;
      SelectDistinct(rows[..n], column, values);
      SelectFacts(rows[..n], column, values);
      var before := SelectRows(rows[..n], column, values);
      forall i | 0 <= i < |before| ensures !SameId(before[i], rows[n]) {
        assert before[i] in before;
        var j :| 0 <= j < n && rows[..n][j] == before[i];
        assert rows[j] == before[i];
      }
    }
  }

  /** The target database: primary keys hold, every source and turn has its parent, there is no
      row of workspace w, and none of the dumped ids is taken. */
  ghost predicate FreshFor(db: Database, w: nat, dumped: Table -> seq<Row>) {
    && (forall t :: DistinctIds(Rows(db, t)))
    && (forall r :: r in Rows(db, Sources) ==> "knowledge_base_id" in r && r["knowledge_base_id"] in IdValues(Rows(db, KnowledgeBases)))
    && (forall r :: r in Rows(db, ConversationTurns) ==> "conversation_id" in r && r["conversation_id"] in IdValues(Rows(db, Conversations)))
    && (forall t :: Owned(db, w, t) == [])
    && (forall t, r, s :: r in dumped(t) && s in Rows(db, t) ==> !SameId(r, s))
  }

  ghost predicate WellTyped(schema: Schema, db: Database) {
    forall t :: DistinctIds(Rows(db, t)) && forall r :: r in Rows(db, t) ==> Typed(schema(t), r)
  }

  /** Restoring appends the workspace's rows to each table. */
  lemma RestoreAppends(c: Codec, schema: Schema, db1: Database, db2: Database, w: nat, at: string)
    requires Faithful(c) && WellTyped(schema, db1) && Dump(c, db1, w, at).Ok?
    requires FreshFor(db2, w, t => Owned(db1, w, t))
    ensures var p := Dump(c, db1, w, at).value;
            && Restored(c, schema, db2, p).Ok?
            && forall t :: Rows(Restored(c, schema, db2, p).value, t) == Rows(db2, t) + Owned(db1, w, t)
  {
    hide Faithful, Owned, Upserted, SelectRows, RestoredTables, DistinctIds, Typed;
    var p := Dump(c, db1, w, at).value;
    WorkspaceBlock(c, schema, db1, w, at);
    forall t ensures UpsertedTable(c, schema, db2, p, t) == Ok(Rows(db2, t) + Owned(db1, w, t)) {
      OwnedFacts(schema, db1, w, t);
      UpsertNewRows(c, schema(t), t, Rows(db2, t), Owned(db1, w, t));
    }
    RestoreSucceeds(c, schema, db2, p, TABLES);
    var after := RestoredTables(c, schema, db2, p, TABLES).value;
    forall t ensures Rows(after, t) == Rows(db2, t) + Owned(db1, w, t) {
      TableAfter(c, schema, db2, p, TABLES, t);
    }
  }

  lemma OwnedFacts(schema: Schema, db: Database, w: nat, t: Table)
    requires WellTyped(schema, db)
    ensures DistinctIds(Owned(db, w, t))
    ensures forall r :: r in Owned(db, w, t) ==> r in Rows(db, t) && Typed(schema(t), r)
  {
    hide Typed, DistinctIds, SelectRows, Rows, Owners;
    SelectFacts(Rows(db, t), OwnerColumn(t), Owners(db, w, t));
    SelectDistinct(Rows(db, t), OwnerColumn(t), Owners(db, w, t));
  }

  lemma FirstTwoSame(rows: seq<Row>, id: Value)
    requires |rows| > 1 && id != Null && forall r :: r in rows ==> "id" in r && r["id"] == id
    ensures !DistinctIds(rows)
  {
    assert rows[0] in rows && rows[1] in rows;
    assert SameId(rows[0], rows[1]);
  }

  /** The workspace table holds the one row with id w, so its block is that row. */
  lemma WorkspaceBlock(c: Codec, schema: Schema, db: Database, w: nat, at: string)
    requires Faithful(c) && WellTyped(schema, db) && Dump(c, db, w, at).Ok?
    ensures var p := Dump(c, db, w, at).value;
            && p.workspace != map[] && p.schemaVersion == BACKUP_SCHEMA_VERSION
            && |Owned(db, w, Workspaces)| == 1
            && forall t :: BlockOf(p, t) == DictsOf(c, Owned(db, w, t))
  {
    hide SelectRows, Rows;
    var own := Owned(db, w, Workspaces);
    OwnedFacts(schema, db, w, Workspaces);
    SelectFacts(Rows(db, Workspaces), "id", {IdV(w)});
    assert own[0] in own;
    if |own| > 1 {
      FirstTwoSame(own, IdV(w));
    }
    assert "id" in RowToDict(c, own[0]);
    assert DictsOf(c, own) == [RowToDict(c, own[0])];
  }

  /** Main result: the backup round trip. Restoring the dump of workspace w into a database that
      holds nothing of it, and dumping w there, gives the same payload apart from its date. */
  lemma RoundTrip(c: Codec, schema: Schema, db1: Database, db2: Database, w: nat, at1: string, at2: string)
    requires Faithful(c) && WellTyped(schema, db1) && Dump(c, db1, w, at1).Ok?
    requires FreshFor(db2, w, t => Owned(db1, w, t))
    ensures var p := Dump(c, db1, w, at1).value;
            && Restored(c, schema, db2, p).Ok?
            && Dump(c, Restored(c, schema, db2, p).value, w, at2) == Ok(p.(exportedAt := at2))
  {
    hide Owned, Restored, Faithful, WellTyped, Rows, DictsOf, RowToDict;
    RestoreAppends(c, schema, db1, db2, w, at1);
    var after := Restored(c, schema, db2, Dump(c, db1, w, at1).value).value;
    forall t ensures Owned(after, w, t) == Owned(db1, w, t) {
      OwnedAfter(schema, db1, db2, after, w, t);
    }
    SameDump(c, after, db1, w, at1, at2);
  }

  lemma SameDump(c: Codec, a: Database, b: Database, w: nat, at1: string, at2: string)
    requires Dump(c, b, w, at1).Ok? && forall t :: Owned(a, w, t) == Owned(b, w, t)
    ensures Dump(c, a, w, at2) == Ok(Dump(c, b, w, at1).value.(exportedAt := at2))
  {
    hide Owned, DictsOf, RowToDict;
    assert (map t: Table | t != Workspaces :: DictsOf(c, Owned(a, w, t)))
        == (map t: Table | t != Workspaces :: DictsOf(c, Owned(b, w, t)));
  }

  // ---------------------------------------------------------------- restoring where rows exist

  /** The one row with its id decides what an update sets. */
  lemma {:induction false} MergedIs(rows: seq<Row>, r: Row)
    requires DistinctIds(rows) && r in rows && HasId(r)
    ensures MergedFor(rows, r["id"]) == r
  {
    var n := |rows| - 1;
    assert rows == rows[..n] + [rows[n]];
    if SameId(rows[n], r) {
      var i :| 0 <= i <= n && rows[i] == r;
      assert i == n;
      assert forall k :: k in rows[..n] ==> !SameId(k, r);
      MergedNone(rows[..n], r);
      assert map[] + r == r;
    } else {
      assert r in rows[..n];
      MergedIs(rows[..n], r);
      assert r + map[] == r;
    }
  }

  /** A full row overwrites the row with its id entirely. */
  lemma Overwritten(cols: seq<Column>, row: Row, rows: seq<Row>, r: Row)
    requires DistinctIds(rows) && r in rows && SameId(row, r) && Typed(cols, row) && Typed(cols, r)
    ensures RowUpdated(row, rows) == r
  {
    hide DistinctIds, MergedFor, TypedOn;
    MergedIs(rows, r);
    assert row + r == r;
  }

  /** Main result: restoring brings the dumped rows back. Into whatever state another database is,
      a successful restore leaves each dumped row as it was dumped, lost rows and later edits
      included; rows with other ids stay, as `RestoreLeavesOthers` says. */
  lemma RestoreBringsBack(c: Codec, schema: Schema, db1: Database, db2: Database, w: nat, at: string, t: Table, r: Row)
    requires Faithful(c) && WellTyped(schema, db1) && WellTyped(schema, db2) && Dump(c, db1, w, at).Ok?
    requires Restored(c, schema, db2, Dump(c, db1, w, at).value).Ok? && r in Owned(db1, w, t)
    ensures r in Rows(Restored(c, schema, db2, Dump(c, db1, w, at).value).value, t)
  {
    hide Faithful, Owned, SelectRows, RestoredTables, DistinctIds, Typed, RowUpdated, Inserted, Upserted, Dump;
    var p := Dump(c, db1, w, at).value;
    WorkspaceBlock(c, schema, db1, w, at);
    OwnedFacts(schema, db1, w, t);
    CoercedAllOfDicts(c, schema(t), Owned(db1, w, t));
    TableAfter(c, schema, db2, p, TABLES, t);
    UpsertBringsBack(c, schema(t), t, Rows(db2, t), Owned(db1, w, t), r);
  }

  lemma UpsertBringsBack(c: Codec, cols: seq<Column>, t: Table, table: seq<Row>, rows: seq<Row>, r: Row)
    requires CoercedAll(c, cols, DictsOf(c, rows)) == Ok(rows) && DistinctIds(rows) && r in rows
    requires (forall k :: k in rows ==> Typed(cols, k)) && (forall k :: k in table ==> Typed(cols, k))
    ensures Upserted(c, cols, t, table, DictsOf(c, rows)).Ok? ==> r in Upserted(c, cols, t, table, DictsOf(c, rows)).value
  {
    hide DistinctIds, RowUpdated, Inserted, TypedOn;
    if i :| 0 <= i < |table| && SameId(table[i], r) {
      assert table[i] in table;
      Overwritten(cols, table[i], rows, r);
      assert Updated(table, rows)[i] == r;
    } else {
      InsertedAreAbsent(c, t, table, rows);
    }
  }

  // ---------------------------------------------------------------- what one payload row does

  lemma {:induction false} MergedUnique(rows: seq<Row>, j: nat)
    requires j < |rows| && HasId(rows[j]) && forall k :: 0 <= k < |rows| && k != j ==> !SameId(rows[k], rows[j])
    ensures MergedFor(rows, rows[j]["id"]) == rows[j]
  {
    var n := |rows| - 1;
    if j == n {
      forall r | r in rows[..n] ensures !SameId(r, rows[j]) {
        var k :| 0 <= k < n && rows[k] == r;
      }
      MergedNone(rows[..n], rows[j]);
      assert map[] + rows[j] == rows[j];
    } else {
      MergedUnique(rows[..n], j);
      assert !SameId(rows[n], rows[j]);
      assert rows[j] + map[] == rows[j];
    }
  }

  /** Main result: what a restored row does to its table. If its id is there, that row, in its place,
      takes over the columns the payload row sets and keeps the others; if not, the payload row itself
      is added behind the table. (For an id that the payload does not repeat.) */
  lemma UpsertMerges(c: Codec, cols: seq<Column>, t: Table, table: seq<Row>, payload: seq<Row>, j: nat)
    requires Upserted(c, cols, t, table, payload).Ok? && CoercedAll(c, cols, payload).Ok?
    requires var rows := CoercedAll(c, cols, payload).value;
             j < |rows| && HasId(rows[j]) && forall k :: 0 <= k < |rows| && k != j ==> !SameId(rows[k], rows[j])
    ensures var row, after := CoercedAll(c, cols, payload).value[j], Upserted(c, cols, t, table, payload).value;
            && |table| <= |after|
            && (forall i :: 0 <= i < |table| && SameId(table[i], row) ==>
                  && after[i].Keys == table[i].Keys + row.Keys
                  && forall k :: k in after[i] ==> after[i][k] == if k in row then row[k] else table[i][k])
            && ((forall i :: 0 <= i < |table| ==> !SameId(table[i], row)) ==> row in after[|table|..])
  {
    hide Coerced, CoercedAll, MergedFor, Inserted, DistinctIds;
    var rows := CoercedAll(c, cols, payload).value;
    var after := Upserted(c, cols, t, table, payload).value;
    MergedUnique(rows, j);
    forall i | 0 <= i < |table| && SameId(table[i], rows[j]) ensures after[i] == table[i] + rows[j] {
      assert after[i] == RowUpdated(table[i], rows);
    }
    if forall i :: 0 <= i < |table| ==> !SameId(table[i], rows[j]) {
      assert after[|table|..] == Inserted(c, t, table, rows);
      InsertedHolds(c, t, table, rows, j);
    }
  }

  lemma {:induction false} InsertedHolds(c: Codec, t: Table, table: seq<Row>, rows: seq<Row>, j: nat)
    requires j < |rows| && HasId(rows[j]) && !Present(table, rows[j])
    ensures rows[j] in Inserted(c, t, table, rows)
  {
    hide Present;
    if j < |rows| - 1 {
      InsertedHolds(c, t, table, rows[..|rows| - 1], j);
    }
  }

  /** How payload values are read: empty text and null are null in id and time columns, a trailing Z
      (or several) does not matter to a time, and all other columns take what is there. */
  lemma CoercionRules(c: Codec, text: string, zs: nat, v: Value)
    requires text != "" && text[|text| - 1] != 'Z'
    ensures forall k :: k == UuidColumn || k == TimeColumn ==> Coerce(c, k, Null) == Ok(Null) == Coerce(c, k, Text(""))
    ensures Coerce(c, PlainColumn, v) == Ok(v)
    ensures Coerce(c, TimeColumn, Text(text + seq(zs, _ => 'Z')))
            == if c.fromIso(text).Some? then Ok(TimeV(c.fromIso(text).value)) else Err(BadValue)
    ensures Coerce(c, UuidColumn, Text(text))
            == if c.parseUuid(text).Some? then Ok(IdV(c.parseUuid(text).value)) else Err(BadValue)
  {
    StripsAllZs(text, zs);
    assert (text + seq(zs, _ => 'Z'))[0] == text[0];
  }

  lemma {:induction false} StripsAllZs(text: string, zs: nat)
    requires text != "" && text[|text| - 1] != 'Z'
    ensures StripZ(text + seq(zs, _ => 'Z')) == text
  {
    var s := text + seq(zs, _ => 'Z');
    if zs == 0 {
      assert s == text;
    } else {
      assert s[..|s| - 1] == text + seq(zs - 1, _ => 'Z');
      StripsAllZs(text, zs - 1);
    }
  }

  /** The columns restore writes: exactly those of the table that the payload row has, each read by
      the rules of its kind. */
  lemma {:induction false} CoercedColumns(c: Codec, cols: seq<Column>, payload: Row)
    requires forall i, j :: 0 <= i < j < |cols| ==> cols[i].name != cols[j].name
    ensures Coerced(c, cols, payload).Ok? <==> forall col :: col in cols ==> Readable(c, col, payload)
    ensures Coerced(c, cols, payload).Ok? ==>
              var row := Coerced(c, cols, payload).value;
              row.Keys == payload.Keys * Names(cols)
              && forall col :: col in cols && col.name in payload ==> Coerce(c, col.kind, payload[col.name]) == Ok(row[col.name])
  {
    hide Coerce, Coerced, Readable, Names;
    if cols == [] {
      NoColumns(c, payload);
    } else {
      var n := |cols| - 1;
      assert cols == cols[..n] + [cols[n]];
      assert forall col :: col in cols[..n] ==> col.name != cols[n].name;
      CoercedColumns(c, cols[..n], payload);
      NamesStep(cols);
      CoercedStep(c, cols, payload);
    }
  }

  lemma NoColumns(c: Codec, payload: Row)
    ensures Names([]) == {} && Coerced(c, [], payload) == Ok(map[])
  {
  }

  lemma CoercedStep(c: Codec, cols: seq<Column>, payload: Row)
    requires cols != []
    ensures var col, before := cols[|cols| - 1], Coerced(c, cols[..|cols| - 1], payload);
            && (Coerced(c, cols, payload).Ok? <==> before.Ok? && Readable(c, col, payload))
            && (Coerced(c, cols, payload).Ok? && col.name !in payload ==> Coerced(c, cols, payload) == before)
            && (Coerced(c, cols, payload).Ok? && col.name in payload ==>
                 Coerce(c, col.kind, payload[col.name]).Ok?
                 && Coerced(c, cols, payload).value == before.value[col.name := Coerce(c, col.kind, payload[col.name]).value])
  {
    hide Coerce;
  }

  /** The payload row lacks the column, or its value there can be coerced. */
  predicate Readable(c: Codec, col: Column, payload: Row) {
    col.name in payload ==> Coerce(c, col.kind, payload[col.name]).Ok?
  }

  lemma UpsertOwnRows(c: Codec, cols: seq<Column>, t: Table, table: seq<Row>, rows: seq<Row>)
    requires Faithful(c) && DistinctIds(table) && DistinctIds(rows)
    requires forall r :: r in rows ==> r in table && Typed(cols, r)
    ensures Upserted(c, cols, t, table, DictsOf(c, rows)) == Ok(table)
  {
    hide Faithful, Inserted, Typed, TypedOn, RowUpdated;
    CoercedAllOfDicts(c, cols, rows);
    forall i | 0 <= i < |table| ensures RowUpdated(table[i], rows) == table[i] {
      OwnRowUpdated(cols, table, rows, i);
    }
    assert Updated(table, rows) == table;
    forall r | r in rows ensures Present(table, r) {
      OwnRowPresent(cols, table, r);
    }
    NothingInserted(c, t, table, rows);
    assert table + [] == table;
  }

  lemma OwnRowPresent(cols: seq<Column>, table: seq<Row>, r: Row)
    requires r in table && Typed(cols, r)
    ensures Present(table, r)
  {
    var i :| 0 <= i < |table| && table[i] == r;
    assert SameId(table[i], r);
  }

  lemma OwnRowUpdated(cols: seq<Column>, table: seq<Row>, rows: seq<Row>, i: nat)
    requires DistinctIds(table) && DistinctIds(rows) && i < |table|
    requires forall r :: r in rows ==> r in table && Typed(cols, r)
    ensures RowUpdated(table[i], rows) == table[i]
  {
    hide TypedOn;
    if r :| r in rows && SameId(r, table[i]) {
      var j :| 0 <= j < |table| && table[j] == r;
      SameIdSymmetric(r, table[i]);
      assert i == j;
      Overwritten(cols, table[i], rows, r);
    } else {
      NotUpdated(table[i], rows);
    }
  }

  /** Main result: restoring a dump into the database it came from changes nothing. */
  lemma RestoreOwnDump(c: Codec, schema: Schema, db: Database, w: nat, at: string)
    requires Faithful(c) && WellTyped(schema, db) && Dump(c, db, w, at).Ok?
    ensures var p := Dump(c, db, w, at).value;
            && Restored(c, schema, db, p).Ok?
            && forall t :: Rows(Restored(c, schema, db, p).value, t) == Rows(db, t)
  {
    hide Faithful, Owned, Upserted, SelectRows, RestoredTables, DistinctIds, Typed;
    var p := Dump(c, db, w, at).value;
    WorkspaceBlock(c, schema, db, w, at);
    forall t ensures UpsertedTable(c, schema, db, p, t) == Ok(Rows(db, t)) {
      OwnedFacts(schema, db, w, t);
      UpsertOwnRows(c, schema(t), t, Rows(db, t), Owned(db, w, t));
    }
    RestoreSucceeds(c, schema, db, p, TABLES);
    var after := RestoredTables(c, schema, db, p, TABLES).value;
    forall t ensures Rows(after, t) == Rows(db, t) {
      TableAfter(c, schema, db, p, TABLES, t);
    }
  }

  lemma {:induction false} SelectNone(rows: seq<Row>, column: string, values: set<Value>)
    requires forall r :: r in rows && column in r ==> r[column] !in values
    ensures SelectRows(rows, column, values) == []
  {
    if rows != [] {
      assert rows[|rows| - 1] in rows;
      SelectNone(rows[..|rows| - 1], column, values);
    }
  }

  /** Appending the rows that own the values of a column to rows that own none of them. */
  lemma SelectAppended(rows: seq<Row>, source: seq<Row>, column: string, values: set<Value>)
    requires SelectRows(rows, column, values) == []
    ensures SelectRows(rows + SelectRows(source, column, values), column, values) == SelectRows(source, column, values)
  {
    hide SelectRows;
    SelectConcat(rows, SelectRows(source, column, values), column, values);
    SelectTwice(source, column, values);
  }

  lemma OwnedAfter(schema: Schema, db1: Database, db2: Database, after: Database, w: nat, t: Table)
    requires WellTyped(schema, db1) && FreshFor(db2, w, t => Owned(db1, w, t))
    requires forall t :: Rows(after, t) == Rows(db2, t) + Owned(db1, w, t)
    ensures Owned(after, w, t) == Owned(db1, w, t)
  {
    hide SelectRows, Rows, DistinctIds, SameId, Typed;
    assert Owned(db2, w, t) == [];
    match t
    case Sources => OwnedThroughParent(schema, db1, db2, after, w, KnowledgeBases, t);
    case ConversationTurns => OwnedThroughParent(schema, db1, db2, after, w, Conversations, t);
    case _ => SelectAppended(Rows(db2, t), Rows(db1, t), OwnerColumn(t), {IdV(w)});
  }

  lemma OwnedThroughParent(schema: Schema, db1: Database, db2: Database, after: Database, w: nat, parent: Table, t: Table)
    requires WellTyped(schema, db1) && FreshFor(db2, w, t => Owned(db1, w, t))
    requires forall t :: Rows(after, t) == Rows(db2, t) + Owned(db1, w, t)
    requires (parent == KnowledgeBases && t == Sources) || (parent == Conversations && t == ConversationTurns)
    ensures Owned(after, w, t) == Owned(db1, w, t)
  {
    hide SelectRows, Rows, DistinctIds, SameId, Typed;
    assert Owned(db2, w, parent) == [];
    SelectAppended(Rows(db2, parent), Rows(db1, parent), OwnerColumn(parent), {IdV(w)});
    assert Owners(after, w, t) == Owners(db1, w, t) == IdValues(Owned(db1, w, parent));
    forall r | r in Rows(db2, t) && OwnerColumn(t) in r ensures r[OwnerColumn(t)] !in Owners(db1, w, t) {
      ParentNotDumped(schema, db1, db2, w, parent, t, r);
    }
    SelectNone(Rows(db2, t), OwnerColumn(t), Owners(db1, w, t));
    SelectAppended(Rows(db2, t), Rows(db1, t), OwnerColumn(t), Owners(db1, w, t));
  }

  /** A row of the target hangs under a parent of the target, which the dump does not contain. */
  lemma ParentNotDumped(schema: Schema, db1: Database, db2: Database, w: nat, parent: Table, t: Table, r: Row)
    requires WellTyped(schema, db1) && FreshFor(db2, w, t => Owned(db1, w, t))
    requires (parent == KnowledgeBases && t == Sources) || (parent == Conversations && t == ConversationTurns)
    requires r in Rows(db2, t) && OwnerColumn(t) in r
    ensures r[OwnerColumn(t)] !in IdValues(Owned(db1, w, parent))
  {
    hide Owned, Rows, DistinctIds;
    OwnedFacts(schema, db1, w, parent);
    assert r[OwnerColumn(t)] in IdValues(Rows(db2, parent));
    var s :| s in Rows(db2, parent) && "id" in s && s["id"] == r[OwnerColumn(t)];
    forall x | x in Owned(db1, w, parent) && "id" in x ensures x["id"] != r[OwnerColumn(t)] {
      assert HasId(x) && !SameId(x, s);
    }
  }
}
