/** Workspace dump and restore: `backup.py`, over tables of typed rows. */
module Backup {
  import opened Wrappers

  /** `Other` stands for numbers, booleans and JSON documents. */
  datatype Value = Null | IdV(id: nat) | TimeV(time: int) | Text(text: string) | Other(code: int)

  type Row = map<string, Value>

  datatype Kind = UuidColumn | TimeColumn | PlainColumn

  datatype Column = Column(name: string, kind: Kind)

  datatype Table =
    | Workspaces | KnowledgeBases | Sources | Conversations | ConversationTurns
    | AnswerFeedback | Budgets | UsageEvents | ApiKeys | AuditEvents

  /** The order in which restore writes the tables. */
  function TableAt(i: nat): Table
    requires i < TABLES
  {
    if i == 0 then Workspaces else if i == 1 then KnowledgeBases else if i == 2 then Sources
    else if i == 3 then Conversations else if i == 4 then ConversationTurns else if i == 5 then AnswerFeedback
    else if i == 6 then Budgets else if i == 7 then UsageEvents else if i == 8 then ApiKeys else AuditEvents
  }

  const TABLES: nat := 10

  function Position(t: Table): (i: nat)
    ensures i < TABLES && TableAt(i) == t
  {
    match t
    case Workspaces => 0
    case KnowledgeBases => 1
    case Sources => 2
    case Conversations => 3
    case ConversationTurns => 4
    case AnswerFeedback => 5
    case Budgets => 6
    case UsageEvents => 7
    case ApiKeys => 8
    case AuditEvents => 9
  }

  datatype Error = UnknownWorkspace | BadSchemaVersion | MissingWorkspace | BadValue | DuplicateKey

  /** Text forms of the standard library: `isoformat`/`fromisoformat`, `str`/`uuid.UUID`. `show` is
      `str` on values that are not text; `newId` draws the default id of a new row. */
  datatype Codec = Codec(iso: int -> string, fromIso: string -> Option<int>,
                         uuidText: nat -> string, parseUuid: string -> Option<nat>,
                         show: Value -> string, newId: (Table, nat) -> nat)

  /** What the round trip assumes of them. */
  ghost predicate Faithful(c: Codec) {
    && (forall t :: c.fromIso(c.iso(t)) == Some(t) && c.iso(t) != "" && c.iso(t)[|c.iso(t)| - 1] != 'Z')
    && (forall u: nat :: c.parseUuid(c.uuidText(u)) == Some(u) && c.uuidText(u) != "")
  }

  /** The columns of each table, as the models declare them. */
  type Schema = Table -> seq<Column>

  type Database = map<Table, seq<Row>>

  datatype Payload = Payload(schemaVersion: int, exportedAt: string, workspace: Row, blocks: map<Table, seq<Row>>)

  const BACKUP_SCHEMA_VERSION := 1

  // ---------------------------------------------------------------- values

  function Serialize(c: Codec, v: Value): Value {
    match v
    case TimeV(t) => Text(c.iso(t))
    case IdV(u) => Text(c.uuidText(u))
    case _ => v
  }

  function Str(c: Codec, v: Value): string {
    if v.Text? then v.text else c.show(v)
  }

  /** Python's `s.rstrip("Z")`. */
  function StripZ(s: string): string {
    if s != "" && s[|s| - 1] == 'Z' then StripZ(s[..|s| - 1]) else s
  }

  function CoerceUuid(c: Codec, v: Value): Result<Value, Error> {
    if v == Null || v == Text("") then Ok(Null)
    else if v.IdV? then Ok(v)
    else match c.parseUuid(Str(c, v))
         case Some(u) => Ok(IdV(u))
         case None => Err(BadValue)
  }

  function CoerceDatetime(c: Codec, v: Value): Result<Value, Error> {
    if v == Null || v == Text("") then Ok(Null)
    else if v.TimeV? then Ok(v)
    else match c.fromIso(StripZ(Str(c, v)))
         case Some(t) => Ok(TimeV(t))
         case None => Err(BadValue)
  }

  function Coerce(c: Codec, kind: Kind, v: Value): Result<Value, Error> {
    match kind
    case UuidColumn => CoerceUuid(c, v)
    case TimeColumn => CoerceDatetime(c, v)
    case PlainColumn => Ok(v)
  }

  function RowToDict(c: Codec, row: Row): Row {
    map k | k in row :: Serialize(c, row[k])
  }

  /** The columns of a payload row, coerced; other keys are ignored. */
  function Coerced(c: Codec, cols: seq<Column>, payload: Row): Result<Row, Error> {
    if cols == [] then Ok(map[]) else
      var col := cols[|cols| - 1];
      var before := Coerced(c, cols[..|cols| - 1], payload);
      if before.Err? || col.name !in payload then before
      else match Coerce(c, col.kind, payload[col.name])
           case Ok(v) => Ok(before.value[col.name := v])
           case Err(e) => Err(e)
  }

  method ApplyDict(c: Codec, cols: seq<Column>, payload: Row) returns (r: Result<Row, Error>)
    ensures r == Coerced(c, cols, payload)
  {
    var kwargs: Row := map[];
    for i := 0 to |cols|
      invariant Ok(kwargs) == Coerced(c, cols[..i], payload)
    {
      assert cols[..i + 1][..i] == cols[..i];
      var col := cols[i];
      if col.name in payload {
        var v := Coerce(c, col.kind, payload[col.name]);
        if v.Err? {
          CoercedFails(c, cols, i + 1, payload);
          return Err(v.error);
        }
        kwargs := kwargs[col.name := v.value];
      }
    }
    assert cols[..|cols|] == cols;
    return Ok(kwargs);
  }

  lemma {:induction false} CoercedFails(c: Codec, cols: seq<Column>, i: nat, payload: Row)
    requires i <= |cols| && Coerced(c, cols[..i], payload).Err?
    ensures Coerced(c, cols, payload) == Coerced(c, cols[..i], payload)
    decreases |cols|
  {
    if i == |cols| {
      assert cols[..i] == cols;
    } else {
      assert cols[..|cols| - 1][..i] == cols[..i];
      CoercedFails(c, cols[..|cols| - 1], i, payload);
    }
  }

  /** Payload rows, coerced in order; the first bad value is reported. */
  function CoercedAll(c: Codec, cols: seq<Column>, payload: seq<Row>): Result<seq<Row>, Error> {
    if payload == [] then Ok([]) else
      var n := |payload| - 1;
      var before := CoercedAll(c, cols, payload[..n]);
      if before.Err? then before
      else match Coerced(c, cols, payload[n])
           case Ok(row) => Ok(before.value + [row])
           case Err(e) => Err(e)
  }

  // ---------------------------------------------------------------- dump

  function Rows(db: Database, t: Table): seq<Row> {
    if t in db then db[t] else []
  }

  /** The rows whose column holds one of the values. */
  function SelectRows(rows: seq<Row>, column: string, values: set<Value>): seq<Row> {
    if rows == [] then [] else
      var n := |rows| - 1;
      SelectRows(rows[..n], column, values)
      + if column in rows[n] && rows[n][column] in values then [rows[n]] else []
  }

  function IdValues(rows: seq<Row>): set<Value> {
    set r | r in rows && "id" in r :: r["id"]
  }

  function OwnerColumn(t: Table): string {
    match t
    case Workspaces => "id"
    case Sources => "knowledge_base_id"
    case ConversationTurns => "conversation_id"
    case _ => "workspace_id"
  }

  function OwnedDirectly(db: Database, w: nat, t: Table): seq<Row> {
    SelectRows(Rows(db, t), OwnerColumn(t), {IdV(w)})
  }

  /** What the owner column of workspace w's rows holds: its id, or an id of a parent row. */
  function Owners(db: Database, w: nat, t: Table): set<Value> {
    match t
    case Sources => IdValues(OwnedDirectly(db, w, KnowledgeBases))
    case ConversationTurns => IdValues(OwnedDirectly(db, w, Conversations))
    case _ => {IdV(w)}
  }

  /** The rows of a table that belong to workspace w, directly or through their parent. */
  function Owned(db: Database, w: nat, t: Table): seq<Row> {
    SelectRows(Rows(db, t), OwnerColumn(t), Owners(db, w, t))
  }

  function DictsOf(c: Codec, rows: seq<Row>): (r: seq<Row>)
    ensures |r| == |rows|
  {
    seq(|rows|, i requires 0 <= i < |rows| => RowToDict(c, rows[i]))
  }

  function Dump(c: Codec, db: Database, w: nat, exportedAt: string): Result<Payload, Error> {
    var workspace := Owned(db, w, Workspaces);
    if workspace == [] then Err(UnknownWorkspace)
    else Ok(Payload(BACKUP_SCHEMA_VERSION, exportedAt, RowToDict(c, workspace[0]),
                    map t: Table | t != Workspaces :: DictsOf(c, Owned(db, w, t))))
  }

  // ---------------------------------------------------------------- restore

  predicate HasId(row: Row) {
    "id" in row && row["id"] != Null
  }

  /** Everything the rows with this id set, later rows winning. */
  function MergedFor(rows: seq<Row>, id: Value): Row {
    if rows == [] then map[] else
      var n := |rows| - 1;
      MergedFor(rows[..n], id) + if HasId(rows[n]) && rows[n]["id"] == id then rows[n] else map[]
  }

  predicate SameId(a: Row, b: Row) {
    HasId(a) && HasId(b) && a["id"] == b["id"]
  }

  function RowUpdated(row: Row, rows: seq<Row>): Row {
    if HasId(row) then row + MergedFor(rows, row["id"]) else row
  }

  /** Rows already present keep their place and take over what the restored rows with their id set. */
  function Updated(table: seq<Row>, rows: seq<Row>): (r: seq<Row>)
    ensures |r| == |table|
    ensures forall i :: 0 <= i < |table| ==> r[i] == RowUpdated(table[i], rows)
  {
    seq(|table|, i requires 0 <= i < |table| => RowUpdated(table[i], rows))
  }

  predicate Present(table: seq<Row>, row: Row) {
    exists i :: 0 <= i < |table| && SameId(table[i], row)
  }

  /** The restored rows without a match in the table, those without an id getting a new one. */
  function Inserted(c: Codec, t: Table, table: seq<Row>, rows: seq<Row>): seq<Row> {
    if rows == [] then [] else
      var n := |rows| - 1;
      var before := Inserted(c, t, table, rows[..n]);
      if Present(table, rows[n]) then before
      else if HasId(rows[n]) then before + [rows[n]]
      else before + [rows[n]["id" := IdV(c.newId(t, |table| + |before|))]]
  }

  predicate DistinctIds(table: seq<Row>) {
    forall i, j :: 0 <= i < j < |table| ==> !SameId(table[i], table[j])
  }

  /** One table after upserting payload rows. Ids are a primary key: two new rows with the same id
      fail at the flush. */
  function Upserted(c: Codec, cols: seq<Column>, t: Table, table: seq<Row>, payload: seq<Row>): Result<seq<Row>, Error> {
    var rows := CoercedAll(c, cols, payload);
    if rows.Err? then Err(rows.error) else
      var after := Updated(table, rows.value) + Inserted(c, t, table, rows.value);
      if DistinctIds(after) then Ok(after) else Err(DuplicateKey)
  }

  function BlockOf(p: Payload, t: Table): seq<Row> {
    if t == Workspaces then [p.workspace] else if t in p.blocks then p.blocks[t] else []
  }

  /** The first n tables of the order restored. */
  function RestoredTables(c: Codec, schema: Schema, db: Database, p: Payload, n: nat): Result<Database, Error>
    requires n <= TABLES
  {
    if n == 0 then Ok(db) else
      var before := RestoredTables(c, schema, db, p, n - 1);
      if before.Err? then before else
        var t := TableAt(n - 1);
        match Upserted(c, schema(t), t, Rows(before.value, t), BlockOf(p, t))
        case Ok(rows) => Ok(before.value[t := rows])
        case Err(e) => Err(e)
  }

  function Restored(c: Codec, schema: Schema, db: Database, p: Payload): Result<Database, Error> {
    if p.schemaVersion != BACKUP_SCHEMA_VERSION then Err(BadSchemaVersion)
    else if p.workspace == map[] then Err(MissingWorkspace)
    else RestoredTables(c, schema, db, p, TABLES)
  }

  // ---------------------------------------------------------------- the mutable store

  /** The position of the row with the id of `row`, or the length of the table. */
  function FindRow(table: seq<Row>, row: Row): (k: nat)
    ensures k <= |table|
    ensures k < |table| ==> SameId(table[k], row)
    ensures forall j :: 0 <= j < k ==> !SameId(table[j], row)
  {
    if table == [] || SameId(table[0], row) then 0 else 1 + FindRow(table[1..], row)
  }

  lemma MergedStep(rows: seq<Row>, row: Row, id: Value)
    ensures MergedFor(rows + [row], id) == MergedFor(rows, id) + if HasId(row) && row["id"] == id then row else map[]
  {
    assert (rows + [row])[..|rows|] == rows;
  }

  lemma RowUpdatedStep(r: Row, rows: seq<Row>, row: Row)
    ensures RowUpdated(r, rows + [row]) == if SameId(r, row) then RowUpdated(r, rows) + row else RowUpdated(r, rows)
  {
    hide MergedFor;
    if HasId(r) {
      var before := MergedFor(rows, r["id"]);
      MergedStep(rows, row, r["id"]);
      assert r + (before + row) == (r + before) + row;
      assert before + map[] == before;
    }
  }

  /** One more restored row changes the row it matches, if any. */
  lemma UpdatedStep(table: seq<Row>, rows: seq<Row>, row: Row)
    requires DistinctIds(table)
    ensures var k := FindRow(table, row);
            Updated(table, rows + [row])
            == if k < |table| then Updated(table, rows)[k := Updated(table, rows)[k] + row] else Updated(table, rows)
  {
    hide RowUpdated, FindRow, SameId;
    var k := FindRow(table, row);
    forall i | 0 <= i < |table|
      ensures RowUpdated(table[i], rows + [row])
              == if i == k then RowUpdated(table[i], rows) + row else RowUpdated(table[i], rows)
    {
      RowUpdatedStep(table[i], rows, row);
      if k < |table| && i != k {
        OtherId(table, row, k, i);
      }
    }
  }

  lemma OtherId(table: seq<Row>, row: Row, k: nat, i: nat)
    requires DistinctIds(table) && k < |table| && i < |table| && i != k && SameId(table[k], row)
    ensures !SameId(table[i], row)
  {
    assert if i < k then !SameId(table[i], table[k]) else !SameId(table[k], table[i]);
  }

  lemma InsertedStep(c: Codec, t: Table, table: seq<Row>, rows: seq<Row>, row: Row)
    ensures var before := Inserted(c, t, table, rows);
            Inserted(c, t, table, rows + [row]) == before
              + if FindRow(table, row) < |table| then []
                else if HasId(row) then [row] else [row["id" := IdV(c.newId(t, |table| + |before|))]]
  {
    hide FindRow, SameId, HasId;
    assert (rows + [row])[..|rows|] == rows;
    assert Present(table, row) <==> FindRow(table, row) < |table|;
  }

  lemma CoercedAllStep(c: Codec, cols: seq<Column>, payload: seq<Row>, i: nat)
    requires i < |payload|
    ensures CoercedAll(c, cols, payload[..i + 1]) ==
              var before := CoercedAll(c, cols, payload[..i]);
              if before.Err? then before
              else match Coerced(c, cols, payload[i])
                   case Ok(row) => Ok(before.value + [row])
                   case Err(e) => Err(e)
  {
    assert payload[..i + 1][..i] == payload[..i];
  }

  lemma NothingUpserted(c: Codec, cols: seq<Column>, t: Table, table: seq<Row>)
    ensures CoercedAll(c, cols, []) == Ok([]) && Updated(table, []) == table && Inserted(c, t, table, []) == []
  {
    forall i | 0 <= i < |table| ensures RowUpdated(table[i], []) == table[i] {
      assert table[i] + map[] == table[i];
    }
  }

  function CountsOf(p: Payload, n: nat): map<Table, nat>
    requires n <= TABLES
  {
    if n == 0 then map[] else CountsOf(p, n - 1)[TableAt(n - 1) := |BlockOf(p, TableAt(n - 1))|]
  }

  lemma NothingRestored(c: Codec, schema: Schema, db: Database, p: Payload)
    ensures RestoredTables(c, schema, db, p, 0) == Ok(db) && CountsOf(p, 0) == map[]
  {
  }

  lemma RestoreStep(c: Codec, schema: Schema, db: Database, p: Payload, i: nat)
    requires i < TABLES && RestoredTables(c, schema, db, p, i).Ok?
    ensures var before, t := RestoredTables(c, schema, db, p, i).value, TableAt(i);
            && CountsOf(p, i + 1) == CountsOf(p, i)[t := |BlockOf(p, t)|]
            && RestoredTables(c, schema, db, p, i + 1)
               == match Upserted(c, schema(t), t, Rows(before, t), BlockOf(p, t))
                  case Ok(rows) => Ok(before[t := rows])
                  case Err(e) => Err(e)
  {
    hide Upserted, BlockOf, Rows;
  }

  /** How many rows a payload shows of a table. */
  function Shown(p: Payload, t: Table): nat {
    if t == Workspaces then 1 else if t in p.blocks then |p.blocks[t]| else 0
  }

  class Store {
    const codec: Codec
    const schema: Schema
    var tables: Database

    constructor (codec: Codec, schema: Schema, tables: Database)
      ensures this.codec == codec && this.schema == schema && this.tables == tables
    {
      this.codec, this.schema, this.tables := codec, schema, tables;
    }

    /** Ids are a primary key of every table. */
    ghost predicate Valid()
      reads this
    {
      forall t :: DistinctIds(Rows(tables, t))
    }

    /** An error leaves the table as it was: the caller rolls the session back. */
    method UpsertMany(t: Table, payload: seq<Row>) returns (r: Result<nat, Error>)
      requires Valid()
      modifies this
      ensures Valid()
      ensures match Upserted(codec, schema(t), t, Rows(old(tables), t), payload)
              case Ok(rows) => tables == old(tables)[t := rows] && r == Ok(|payload|)
              case Err(e) => tables == old(tables) && r == Err(e)
    {
      hide Coerced, CoercedAll, Updated, Inserted, FindRow, DistinctIds, SameId;
      var table := Rows(tables, t);
      var current, pending: seq<Row> := table, [];
      ghost var rows: seq<Row> := [];
      NothingUpserted(codec, schema(t), t, table);
      assert payload[..0] == [];
      for i := 0 to |payload|
        invariant CoercedAll(codec, schema(t), payload[..i]) == Ok(rows)
        invariant current == Updated(table, rows) && pending == Inserted(codec, t, table, rows)
        invariant tables == old(tables)
      {
        CoercedAllStep(codec, schema(t), payload, i);
        var applied := ApplyDict(codec, schema(t), payload[i]);
        if applied.Err? {
          CoercedAllFails(codec, schema(t), i + 1, payload);
          return Err(applied.error);
        }
        var kwargs := applied.value;
        var k := FindRow(table, kwargs);
        UpdatedStep(table, rows, kwargs);
        InsertedStep(codec, t, table, rows, kwargs);
        if k < |table| {
          current := current[k := current[k] + kwargs];
        } else if HasId(kwargs) {
          pending := pending + [kwargs];
        } else {
          pending := pending + [kwargs["id" := IdV(codec.newId(t, |table| + |pending|))]];
        }
        rows := rows + [kwargs];
      }
      assert payload[..|payload|] == payload;
      if !DistinctIds(current + pending) {
        return Err(DuplicateKey);
      }
      tables := tables[t := current + pending];
      assert forall u :: u != t ==> Rows(tables, u) == Rows(old(tables), u);
      return Ok(|payload|);
    }

    method RestoreTables(p: Payload) returns (r: Result<map<Table, nat>, Error>)
      requires Valid()
      modifies this
      ensures Valid()
      ensures match RestoredTables(codec, schema, old(tables), p, TABLES)
              case Ok(db) => tables == db && r == Ok(CountsOf(p, TABLES))
              case Err(e) => tables == old(tables) && r == Err(e)
    {
      hide TableAt, Upserted, DistinctIds, BlockOf, Rows, SameId, CountsOf, RestoredTables;
      var saved, counts: map<Table, nat> := tables, map[];
      NothingRestored(codec, schema, saved, p);
      for i := 0 to TABLES
        invariant Valid()
        invariant RestoredTables(codec, schema, saved, p, i) == Ok(tables)
        invariant counts == CountsOf(p, i)
      {
        RestoreStep(codec, schema, saved, p, i);
        var t := TableAt(i);
        var written := UpsertMany(t, BlockOf(p, t));
        if written.Err? {
          RestoreFails(codec, schema, saved, p, i + 1, TABLES);
          tables := saved;
          return Err(written.error);
        }
        counts := counts[t := written.value];
      }
      return Ok(counts);
    }

    /** Upserts every table of the payload and counts the rows written to each. */
    method RestoreWorkspace(p: Payload) returns (r: Result<map<Table, nat>, Error>)
      requires Valid()
      modifies this
      ensures Valid()
      ensures match Restored(codec, schema, old(tables), p)
              case Ok(db) => tables == db && r == Ok(CountsOf(p, TABLES))
              case Err(e) => tables == old(tables) && r == Err(e)
      ensures p.schemaVersion != 1 <==> r == Err(BadSchemaVersion)
      ensures p.schemaVersion == 1 && p.workspace == map[] <==> r == Err(MissingWorkspace)
      ensures r.Ok? ==> forall t :: t in r.value && r.value[t] == Shown(p, t)
    {
      hide RestoredTables, CountsOf;
      CountsAre(p);
      RestoreErrors(codec, schema, tables, p, TABLES);
      if p.schemaVersion != BACKUP_SCHEMA_VERSION {
        return Err(BadSchemaVersion);
      }
      if p.workspace == map[] {
        return Err(MissingWorkspace);
      }
      r := RestoreTables(p);
    }
  }

  lemma CountsAre(p: Payload)
    ensures forall t :: t in CountsOf(p, TABLES) && CountsOf(p, TABLES)[t] == Shown(p, t)
  {
    forall t
      ensures t in CountsOf(p, TABLES)
      ensures CountsOf(p, TABLES)[t] == Shown(p, t)
    {
      CountOf(p, TABLES, Position(t));
    }
  }

  lemma {:induction false} CountOf(p: Payload, n: nat, i: nat)
    requires i < n <= TABLES
    ensures TableAt(i) in CountsOf(p, n) && CountsOf(p, n)[TableAt(i)] == |BlockOf(p, TableAt(i))|
  {
    if i < n - 1 {
      CountOf(p, n - 1, i);
    }
  }

  /** Restoring the tables fails only on a value or on a key. */
  lemma {:induction false} RestoreErrors(c: Codec, schema: Schema, db: Database, p: Payload, n: nat)
    requires n <= TABLES
    ensures RestoredTables(c, schema, db, p, n).Err? ==>
              RestoredTables(c, schema, db, p, n).error == BadValue || RestoredTables(c, schema, db, p, n).error == DuplicateKey
  {
    hide BlockOf, Rows, Updated, Inserted, DistinctIds, CoercedAll, TableAt;
    if n > 0 {
      RestoreErrors(c, schema, db, p, n - 1);
      CoercionErrors(c, schema(TableAt(n - 1)), BlockOf(p, TableAt(n - 1)));
    }
  }

  lemma {:induction false} CoercionErrors(c: Codec, cols: seq<Column>, payload: seq<Row>)
    ensures CoercedAll(c, cols, payload).Err? ==> CoercedAll(c, cols, payload).error == BadValue
  {
    if payload != [] {
      CoercionErrors(c, cols, payload[..|payload| - 1]);
      RowErrors(c, cols, payload[|payload| - 1]);
    }
  }

  lemma {:induction false} RowErrors(c: Codec, cols: seq<Column>, payload: Row)
    ensures Coerced(c, cols, payload).Err? ==> Coerced(c, cols, payload).error == BadValue
  {
    if cols != [] {
      RowErrors(c, cols[..|cols| - 1], payload);
    }
  }

  lemma {:induction false} CoercedAllFails(c: Codec, cols: seq<Column>, i: nat, payload: seq<Row>)
    requires i <= |payload| && CoercedAll(c, cols, payload[..i]).Err?
    ensures CoercedAll(c, cols, payload) == CoercedAll(c, cols, payload[..i])
    decreases |payload|
  {
    if i == |payload| {
      assert payload[..i] == payload;
    } else {
      assert payload[..|payload| - 1][..i] == payload[..i];
      CoercedAllFails(c, cols, i, payload[..|payload| - 1]);
    }
  }

  lemma {:induction false} RestoreFails(c: Codec, schema: Schema, db: Database, p: Payload, i: nat, n: nat)
    requires i <= n <= TABLES && RestoredTables(c, schema, db, p, i).Err?
    ensures RestoredTables(c, schema, db, p, n) == RestoredTables(c, schema, db, p, i)
    decreases n
  {
    hide Upserted;
    if i < n {
      RestoreFails(c, schema, db, p, i, n - 1);
    }
  }
}
