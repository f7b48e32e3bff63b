/** What a workspace dump contains, said about the rows of the tables alone. */
module DumpContents {
  import opened Wrappers
  import opened Backup

  predicate Holds(row: Row, column: string, v: Value) {
    column in row && row[column] == v
  }

  /** A row as the payload shows it: every column, times and ids as text. */
  predicate IsDict(c: Codec, row: Row, dict: Row) {
    && dict.Keys == row.Keys
    && forall k :: k in row ==>
         dict[k] == (if row[k].TimeV? then Text(c.iso(row[k].time)) else if row[k].IdV? then Text(c.uuidText(row[k].id)) else row[k])
  }

  ghost predicate Increasing(positions: seq<nat>) {
    forall j, k :: 0 <= j < k < |positions| ==> positions[j] < positions[k]
  }

  /** The block shows exactly the rows to keep, each once and in storage order. */
  ghost predicate Shows(c: Codec, rows: seq<Row>, keep: Row -> bool, block: seq<Row>, positions: seq<nat>) {
    && Increasing(positions) && |positions| == |block|
    && (forall k :: 0 <= k < |positions| ==> positions[k] < |rows| && IsDict(c, rows[positions[k]], block[k]))
    && (forall i: nat :: i < |rows| ==> (keep(rows[i]) <==> i in positions))
  }

  ghost predicate Dumped(c: Codec, rows: seq<Row>, keep: Row -> bool, block: seq<Row>) {
    exists positions :: Shows(c, rows, keep, block, positions)
  }

  /** The row names a parent row of the workspace in its column. */
  ghost predicate BelongsTo(parents: seq<Row>, w: nat, column: string, row: Row) {
    exists p :: p in parents && Holds(p, "workspace_id", IdV(w)) && "id" in p && Holds(row, column, p["id"])
  }

  /** `picked` are the rows to keep, at these positions. */
  ghost predicate Picks(rows: seq<Row>, picked: seq<Row>, keep: Row -> bool, positions: seq<nat>) {
    && Increasing(positions) && |positions| == |picked|
    && (forall k :: 0 <= k < |positions| ==> positions[k] < |rows| && rows[positions[k]] == picked[k])
    && (forall i: nat :: i < |rows| ==> (keep(rows[i]) <==> i in positions))
  }

  lemma PickOne(rows: seq<Row>, picked: seq<Row>, keep: Row -> bool, positions: seq<nat>, row: Row)
    requires Picks(rows, picked, keep, positions)
    ensures keep(row) ==> Picks(rows + [row], picked + [row], keep, positions + [|rows|])
    ensures !keep(row) ==> Picks(rows + [row], picked, keep, positions)
  {
    var n, all := |rows|, rows + [row];
    assert forall i :: i in positions ==> i < n;
    assert forall i: nat :: i < n ==> all[i] == rows[i];
    if keep(row) {
      var more := positions + [n];
      assert forall i :: i in more <==> i in positions || i == n;
    }
  }

  lemma {:induction false} Positions(rows: seq<Row>, column: string, values: set<Value>) returns (positions: seq<nat>)
    ensures Picks(rows, SelectRows(rows, column, values), r => column in r && r[column] in values, positions)
  {
    var keep: Row -> bool := r => column in r && r[column] in values;
    if rows == [] {
      positions := [];
    } else {
      hide Picks;
      var n := |rows| - 1;
      var before := Positions(rows[..n], column, values);
      PickOne(rows[..n], SelectRows(rows[..n], column, values), keep, before, rows[n]);
      assert rows == rows[..n] + [rows[n]];
      positions := if keep(rows[n]) then before + [n] else before;
      assert SelectRows(rows[..n], column, values) + [] == SelectRows(rows[..n], column, values);
    }
  }

  lemma SelectionIsShown(c: Codec, rows: seq<Row>, column: string, values: set<Value>, keep: Row -> bool)
    requires forall r :: keep(r) <==> column in r && r[column] in values
    ensures Dumped(c, rows, keep, DictsOf(c, SelectRows(rows, column, values)))
  {
    hide SelectRows;
    var positions := Positions(rows, column, values);
    var kept := SelectRows(rows, column, values);
    forall k | 0 <= k < |kept| ensures IsDict(c, rows[positions[k]], DictsOf(c, kept)[k]) {
      DictShows(c, kept[k]);
    }
    assert Shows(c, rows, keep, DictsOf(c, kept), positions);
  }

  lemma DictShows(c: Codec, row: Row)
    ensures IsDict(c, row, RowToDict(c, row))
  {
  }

  lemma {:induction false} Selected(rows: seq<Row>, column: string, values: set<Value>)
    ensures forall r :: r in SelectRows(rows, column, values) <==> r in rows && column in r && r[column] in values
  {
    if rows != [] {
      var n := |rows| - 1;
      Selected(rows[..n], column, values);
      assert rows == rows[..n] + [rows[n]];
    }
  }

  predicate CarriesWorkspace(t: Table) {
    t in {KnowledgeBases, Conversations, AnswerFeedback, Budgets, UsageEvents, ApiKeys, AuditEvents}
  }

  /** Main result: what a dump contains. Each table with a workspace column is dumped with exactly the
      rows of the workspace, sources and turns with exactly those whose parent is such a row, and the
      workspace block is its own row; every row once, in storage order. */
  lemma DumpHolds(c: Codec, db: Database, w: nat, at: string)
    requires Dump(c, db, w, at).Ok?
    ensures var p := Dump(c, db, w, at).value;
            && p.schemaVersion == 1 && p.exportedAt == at
            && (exists r :: r in Rows(db, Workspaces) && Holds(r, "id", IdV(w)) && IsDict(c, r, p.workspace))
            && (forall t :: CarriesWorkspace(t) ==>
                  t in p.blocks && Dumped(c, Rows(db, t), r => Holds(r, "workspace_id", IdV(w)), p.blocks[t]))
            && Sources in p.blocks
            && Dumped(c, Rows(db, Sources), r => BelongsTo(Rows(db, KnowledgeBases), w, "knowledge_base_id", r), p.blocks[Sources])
            && ConversationTurns in p.blocks
            && Dumped(c, Rows(db, ConversationTurns), r => BelongsTo(Rows(db, Conversations), w, "conversation_id", r),
                      p.blocks[ConversationTurns])
  {
    hide SelectRows, Dumped, BelongsTo, Holds, IsDict;
    WorkspaceShown(c, db, w, at);
    forall t | CarriesWorkspace(t)
      ensures Dumped(c, Rows(db, t), r => Holds(r, "workspace_id", IdV(w)), DictsOf(c, Owned(db, w, t)))
    {
      DirectlyShown(c, db, w, t);
    }
    ChildrenShown(c, db, w, KnowledgeBases, Sources);
    ChildrenShown(c, db, w, Conversations, ConversationTurns);
  }

  lemma WorkspaceShown(c: Codec, db: Database, w: nat, at: string)
    requires Dump(c, db, w, at).Ok?
    ensures exists r :: r in Rows(db, Workspaces) && Holds(r, "id", IdV(w)) && IsDict(c, r, Dump(c, db, w, at).value.workspace)
  {
    hide SelectRows, IsDict, RowToDict;
    var own := Owned(db, w, Workspaces);
    Selected(Rows(db, Workspaces), "id", {IdV(w)});
    assert own[0] in own;
    DictShows(c, own[0]);
  }

  lemma DirectlyShown(c: Codec, db: Database, w: nat, t: Table)
    requires CarriesWorkspace(t)
    ensures Dumped(c, Rows(db, t), r => Holds(r, "workspace_id", IdV(w)), DictsOf(c, Owned(db, w, t)))
  {
    hide SelectRows, Dumped, Rows;
    SelectionIsShown(c, Rows(db, t), "workspace_id", {IdV(w)}, r => Holds(r, "workspace_id", IdV(w)));
  }

  lemma ChildrenShown(c: Codec, db: Database, w: nat, parent: Table, t: Table)
    requires (parent == KnowledgeBases && t == Sources) || (parent == Conversations && t == ConversationTurns)
    ensures var column := if t == Sources then "knowledge_base_id" else "conversation_id";
            Dumped(c, Rows(db, t), r => BelongsTo(Rows(db, parent), w, column, r), DictsOf(c, Owned(db, w, t)))
  {
    hide SelectRows, Dumped, Rows;
    var column := if t == Sources then "knowledge_base_id" else "conversation_id";
    var parents := SelectRows(Rows(db, parent), "workspace_id", {IdV(w)});
    Selected(Rows(db, parent), "workspace_id", {IdV(w)});
    assert Owners(db, w, t) == IdValues(parents);
    forall r: Row ensures BelongsTo(Rows(db, parent), w, column, r) <==> column in r && r[column] in IdValues(parents) {
      ParentIds(Rows(db, parent), parents, w, column, r);
    }
    SelectionIsShown(c, Rows(db, t), column, IdValues(parents), r => BelongsTo(Rows(db, parent), w, column, r));
  }

  lemma ParentIds(all: seq<Row>, parents: seq<Row>, w: nat, column: string, r: Row)
    requires forall p :: p in parents <==> p in all && Holds(p, "workspace_id", IdV(w))
    ensures BelongsTo(all, w, column, r) <==> column in r && r[column] in IdValues(parents)
  {
    if column in r && r[column] in IdValues(parents) {
      var p :| p in parents && "id" in p && p["id"] == r[column];
      assert p in all && Holds(p, "workspace_id", IdV(w)) && Holds(r, column, p["id"]);
    }
  }

  /** A dump fails exactly for a workspace that has no row. */
  lemma DumpFailsIff(c: Codec, db: Database, w: nat, at: string)
    ensures Dump(c, db, w, at) == Err(UnknownWorkspace) <==> forall r :: r in Rows(db, Workspaces) ==> !Holds(r, "id", IdV(w))
    ensures Dump(c, db, w, at).Err? ==> Dump(c, db, w, at).error == UnknownWorkspace
  {
    hide SelectRows;
    var own := Owned(db, w, Workspaces);
    Selected(Rows(db, Workspaces), "id", {IdV(w)});
    assert own != [] ==> own[0] in own;
  }
}
