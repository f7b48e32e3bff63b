/** Whole runs of the semantic cache: where hits come from, how many entries a scope can hold,
    and how long an answer keeps being served. */
module CacheRuns {
  import opened Vectors
  import opened Wrappers
  import opened SemanticCache

  datatype Event =
    | Store(args: StoreArgs, cfg: Config, id: nat, createdAt: real, now: real)
    | Invalidate(kb: string, workspace: Option<nat>)
    | Increment(id: nat)
  {
    function Entry(): Entry
      requires Store?
    {
      NewEntry(args, cfg, id, createdAt, now)
    }
  }

  /** The table after a run; lookups do not change it. */
  function Table(h: seq<Event>): seq<Entry> {
    if h == [] then [] else
      var n := |h| - 1;
      var rows := Table(h[..n]);
      match h[n]
      case Store(args, cfg, id, createdAt, now) => Stored(rows, args, cfg, id, createdAt, now)
      case Invalidate(kb, ws) => Remove(rows, Ids(Select(rows, InScope(kb, ws))))
      case Increment(id) => Bumped(rows, id)
  }

  /** Every store draws a new id. */
  ghost predicate FreshIds(h: seq<Event>) {
    forall i, j :: 0 <= i < j < |h| && h[i].Store? && h[j].Store? ==> h[i].id != h[j].id
  }

  // ---------------------------------------------------------------- table facts

  lemma {:induction false} InRemove(rows: seq<Entry>, ids: set<nat>, e: Entry)
    ensures e in Remove(rows, ids) <==> e in rows && e.id !in ids
  {
    if rows != [] {
      InRemove(rows[..|rows| - 1], ids, e);
    }
  }

  lemma {:induction false} InSelect(rows: seq<Entry>, sel: Selector, e: Entry)
    ensures e in Select(rows, sel) <==> e in rows && sel.Has(e)
  {
    if rows != [] {
      InSelect(rows[..|rows| - 1], sel, e);
    }
  }

  lemma InBumped(rows: seq<Entry>, id: nat, e: Entry)
    requires e in Bumped(rows, id)
    ensures exists f :: f in rows && e == if f.id == id then f.(hitCount := f.hitCount + 1) else f
  {
    var i :| 0 <= i < |rows| && Bumped(rows, id)[i] == e;
    assert rows[i] in rows;
  }

  // ---------------------------------------------------------------- provenance

  function Increments(h: seq<Event>, id: nat): nat {
    if h == [] then 0 else
      Increments(h[..|h| - 1], id) + if h[|h| - 1] == Increment(id) then 1 else 0
  }

  /** The entry was stored by event i and no later invalidation matches it; its hit count is the
      number of increments since. */
  ghost predicate From(h: seq<Event>, e: Entry, i: int) {
    && 0 <= i < |h| && h[i].Store?
    && e == h[i].Entry().(hitCount := Increments(h[i + 1..], e.id))
    && forall j :: i < j < |h| && h[j].Invalidate? ==> !InScope(h[j].kb, h[j].workspace).Has(e)
  }

  lemma FromLater(h: seq<Event>, e: Entry, i: int, e': Entry)
    requires h != [] && From(h[..|h| - 1], e, i)
    requires e' == if h[|h| - 1] == Increment(e.id) then e.(hitCount := e.hitCount + 1) else e
    requires h[|h| - 1].Invalidate? ==> !InScope(h[|h| - 1].kb, h[|h| - 1].workspace).Has(e)
    ensures From(h, e', i)
  {
    var n := |h| - 1;
    assert h[i + 1..][..n - i - 1] == h[..n][i + 1..];
  }

  /** Every entry of the table has a store it comes from. */
  lemma {:induction false} Provenance(h: seq<Event>, e: Entry) returns (i: int)
    requires e in Table(h)
    ensures From(h, e, i)
  {
    var n := |h| - 1;
    var rows := Table(h[..n]);
    match h[n]
    case Store(args, cfg, id, createdAt, now) =>
      if e == h[n].Entry() {
        i := n;
      } else {
        InRemove(rows, Ids(Evicted(rows, InScope(args.kb, args.workspace), cfg.maxEntries)), e);
        i := Provenance(h[..n], e);
        FromLater(h, e, i, e);
      }
    case Invalidate(kb, ws) =>
      var gone := Select(rows, InScope(kb, ws));
      InRemove(rows, Ids(gone), e);
      InSelect(rows, InScope(kb, ws), e);
      i := Provenance(h[..n], e);
      FromLater(h, e, i, e);
    case Increment(id) =>
      InBumped(rows, id, e);
      var f :| f in rows && e == if f.id == id then f.(hitCount := f.hitCount + 1) else f;
      i := Provenance(h[..n], f);
      FromLater(h, f, i, e);
  }

  /** An entry that may answer a query at a time: of the same base, provider, model and dimensions, of
      the workspace if one is asked for, with an embedding and not past its date. */
  predicate Candidate(q: Query, e: Entry, now: real) {
    && e.kb == q.kb && e.provider == q.provider && e.model == q.model && e.dimensions == q.dimensions
    && (q.workspace.None? || e.workspace == q.workspace)
    && (e.expiresAt.None? || now <= e.expiresAt.value) && e.embedding.Some?
  }

  /** Main result: when a lookup hits. There is an answer if and only if some candidate's vector is
      at least as similar as the threshold, and none of them is more similar than the answer. */
  lemma HitIff(sqrt: real -> real, rows: seq<Entry>, q: Query, cfg: Config, now: real, best: Option<Hit>)
    requires IsSqrt(sqrt) && Answers(sqrt, rows, |rows|, q, cfg, now, best)
    ensures best.Some? <==> exists e, c ::
              e in rows && Candidate(q, e, now) && IsCosine(q.vector, e.embedding.value, c) && c >= cfg.threshold
    ensures best.Some? ==> forall e, c :: e in rows && Candidate(q, e, now) && IsCosine(q.vector, e.embedding.value, c) ==>
              c <= best.value.similarity
  {
    hide Cosine, IsCosine;
    forall e, c | e in rows && Candidate(q, e, now) && IsCosine(q.vector, e.embedding.value, c)
      ensures c == Similarity(sqrt, q, e)
    {
      CosineIs(sqrt, q.vector, e.embedding.value);
      CosineIsUnique(q.vector, e.embedding.value, c, Similarity(sqrt, q, e));
    }
    if best.Some? {
      var k :| BestRow(sqrt, rows, |rows|, q, cfg, now, k) && best.value == HitOf(rows[k], Similarity(sqrt, q, rows[k]));
      CosineIs(sqrt, q.vector, rows[k].embedding.value);
      assert rows[k] in rows && Candidate(q, rows[k], now);
    }
  }

  /** Main result: hit provenance. After any run, a hit is an answer stored earlier for the same
      knowledge base, provider, model and dimensions (and workspace, when one is given), not
      invalidated since and not past its TTL; it reports the stored vector's own similarity,
      which reaches the threshold, and no live match is more similar. */
  lemma HitProvenance(sqrt: real -> real, h: seq<Event>, q: Query, cfg: Config, now: real, hit: Hit) returns (i: int)
    requires IsSqrt(sqrt) && Answers(sqrt, Table(h), |Table(h)|, q, cfg, now, Some(hit))
    ensures 0 <= i < |h| && h[i].Store?
    ensures var s := h[i];
            && s.id == hit.entryId && s.args.queryText == hit.queryText
            && s.args.answer == hit.answer && s.args.citations == hit.citations
            && s.args.kb == q.kb && s.args.provider == q.provider && s.args.model == q.model
            && s.args.dimensions == q.dimensions && (q.workspace.Some? ==> s.args.workspace == q.workspace)
            && (s.cfg.ttl.Some? ==> now <= s.now + s.cfg.ttl.value as real)
            && IsCosine(q.vector, s.args.vector, hit.similarity) && hit.similarity >= cfg.threshold
            && hit.hitCount == Increments(h[i + 1..], s.id)
    ensures forall j :: i < j < |h| && h[j].Invalidate? && h[j].kb == q.kb ==>
              h[j].workspace.Some? && h[j].workspace != h[i].args.workspace
    ensures forall e, c :: e in Table(h) && Candidate(q, e, now) && IsCosine(q.vector, e.embedding.value, c) ==>
              c <= hit.similarity
  {
    hide Cosine, Table, Increments, IsCosine;
    var rows := Table(h);
    var k :| BestRow(sqrt, rows, |rows|, q, cfg, now, k) && hit == HitOf(rows[k], Similarity(sqrt, q, rows[k]));
    i := Provenance(h, rows[k]);
    CosineIs(sqrt, q.vector, h[i].args.vector);
    HitIff(sqrt, rows, q, cfg, now, Some(hit));
    forall j | i < j < |h| && h[j].Invalidate? && h[j].kb == q.kb
      ensures h[j].workspace.Some? && h[j].workspace != h[i].args.workspace
    {
      assert !InScope(h[j].kb, h[j].workspace).Has(rows[k]);
    }
  }

  // ---------------------------------------------------------------- ids are a primary key

  lemma {:induction false} IdsOfRun(h: seq<Event>)
    requires FreshIds(h)
    ensures DistinctIds(Table(h))
  {
    if h != [] {
      var n := |h| - 1;
      IdsOfRun(h[..n]);
      var rows := Table(h[..n]);
      match h[n]
      case Store(args, cfg, id, createdAt, now) =>
        var gone := Ids(Evicted(rows, InScope(args.kb, args.workspace), cfg.maxEntries));
        DistinctRemove(rows, gone);
        forall e | e in Remove(rows, gone) ensures e.id != id {
          InRemove(rows, gone, e);
          var i := Provenance(h[..n], e);
        }
      case Invalidate(kb, ws) => DistinctRemove(rows, Ids(Select(rows, InScope(kb, ws))));
      case Increment(id) =>
    }
  }

  lemma {:induction false} DistinctRemove(rows: seq<Entry>, ids: set<nat>)
    requires DistinctIds(rows)
    ensures DistinctIds(Remove(rows, ids))
  {
    if rows != [] {
      var n := |rows| - 1;
      DistinctRemove(rows[..n], ids);
      forall e | e in Remove(rows[..n], ids) ensures e.id != rows[n].id {
        InRemove(rows[..n], ids, e);
      }
    }
  }

  lemma {:induction false} DistinctSelect(rows: seq<Entry>, sel: Selector)
    requires DistinctIds(rows)
    ensures DistinctIds(Select(rows, sel))
  {
    if rows != [] {
      var n := |rows| - 1;
      DistinctSelect(rows[..n], sel);
      forall e | e in Select(rows[..n], sel) ensures e.id != rows[n].id {
        InSelect(rows[..n], sel, e);
      }
    }
  }

  lemma {:induction false} IdsSize(rows: seq<Entry>)
    ensures |Ids(rows)| <= |rows|
    ensures DistinctIds(rows) ==> |Ids(rows)| == |rows|
  {
    if rows == [] {
      assert Ids(rows) == {};
    } else {
      var n := |rows| - 1;
      IdsSize(rows[..n]);
      assert rows == rows[..n] + [rows[n]];
      assert Ids(rows) == Ids(rows[..n]) + {rows[n].id};
    }
  }

  // ---------------------------------------------------------------- eviction

  ghost predicate SortedByCreated(rows: seq<Entry>) {
    forall i, j :: 0 <= i < j < |rows| ==> rows[i].createdAt <= rows[j].createdAt
  }

  lemma {:induction false} InsertFacts(rows: seq<Entry>, e: Entry)
    requires SortedByCreated(rows)
    ensures SortedByCreated(InsertByCreated(rows, e))
    ensures forall f :: f in InsertByCreated(rows, e) <==> f in rows || f == e
  {
    if rows != [] && !(rows[|rows| - 1].createdAt <= e.createdAt) {
      var n := |rows| - 1;
      InsertFacts(rows[..n], e);
      forall f | f in InsertByCreated(rows[..n], e) ensures f.createdAt <= rows[n].createdAt {
        if f in rows[..n] {
          var i :| 0 <= i < n && rows[i] == f;
        }
      }
    }
  }

  lemma {:induction false} SortFacts(rows: seq<Entry>)
    ensures SortedByCreated(SortByCreated(rows))
    ensures forall f :: f in SortByCreated(rows) <==> f in rows
  {
    if rows != [] {
      SortFacts(rows[..|rows| - 1]);
      InsertFacts(SortByCreated(rows[..|rows| - 1]), rows[|rows| - 1]);
    }
  }

  /** Main result: a store evicts only entries in its scope, none of them younger than any entry
      in scope it keeps, and exactly as many as make room for one more; the rest of the table
      stays, followed by the new entry. */
  lemma StoreEvictsOldest(rows: seq<Entry>, args: StoreArgs, cfg: Config, id: nat, createdAt: real, now: real)
    requires DistinctIds(rows)
    ensures var scope := InScope(args.kb, args.workspace);
            var gone := Ids(Evicted(rows, scope, cfg.maxEntries));
            var n := |Select(rows, scope)|;
            && Stored(rows, args, cfg, id, createdAt, now)
               == Remove(rows, gone) + [NewEntry(args, cfg, id, createdAt, now)]
            && (forall e :: e in rows && e.id in gone ==> scope.Has(e))
            && (forall e, f :: e in rows && f in rows && e.id in gone && f.id !in gone && scope.Has(f)
                  ==> e.createdAt <= f.createdAt)
            && |gone| == (if n < cfg.maxEntries then 0 else if cfg.maxEntries < 1 then n else n - cfg.maxEntries + 1)
            && |Select(Remove(rows, gone), scope)| == n - |gone|
  {
    var scope := InScope(args.kb, args.workspace);
    EvictedFacts(rows, scope, cfg.maxEntries);
    RemoveFromScope(rows, scope, Evicted(rows, scope, cfg.maxEntries));
  }

  lemma SameId(rows: seq<Entry>, e: Entry, f: Entry)
    requires DistinctIds(rows) && e in rows && f in rows && e.id == f.id
    ensures e == f
  {
    var i :| 0 <= i < |rows| && rows[i] == e;
    var j :| 0 <= j < |rows| && rows[j] == f;
  }

  lemma PrefixIds(rows: seq<Entry>, k: nat)
    requires k <= |rows| && |Ids(rows)| == |rows|
    ensures |Ids(rows[..k])| == k
  {
    assert rows == rows[..k] + rows[k..];
    assert Ids(rows) == Ids(rows[..k]) + Ids(rows[k..]);
    IdsSize(rows[..k]);
    IdsSize(rows[k..]);
  }

  lemma PrefixIsOldest(rows: seq<Entry>, k: nat, e: Entry, f: Entry)
    requires SortedByCreated(rows) && k <= |rows| && e in rows[..k] && f in rows && f !in rows[..k]
    ensures e.createdAt <= f.createdAt
  {
    var i :| 0 <= i < k && rows[i] == e;
    var j :| 0 <= j < |rows| && rows[j] == f;
    assert j < k ==> rows[..k][j] == f;
  }

  /** The evicted entries are in scope and no younger than those of the scope that stay. */
  lemma EvictedFacts(rows: seq<Entry>, scope: Selector, maxEntries: int)
    requires DistinctIds(rows)
    ensures var evicted := Evicted(rows, scope, maxEntries);
            && |Ids(evicted)| == |evicted|
            && (forall e :: e in evicted ==> e in rows && scope.Has(e))
            && (forall e :: e in rows && e.id in Ids(evicted) ==> e in evicted)
            && (forall e, f :: e in evicted && f in rows && f.id !in Ids(evicted) && scope.Has(f)
                  ==> e.createdAt <= f.createdAt)
  {
    hide Select, SortByCreated;
    var existing := Select(rows, scope);
    var sorted := SortByCreated(existing);
    var evicted := Evicted(rows, scope, maxEntries);
    SortFacts(existing);
    DistinctSelect(rows, scope);
    IdsSize(existing);
    assert Ids(sorted) == Ids(existing);
    assert evicted == sorted[..|evicted|];
    PrefixIds(sorted, |evicted|);
    forall e | e in evicted ensures e in rows && scope.Has(e) {
      InSelect(rows, scope, e);
    }
    forall e | e in rows && e.id in Ids(evicted) ensures e in evicted {
      var g :| g in evicted && g.id == e.id;
      SameId(rows, e, g);
    }
    forall e, f | e in evicted && f in rows && f.id !in Ids(evicted) && scope.Has(f)
      ensures e.createdAt <= f.createdAt
    {
      InSelect(rows, scope, f);
      PrefixIsOldest(sorted, |evicted|, e, f);
    }
  }

  lemma RemoveFromScope(rows: seq<Entry>, scope: Selector, gone: seq<Entry>)
    requires DistinctIds(rows) && |Ids(gone)| == |gone|
    requires forall e :: e in gone ==> e in rows && scope.Has(e)
    ensures |Select(Remove(rows, Ids(gone)), scope)| == |Select(rows, scope)| - |gone|
  {
    var kept := Remove(rows, Ids(gone));
    var before, after := Select(rows, scope), Select(kept, scope);
    DistinctRemove(rows, Ids(gone));
    DistinctSelect(rows, scope);
    DistinctSelect(kept, scope);
    IdsSize(before);
    IdsSize(after);
    forall e ensures e in after <==> e in before && e.id !in Ids(gone) {
      InSelect(kept, scope, e);
      InSelect(rows, scope, e);
      InRemove(rows, Ids(gone), e);
    }
    assert Ids(after) == Ids(before) - Ids(gone);
    assert Ids(gone) <= Ids(before) by {
      forall e | e in gone ensures e in before {
        InSelect(rows, scope, e);
      }
    }
  }

  // ---------------------------------------------------------------- capacity

  lemma {:induction false} SelectOfRemove(rows: seq<Entry>, ids: set<nat>, sel: Selector)
    ensures |Select(Remove(rows, ids), sel)| <= |Select(rows, sel)|
  {
    if rows != [] {
      var n := |rows| - 1;
      SelectOfRemove(rows[..n], ids, sel);
      SelectOfAppend(Remove(rows[..n], ids), rows[n], sel);
      assert Remove(rows[..n], ids) + [] == Remove(rows[..n], ids);
    }
  }

  lemma SelectOfAppend(rows: seq<Entry>, e: Entry, sel: Selector)
    ensures Select(rows + [e], sel) == Select(rows, sel) + if sel.Has(e) then [e] else []
  {
    assert (rows + [e])[..|rows|] == rows;
  }

  /** A workspace's own entries are among those of the scope of any store into it. */
  lemma {:induction false} ExactlyWithinScope(rows: seq<Entry>, kb: string, workspace: Option<nat>)
    ensures |Select(rows, Exactly(kb, workspace))| <= |Select(rows, InScope(kb, workspace))|
  {
    if rows != [] {
      ExactlyWithinScope(rows[..|rows| - 1], kb, workspace);
    }
  }

  lemma {:induction false} SelectOfBumped(rows: seq<Entry>, id: nat, sel: Selector)
    ensures |Select(Bumped(rows, id), sel)| == |Select(rows, sel)|
  {
    if rows != [] {
      var n := |rows| - 1;
      SelectOfBumped(rows[..n], id, sel);
      assert Bumped(rows, id)[..n] == Bumped(rows[..n], id);
    }
  }

  /** Main result: capacity. After any run in which no store is configured for more than `most`
      entries, each knowledge base and workspace (the null workspace included) holds at most
      `most` entries, or one if `most` is below 1, although stores without a workspace evict
      across all of them. */
  lemma {:induction false} CapacityHolds(h: seq<Event>, most: int, kb: string, workspace: Option<nat>)
    requires FreshIds(h)
    requires forall i :: 0 <= i < |h| && h[i].Store? ==> h[i].cfg.maxEntries <= most
    ensures |Select(Table(h), Exactly(kb, workspace))| <= if most < 1 then 1 else most
  {
    if h != [] {
      var n := |h| - 1;
      var rows, pair := Table(h[..n]), Exactly(kb, workspace);
      CapacityHolds(h[..n], most, kb, workspace);
      match h[n]
      case Store(args, cfg, id, createdAt, now) =>
        IdsOfRun(h[..n]);
        StoreKeepsCapacity(rows, args, cfg, h[n].Entry(), most, kb, workspace);
      case Invalidate(k, ws) => SelectOfRemove(rows, Ids(Select(rows, InScope(k, ws))), pair);
      case Increment(id) => SelectOfBumped(rows, id, pair);
    }
  }

  lemma StoreKeepsCapacity(rows: seq<Entry>, args: StoreArgs, cfg: Config, e: Entry, most: int, kb: string, workspace: Option<nat>)
    requires DistinctIds(rows) && cfg.maxEntries <= most && e.kb == args.kb && e.workspace == args.workspace
    requires |Select(rows, Exactly(kb, workspace))| <= if most < 1 then 1 else most
    ensures var gone := Ids(Evicted(rows, InScope(args.kb, args.workspace), cfg.maxEntries));
            |Select(Remove(rows, gone) + [e], Exactly(kb, workspace))| <= if most < 1 then 1 else most
  {
    hide Select, Remove, Evicted;
    var scope, pair := InScope(args.kb, args.workspace), Exactly(kb, workspace);
    var gone := Ids(Evicted(rows, scope, cfg.maxEntries));
    var kept := Remove(rows, gone);
    SelectOfRemove(rows, gone, pair);
    SelectOfAppend(kept, e, pair);
    if pair.Has(e) {
      StoreEvictsOldest(rows, args, cfg, e.id, e.createdAt, 0.0);
      ExactlyWithinScope(kept, kb, workspace);
    }
  }

  /** Main result: the documented bound is one per knowledge base, and this is when it is kept. A
      store leaves the scope it was made for within its maximum, whatever the table was like
      before. It leaves the knowledge base as a whole within it exactly when that had room or all
      its entries are in that scope: otherwise other workspaces' entries are in the way and none
      of them is evicted. */
  lemma KnowledgeBaseBound(rows: seq<Entry>, args: StoreArgs, cfg: Config, id: nat, createdAt: real, now: real)
    requires DistinctIds(rows) && cfg.maxEntries >= 1
    ensures var after := Stored(rows, args, cfg, id, createdAt, now);
            var inScope, inBase := Select(rows, InScope(args.kb, args.workspace)), Select(rows, InScope(args.kb, None));
            && |Select(after, InScope(args.kb, args.workspace))| <= cfg.maxEntries
            && (|Select(after, InScope(args.kb, None))| <= cfg.maxEntries
                <==> |inBase| < cfg.maxEntries || |inScope| == |inBase|)
  {
    hide Select, Remove, Evicted;
    var scope, base := InScope(args.kb, args.workspace), InScope(args.kb, None);
    var gone := Evicted(rows, scope, cfg.maxEntries);
    var kept, e := Remove(rows, Ids(gone)), NewEntry(args, cfg, id, createdAt, now);
    StoreEvictsOldest(rows, args, cfg, id, createdAt, now);
    EvictedFacts(rows, scope, cfg.maxEntries);
    RemoveFromScope(rows, base, gone);
    SelectOfAppend(kept, e, scope);
    SelectOfAppend(kept, e, base);
    SelectMonotone(rows, scope, base);
  }

  lemma StoreIntoEmptyScope(rows: seq<Entry>, args: StoreArgs, cfg: Config, id: nat, createdAt: real, now: real)
    requires Select(rows, InScope(args.kb, args.workspace)) == [] && cfg.maxEntries >= 1
    ensures Stored(rows, args, cfg, id, createdAt, now) == rows + [NewEntry(args, cfg, id, createdAt, now)]
  {
    hide Select, Remove;
    assert Ids([]) == {};
    RemoveNothing(rows);
  }

  /** Two stores from different workspaces overfill a knowledge base limited to one entry. */
  lemma TwoWorkspacesOverfill(a: StoreArgs, b: StoreArgs, cfg: Config)
    requires a.kb == b.kb && a.workspace == Some(1) && b.workspace == Some(2) && cfg.maxEntries == 1
    ensures |Select(Table([Store(a, cfg, 0, 0.0, 0.0), Store(b, cfg, 1, 1.0, 1.0)]), InScope(a.kb, None))| == 2
  {
    hide Select, Stored, Remove, Evicted, NewEntry;
    var first, second := NewEntry(a, cfg, 0, 0.0, 0.0), NewEntry(b, cfg, 1, 1.0, 1.0);
    assert Table([Store(a, cfg, 0, 0.0, 0.0)]) == [first] by {
      EmptyTable();
      StoreIntoEmptyScope([], a, cfg, 0, 0.0, 0.0);
      StoreStep([], Store(a, cfg, 0, 0.0, 0.0));
    }
    OneEntry(a, cfg, 0, 0.0, 0.0, InScope(b.kb, b.workspace));
    OneEntry(a, cfg, 0, 0.0, 0.0, InScope(a.kb, None));
    StoreIntoEmptyScope([first], b, cfg, 1, 1.0, 1.0);
    StoreStep([Store(a, cfg, 0, 0.0, 0.0)], Store(b, cfg, 1, 1.0, 1.0));
    SelectOfAppend([first], second, InScope(a.kb, None));
    OneEntry(b, cfg, 1, 1.0, 1.0, InScope(a.kb, None));
  }

  lemma EmptyTable()
    ensures Table([]) == [] && forall sel :: Select([], sel) == []
  {
  }

  lemma StoreStep(h: seq<Event>, e: Event)
    requires e.Store?
    ensures Table(h + [e]) == Stored(Table(h), e.args, e.cfg, e.id, e.createdAt, e.now)
  {
    assert (h + [e])[..|h|] == h;
  }

  lemma OneEntry(args: StoreArgs, cfg: Config, id: nat, createdAt: real, now: real, sel: Selector)
    ensures var e := NewEntry(args, cfg, id, createdAt, now);
            && e.kb == args.kb && e.workspace == args.workspace && e.createdAt == createdAt
            && Select([e], sel) == if sel.Has(e) then [e] else []
  {
    var e := NewEntry(args, cfg, id, createdAt, now);
    assert [e][..0] == [];
  }

  // ---------------------------------------------------------------- how long an answer is served

  /** Creation stamps of successive stores into a knowledge base do not go back; within one
      transaction they are equal. */
  ghost predicate Advancing(h: seq<Event>, kb: string) {
    forall i, j :: 0 <= i < j < |h| && h[i].Store? && h[j].Store? && h[i].args.kb == kb == h[j].args.kb ==>
      h[i].createdAt <= h[j].createdAt
  }

  function StoresInto(h: seq<Event>, kb: string): nat {
    if h == [] then 0 else
      StoresInto(h[..|h| - 1], kb) + if h[|h| - 1].Store? && h[|h| - 1].args.kb == kb then 1 else 0
  }

  /** How many rows of a knowledge base stand behind the row with the id. */
  function Behind(rows: seq<Entry>, id: nat, kb: string): nat {
    if rows == [] || rows[|rows| - 1].id == id then 0 else
      Behind(rows[..|rows| - 1], id, kb) + if rows[|rows| - 1].kb == kb then 1 else 0
  }

  lemma {:induction false} BehindOfRemove(rows: seq<Entry>, ids: set<nat>, id: nat, kb: string)
    requires id !in ids
    ensures Behind(Remove(rows, ids), id, kb) <= Behind(rows, id, kb)
  {
    if rows != [] {
      var n := |rows| - 1;
      BehindOfRemove(rows[..n], ids, id, kb);
      BehindOfAppend(Remove(rows[..n], ids), rows[n], id, kb);
      assert Remove(rows[..n], ids) + [] == Remove(rows[..n], ids);
    }
  }

  lemma BehindOfAppend(rows: seq<Entry>, e: Entry, id: nat, kb: string)
    ensures Behind(rows + [e], id, kb) == if e.id == id then 0 else Behind(rows, id, kb) + if e.kb == kb then 1 else 0
  {
    assert (rows + [e])[..|rows|] == rows;
  }

  lemma {:induction false} BehindOfBumped(rows: seq<Entry>, bumped: nat, id: nat, kb: string)
    ensures Behind(Bumped(rows, bumped), id, kb) == Behind(rows, id, kb)
  {
    if rows != [] {
      var n := |rows| - 1;
      BehindOfBumped(rows[..n], bumped, id, kb);
      assert Bumped(rows, bumped)[..n] == Bumped(rows[..n], bumped);
    }
  }

  /** While its entry is there, only later stores put rows behind that of event i. */
  lemma {:induction false} BehindAreLater(h: seq<Event>, i: nat, e: Entry)
    requires FreshIds(h) && i < |h| && From(h, e, i) && e in Table(h)
    ensures Behind(Table(h), e.id, e.kb) <= StoresInto(h[i + 1..], e.kb)
    decreases |h|
  {
    hide Table, Increments, Behind, Remove, Bumped, GoneIn;
    var n := |h| - 1;
    TableStep(h);
    var rows := Table(h[..n]);
    if i == n {
      BehindOfAppend(Remove(rows, GoneIn(h)), h[n].Entry(), e.id, e.kb);
    } else {
      assert h[i + 1..][..n - i - 1] == h[..n][i + 1..];
      var f := Before(h, i, e);
      BehindAreLater(h[..n], i, f);
      match h[n]
      case Store(args, cfg, id, createdAt, now) =>
        BehindOfRemove(rows, GoneIn(h), e.id, e.kb);
        BehindOfAppend(Remove(rows, GoneIn(h)), h[n].Entry(), e.id, e.kb);
      case Invalidate(kb, ws) => BehindOfRemove(rows, GoneIn(h), e.id, e.kb);
      case Increment(id) => BehindOfBumped(rows, id, e.id, e.kb);
    }
  }

  /** The ids the last event of a run deletes. */
  function GoneIn(h: seq<Event>): set<nat>
    requires h != []
  {
    var n := |h| - 1;
    match h[n]
    case Store(args, cfg, _, _, _) => Ids(Evicted(Table(h[..n]), InScope(args.kb, args.workspace), cfg.maxEntries))
    case Invalidate(kb, ws) => Ids(Select(Table(h[..n]), InScope(kb, ws)))
    case Increment(_) => {}
  }

  lemma TableStep(h: seq<Event>)
    requires h != []
    ensures var n := |h| - 1;
            Table(h) == match h[n]
                        case Store(_, _, _, _, _) => Remove(Table(h[..n]), GoneIn(h)) + [h[n].Entry()]
                        case Invalidate(_, _) => Remove(Table(h[..n]), GoneIn(h))
                        case Increment(id) => Bumped(Table(h[..n]), id)
  {
  }

  /** An entry older than the last event was there before it, and was not deleted by it. */
  lemma Before(h: seq<Event>, i: nat, e: Entry) returns (f: Entry)
    requires FreshIds(h) && i < |h| - 1 && From(h, e, i) && e in Table(h)
    ensures f in Table(h[..|h| - 1]) && From(h[..|h| - 1], f, i) && f.id == e.id && f.kb == e.kb
    ensures e.id !in GoneIn(h) && (h[|h| - 1].Store? ==> h[|h| - 1].id != e.id)
  {
    hide Table, GoneIn, Remove, Bumped, From, Increments;
    var n := |h| - 1;
    TableStep(h);
    StoredEarlier(h, i, e);
    var rows := Table(h[..n]);
    if h[n].Increment? {
      InBumped(rows, h[n].id, e);
      f :| f in rows && e == if f.id == h[n].id then f.(hitCount := f.hitCount + 1) else f;
      NothingGone(h);
    } else {
      f := e;
      InRemove(rows, GoneIn(h), e);
    }
    FromEarlier(h, e, i, f);
  }

  lemma NothingGone(h: seq<Event>)
    requires h != [] && h[|h| - 1].Increment?
    ensures GoneIn(h) == {}
  {
  }

  lemma StoredEarlier(h: seq<Event>, i: nat, e: Entry)
    requires FreshIds(h) && i < |h| - 1 && From(h, e, i)
    ensures h[|h| - 1].Store? ==> h[|h| - 1].id != e.id && h[|h| - 1].Entry().id != e.id
  {
    hide Increments;
    assert h[|h| - 1].Store? ==> h[|h| - 1].id != h[i].id;
  }

  lemma FromEarlier(h: seq<Event>, e: Entry, i: int, f: Entry)
    requires 0 <= i < |h| - 1 && From(h, e, i)
    requires e == if h[|h| - 1] == Increment(f.id) then f.(hitCount := f.hitCount + 1) else f
    ensures From(h[..|h| - 1], f, i)
  {
    var n := |h| - 1;
    assert h[i + 1..][..n - i - 1] == h[..n][i + 1..];
  }

  // ---------------------------------------------------------------- eviction in storage order

  /** When stamps do not go back, the table has the rows of a knowledge base in their order. */
  lemma {:induction false} TableIsSorted(h: seq<Event>, kb: string)
    requires FreshIds(h) && Advancing(h, kb)
    ensures SortedByCreated(Select(Table(h), InScope(kb, None)))
  {
    hide Select, Table, Remove, Evicted, Increments;
    var base := InScope(kb, None);
    if h == [] {
      NoRows(base);
    } else {
      var n := |h| - 1;
      var rows := Table(h[..n]);
      TableIsSorted(h[..n], kb);
      TableStep(h);
      match h[n]
      case Store(args, cfg, id, createdAt, now) =>
        SortedRemove(rows, GoneIn(h), base);
        SelectOfAppend(Remove(rows, GoneIn(h)), h[n].Entry(), base);
        forall f | f in Select(Remove(rows, GoneIn(h)), base) && args.kb == kb ensures f.createdAt <= createdAt {
          InSelect(Remove(rows, GoneIn(h)), base, f);
          InRemove(rows, GoneIn(h), f);
          var j := Provenance(h[..n], f);
        }
      case Invalidate(k, ws) => SortedRemove(rows, GoneIn(h), base);
      case Increment(id) => SortedBumped(rows, id, base);
    }
  }

  lemma NoRows(sel: Selector)
    ensures Select(Table([]), sel) == []
  {
  }

  lemma SortedAppend(rows: seq<Entry>, e: Entry)
    ensures SortedByCreated(rows + [e]) <==> SortedByCreated(rows) && forall f :: f in rows ==> f.createdAt <= e.createdAt
  {
    var all := rows + [e];
    if SortedByCreated(all) {
      forall i, j | 0 <= i < j < |rows| ensures rows[i].createdAt <= rows[j].createdAt {
        assert all[i] == rows[i] && all[j] == rows[j];
      }
      forall f | f in rows ensures f.createdAt <= e.createdAt {
        var i :| 0 <= i < |rows| && rows[i] == f;
        assert all[i] == f && all[|rows|] == e;
      }
    }
  }

  /** The last row of a table, as a selection sees it. */
  lemma SelectSorted(rows: seq<Entry>, e: Entry, sel: Selector)
    ensures SortedByCreated(Select(rows + [e], sel))
            <==> SortedByCreated(Select(rows, sel)) && (sel.Has(e) ==> forall f :: f in rows && sel.Has(f) ==> f.createdAt <= e.createdAt)
  {
    hide Select, SortedByCreated;
    SelectOfAppend(rows, e, sel);
    SortedAppend(Select(rows, sel), e);
    assert Select(rows, sel) + [] == Select(rows, sel);
    forall f ensures f in Select(rows, sel) <==> f in rows && sel.Has(f) {
      InSelect(rows, sel, f);
    }
  }

  lemma {:induction false} SortedRemove(rows: seq<Entry>, ids: set<nat>, sel: Selector)
    requires SortedByCreated(Select(rows, sel))
    ensures SortedByCreated(Select(Remove(rows, ids), sel))
  {
    hide Select, SortedByCreated, Remove;
    if rows == [] {
      RemoveFromNone(ids);
    } else {
      var n := |rows| - 1;
      assert rows == rows[..n] + [rows[n]];
      var kept := Remove(rows[..n], ids);
      SelectSorted(rows[..n], rows[n], sel);
      SortedRemove(rows[..n], ids, sel);
      KeptWereThere(rows[..n], ids);
      RemoveLast(rows[..n], rows[n], ids);
      if rows[n].id !in ids {
        SelectSorted(kept, rows[n], sel);
      }
    }
  }

  lemma RemoveFromNone(ids: set<nat>)
    ensures Remove([], ids) == []
  {
  }

  lemma KeptWereThere(rows: seq<Entry>, ids: set<nat>)
    ensures forall f :: f in Remove(rows, ids) ==> f in rows
  {
    forall f | f in Remove(rows, ids) ensures f in rows {
      InRemove(rows, ids, f);
    }
  }

  lemma RemoveLast(rows: seq<Entry>, e: Entry, ids: set<nat>)
    ensures Remove(rows + [e], ids) == if e.id in ids then Remove(rows, ids) else Remove(rows, ids) + [e]
  {
    assert (rows + [e])[..|rows|] == rows;
  }

  lemma {:induction false} SortedBumped(rows: seq<Entry>, id: nat, sel: Selector)
    requires SortedByCreated(Select(rows, sel))
    ensures SortedByCreated(Select(Bumped(rows, id), sel))
  {
    if rows != [] {
      hide Select, SortedByCreated;
      var n := |rows| - 1;
      var before, last := Bumped(rows[..n], id), Bumped(rows, id)[n];
      assert rows == rows[..n] + [rows[n]] && Bumped(rows, id) == before + [last];
      SelectSorted(rows[..n], rows[n], sel);
      SelectSorted(before, last, sel);
      SortedBumped(rows[..n], id, sel);
      forall f | f in before && sel.Has(f) && sel.Has(last) ensures f.createdAt <= last.createdAt {
        InBumped(rows[..n], id, f);
      }
    }
  }

  /** Sorting is stable: rows already in order keep it. */
  lemma {:induction false} SortOfSorted(rows: seq<Entry>)
    requires SortedByCreated(rows)
    ensures SortByCreated(rows) == rows
  {
    if rows != [] {
      hide SortedByCreated;
      var n := |rows| - 1;
      assert rows == rows[..n] + [rows[n]];
      SortedAppend(rows[..n], rows[n]);
      SortOfSorted(rows[..n]);
      assert n > 0 ==> rows[..n][n - 1] in rows[..n];
    }
  }

  /** The rows of a narrower scope are in order, too. */
  lemma {:induction false} SortedNarrower(rows: seq<Entry>, narrow: Selector, wide: Selector)
    requires SortedByCreated(Select(rows, wide)) && forall e :: narrow.Has(e) ==> wide.Has(e)
    ensures SortedByCreated(Select(rows, narrow))
  {
    if rows != [] {
      hide Select, SortedByCreated;
      var n := |rows| - 1;
      assert rows == rows[..n] + [rows[n]];
      SelectSorted(rows[..n], rows[n], wide);
      SelectSorted(rows[..n], rows[n], narrow);
      SortedNarrower(rows[..n], narrow, wide);
    }
  }

  /** What follows a row in a scope stands behind it in the table. */
  lemma {:induction false} FollowersAreBehind(rows: seq<Entry>, scope: Selector, j: nat)
    requires DistinctIds(rows) && j < |Select(rows, scope)|
    ensures |Select(rows, scope)| - 1 - j <= Behind(rows, Select(rows, scope)[j].id, scope.kb)
  {
    var n := |rows| - 1;
    var before, e := Select(rows[..n], scope), Select(rows, scope)[j];
    if j < |before| {
      InSelect(rows[..n], scope, e);
      assert e in before;
      FollowersAreBehind(rows[..n], scope, j);
    }
  }

  /** If a store evicts a row, a full complement less one stands behind it. */
  lemma EvictionLeavesBehind(h: seq<Event>, e: Entry, args: StoreArgs, cfg: Config)
    requires FreshIds(h) && Advancing(h, args.kb) && e in Table(h)
    requires e.id in Ids(Evicted(Table(h), InScope(args.kb, args.workspace), cfg.maxEntries))
    ensures e.kb == args.kb && cfg.maxEntries - 1 <= Behind(Table(h), e.id, e.kb)
  {
    hide Select, Remove, Table, Behind, SortByCreated;
    var rows, scope := Table(h), InScope(args.kb, args.workspace);
    var existing, evicted := Select(rows, scope), Evicted(rows, scope, cfg.maxEntries);
    IdsOfRun(h);
    TableIsSorted(h, args.kb);
    SortedNarrower(rows, scope, InScope(args.kb, None));
    SortOfSorted(existing);
    EvictedFacts(rows, scope, cfg.maxEntries);
    var j :| 0 <= j < |evicted| && evicted[j] == e;
    FollowersAreBehind(rows, scope, j);
  }

  /** Main result: an answer outlives fewer than `least` later stores. If after event i nothing
      invalidates its entry, every later store into its knowledge base allows at least `least`
      entries, and there are fewer than `least` of them, the entry is still there. */
  lemma {:induction false} AnswerSurvives(h: seq<Event>, i: nat, least: int) returns (e: Entry)
    requires FreshIds(h) && i < |h| && h[i].Store? && Advancing(h, h[i].args.kb)
    requires forall j :: i < j < |h| && h[j].Invalidate? ==> !InScope(h[j].kb, h[j].workspace).Has(h[i].Entry())
    requires forall j :: i < j < |h| && h[j].Store? && h[j].args.kb == h[i].args.kb ==> h[j].cfg.maxEntries >= least
    requires StoresInto(h[i + 1..], h[i].args.kb) < least
    ensures e in Table(h) && From(h, e, i)
    decreases |h|
  {
    var n := |h| - 1;
    var rows := Table(h[..n]);
    if i == n {
      e := h[i].Entry();
    } else {
      assert h[i + 1..][..n - i - 1] == h[..n][i + 1..];
      var before := AnswerSurvives(h[..n], i, least);
      e := if h[n] == Increment(before.id) then before.(hitCount := before.hitCount + 1) else before;
      FromLater(h, before, i, e);
      match h[n]
      case Store(args, cfg, id, createdAt, now) =>
        var gone := Ids(Evicted(rows, InScope(args.kb, args.workspace), cfg.maxEntries));
        NotEvicted(h, i, before);
        InRemove(rows, gone, before);
      case Invalidate(kb, ws) =>
        var gone := Select(rows, InScope(kb, ws));
        InRemove(rows, Ids(gone), before);
        KeptOutOfScope(h, i, before);
      case Increment(id) =>
        var k :| 0 <= k < |rows| && rows[k] == before;
        assert Bumped(rows, id)[k] == e;
    }
  }

  lemma KeptOutOfScope(h: seq<Event>, i: nat, e: Entry)
    requires FreshIds(h) && h != [] && h[|h| - 1].Invalidate?
    requires e in Table(h[..|h| - 1]) && !InScope(h[|h| - 1].kb, h[|h| - 1].workspace).Has(e)
    ensures e.id !in Ids(Select(Table(h[..|h| - 1]), InScope(h[|h| - 1].kb, h[|h| - 1].workspace)))
  {
    var n := |h| - 1;
    var rows, scope := Table(h[..n]), InScope(h[n].kb, h[n].workspace);
    IdsOfRun(h[..n]);
    forall f | f in Select(rows, scope) ensures f.id != e.id {
      InSelect(rows, scope, f);
      if f.id == e.id {
        SameId(rows, e, f);
      }
    }
  }

  lemma NotEvicted(h: seq<Event>, i: nat, e: Entry)
    requires FreshIds(h) && i < |h| - 1 && h[i].Store? && h[|h| - 1].Store? && Advancing(h, h[i].args.kb)
    requires From(h[..|h| - 1], e, i) && e in Table(h[..|h| - 1])
    requires h[|h| - 1].args.kb == h[i].args.kb ==> StoresInto(h[i + 1..], h[i].args.kb) < h[|h| - 1].cfg.maxEntries
    ensures e.id !in Ids(Evicted(Table(h[..|h| - 1]), InScope(h[|h| - 1].args.kb, h[|h| - 1].args.workspace), h[|h| - 1].cfg.maxEntries))
  {
    hide Select, Remove, Evicted, Table, Behind;
    var n := |h| - 1;
    var past, s := h[..n], h[n];
    assert h[i + 1..][..n - i - 1] == past[i + 1..];
    if s.args.kb == e.kb {
      BehindAreLater(past, i, e);
      if e.id in Ids(Evicted(Table(past), InScope(s.args.kb, s.args.workspace), s.cfg.maxEntries)) {
        EvictionLeavesBehind(past, e, s.args, s.cfg);
      }
    } else {
      OutsideScope(past, e, s.args, s.cfg);
    }
  }

  lemma OutsideScope(h: seq<Event>, e: Entry, args: StoreArgs, cfg: Config)
    requires FreshIds(h) && e in Table(h) && e.kb != args.kb
    ensures e.id !in Ids(Evicted(Table(h), InScope(args.kb, args.workspace), cfg.maxEntries))
  {
    hide Select, Remove, Evicted, Table;
    IdsOfRun(h);
    EvictedFacts(Table(h), InScope(args.kb, args.workspace), cfg.maxEntries);
  }

  lemma {:induction false} SelectMonotone(rows: seq<Entry>, a: Selector, b: Selector)
    requires forall e :: e in rows && a.Has(e) ==> b.Has(e)
    ensures |Select(rows, a)| <= |Select(rows, b)|
  {
    if rows != [] {
      SelectMonotone(rows[..|rows| - 1], a, b);
    }
  }

  /** Main result: what the cache is for. While an answer survives and its TTL runs, the same
      non-zero question vector in its scope is always a hit, with similarity 1, for every legal
      threshold. */
  lemma ServedWhileFresh(sqrt: real -> real, h: seq<Event>, i: nat, least: int, q: Query, cfg: Config, now: real, best: Option<Hit>)
    requires IsSqrt(sqrt) && cfg.Legal()
    requires FreshIds(h) && i < |h| && h[i].Store? && Advancing(h, h[i].args.kb)
    requires forall j :: i < j < |h| && h[j].Invalidate? && h[j].kb == h[i].args.kb ==>
               h[j].workspace.Some? && h[j].workspace != h[i].args.workspace
    requires forall j :: i < j < |h| && h[j].Store? && h[j].args.kb == h[i].args.kb ==> h[j].cfg.maxEntries >= least
    requires StoresInto(h[i + 1..], h[i].args.kb) < least
    requires q.vector == h[i].args.vector && exists k :: 0 <= k < |q.vector| && q.vector[k] != 0.0
    requires q.kb == h[i].args.kb && (q.workspace.Some? ==> q.workspace == h[i].args.workspace)
    requires q.provider == h[i].args.provider && q.model == h[i].args.model && q.dimensions == h[i].args.dimensions
    requires h[i].cfg.ttl.Some? ==> now <= h[i].now + h[i].cfg.ttl.value as real
    requires Answers(sqrt, Table(h), |Table(h)|, q, cfg, now, best)
    ensures best.Some? && best.value.similarity == 1.0
  {
    hide Cosine, Table, StoresInto;
    var e := AnswerSurvives(h, i, least);
    CosineOfSelf(sqrt, q.vector);
    var rows := Table(h);
    var k :| 0 <= k < |rows| && rows[k] == e;
    if best.Some? {
      var m :| BestRow(sqrt, rows, |rows|, q, cfg, now, m) && best.value == HitOf(rows[m], Similarity(sqrt, q, rows[m]));
      CosineInRange(sqrt, q.vector, rows[m].embedding.value);
    }
  }
}
