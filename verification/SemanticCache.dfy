/** The semantic answer cache of `semantic_cache.py`: a table of answers keyed by the embedding of
    their question, scoped by knowledge base and optionally by workspace. */
module SemanticCache {
  import opened Vectors
  import opened Wrappers

  datatype Config = Config(threshold: real, ttl: Option<int>, maxEntries: int) {
    /** What `__post_init__` accepts. */
    predicate Legal() {
      0.0 < threshold <= 1.0 && (ttl.Some? ==> ttl.value > 0)
    }
  }

  datatype Entry = Entry(id: nat, kb: string, workspace: Option<nat>, queryText: string,
                         provider: string, model: string, dimensions: int,
                         embedding: Option<seq<real>>, answer: string, citations: seq<string>,
                         hitCount: nat, createdAt: real, expiresAt: Option<real>)

  datatype Hit = Hit(entryId: nat, queryText: string, answer: string, citations: seq<string>,
                     similarity: real, hitCount: nat)

  /** The rows a statement selects. `InScope` with no workspace means all workspaces. */
  datatype Selector =
    | InScope(kb: string, workspace: Option<nat>)
    | Exactly(kb: string, workspace: Option<nat>)
  {
    predicate Has(e: Entry) {
      e.kb == kb
      && match this
         case InScope(_, ws) => ws.Some? ==> e.workspace == ws
         case Exactly(_, ws) => e.workspace == ws
    }
  }

  datatype Query = Query(vector: seq<real>, kb: string, provider: string, model: string,
                         dimensions: int, workspace: Option<nat>) {
    predicate Matches(e: Entry) {
      && InScope(kb, workspace).Has(e)
      && e.provider == provider && e.model == model && e.dimensions == dimensions
    }
  }

  /** An entry lookup considers: not expired at `now`, and with an embedding. */
  predicate Live(e: Entry, now: real) {
    (e.expiresAt.Some? ==> e.expiresAt.value >= now) && e.embedding.Some?
  }

  datatype StoreArgs = StoreArgs(kb: string, queryText: string, vector: seq<real>, provider: string,
                                 model: string, dimensions: int, answer: string,
                                 citations: seq<string>, workspace: Option<nat>)

  // ---------------------------------------------------------------- tables as values

  function Select(rows: seq<Entry>, sel: Selector): seq<Entry> {
    if rows == [] then [] else
      var n := |rows| - 1;
      Select(rows[..n], sel) + if sel.Has(rows[n]) then [rows[n]] else []
  }

  function Remove(rows: seq<Entry>, ids: set<nat>): seq<Entry> {
    if rows == [] then [] else
      var n := |rows| - 1;
      Remove(rows[..n], ids) + if rows[n].id in ids then [] else [rows[n]]
  }

  function Ids(rows: seq<Entry>): set<nat> {
    set e | e in rows :: e.id
  }

  /** Python's stable `sorted(..., key=lambda e: e.created_at)`. */
  function SortByCreated(rows: seq<Entry>): (r: seq<Entry>)
    ensures |r| == |rows|
  {
    if rows == [] then [] else
      InsertByCreated(SortByCreated(rows[..|rows| - 1]), rows[|rows| - 1])
  }

  function InsertByCreated(sorted: seq<Entry>, e: Entry): (r: seq<Entry>)
    ensures |r| == |sorted| + 1
  {
    if sorted == [] || sorted[|sorted| - 1].createdAt <= e.createdAt then sorted + [e] else
      InsertByCreated(sorted[..|sorted| - 1], e) + [sorted[|sorted| - 1]]
  }

  /** The entries a store evicts: the oldest in scope, so many that one more fits. */
  function Evicted(rows: seq<Entry>, scope: Selector, maxEntries: int): seq<Entry> {
    var existing := Select(rows, scope);
    if |existing| < maxEntries then [] else
      var k := |existing| - maxEntries + 1;
      SortByCreated(existing)[..if k < |existing| then k else |existing|]
  }

  function NewEntry(args: StoreArgs, cfg: Config, id: nat, createdAt: real, now: real): Entry {
    Entry(id, args.kb, args.workspace, args.queryText, args.provider, args.model, args.dimensions,
          Some(args.vector), args.answer, args.citations, 0, createdAt,
          if cfg.ttl.Some? then Some(now + cfg.ttl.value as real) else None)
  }

  function Stored(rows: seq<Entry>, args: StoreArgs, cfg: Config, id: nat, createdAt: real, now: real): seq<Entry> {
    Remove(rows, Ids(Evicted(rows, InScope(args.kb, args.workspace), cfg.maxEntries)))
    + [NewEntry(args, cfg, id, createdAt, now)]
  }

  function Bumped(rows: seq<Entry>, id: nat): (r: seq<Entry>)
    ensures |r| == |rows|
    ensures forall i :: 0 <= i < |rows| ==>
              r[i] == if rows[i].id == id then rows[i].(hitCount := rows[i].hitCount + 1) else rows[i]
  {
    seq(|rows|, i requires 0 <= i < |rows| =>
      if rows[i].id == id then rows[i].(hitCount := rows[i].hitCount + 1) else rows[i])
  }

  /** Ids are a primary key. */
  ghost predicate DistinctIds(rows: seq<Entry>) {
    forall i, j :: 0 <= i < j < |rows| ==> rows[i].id != rows[j].id
  }

  // ---------------------------------------------------------------- lookup

  function Similarity(sqrt: real -> real, q: Query, e: Entry): real
    requires IsSqrt(sqrt) && e.embedding.Some?
  {
    Cosine(sqrt, q.vector, e.embedding.value)
  }

  function HitOf(e: Entry, similarity: real): Hit {
    Hit(e.id, e.queryText, e.answer, e.citations, similarity, e.hitCount)
  }

  /** The row at i answers the query best among the first n: no candidate is more similar, and
      no earlier one is as similar. */
  ghost predicate BestRow(sqrt: real -> real, rows: seq<Entry>, n: nat, q: Query, cfg: Config, now: real, i: int)
    requires IsSqrt(sqrt) && n <= |rows|
  {
    && 0 <= i < n && q.Matches(rows[i]) && Live(rows[i], now)
    && Similarity(sqrt, q, rows[i]) >= cfg.threshold
    && forall j :: 0 <= j < n && q.Matches(rows[j]) && Live(rows[j], now) ==>
         && Similarity(sqrt, q, rows[j]) <= Similarity(sqrt, q, rows[i])
         && (j < i ==> Similarity(sqrt, q, rows[j]) < Similarity(sqrt, q, rows[i]))
  }

  ghost predicate Answers(sqrt: real -> real, rows: seq<Entry>, n: nat, q: Query, cfg: Config, now: real, best: Option<Hit>)
    requires IsSqrt(sqrt) && n <= |rows|
  {
    match best
    case Some(hit) =>
      exists i :: BestRow(sqrt, rows, n, q, cfg, now, i) && hit == HitOf(rows[i], Similarity(sqrt, q, rows[i]))
    case None =>
      forall j :: 0 <= j < n && q.Matches(rows[j]) && Live(rows[j], now) ==>
        Similarity(sqrt, q, rows[j]) < cfg.threshold
  }

  lemma NothingYet(sqrt: real -> real, rows: seq<Entry>, q: Query, cfg: Config, now: real)
    requires IsSqrt(sqrt)
    ensures Answers(sqrt, rows, 0, q, cfg, now, None)
  {
  }

  lemma NewBest(sqrt: real -> real, rows: seq<Entry>, i: nat, q: Query, cfg: Config, now: real, best: Option<Hit>)
    requires IsSqrt(sqrt) && i < |rows| && Answers(sqrt, rows, i, q, cfg, now, best)
    requires q.Matches(rows[i]) && Live(rows[i], now) && Similarity(sqrt, q, rows[i]) >= cfg.threshold
    requires best.Some? ==> Similarity(sqrt, q, rows[i]) > best.value.similarity
    ensures Answers(sqrt, rows, i + 1, q, cfg, now, Some(HitOf(rows[i], Similarity(sqrt, q, rows[i]))))
  {
    hide Cosine;
    assert BestRow(sqrt, rows, i + 1, q, cfg, now, i);
  }

  lemma OldBest(sqrt: real -> real, rows: seq<Entry>, i: nat, q: Query, cfg: Config, now: real, best: Option<Hit>)
    requires IsSqrt(sqrt) && i < |rows| && Answers(sqrt, rows, i, q, cfg, now, best)
    requires q.Matches(rows[i]) && Live(rows[i], now) ==>
               Similarity(sqrt, q, rows[i]) < cfg.threshold
               || (best.Some? && Similarity(sqrt, q, rows[i]) <= best.value.similarity)
    ensures Answers(sqrt, rows, i + 1, q, cfg, now, best)
  {
    hide Cosine;
    if best.Some? {
      var k :| BestRow(sqrt, rows, i, q, cfg, now, k) && best.value == HitOf(rows[k], Similarity(sqrt, q, rows[k]));
      assert BestRow(sqrt, rows, i + 1, q, cfg, now, k);
    }
  }

  class Cache {
    var rows: seq<Entry>

    constructor ()
      ensures rows == []
    {
      rows := [];
    }

    /** The best live match at or above the threshold; ties go to the row met first. */
    method Lookup(sqrt: real -> real, q: Query, cfg: Config, now: real) returns (best: Option<Hit>)
      requires IsSqrt(sqrt) && cfg.Legal()
      ensures Answers(sqrt, rows, |rows|, q, cfg, now, best)
    {
      hide Cosine, Answers, BestRow;
      best := None;
      var bestSim := -1.0;
      assert Answers(sqrt, rows, 0, q, cfg, now, best) by { NothingYet(sqrt, rows, q, cfg, now); }
      for i := 0 to |rows|
        invariant Answers(sqrt, rows, i, q, cfg, now, best)
        invariant best.None? ==> bestSim == -1.0
        invariant best.Some? ==> bestSim == best.value.similarity
      {
        var entry := rows[i];
        if q.Matches(entry) && Live(entry, now) {
          var sim := Similarity(sqrt, q, entry);
          if sim >= cfg.threshold && sim > bestSim {
            NewBest(sqrt, rows, i, q, cfg, now, best);
            bestSim := sim;
            best := Some(HitOf(entry, sim));
          } else {
            OldBest(sqrt, rows, i, q, cfg, now, best);
          }
        } else {
          OldBest(sqrt, rows, i, q, cfg, now, best);
        }
      }
    }

    /** `session.delete` on each entry. */
    method DeleteAll(entries: seq<Entry>)
      modifies this
      ensures rows == Remove(old(rows), Ids(entries))
    {
      hide Remove;
      RemoveNothing(rows);
      assert Ids(entries[..0]) == {};
      for i := 0 to |entries|
        invariant rows == Remove(old(rows), Ids(entries[..i]))
      {
        RemoveTwice(old(rows), Ids(entries[..i]), {entries[i].id});
        IdsStep(entries, i);
        rows := Remove(rows, {entries[i].id});
      }
      assert entries[..|entries|] == entries;
    }

    method Store(args: StoreArgs, cfg: Config, id: nat, createdAt: real, now: real)
      requires DistinctIds(rows)
      modifies this
      ensures rows == Stored(old(rows), args, cfg, id, createdAt, now)
    {
      var existing := Select(rows, InScope(args.kb, args.workspace));
      if |existing| >= cfg.maxEntries {
        var k := |existing| - cfg.maxEntries + 1;
        var toEvict := SortByCreated(existing)[..if k < |existing| then k else |existing|];
        DeleteAll(toEvict);
      } else {
        assert Ids([]) == {};
        RemoveNothing(rows);
      }
      rows := rows + [NewEntry(args, cfg, id, createdAt, now)];
    }

    /** Deletes a knowledge base's entries, of one workspace or of all. */
    method Invalidate(kb: string, workspace: Option<nat>) returns (deleted: nat)
      modifies this
      ensures deleted == |Select(old(rows), InScope(kb, workspace))|
      ensures rows == Remove(old(rows), Ids(Select(old(rows), InScope(kb, workspace))))
    {
      var entries := Select(rows, InScope(kb, workspace));
      DeleteAll(entries);
      return |entries|;
    }

    method IncrementHitCount(id: nat)
      requires DistinctIds(rows)
      modifies this
      ensures rows == Bumped(old(rows), id)
    {
      for i := 0 to |rows|
        invariant rows == old(rows) && forall j :: 0 <= j < i ==> rows[j].id != id
      {
        if rows[i].id == id {
          rows := rows[i := rows[i].(hitCount := rows[i].hitCount + 1)];
          return;
        }
      }
    }
  }

  lemma IdsStep(entries: seq<Entry>, i: nat)
    requires i < |entries|
    ensures Ids(entries[..i + 1]) == Ids(entries[..i]) + {entries[i].id}
  {
    assert entries[..i + 1] == entries[..i] + [entries[i]];
  }

  lemma {:induction false} RemoveNothing(rows: seq<Entry>)
    ensures Remove(rows, {}) == rows
  {
    if rows != [] {
      RemoveNothing(rows[..|rows| - 1]);
    }
  }

  lemma {:induction false} RemoveTwice(rows: seq<Entry>, a: set<nat>, b: set<nat>)
    ensures Remove(Remove(rows, a), b) == Remove(rows, a + b)
  {
    if rows != [] {
      var n := |rows| - 1;
      RemoveTwice(rows[..n], a, b);
      var kept := Remove(rows[..n], a);
      assert (kept + [rows[n]])[..|kept|] == kept;
      assert kept + [] == kept;
    }
  }
}
