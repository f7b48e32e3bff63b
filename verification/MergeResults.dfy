/** Merging the result lists of several sub-queries: `merge_retrieval_results` of
    `retrieval_rewriter.py`. */
module MergeResults {

  /** A retrieval result; `text` stands for everything besides its chunk and score. */
  datatype Scored = Scored(chunk: string, score: real, text: string)

  /** `seen` is a dictionary by chunk in insertion order. */
  function IndexOf(seen: seq<Scored>, chunk: string): (k: nat)
    ensures k <= |seen|
    ensures k < |seen| ==> seen[k].chunk == chunk
    ensures forall j :: 0 <= j < k ==> seen[j].chunk != chunk
  {
    if seen == [] || seen[0].chunk == chunk then 0 else 1 + IndexOf(seen[1..], chunk)
  }

  /** Keeps the higher score per chunk; on a tie the result seen first. */
  function Put(seen: seq<Scored>, r: Scored): seq<Scored> {
    var k := IndexOf(seen, r.chunk);
    if k == |seen| then seen + [r]
    else if r.score > seen[k].score then seen[k := r]
    else seen
  }

  function Seen(results: seq<Scored>): seq<Scored> {
    if results == [] then [] else Put(Seen(results[..|results| - 1]), results[|results| - 1])
  }

  function Flatten(lists: seq<seq<Scored>>): seq<Scored> {
    if lists == [] then [] else Flatten(lists[..|lists| - 1]) + lists[|lists| - 1]
  }

  /** Python's stable `sorted(..., key=lambda x: -x.score)`. */
  function SortDescending(rs: seq<Scored>): seq<Scored> {
    if rs == [] then [] else InsertDescending(SortDescending(rs[..|rs| - 1]), rs[|rs| - 1])
  }

  function InsertDescending(sorted: seq<Scored>, r: Scored): seq<Scored> {
    if sorted == [] || sorted[|sorted| - 1].score >= r.score then sorted + [r] else
      InsertDescending(sorted[..|sorted| - 1], r) + [sorted[|sorted| - 1]]
  }

  /** Python's `s[:k]`: a negative k counts from the end. */
  function Slice<T>(s: seq<T>, k: int): seq<T> {
    if k >= 0 then (if k <= |s| then s[..k] else s)
    else if |s| + k >= 0 then s[..|s| + k] else []
  }

  function Ranked(results: seq<Scored>): seq<Scored> {
    SortDescending(Seen(results))
  }

  function Merge(lists: seq<seq<Scored>>, topK: int): seq<Scored> {
    Slice(Ranked(Flatten(lists)), topK)
  }

  lemma SeenStep(before: seq<Scored>, results: seq<Scored>, j: nat)
    requires j < |results|
    ensures Seen(before + results[..j + 1]) == Put(Seen(before + results[..j]), results[j])
  {
    hide Put;
    var all := before + results[..j + 1];
    assert all[..|all| - 1] == before + results[..j];
  }

  lemma FlattenStep(lists: seq<seq<Scored>>, i: nat)
    requires i < |lists|
    ensures Flatten(lists[..i + 1]) == Flatten(lists[..i]) + lists[i]
  {
    assert lists[..i + 1][..i] == lists[..i];
  }

  method MergeRetrievalResults(resultLists: seq<seq<Scored>>, topK: int) returns (merged: seq<Scored>)
    ensures merged == Merge(resultLists, topK)
  {
    hide Seen, IndexOf, SortDescending, Slice;
    var seen: seq<Scored> := [];
    assert seen == Seen([]) by { SeenEmpty(); }
    for i := 0 to |resultLists|
      invariant seen == Seen(Flatten(resultLists[..i]))
    {
      var results := resultLists[i];
      ghost var before := Flatten(resultLists[..i]);
      assert before + results[..0] == before;
      for j := 0 to |results|
        invariant seen == Seen(before + results[..j])
      {
        SeenStep(before, results, j);
        var r := results[j];
        var k := IndexOf(seen, r.chunk);
        if k == |seen| {
          seen := seen + [r];
        } else if r.score > seen[k].score {
          seen := seen[k := r];
        }
      }
      assert results[..|results|] == results;
      FlattenStep(resultLists, i);
    }
    assert resultLists[..|resultLists|] == resultLists;
    return Slice(SortDescending(seen), topK);
  }

  lemma SeenEmpty()
    ensures Seen([]) == []
  {
  }

  // ---------------------------------------------------------------- what the merge contains

  ghost predicate DistinctChunks(rs: seq<Scored>) {
    forall i, j :: 0 <= i < j < |rs| ==> rs[i].chunk != rs[j].chunk
  }

  ghost predicate Descending(rs: seq<Scored>) {
    forall i, j :: 0 <= i < j < |rs| ==> rs[i].score >= rs[j].score
  }

  /** The first of the results of its chunk that reach the chunk's best score. */
  ghost predicate FirstBest(results: seq<Scored>, r: Scored) {
    exists i :: FirstBestAt(results, r, i)
  }

  ghost predicate FirstBestAt(results: seq<Scored>, r: Scored, i: int) {
    && 0 <= i < |results| && results[i] == r
    && forall j :: 0 <= j < |results| && results[j].chunk == r.chunk ==>
         results[j].score <= r.score && (j < i ==> results[j].score < r.score)
  }

  ghost predicate HasChunk(rs: seq<Scored>, chunk: string) {
    exists i :: 0 <= i < |rs| && rs[i].chunk == chunk
  }

  lemma {:induction false} SeenFacts(results: seq<Scored>)
    ensures DistinctChunks(Seen(results))
    ensures forall r :: r in Seen(results) ==> FirstBest(results, r)
    ensures forall r :: r in results ==> HasChunk(Seen(results), r.chunk)
  {
    hide Put, FirstBest, DistinctChunks, HasChunk;
    if results == [] {
      EmptyIsDistinct();
    } else {
      var n := |results| - 1;
      var x := results[n];
      SeenFacts(results[..n]);
      PutFacts(Seen(results[..n]), x);
      assert results == results[..n] + [x];
      forall r | r in Seen(results) ensures FirstBest(results, r) {
        PutIsFirstBest(results[..n], Seen(results[..n]), x, r);
      }
    }
  }

  lemma EmptyIsDistinct()
    ensures DistinctChunks([])
  {
  }

  lemma PutFacts(seen: seq<Scored>, x: Scored)
    requires DistinctChunks(seen)
    ensures DistinctChunks(Put(seen, x))
    ensures HasChunk(Put(seen, x), x.chunk)
    ensures forall c :: HasChunk(seen, c) ==> HasChunk(Put(seen, x), c)
    ensures forall r :: r in Put(seen, x) && r.chunk != x.chunk ==> r in seen
    ensures forall r :: r in Put(seen, x) && r.chunk == x.chunk ==>
              r.score >= x.score && (r in seen || (r == x && forall s :: s in seen && s.chunk == x.chunk ==> s.score < x.score))
  {
    var k := IndexOf(seen, x.chunk);
    var after := Put(seen, x);
    assert k < |after| && after[k].chunk == x.chunk;
    forall c | HasChunk(seen, c) ensures HasChunk(after, c) {
      var i :| 0 <= i < |seen| && seen[i].chunk == c;
      assert after[i].chunk == c;
    }
  }

  lemma PutIsFirstBest(past: seq<Scored>, seen: seq<Scored>, x: Scored, r: Scored)
    requires DistinctChunks(seen) && (forall s :: s in seen ==> FirstBest(past, s))
    requires forall s :: s in past ==> HasChunk(seen, s.chunk)
    requires r in Put(seen, x)
    ensures FirstBest(past + [x], r)
  {
    hide Put, DistinctChunks, FirstBest;
    PutFacts(seen, x);
    if r in seen {
      BestSoFar(past, x, r);
    } else {
      forall j | 0 <= j < |past| && past[j].chunk == r.chunk ensures past[j].score < r.score {
        assert past[j] in past;
        var k :| 0 <= k < |seen| && seen[k].chunk == r.chunk;
        assert seen[k] in seen;
        BestBounds(past, seen[k], j);
      }
      NewBest(past, x);
    }
  }

  lemma BestBounds(results: seq<Scored>, r: Scored, j: nat)
    requires FirstBest(results, r) && j < |results| && results[j].chunk == r.chunk
    ensures results[j].score <= r.score
  {
  }

  lemma BestSoFar(past: seq<Scored>, x: Scored, r: Scored)
    requires FirstBest(past, r) && (x.chunk == r.chunk ==> x.score <= r.score)
    ensures FirstBest(past + [x], r)
  {
    var i :| FirstBestAt(past, r, i);
    assert FirstBestAt(past + [x], r, i);
  }

  lemma NewBest(past: seq<Scored>, x: Scored)
    requires forall j :: 0 <= j < |past| && past[j].chunk == x.chunk ==> past[j].score < x.score
    ensures FirstBest(past + [x], x)
  {
    assert FirstBestAt(past + [x], x, |past|);
  }

  lemma {:induction false} InsertFacts(sorted: seq<Scored>, x: Scored)
    requires Descending(sorted)
    ensures Descending(InsertDescending(sorted, x))
    ensures |InsertDescending(sorted, x)| == |sorted| + 1
    ensures forall r :: r in InsertDescending(sorted, x) <==> r in sorted || r == x
  {
    if sorted != [] && sorted[|sorted| - 1].score < x.score {
      var n := |sorted| - 1;
      InsertFacts(sorted[..n], x);
      var inner := InsertDescending(sorted[..n], x);
      forall i | 0 <= i < |inner| ensures inner[i].score >= sorted[n].score {
        assert inner[i] in inner;
      }
    }
  }

  lemma {:induction false} InsertKeepsDistinct(sorted: seq<Scored>, x: Scored)
    requires Descending(sorted) && DistinctChunks(sorted)
    requires forall i :: 0 <= i < |sorted| ==> sorted[i].chunk != x.chunk
    ensures DistinctChunks(InsertDescending(sorted, x))
  {
    if sorted != [] && sorted[|sorted| - 1].score < x.score {
      var n := |sorted| - 1;
      InsertKeepsDistinct(sorted[..n], x);
      InsertFacts(sorted[..n], x);
      var inner := InsertDescending(sorted[..n], x);
      forall i | 0 <= i < |inner| ensures inner[i].chunk != sorted[n].chunk {
        assert inner[i] in inner;
        if inner[i] != x {
          var j :| 0 <= j < n && sorted[..n][j] == inner[i];
        }
      }
    }
  }

  lemma {:induction false} SortFacts(rs: seq<Scored>)
    ensures Descending(SortDescending(rs))
    ensures |SortDescending(rs)| == |rs|
    ensures forall r :: r in SortDescending(rs) <==> r in rs
    ensures DistinctChunks(rs) ==> DistinctChunks(SortDescending(rs))
  {
    if rs != [] {
      var n := |rs| - 1;
      SortFacts(rs[..n]);
      InsertFacts(SortDescending(rs[..n]), rs[n]);
      if DistinctChunks(rs) {
        NoSuchChunk(rs, SortDescending(rs[..n]));
        InsertKeepsDistinct(SortDescending(rs[..n]), rs[n]);
      }
    }
  }

  lemma NoSuchChunk(rs: seq<Scored>, sorted: seq<Scored>)
    requires rs != [] && DistinctChunks(rs)
    requires forall r :: r in sorted <==> r in rs[..|rs| - 1]
    ensures forall i :: 0 <= i < |sorted| ==> sorted[i].chunk != rs[|rs| - 1].chunk
  {
    var n := |rs| - 1;
    forall i | 0 <= i < |sorted| ensures sorted[i].chunk != rs[n].chunk {
      assert sorted[i] in sorted;
      var j :| 0 <= j < n && rs[..n][j] == sorted[i];
    }
  }

  /** "Best result per chunk, sorted by descending score, first k": no chunk twice, each result
      the first best of its chunk, and what is missing scores no higher. */
  ghost predicate IsTopK(all: seq<Scored>, merged: seq<Scored>, k: nat) {
    && DistinctChunks(merged) && Descending(merged) && |merged| <= k
    && (forall r :: r in merged ==> FirstBest(all, r))
    && Covers(all, merged, k)
  }

  ghost predicate Covers(all: seq<Scored>, merged: seq<Scored>, k: nat) {
    forall r :: r in all && !HasChunk(merged, r.chunk) ==>
      |merged| == k && forall m :: m in merged ==> r.score <= m.score
  }

  /** Main result: for any result lists and k >= 0 the merge is the top k of all results. */
  lemma MergeIsTopK(lists: seq<seq<Scored>>, k: nat)
    ensures IsTopK(Flatten(lists), Merge(lists, k), k)
  {
    RankedIsTopK(Flatten(lists), k);
  }

  lemma RankedIsTopK(all: seq<Scored>, k: nat)
    ensures IsTopK(all, Slice(Ranked(all), k), k)
  {
    hide Seen, SortDescending, FirstBest, HasChunk;
    var seen, ranked := Seen(all), Ranked(all);
    var merged := Slice(ranked, k);
    SeenFacts(all);
    SortFacts(seen);
    forall r | r in merged ensures FirstBest(all, r) {
      assert r in ranked;
    }
    forall r | r in all && !HasChunk(merged, r.chunk)
      ensures |merged| == k && forall m :: m in merged ==> r.score <= m.score
    {
      MissingScoresLower(all, seen, ranked, k, r);
    }
  }

  // ---------------------------------------------------------------- the order of ties

  /** Among equal scores, chunks stand in the order in which they first occur. */
  ghost predicate TiesInOrder(all: seq<Scored>, sorted: seq<Scored>) {
    forall i, j :: 0 <= i < j < |sorted| && sorted[i].score == sorted[j].score ==>
      IndexOf(all, sorted[i].chunk) < IndexOf(all, sorted[j].chunk)
  }

  /** Where the chunks of some results first occur. */
  function Firsts(all: seq<Scored>, rs: seq<Scored>): (r: seq<nat>)
    ensures |r| == |rs|
  {
    seq(|rs|, i requires 0 <= i < |rs| => IndexOf(all, rs[i].chunk))
  }

  ghost predicate Increasing(ns: seq<nat>, bound: nat) {
    && (forall i :: 0 <= i < |ns| ==> ns[i] < bound)
    && forall i, j :: 0 <= i < j < |ns| ==> ns[i] < ns[j]
  }

  lemma IncreasingAppend(ns: seq<nat>, n: nat)
    requires Increasing(ns, n)
    ensures Increasing(ns + [n], n + 1) && Increasing(ns, n + 1)
  {
  }

  /** Their chunks occur in the results, first in this order. */
  ghost predicate InOrder(all: seq<Scored>, rs: seq<Scored>) {
    Increasing(Firsts(all, rs), |all|)
  }

  lemma {:induction false} IndexOfAppend(all: seq<Scored>, x: Scored, chunk: string)
    ensures IndexOf(all + [x], chunk) == if IndexOf(all, chunk) < |all| then IndexOf(all, chunk)
                                         else if x.chunk == chunk then |all| else |all| + 1
  {
    if all == [] {
      assert all + [x] == [x] && [x][1..] == [];
    } else {
      assert (all + [x])[1..] == all[1..] + [x];
      IndexOfAppend(all[1..], x, chunk);
    }
  }

  lemma FirstsStay(all: seq<Scored>, x: Scored, rs: seq<Scored>)
    requires InOrder(all, rs)
    ensures Firsts(all + [x], rs) == Firsts(all, rs)
  {
    forall i | 0 <= i < |rs| ensures Firsts(all + [x], rs)[i] == Firsts(all, rs)[i] {
      assert Firsts(all, rs)[i] < |all|;
      IndexOfAppend(all, x, rs[i].chunk);
    }
  }

  /** The dictionary lists chunks in the order of their first results. */
  lemma {:induction false} SeenInOrder(all: seq<Scored>)
    ensures InOrder(all, Seen(all))
  {
    hide IndexOf, Seen, Put, InOrder;
    if all == [] {
      SeenEmpty();
      NothingInOrder();
    } else {
      var n := |all| - 1;
      var before, x := all[..n], all[n];
      assert all == before + [x];
      SeenInOrder(before);
      SeenStep([], all, n);
      assert [] + all[..n + 1] == all && [] + all[..n] == before;
      PutInOrder(before, x);
    }
  }

  lemma NothingInOrder()
    ensures InOrder([], [])
  {
  }

  lemma PutInOrder(all: seq<Scored>, x: Scored)
    requires InOrder(all, Seen(all))
    ensures InOrder(all + [x], Put(Seen(all), x))
  {
    hide Seen, IndexOf, Increasing, Firsts;
    var seen := Seen(all);
    var k := IndexOf(seen, x.chunk);
    FirstsStay(all, x, seen);
    IncreasingAppend(Firsts(all, seen), |all|);
    if k == |seen| {
      NewChunk(all, x);
      FirstsAppend(all + [x], seen, x);
    } else {
      SameFirsts(all + [x], seen, x, k);
    }
  }

  lemma FirstsAppend(all: seq<Scored>, rs: seq<Scored>, x: Scored)
    ensures Firsts(all, rs + [x]) == Firsts(all, rs) + [IndexOf(all, x.chunk)]
  {
  }

  lemma SameFirsts(all: seq<Scored>, rs: seq<Scored>, x: Scored, k: nat)
    requires k < |rs| && rs[k].chunk == x.chunk
    ensures Firsts(all, rs[k := x]) == Firsts(all, rs)
  {
  }

  lemma NewChunk(all: seq<Scored>, x: Scored)
    requires IndexOf(Seen(all), x.chunk) == |Seen(all)|
    ensures IndexOf(all + [x], x.chunk) == |all|
  {
    hide Seen, FirstBest, DistinctChunks, IndexOf;
    SeenFacts(all);
    IndexOfAppend(all, x, x.chunk);
    assert forall r :: r in all ==> r.chunk != x.chunk;
    assert forall i :: 0 <= i < |all| ==> all[i] in all;
  }

  lemma TiesAppend(all: seq<Scored>, sorted: seq<Scored>, x: Scored)
    ensures TiesInOrder(all, sorted + [x]) <==>
              TiesInOrder(all, sorted)
              && forall r :: r in sorted && r.score == x.score ==> IndexOf(all, r.chunk) < IndexOf(all, x.chunk)
  {
    hide IndexOf;
    var more := sorted + [x];
    assert forall i :: 0 <= i < |sorted| ==> more[i] == sorted[i] && sorted[i] in sorted;
    if TiesInOrder(all, more) {
      forall r | r in sorted && r.score == x.score ensures IndexOf(all, r.chunk) < IndexOf(all, x.chunk) {
        var i :| 0 <= i < |sorted| && sorted[i] == r;
        assert more[i] == r && more[|sorted|] == x;
      }
      forall i, j | 0 <= i < j < |sorted| && sorted[i].score == sorted[j].score
        ensures IndexOf(all, sorted[i].chunk) < IndexOf(all, sorted[j].chunk)
      {
        assert more[i] == sorted[i] && more[j] == sorted[j];
      }
    }
  }

  lemma {:induction false} InsertKeepsTies(all: seq<Scored>, sorted: seq<Scored>, x: Scored)
    requires Descending(sorted) && TiesInOrder(all, sorted)
    requires forall r :: r in sorted ==> IndexOf(all, r.chunk) < IndexOf(all, x.chunk)
    ensures TiesInOrder(all, InsertDescending(sorted, x))
  {
    hide IndexOf, TiesInOrder;
    if sorted == [] || sorted[|sorted| - 1].score >= x.score {
      TiesAppend(all, sorted, x);
    } else {
      var n := |sorted| - 1;
      assert sorted == sorted[..n] + [sorted[n]];
      TiesAppend(all, sorted[..n], sorted[n]);
      InsertKeepsTies(all, sorted[..n], x);
      InsertFacts(sorted[..n], x);
      TiesAppend(all, InsertDescending(sorted[..n], x), sorted[n]);
    }
  }

  lemma {:induction false} SortKeepsTies(all: seq<Scored>, rs: seq<Scored>)
    requires InOrder(all, rs)
    ensures TiesInOrder(all, SortDescending(rs))
  {
    hide IndexOf, TiesInOrder, SortDescending, InsertDescending, Descending;
    if rs == [] {
      NoTiesYet(all);
    } else {
      var n := |rs| - 1;
      assert rs == rs[..n] + [rs[n]];
      SortStep(rs[..n], rs[n]);
      EarlierChunks(all, rs);
      SortKeepsTies(all, rs[..n]);
      SortFacts(rs[..n]);
      InsertKeepsTies(all, SortDescending(rs[..n]), rs[n]);
    }
  }

  lemma NoTiesYet(all: seq<Scored>)
    ensures TiesInOrder(all, SortDescending([]))
  {
  }

  lemma EarlierChunks(all: seq<Scored>, rs: seq<Scored>)
    requires rs != [] && InOrder(all, rs)
    ensures InOrder(all, rs[..|rs| - 1])
    ensures forall r :: r in rs[..|rs| - 1] ==> IndexOf(all, r.chunk) < IndexOf(all, rs[|rs| - 1].chunk)
  {
    hide IndexOf;
    var n, firsts := |rs| - 1, Firsts(all, rs);
    var before := Firsts(all, rs[..n]);
    assert forall i :: 0 <= i < n ==> before[i] == firsts[i];
    forall r | r in rs[..n] ensures IndexOf(all, r.chunk) < IndexOf(all, rs[n].chunk) {
      var i :| 0 <= i < n && rs[i] == r;
      assert firsts[i] < firsts[n];
    }
  }

  /** Main result: ties stand in the order in which their chunks first occur in the lists. */
  lemma MergeKeepsTies(lists: seq<seq<Scored>>, k: int)
    ensures TiesInOrder(Flatten(lists), Merge(lists, k))
  {
    hide IndexOf, Flatten, Seen, SortDescending;
    var all := Flatten(lists);
    SeenInOrder(all);
    SortKeepsTies(all, Seen(all));
    assert forall i :: 0 <= i < |Merge(lists, k)| ==> Merge(lists, k)[i] == Ranked(all)[i];
  }

  lemma MissingScoresLower(all: seq<Scored>, seen: seq<Scored>, ranked: seq<Scored>, k: nat, r: Scored)
    requires Descending(ranked) && (forall s :: s in ranked <==> s in seen)
    requires forall s :: s in seen ==> FirstBest(all, s)
    requires r in all && HasChunk(seen, r.chunk) && !HasChunk(Slice(ranked, k), r.chunk)
    ensures |Slice(ranked, k)| == k && forall m :: m in Slice(ranked, k) ==> r.score <= m.score
  {
    var i :| 0 <= i < |seen| && seen[i].chunk == r.chunk;
    assert seen[i] in seen;
    var j :| 0 <= j < |ranked| && ranked[j] == seen[i];
    assert FirstBest(all, seen[i]);
    var at :| 0 <= at < |all| && all[at] == r;
    BestBounds(all, seen[i], at);
    var top := Slice(ranked, k);
    assert forall m :: 0 <= m < |top| ==> top[m] == ranked[m];
    assert j >= |top|;
  }

  // ---------------------------------------------------------------- best scores

  /** A result that reaches the best score of its chunk. */
  ghost predicate Best(all: seq<Scored>, r: Scored) {
    r in all && forall s :: s in all && s.chunk == r.chunk ==> s.score <= r.score
  }

  /** Two chunks share v as their best score. */
  ghost predicate Shared(all: seq<Scored>, v: real) {
    exists r, s :: Best(all, r) && Best(all, s) && r.chunk != s.chunk && r.score == v == s.score
  }

  lemma FirstIsBest(all: seq<Scored>, r: Scored)
    requires FirstBest(all, r)
    ensures Best(all, r)
  {
    var i :| FirstBestAt(all, r, i);
    forall s | s in all && s.chunk == r.chunk ensures s.score <= r.score {
      var j :| 0 <= j < |all| && all[j] == s;
    }
  }

  lemma FirstIsUnique(all: seq<Scored>, r: Scored, s: Scored)
    requires FirstBest(all, r) && FirstBest(all, s) && r.chunk == s.chunk
    ensures r == s
  {
    var i :| FirstBestAt(all, r, i);
    var j :| FirstBestAt(all, s, j);
    assert i == j;
  }

  /** What the dictionary holds are the best results, so sharing shows there. */
  lemma SharedIffSeen(all: seq<Scored>)
    ensures NoTies(Seen(all)) <==> forall v :: !Shared(all, v)
  {
    hide Seen, FirstBest;
    SeenFacts(all);
    if r, s :| r in Seen(all) && s in Seen(all) && r.chunk != s.chunk && r.score == s.score {
      FirstIsBest(all, r);
      FirstIsBest(all, s);
      assert Shared(all, r.score);
    }
    if v :| Shared(all, v) {
      var r, s :| Best(all, r) && Best(all, s) && r.chunk != s.chunk && r.score == v == s.score;
      var r' := SeenBest(all, r);
      var s' := SeenBest(all, s);
    }
  }

  lemma SeenBest(all: seq<Scored>, r: Scored) returns (s: Scored)
    requires Best(all, r)
    ensures s in Seen(all) && s.chunk == r.chunk && s.score == r.score
  {
    hide Seen, FirstBest;
    SeenFacts(all);
    var i :| 0 <= i < |Seen(all)| && Seen(all)[i].chunk == r.chunk;
    s := Seen(all)[i];
    FirstIsBest(all, s);
  }

  /** Different chunks never share a score. */
  ghost predicate NoTies(rs: seq<Scored>) {
    forall r, s :: r in rs && s in rs && r.chunk != s.chunk ==> r.score != s.score
  }

  // ---------------------------------------------------------------- counting chunks

  function Chunks(rs: seq<Scored>): set<string> {
    set r | r in rs :: r.chunk
  }

  lemma {:induction false} CountChunks(rs: seq<Scored>)
    ensures |Chunks(rs)| <= |rs|
    ensures DistinctChunks(rs) ==> |Chunks(rs)| == |rs|
  {
    if rs == [] {
      assert Chunks(rs) == {};
    } else {
      var n := |rs| - 1;
      CountChunks(rs[..n]);
      assert rs == rs[..n] + [rs[n]];
      assert Chunks(rs) == Chunks(rs[..n]) + {rs[n].chunk};
    }
  }

  lemma SubsetSize(a: set<string>, b: set<string>)
    ensures a <= b ==> |a| <= |b|
  {
    if a <= b {
      assert b == a + (b - a);
    }
  }

  /** A longer list of distinct chunks has one the shorter list has not. */
  lemma ChunkToSpare(longer: seq<Scored>, shorter: seq<Scored>) returns (d: Scored)
    requires DistinctChunks(longer) && |longer| > |shorter|
    ensures d in longer && !HasChunk(shorter, d.chunk)
  {
    CountChunks(longer);
    CountChunks(shorter);
    SubsetSize(Chunks(longer), Chunks(shorter));
    assert exists c :: c in Chunks(longer) && c !in Chunks(shorter);
    var c :| c in Chunks(longer) && c !in Chunks(shorter);
    d :| d in longer && d.chunk == c;
    assert forall i :: 0 <= i < |shorter| ==> shorter[i].chunk in Chunks(shorter);
  }

  /** So has an equally long one, when the other list has a foreign chunk. */
  lemma ChunkDisplaced(top: seq<Scored>, merged: seq<Scored>, m: Scored) returns (d: Scored)
    requires DistinctChunks(top) && DistinctChunks(merged) && |merged| <= |top|
    requires m in merged && !HasChunk(top, m.chunk)
    ensures d in top && !HasChunk(merged, d.chunk)
  {
    var i :| 0 <= i < |merged| && merged[i] == m;
    var others := merged[..i] + merged[i + 1..];
    d := ChunkToSpare(top, others);
    forall j | 0 <= j < |merged| ensures merged[j].chunk != d.chunk {
      if j != i {
        assert others[if j < i then j else j - 1] == merged[j];
      } else {
        var at :| 0 <= at < |top| && top[at] == d;
      }
    }
  }

  // ---------------------------------------------------------------- merging in stages

  /** As `IsTopK`, but a result may be any that reaches its chunk's best score. */
  ghost predicate RanksBest(all: seq<Scored>, merged: seq<Scored>, k: nat) {
    && DistinctChunks(merged) && Descending(merged) && |merged| <= k
    && (forall r :: r in merged ==> Best(all, r))
    && Covers(all, merged, k)
  }

  /** Such rankings all have the same scores, ties or not. */
  lemma SameScores(all: seq<Scored>, a: seq<Scored>, b: seq<Scored>, k: nat)
    requires RanksBest(all, a, k) && RanksBest(all, b, k)
    ensures |a| == |b| && forall i :: 0 <= i < |a| ==> a[i].score == b[i].score
  {
    hide HasChunk;
    SameLengthRanking(all, a, b, k);
    SameLengthRanking(all, b, a, k);
    forall i | 0 <= i < |a| ensures a[i].score == b[i].score {
      ScoreAtMost(all, a, b, k, i);
      ScoreAtMost(all, b, a, k, i);
    }
  }

  lemma SameLengthRanking(all: seq<Scored>, a: seq<Scored>, b: seq<Scored>, k: nat)
    requires RanksBest(all, a, k) && RanksBest(all, b, k)
    ensures |a| <= |b|
  {
    hide HasChunk, Covers;
    if |a| > |b| {
      var d := ChunkToSpare(a, b);
      CoveredLength(all, b, k, d);
    }
  }

  /** Of the first i + 1 chunks of a, one is not among the first i of b. */
  lemma ScoreAtMost(all: seq<Scored>, a: seq<Scored>, b: seq<Scored>, k: nat, i: nat)
    requires RanksBest(all, a, k) && RanksBest(all, b, k) && i < |a| == |b|
    ensures a[i].score <= b[i].score
  {
    var d := ChunkToSpare(a[..i + 1], b[..i]);
    assert d in a && d.score >= a[i].score;
    assert forall u :: 0 <= u < i ==> b[u] == b[..i][u] && b[..i][u].chunk != d.chunk;
    if HasChunk(b, d.chunk) {
      var j :| 0 <= j < |b| && b[j].chunk == d.chunk;
      assert b[j] in b;
    } else {
      assert b[i] in b;
    }
  }

  /** What the staged merge keeps is best among all results, and the first best unless its chunk
      shares its best score with another one. */
  lemma StagedIsBest(first: seq<Scored>, rest: seq<Scored>, top: seq<Scored>, merged: seq<Scored>, k: nat, r: Scored)
    requires IsTopK(first, top, k) && IsTopK(top + rest, merged, k) && r in merged
    ensures Best(first + rest, r)
    ensures FirstBest(first + rest, r) || Shared(first + rest, r.score)
  {
    hide HasChunk, FirstBest, Shared, Covers;
    if a :| a in first && a.chunk == r.chunk && !HasChunk(top, r.chunk) && a.score >= r.score {
      DroppedChunk(first, rest, top, merged, k, r, a);
    } else {
      StagedIsFirst(first, rest, top, r);
      FirstIsBest(first + rest, r);
    }
  }

  /** The chunk's best result was dropped in the first stage and it came back with the same score:
      then some chunk of the first stage ties with it. */
  lemma DroppedChunk(first: seq<Scored>, rest: seq<Scored>, top: seq<Scored>, merged: seq<Scored>, k: nat, r: Scored, a: Scored)
    requires IsTopK(first, top, k) && IsTopK(top + rest, merged, k) && r in merged
    requires a in first && a.chunk == r.chunk && !HasChunk(top, r.chunk) && a.score >= r.score
    ensures Best(first + rest, r) && Shared(first + rest, r.score)
  {
    hide HasChunk, FirstBest, Best, Covers;
    CoveredLength(first, top, k, a);
    var d := ChunkDisplaced(top, merged, r);
    HasOwnChunk(top, d);
    FirstIsBest(top + rest, r);
    FirstIsBest(first, d);
    assert d in top + rest;
    CoveredBelow(top + rest, merged, k, d, r);
    forall x | x in first && x.chunk == r.chunk ensures x.score <= d.score {
      CoveredBelow(first, top, k, x, d);
    }
    assert d.score == r.score;
    BestOfBoth(first, rest, top, r);
    BestOfRest(first, rest, top, merged, k, d, r);
  }

  lemma HasOwnChunk(rs: seq<Scored>, r: Scored)
    requires r in rs
    ensures HasChunk(rs, r.chunk)
  {
    var i :| 0 <= i < |rs| && rs[i] == r;
  }

  lemma BestOfBoth(first: seq<Scored>, rest: seq<Scored>, top: seq<Scored>, r: Scored)
    requires Best(top + rest, r) && (forall a :: a in first && a.chunk == r.chunk ==> a.score <= r.score)
    requires forall t :: t in top ==> FirstBest(first, t)
    ensures Best(first + rest, r)
  {
    forall s | s in first + rest && s.chunk == r.chunk ensures s.score <= r.score {
      assert s in rest ==> s in top + rest;
    }
  }

  lemma BestOfRest(first: seq<Scored>, rest: seq<Scored>, top: seq<Scored>, merged: seq<Scored>, k: nat, d: Scored, r: Scored)
    requires Best(first, d) && Covers(top + rest, merged, k) && !HasChunk(merged, d.chunk)
    requires r in merged && r.score <= d.score
    ensures Best(first + rest, d)
  {
    forall s | s in first + rest && s.chunk == d.chunk ensures s.score <= d.score {
      assert s in rest ==> s in top + rest;
    }
  }

  lemma StagedIsFirst(first: seq<Scored>, rest: seq<Scored>, top: seq<Scored>, r: Scored)
    requires FirstBest(top + rest, r) && forall t :: t in top ==> FirstBest(first, t)
    requires forall a :: a in first && a.chunk == r.chunk && !HasChunk(top, r.chunk) ==> a.score < r.score
    ensures FirstBest(first + rest, r)
  {
    var staged, all := top + rest, first + rest;
    var i :| FirstBestAt(staged, r, i);
    assert forall j :: |first| <= j < |all| ==> all[j] == staged[j - |first| + |top|];
    if i < |top| {
      assert r in top;
      var p :| FirstBestAt(first, r, p);
      assert FirstBestAt(all, r, p);
    } else {
      forall j | 0 <= j < |first| && all[j].chunk == r.chunk ensures all[j].score < r.score {
        assert first[j] in first;
        if HasChunk(top, r.chunk) {
          var u :| 0 <= u < |top| && top[u].chunk == r.chunk;
          assert staged[u] == top[u] && top[u] in top;
          BestBounds(first, top[u], j);
        }
      }
      assert FirstBestAt(all, r, i - |top| + |first|);
    }
  }

  lemma StagedCovers(first: seq<Scored>, rest: seq<Scored>, top: seq<Scored>, merged: seq<Scored>, k: nat)
    requires IsTopK(first, top, k) && IsTopK(top + rest, merged, k)
    ensures Covers(first + rest, merged, k)
  {
    hide FirstBest, HasChunk;
    forall r | r in first + rest && !HasChunk(merged, r.chunk)
      ensures |merged| == k && forall m :: m in merged ==> r.score <= m.score
    {
      if r in rest {
        assert r in top + rest;
      } else if HasChunk(top, r.chunk) {
        var t := OfChunk(top, r.chunk);
        FirstIsBest(first, t);
        assert t in top + rest;
      } else {
        StagesFill(first, rest, top, merged, k);
        forall m | m in merged ensures r.score <= m.score {
          TopScoresLower(first, rest, top, merged, k, r, m);
        }
      }
    }
  }

  lemma OfChunk(rs: seq<Scored>, chunk: string) returns (r: Scored)
    requires HasChunk(rs, chunk)
    ensures r in rs && r.chunk == chunk
  {
    var i :| 0 <= i < |rs| && rs[i].chunk == chunk;
    r := rs[i];
  }

  lemma StagesFill(first: seq<Scored>, rest: seq<Scored>, top: seq<Scored>, merged: seq<Scored>, k: nat)
    requires IsTopK(first, top, k) && IsTopK(top + rest, merged, k) && |top| == k
    ensures |merged| == k
  {
    hide FirstBest, HasChunk, Covers;
    if |merged| < k {
      var d := ChunkToSpare(top, merged);
      CoveredLength(top + rest, merged, k, d);
    }
  }

  lemma TopScoresLower(first: seq<Scored>, rest: seq<Scored>, top: seq<Scored>, merged: seq<Scored>, k: nat, r: Scored, m: Scored)
    requires IsTopK(first, top, k) && IsTopK(top + rest, merged, k) && |top| == k
    requires (forall t :: t in top ==> r.score <= t.score) && m in merged
    ensures r.score <= m.score
  {
    hide FirstBest, HasChunk, Covers;
    if HasChunk(top, m.chunk) {
      var t := OfChunk(top, m.chunk);
      FirstIsBest(top + rest, m);
      assert t in top + rest;
    } else {
      var d := ChunkDisplaced(top, merged, m);
      assert Covers(top + rest, merged, k) && d in top + rest;
      CoveredBelow(top + rest, merged, k, d, m);
    }
  }

  lemma CoveredLength(all: seq<Scored>, merged: seq<Scored>, k: nat, d: Scored)
    requires Covers(all, merged, k) && d in all && !HasChunk(merged, d.chunk)
    ensures |merged| == k
  {
  }

  lemma CoveredBelow(all: seq<Scored>, merged: seq<Scored>, k: nat, d: Scored, m: Scored)
    requires Covers(all, merged, k) && d in all && !HasChunk(merged, d.chunk) && m in merged
    ensures d.score <= m.score
  {
  }

  /** A negative k leaves out the last -k of the ranked chunks. */
  lemma NegativeTopK(lists: seq<seq<Scored>>, k: int)
    requires k < 0
    ensures var n := |Chunks(Flatten(lists))|;
            Merge(lists, k) == Merge(lists, if n + k > 0 then n + k else 0)
  {
    hide Seen, SortDescending, Flatten, FirstBest, DistinctChunks, HasChunk;
    var all := Flatten(lists);
    SeenFacts(all);
    SortFacts(Seen(all));
    CountChunks(Seen(all));
    assert |Ranked(all)| == |Chunks(all)| by {
      SameChunks(all);
    }
  }

  lemma SameChunks(all: seq<Scored>)
    ensures Chunks(Seen(all)) == Chunks(all)
  {
    hide Seen, FirstBest, DistinctChunks;
    SeenFacts(all);
    forall r | r in Seen(all) ensures r in all {
      FirstIsBest(all, r);
    }
    forall c | c in Chunks(all) ensures c in Chunks(Seen(all)) {
      var r :| r in all && r.chunk == c;
      var s := OfChunk(Seen(all), c);
    }
  }

  lemma {:induction false} FlattenConcat(a: seq<seq<Scored>>, b: seq<seq<Scored>>)
    ensures Flatten(a + b) == Flatten(a) + Flatten(b)
  {
    hide Flatten;
    if b == [] {
      FlattenNone();
      assert a + b == a;
    } else {
      var n := |b| - 1;
      assert b == b[..n] + [b[n]] && a + b == a + b[..n] + [b[n]];
      FlattenConcat(a, b[..n]);
      FlattenLast(b[..n], b[n]);
      FlattenLast(a + b[..n], b[n]);
    }
  }

  lemma FlattenNone()
    ensures Flatten([]) == []
  {
  }

  lemma FlattenLast(lists: seq<seq<Scored>>, last: seq<Scored>)
    ensures Flatten(lists + [last]) == Flatten(lists) + last
  {
    assert (lists + [last])[..|lists|] == lists;
  }

  /** Main result: truncated merging is incremental. Merging some lists to k and then the rest into
      that gives, for all inputs, as many results with the same scores as merging them all to k;
      and the very same result wherever its score is not the best score of two chunks. So the two
      merges are equal when no two chunks share their best score. */
  lemma MergeInStages(first: seq<seq<Scored>>, rest: seq<seq<Scored>>, k: nat)
    ensures var all, direct, staged := Flatten(first + rest), Merge(first + rest, k), Merge([Merge(first, k)] + rest, k);
            && |staged| == |direct|
            && (forall i :: 0 <= i < |direct| ==>
                  staged[i].score == direct[i].score && (!Shared(all, direct[i].score) ==> staged[i] == direct[i]))
            && (NoTies(Seen(all)) ==> staged == direct)
  {
    hide Ranked, Flatten, Seen, NoTies, FirstBest, Shared, Covers, HasChunk;
    var all, direct, staged := Flatten(first + rest), Merge(first + rest, k), Merge([Merge(first, k)] + rest, k);
    StagedRanksBest(first, rest, k);
    MergeIsTopK(first + rest, k);
    forall r | r in direct ensures Best(all, r) {
      FirstIsBest(all, r);
    }
    SameScores(all, staged, direct, k);
    forall i | 0 <= i < |direct| && !Shared(all, direct[i].score) ensures staged[i] == direct[i] {
      UnsharedIsSame(all, staged[i], direct[i]);
    }
    SharedIffSeen(all);
  }

  lemma StagedRanksBest(first: seq<seq<Scored>>, rest: seq<seq<Scored>>, k: nat)
    ensures var all, staged := Flatten(first + rest), Merge([Merge(first, k)] + rest, k);
            && RanksBest(all, staged, k)
            && forall r :: r in staged ==> FirstBest(all, r) || Shared(all, r.score)
  {
    hide Ranked, Flatten, FirstBest, Shared, Covers, HasChunk;
    var top, staged := Merge(first, k), Merge([Merge(first, k)] + rest, k);
    FlattenConcat(first, rest);
    FlattenConcat([top], rest);
    FlattenOne(top);
    MergeIsTopK(first, k);
    MergeIsTopK([top] + rest, k);
    StagedCovers(Flatten(first), Flatten(rest), top, staged, k);
    forall r | r in staged
      ensures Best(Flatten(first + rest), r) && (FirstBest(Flatten(first + rest), r) || Shared(Flatten(first + rest), r.score))
    {
      StagedIsBest(Flatten(first), Flatten(rest), top, staged, k, r);
    }
  }

  lemma FlattenOne(list: seq<Scored>)
    ensures Flatten([list]) == list
  {
    assert [list][..0] == [];
  }

  lemma UnsharedIsSame(all: seq<Scored>, r: Scored, s: Scored)
    requires Best(all, r) && Best(all, s) && r.score == s.score && !Shared(all, s.score)
    requires FirstBest(all, s) && (FirstBest(all, r) || Shared(all, r.score))
    ensures r == s
  {
    hide FirstBest, Best;
    FirstIsUnique(all, r, s);
  }

  lemma SeenOfThree(a: Scored, b: Scored, c: Scored)
    ensures Seen([a, b]) == Put([a], b)
    ensures Seen([a, b, c]) == Put(Put([a], b), c)
  {
    hide Put;
    SeenEmpty();
    SeenStep([], [a], 0);
    SeenStep([], [a, b], 1);
    SeenStep([], [a, b, c], 2);
    assert [] + [a][..1] == [a] && [] + [a, b][..1] == [a] && [] + [a, b][..2] == [a, b];
    assert [] + [a, b, c][..2] == [a, b] && [] + [a, b, c][..3] == [a, b, c] && [] + [a][..0] == [];
    assert Put([], a) == [a] by { PutFirst(a); }
  }

  lemma PutFirst(a: Scored)
    ensures Put([], a) == [a]
  {
  }

  lemma SortOfTwo(a: Scored, b: Scored)
    ensures SortDescending([a, b]) == if a.score >= b.score then [a, b] else [b, a]
  {
    hide SortDescending, InsertDescending;
    SortOfOne(a);
    SortStep([a], b);
    assert [a] + [b] == [a, b];
    InsertIntoOne(a, b);
  }

  lemma SortOfOne(a: Scored)
    ensures SortDescending([a]) == [a]
  {
    hide SortDescending, InsertDescending;
    SortStep([], a);
    assert [] + [a] == [a];
    InsertStep([], a);
  }

  lemma InsertIntoOne(a: Scored, b: Scored)
    ensures InsertDescending([a], b) == if a.score >= b.score then [a, b] else [b, a]
  {
    hide InsertDescending;
    InsertStep([a], b);
    InsertStep([], b);
    assert [a][..0] == [] && [a] + [b] == [a, b] && [] + [b] == [b] && [b] + [a] == [b, a];
  }

  lemma SortStep(rs: seq<Scored>, r: Scored)
    ensures SortDescending([]) == [] && SortDescending(rs + [r]) == InsertDescending(SortDescending(rs), r)
  {
    hide InsertDescending;
    assert (rs + [r])[..|rs|] == rs;
  }

  lemma InsertStep(sorted: seq<Scored>, r: Scored)
    ensures InsertDescending(sorted, r) ==
            if sorted == [] || sorted[|sorted| - 1].score >= r.score then sorted + [r]
            else InsertDescending(sorted[..|sorted| - 1], r) + [sorted[|sorted| - 1]]
  {
  }

  lemma FlattenOfThree(a: seq<Scored>, b: seq<Scored>, c: seq<Scored>)
    ensures Flatten([a, b]) == a + b && Flatten([a, b, c]) == a + b + c
  {
    FlattenStep([a, b, c], 0);
    FlattenStep([a, b, c], 1);
    FlattenStep([a, b, c], 2);
    assert [a, b, c][..0] == [] && [a, b, c][..1] == [a] && [a, b, c][..2] == [a, b] && [a, b, c][..3] == [a, b, c];
  }

  lemma PutPair(a: Scored, b: Scored, c: Scored)
    requires a.chunk != b.chunk
    ensures Put([a], b) == [a, b]
    ensures c.chunk == a.chunk && c.score > a.score ==> Put([a, b], c) == [c, b]
    ensures c.chunk == b.chunk && c.score > b.score ==> Put([a, b], c) == [a, c]
  {
    assert IndexOf([a], b.chunk) == 1;
    assert [a, b][1..] == [b] && IndexOf([b], b.chunk) == 0;
    assert [a, b][0 := c] == [c, b] && [a, b][1 := c] == [a, c];
  }

  /** A tie between the best scores of two chunks can change their order. */
  lemma TiesBreakStages() returns (first: seq<seq<Scored>>, rest: seq<seq<Scored>>)
    ensures Merge([Merge(first, 2)] + rest, 2) != Merge(first + rest, 2)
    ensures Shared(Flatten(first + rest), 5.0)
  {
    hide Merge, Flatten, Shared;
    var x1, y, x2 := Scored("x", 1.0, ""), Scored("y", 5.0, ""), Scored("x", 5.0, "");
    assert x1.chunk != y.chunk by { assert "x"[0] != "y"[0]; }
    first, rest := [[x1], [y]], [[x2]];
    DirectOfThree(x1, y, x2);
    StagedOfThree(x1, y, x2);
    assert [x2, y][0] != [y, x2][0];
    SharedOfThree(x1, y, x2);
  }

  lemma SharedOfThree(x1: Scored, y: Scored, x2: Scored)
    requires x1.chunk == x2.chunk != y.chunk && x1.score < y.score == x2.score
    ensures Shared(Flatten([[x1], [y]] + [[x2]]), y.score)
  {
    hide Flatten;
    assert [[x1], [y]] + [[x2]] == [[x1], [y], [x2]];
    FlattenOfThree([x1], [y], [x2]);
    assert [x1] + [y] + [x2] == [x1, y, x2];
    assert Best([x1, y, x2], y) && Best([x1, y, x2], x2);
  }

  lemma DirectOfThree(x1: Scored, y: Scored, x2: Scored)
    requires x1.chunk == x2.chunk != y.chunk && x1.score < y.score == x2.score
    ensures Merge([[x1], [y]] + [[x2]], 2) == [x2, y]
  {
    hide SortDescending, Seen, Flatten, Put;
    assert [[x1], [y]] + [[x2]] == [[x1], [y], [x2]];
    FlattenOfThree([x1], [y], [x2]);
    assert [x1] + [y] + [x2] == [x1, y, x2];
    SeenOfThree(x1, y, x2);
    PutPair(x1, y, x2);
    SortOfTwo(x2, y);
    assert [x2, y][..2] == [x2, y];
  }

  lemma StagedOfThree(x1: Scored, y: Scored, x2: Scored)
    requires x1.chunk == x2.chunk != y.chunk && x1.score < y.score == x2.score
    ensures Merge([Merge([[x1], [y]], 2)] + [[x2]], 2) == [y, x2]
  {
    hide SortDescending, Seen, Flatten, Put;
    FlattenOfThree([x1], [y], []);
    assert [x1] + [y] == [x1, y];
    SeenOfThree(x1, y, x2);
    PutPair(x1, y, x2);
    SortOfTwo(x1, y);
    assert [y, x1][..2] == [y, x1];
    assert Merge([[x1], [y]], 2) == [y, x1];
    assert [[y, x1]] + [[x2]] == [[y, x1], [x2]];
    FlattenOfThree([y, x1], [x2], []);
    assert [y, x1] + [x2] == [y, x1, x2];
    SeenOfThree(y, x1, x2);
    PutPair(y, x1, x2);
    SortOfTwo(y, x2);
    assert [y, x2][..2] == [y, x2];
  }
}
