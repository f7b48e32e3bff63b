/** What a drift report says: it is a complete patch from base to head, its totals add up, and its
    risk flag is exactly its list of reasons. */
module DriftPatch {
  import opened Wrappers
  import opened Coverage
  import opened DriftDiff

  // ---------------------------------------------------------------- the order of ids

  ghost predicate Ascending(ids: seq<string>) {
    forall i, j :: 0 <= i < j < |ids| ==> Before(ids[i], ids[j])
  }

  lemma {:induction false} BeforeIsTotal(a: string, b: string)
    ensures !(Before(a, b) && Before(b, a)) && !Before(a, a)
    ensures a != b ==> Before(a, b) || Before(b, a)
  {
    if a != "" {
      BeforeIsTotal(a[1..], a[1..]);
      if b != "" {
        BeforeIsTotal(a[1..], b[1..]);
        if a[0] == b[0] && a != b {
          assert a == [a[0]] + a[1..] && b == [b[0]] + b[1..];
        }
      }
    }
  }

  lemma {:induction false} BeforeIsTransitive(a: string, b: string, c: string)
    requires Before(a, b) && Before(b, c)
    ensures Before(a, c)
  {
    if a != "" && b != "" && c != "" {
      if a[0] == b[0] == c[0] {
        BeforeIsTransitive(a[1..], b[1..], c[1..]);
      }
    }
  }

  lemma {:induction false} InsertFacts(sorted: seq<string>, id: string)
    requires Ascending(sorted)
    ensures Ascending(InsertId(sorted, id))
    ensures forall x :: x in InsertId(sorted, id) <==> x in sorted || x == id
  {
    hide Before;
    if sorted != [] {
      var head, tail := sorted[0], sorted[1..];
      assert sorted == [head] + tail;
      BeforeIsTotal(id, head);
      if Before(id, head) {
        forall i | 0 <= i < |sorted| ensures Before(id, sorted[i]) {
          if i > 0 {
            BeforeIsTransitive(id, head, sorted[i]);
          }
        }
      } else if head != id {
        InsertFacts(tail, id);
        forall x | x in InsertId(tail, id) ensures Before(head, x) {
          if x in tail {
            var i :| 0 <= i < |tail| && tail[i] == x;
          }
        }
      }
    }
  }

  /** The ids are listed once each, in ascending order. */
  lemma {:induction false} SortedIdsFacts(ids: seq<string>)
    ensures Ascending(SortedIds(ids))
    ensures forall x :: x in SortedIds(ids) <==> x in ids
  {
    if ids != [] {
      hide Before;
      var n := |ids| - 1;
      SortedIdsFacts(ids[..n]);
      InsertFacts(SortedIds(ids[..n]), ids[n]);
      assert ids == ids[..n] + [ids[n]];
    }
  }

  ghost predicate Distinct(ids: seq<string>) {
    forall i, j :: 0 <= i < j < |ids| ==> ids[i] != ids[j]
  }

  lemma AscendingIsDistinct(ids: seq<string>)
    requires Ascending(ids)
    ensures Distinct(ids)
  {
    forall i, j | 0 <= i < j < |ids| ensures ids[i] != ids[j] {
      BeforeIsTotal(ids[i], ids[j]);
    }
  }

  lemma {:induction false} MapKeys(parsers: seq<Record>)
    requires ParserMapOf(parsers).Ok?
    ensures forall id :: id in ParserMapOf(parsers).value <==> id in IdsOf(parsers)
    ensures forall id :: id in ParserMapOf(parsers).value ==> ParserMapOf(parsers).value[id] in parsers
  {
    if parsers != [] {
      var n := |parsers| - 1;
      MapKeys(parsers[..n]);
      assert IdsOf(parsers) == IdsOf(parsers[..n]) + [parsers[n].parserId.GetOr("")];
      assert parsers == parsers[..n] + [parsers[n]];
    }
  }

  /** The ids the diff walks: those of both tables, each once. */
  lemma AllIdsCover(base: Summary, head: Summary)
    requires ParserMapOf(base.parsers).Ok? && ParserMapOf(head.parsers).Ok?
    ensures Distinct(AllIds(base, head))
    ensures forall id :: id in AllIds(base, head)
              <==> id in ParserMapOf(base.parsers).value || id in ParserMapOf(head.parsers).value
  {
    hide ParserMapOf, SortedIds;
    SortedIdsFacts(IdsOf(base.parsers) + IdsOf(head.parsers));
    AscendingIsDistinct(AllIds(base, head));
    MapKeys(base.parsers);
    MapKeys(head.parsers);
  }

  // ---------------------------------------------------------------- a complete patch

  /** Applies the listed changes to a table of compared fields. */
  function Patched(table: map<string, Fields>, changes: seq<Change>): map<string, Fields> {
    if changes == [] then table else
      var c := changes[|changes| - 1];
      var before := Patched(table, changes[..|changes| - 1]);
      if c.head.Some? then before[c.parserId := c.head.value] else before - {c.parserId}
  }

  function FieldsOf(m: ParserMap): map<string, Fields> {
    map id | id in m :: m[id].fields
  }

  /** The head table, a parser new in it carrying defaults for its missing fields. */
  function HeadTable(base: ParserMap, head: ParserMap): map<string, Fields> {
    map id | id in head :: if id in base then head[id].fields else WithDefaults(head[id].fields)
  }

  lemma {:induction false} InOfKind(changes: seq<Change>, kind: Kind, c: Change)
    ensures c in OfKind(changes, kind) <==> c in changes && c.kind == kind
  {
    if changes != [] {
      var n := |changes| - 1;
      InOfKind(changes[..n], kind, c);
      assert changes == changes[..n] + [changes[n]];
    }
  }

  lemma {:induction false} InChanges(ids: seq<string>, base: ParserMap, head: ParserMap, c: Change)
    ensures c in Changes(ids, base, head)
            <==> c.parserId in ids && ParserDiff(c.parserId, Lookup(base, c.parserId), Lookup(head, c.parserId)) == Some(c)
  {
    if ids != [] {
      var n := |ids| - 1;
      InChanges(ids[..n], base, head, c);
      assert ids == ids[..n] + [ids[n]];
    }
  }

  /** What a patch leaves at one id is decided by the change listed for it, if any. */
  lemma {:induction false} PatchedAt(table: map<string, Fields>, changes: seq<Change>, id: string)
    requires forall c, e :: c in changes && e in changes && c.parserId == e.parserId ==> c == e
    ensures (forall c :: c in changes ==> c.parserId != id) ==>
              (id in Patched(table, changes) <==> id in table)
              && (id in table ==> Patched(table, changes)[id] == table[id])
    ensures forall c :: c in changes && c.parserId == id ==>
              (id in Patched(table, changes) <==> c.head.Some?)
              && (c.head.Some? ==> Patched(table, changes)[id] == c.head.value)
  {
    if changes != [] {
      var n := |changes| - 1;
      assert changes == changes[..n] + [changes[n]];
      PatchedAt(table, changes[..n], id);
    }
  }

  /** Main result: the report is a complete patch. Applying what it lists (in any of its three
      lists) to the base table gives the head table; every parser it does not list is equal in
      both, and every parser it lists differs. */
  lemma PatchIsComplete(d: Diff, base: Summary, head: Summary)
    requires IsDrift(d, base, head)
    ensures var b, h := ParserMapOf(base.parsers).value, ParserMapOf(head.parsers).value;
            var listed := d.added + d.removed + d.changed;
            && Patched(FieldsOf(b), listed) == HeadTable(b, h)
            && (forall id :: (exists c :: c in listed && c.parserId == id)
                  <==> (id in b && id !in h) || (id in h && id !in b) || (id in b && id in h && b[id].fields != h[id].fields))
  {
    hide ParserMapOf, Changes, OfKind, AllIds, Patched, DetailsOf, Degrades;
    var b, h := ParserMapOf(base.parsers).value, ParserMapOf(head.parsers).value;
    var listed := d.added + d.removed + d.changed;
    forall c ensures c in listed <==> ParserDiff(c.parserId, Lookup(b, c.parserId), Lookup(h, c.parserId)) == Some(c) {
      Listed(d, base, head, c);
    }
    forall id
      ensures (exists c :: c in listed && c.parserId == id) <==> ParserDiff(id, Lookup(b, id), Lookup(h, id)).Some?
      ensures id in Patched(FieldsOf(b), listed) <==> id in h
      ensures id in h ==> Patched(FieldsOf(b), listed)[id] == HeadTable(b, h)[id]
    {
      PatchedAt(FieldsOf(b), listed, id);
      var diff := ParserDiff(id, Lookup(b, id), Lookup(h, id));
      if diff.Some? {
        assert diff.value in listed && diff.value.parserId == id;
      }
    }
  }

  lemma Listed(d: Diff, base: Summary, head: Summary, c: Change)
    requires IsDrift(d, base, head)
    ensures var b, h := ParserMapOf(base.parsers).value, ParserMapOf(head.parsers).value;
            c in d.added + d.removed + d.changed <==> ParserDiff(c.parserId, Lookup(b, c.parserId), Lookup(h, c.parserId)) == Some(c)
  {
    hide ParserMapOf, Changes, OfKind, AllIds;
    var b, h := ParserMapOf(base.parsers).value, ParserMapOf(head.parsers).value;
    var ids := AllIds(base, head);
    var changes := Changes(ids, b, h);
    AllIdsCover(base, head);
    InChanges(ids, b, h, c);
    InOfKind(changes, Added, c);
    InOfKind(changes, Removed, c);
    InOfKind(changes, Changed, c);
  }

  // ---------------------------------------------------------------- risk

  lemma {:induction false} DetailsNonEmpty(changes: seq<Change>)
    ensures DetailsOf(changes) != [] <==> exists c :: c in changes && Degrades(c) == Ok(true)
  {
    if changes != [] {
      var n := |changes| - 1;
      DetailsNonEmpty(changes[..n]);
      assert changes == changes[..n] + [changes[n]];
    }
  }

  /** Main result: the risk is "degraded" exactly when some reason is listed. */
  lemma RiskIffDetails(d: Diff, base: Summary, head: Summary)
    requires IsDrift(d, base, head)
    ensures d.risky <==> d.details != []
  {
    hide DetailsOf, Degrades, Changes, OfKind, ParserMapOf, AllIds;
    DetailsNonEmpty(d.changed);
    DetailsNonEmpty(d.added);
  }

  // ---------------------------------------------------------------- totals

  function ValueAt(m: Measure, table: ParserMap, id: string): int {
    if id in table then ValueOf(m, table[id].fields) else 0
  }

  function SumAt(m: Measure, ids: seq<string>, table: ParserMap): int {
    if ids == [] then 0 else SumAt(m, ids[..|ids| - 1], table) + ValueAt(m, table, ids[|ids| - 1])
  }

  /** What a change adds to a total. */
  function Effect(m: Measure, c: Change): int {
    (if c.head.Some? then ValueOf(m, c.head.value) else 0) - (if c.base.Some? then ValueOf(m, c.base.value) else 0)
  }

  /** The net effect of a list of changes on a total. */
  function Net(m: Measure, changes: seq<Change>): int {
    if changes == [] then 0 else Net(m, changes[..|changes| - 1]) + Effect(m, changes[|changes| - 1])
  }

  lemma NetAppend(m: Measure, changes: seq<Change>, c: Change)
    ensures Net(m, changes + [c]) == Net(m, changes) + Effect(m, c)
    ensures changes + [] == changes
  {
    assert (changes + [c])[..|changes|] == changes;
  }

  lemma EffectOfDiff(m: Measure, id: string, base: ParserMap, head: ParserMap)
    ensures var diff := ParserDiff(id, Lookup(base, id), Lookup(head, id));
            ValueAt(m, head, id) - ValueAt(m, base, id) == if diff.Some? then Effect(m, diff.value) else 0
  {
  }

  lemma {:induction false} SumAtStep(m: Measure, ids: seq<string>, table: ParserMap, id: string, r: Record)
    requires Distinct(ids)
    ensures SumAt(m, ids, table[id := r])
            == SumAt(m, ids, table) + if id in ids then ValueOf(m, r.fields) - ValueAt(m, table, id) else 0
  {
    if ids != [] {
      var n := |ids| - 1;
      SumAtStep(m, ids[..n], table, id, r);
      assert ids == ids[..n] + [ids[n]];
      if id in ids[..n] {
        var i :| 0 <= i < n && ids[i] == id;
      }
    }
  }

  function IdOf(r: Record): string {
    r.parserId.GetOr("")
  }

  /** What the records add up to whose id occurs again later in the list: the table drops them,
      the totals count them. */
  function Shadowed(m: Measure, parsers: seq<Record>): int {
    if parsers == [] then 0 else
      (if IdOf(parsers[0]) in IdsOf(parsers[1..]) then ValueOf(m, parsers[0].fields) else 0)
      + Shadowed(m, parsers[1..])
  }

  lemma {:induction false} MapCons(p: Record, rest: seq<Record>)
    requires ParserMapOf([p] + rest).Ok?
    ensures ParserMapOf(rest).Ok?
    ensures ParserMapOf([p] + rest).value == map[IdOf(p) := p] + ParserMapOf(rest).value
  {
    if rest == [] {
      assert [p] + rest == [p] && [p][..0] == [];
    } else {
      var n := |rest| - 1;
      assert ([p] + rest)[..n + 1] == [p] + rest[..n] && ([p] + rest)[n + 1] == rest[n];
      MapCons(p, rest[..n]);
    }
  }

  lemma {:induction false} ShadowedAppend(m: Measure, parsers: seq<Record>, r: Record)
    requires ParserMapOf(parsers).Ok?
    ensures Shadowed(m, parsers + [r]) == Shadowed(m, parsers) + ValueAt(m, ParserMapOf(parsers).value, IdOf(r))
  {
    if parsers == [] {
      assert parsers + [r] == [r];
    } else {
      var p, rest := parsers[0], parsers[1..];
      assert parsers == [p] + rest;
      assert (parsers + [r])[1..] == rest + [r];
      MapCons(p, rest);
      MapKeys(rest);
      ShadowedAppend(m, rest, r);
      IdsAppend(rest, r);
    }
  }

  lemma IdsAppend(parsers: seq<Record>, r: Record)
    ensures IdsOf(parsers + [r]) == IdsOf(parsers) + [IdOf(r)]
  {
  }

  lemma {:induction false} DistinctShadowsNothing(m: Measure, parsers: seq<Record>)
    requires Distinct(IdsOf(parsers))
    ensures Shadowed(m, parsers) == 0
  {
    if parsers != [] {
      var ids, rest := IdsOf(parsers), IdsOf(parsers[1..]);
      assert ids[0] == IdOf(parsers[0]);
      assert forall i :: 0 <= i < |rest| ==> rest[i] == ids[i + 1];
      DistinctShadowsNothing(m, parsers[1..]);
    }
  }

  /** A summary's total is a sum over ids plus what repeated ids hide. */
  lemma {:induction false} SumOverIds(m: Measure, parsers: seq<Record>, ids: seq<string>)
    requires ParserMapOf(parsers).Ok? && Distinct(ids)
    requires forall id :: id in IdsOf(parsers) ==> id in ids
    ensures SumAt(m, ids, ParserMapOf(parsers).value) + Shadowed(m, parsers) == SumOver(m, parsers)
  {
    if parsers == [] {
      SumAtNothing(m, ids);
    } else {
      var n := |parsers| - 1;
      var id := IdOf(parsers[n]);
      assert parsers == parsers[..n] + [parsers[n]];
      IdsAppend(parsers[..n], parsers[n]);
      SumOverIds(m, parsers[..n], ids);
      ShadowedAppend(m, parsers[..n], parsers[n]);
      SumAtStep(m, ids, ParserMapOf(parsers[..n]).value, id, parsers[n]);
    }
  }

  lemma {:induction false} SumAtNothing(m: Measure, ids: seq<string>)
    ensures SumAt(m, ids, map[]) == 0
  {
    if ids != [] {
      SumAtNothing(m, ids[..|ids| - 1]);
    }
  }

  lemma {:induction false} NetOfChanges(m: Measure, ids: seq<string>, base: ParserMap, head: ParserMap)
    ensures Net(m, Changes(ids, base, head)) == SumAt(m, ids, head) - SumAt(m, ids, base)
  {
    if ids != [] {
      hide ParserDiff, Lookup, Effect, ValueAt, Net;
      var n := |ids| - 1;
      NetOfChanges(m, ids[..n], base, head);
      EffectOfDiff(m, ids[n], base, head);
      var diff := ParserDiff(ids[n], Lookup(base, ids[n]), Lookup(head, ids[n]));
      var before := Changes(ids[..n], base, head);
      if diff.Some? {
        NetAppend(m, before, diff.value);
      } else {
        assert before + [] == before;
      }
    } else {
      assert Net(m, []) == 0;
    }
  }

  lemma {:induction false} NetByKind(m: Measure, changes: seq<Change>)
    ensures Net(m, OfKind(changes, Added)) + Net(m, OfKind(changes, Removed)) + Net(m, OfKind(changes, Changed)) == Net(m, changes)
  {
    if changes != [] {
      hide Net, OfKind, Effect;
      var n := |changes| - 1;
      var before, c := changes[..n], changes[n];
      assert changes == before + [c];
      NetByKind(m, before);
      NetAppend(m, before, c);
      NetKindStep(m, before, c, Added);
      NetKindStep(m, before, c, Removed);
      NetKindStep(m, before, c, Changed);
    }
  }

  lemma NetKindStep(m: Measure, before: seq<Change>, c: Change, kind: Kind)
    ensures Net(m, OfKind(before + [c], kind)) == Net(m, OfKind(before, kind)) + if c.kind == kind then Effect(m, c) else 0
  {
    hide Net, OfKind, Effect;
    OfKindAppend(before, c, kind);
    NetAppend(m, OfKind(before, kind), c);
  }

  /** Main result: when totals are conserved. For two summaries built from golden files, a total
      delta is the net effect of the listed changes exactly when repeated parser ids hide as much
      in the base as in the head; so always when no id is repeated. */
  lemma TotalsAreConserved(d: Diff, base: Summary, head: Summary, m: Measure)
    requires IsDrift(d, base, head) && Built(base) && Built(head)
    ensures var net := Net(m, d.added) + Net(m, d.removed) + Net(m, d.changed);
            TotalOf(m, d.delta) == net + Shadowed(m, head.parsers) - Shadowed(m, base.parsers)
    ensures Distinct(IdsOf(base.parsers)) && Distinct(IdsOf(head.parsers)) ==>
              TotalOf(m, d.delta) == Net(m, d.added) + Net(m, d.removed) + Net(m, d.changed)
  {
    hide ParserMapOf, Changes, OfKind, AllIds, Net, SumAt, SumOver, DetailsOf, Shadowed, Distinct, IdsOf;
    var b, h := ParserMapOf(base.parsers).value, ParserMapOf(head.parsers).value;
    var ids := AllIds(base, head);
    AllIdsCover(base, head);
    MapKeys(base.parsers);
    MapKeys(head.parsers);
    SumOverIds(m, base.parsers, ids);
    SumOverIds(m, head.parsers, ids);
    NetOfChanges(m, ids, b, h);
    NetByKind(m, Changes(ids, b, h));
    if Distinct(IdsOf(base.parsers)) && Distinct(IdsOf(head.parsers)) {
      DistinctShadowsNothing(m, base.parsers);
      DistinctShadowsNothing(m, head.parsers);
    }
  }

  lemma {:induction false} NetHasCause(m: Measure, changes: seq<Change>)
    ensures Net(m, changes) > 0 ==> exists c :: c in changes && Effect(m, c) > 0
    ensures Net(m, changes) < 0 ==> exists c :: c in changes && Effect(m, c) < 0
  {
    hide Effect;
    if changes != [] {
      var n := |changes| - 1;
      NetHasCause(m, changes[..n]);
      assert changes == changes[..n] + [changes[n]];
    }
  }

  /** Golden files are degraded or not: a record counts 1 or 0. */
  lemma DegradedIsNotNegative(s: Summary, table: ParserMap, id: string)
    requires Built(s) && ParserMapOf(s.parsers) == Ok(table)
    ensures ValueAt(Degraded, table, id) >= 0
  {
    hide ParserMapOf, IdsOf;
    MapKeys(s.parsers);
  }

  /** What an effect says about the change that has it. */
  lemma WorseChange(d: Diff, base: Summary, head: Summary, c: Change)
    requires IsDrift(d, base, head) && Built(base) && c in d.added + d.removed + d.changed
    ensures Effect(Degraded, c) > 0 ==> c in d.changed + d.added && Degrades(c) == Ok(true)
    ensures Effect(Redacted, c) < 0 ==>
              (c in d.changed + d.added && Degrades(c) == Ok(true))
              || (c in d.removed && c.base.Some? && ValueOf(Redacted, c.base.value) > 0)
  {
    hide ParserMapOf, Changes, OfKind, AllIds, DetailsOf, ValueAt;
    var b, h := ParserMapOf(base.parsers).value, ParserMapOf(head.parsers).value;
    var changes := Changes(AllIds(base, head), b, h);
    Listed(d, base, head, c);
    InOfKind(changes, Added, c);
    InOfKind(changes, Removed, c);
    InOfKind(changes, Changed, c);
    if c.kind == Removed {
      DegradedIsNotNegative(base, b, c.parserId);
      RemovedEffect(c, b, h);
    } else if c.kind == Changed {
      assert Degrades(c).Ok?;
    }
  }

  lemma RemovedEffect(c: Change, base: ParserMap, head: ParserMap)
    requires c.kind == Removed && ParserDiff(c.parserId, Lookup(base, c.parserId), Lookup(head, c.parserId)) == Some(c)
    ensures forall m :: Effect(m, c) == -ValueAt(m, base, c.parserId)
  {
  }

  /** Main result: a total that got worse has a listed cause. Without repeated ids, more degraded
      files come with a flagged parser. Fewer redactions come with a flagged parser or with a
      removed one that had redactions: removals are never flagged, so only the total tells. */
  lemma WorseTotalsHaveCauses(d: Diff, base: Summary, head: Summary)
    requires IsDrift(d, base, head) && Built(base) && Built(head)
    requires Distinct(IdsOf(base.parsers)) && Distinct(IdsOf(head.parsers))
    ensures d.delta.degraded > 0 ==> exists c :: c in d.changed + d.added && Degrades(c) == Ok(true)
    ensures d.delta.redacted < 0 ==>
              (exists c :: c in d.changed + d.added && Degrades(c) == Ok(true))
              || (exists c :: c in d.removed && c.base.Some? && ValueOf(Redacted, c.base.value) > 0)
  {
    hide ParserMapOf, Changes, OfKind, AllIds, Net, DetailsOf, Degrades, Effect, Built, IsDrift, IdsOf, Distinct;
    forall m | m in {Degraded, Redacted} && TotalOf(m, d.delta) != 0
      ensures exists c :: c in d.added + d.removed + d.changed && (if TotalOf(m, d.delta) > 0 then Effect(m, c) > 0 else Effect(m, c) < 0)
    {
      TotalsAreConserved(d, base, head, m);
      NetHasCause(m, d.added);
      NetHasCause(m, d.removed);
      NetHasCause(m, d.changed);
    }
    forall c | c in d.added + d.removed + d.changed
      ensures Effect(Degraded, c) > 0 ==> c in d.changed + d.added && Degrades(c) == Ok(true)
      ensures Effect(Redacted, c) < 0 ==>
                (c in d.changed + d.added && Degrades(c) == Ok(true))
                || (c in d.removed && c.base.Some? && ValueOf(Redacted, c.base.value) > 0)
    {
      WorseChange(d, base, head, c);
    }
    assert TotalOf(Degraded, d.delta) == d.delta.degraded && TotalOf(Redacted, d.delta) == d.delta.redacted;
  }

  /** Repeated ids do occur: two golden files without a `parser_id` share the id "unknown", and
      adding the second one changes a total without any change being listed. */
  lemma RepeatedIdLosesTotals(base: Summary, head: Summary, d: Diff)
    requires base.parsers == RecordsOf([Golden(None, Some(1), None, "a")])
    requires head.parsers == RecordsOf([Golden(None, Some(1), None, "b"), Golden(None, Some(1), None, "a")])
    requires Built(base) && Built(head) && IsDrift(d, base, head)
    ensures d.delta.redacted == 1 && Net(Redacted, d.added) + Net(Redacted, d.removed) + Net(Redacted, d.changed) == 0
  {
    var a, b := RecordOf(Golden(None, Some(1), None, "a")), RecordOf(Golden(None, Some(1), None, "b"));
    assert base.parsers == [a] && head.parsers == [b, a];
    assert Shadowed(Redacted, [a]) == 0;
    assert head.parsers[1..] == [a] && IdsOf([a])[0] == IdOf(b);
    assert Shadowed(Redacted, [b, a]) == 1;
    assert SumOver(Redacted, [a]) == 1 && SumOver(Redacted, [b, a]) == 2 by {
      assert [a][..0] == [] && [b, a][..1] == [b] && [b][..0] == [];
    }
    TotalsAreConserved(d, base, head, Redacted);
    assert TotalOf(Redacted, base.totals) == 1 && TotalOf(Redacted, head.totals) == 2;
  }

  // ---------------------------------------------------------------- the report, said about the two tables

  /** The table by id: it exists if every record has an id, and holds the last record of each. */
  lemma {:induction false} TableIs(parsers: seq<Record>)
    ensures ParserMapOf(parsers).Ok? <==> forall r :: r in parsers ==> r.parserId.Some? && r.parserId.value != ""
    ensures ParserMapOf(parsers).Ok? ==>
              (forall i :: 0 <= i < |parsers| && IsLast(parsers, i) ==>
                 IdOf(parsers[i]) in ParserMapOf(parsers).value && ParserMapOf(parsers).value[IdOf(parsers[i])] == parsers[i])
              && forall id :: id in ParserMapOf(parsers).value ==> exists r :: r in parsers && IdOf(r) == id
  {
    if parsers != [] {
      hide IsLast;
      var n := |parsers| - 1;
      assert parsers == parsers[..n] + [parsers[n]];
      TableIs(parsers[..n]);
      forall i | 0 <= i < n && IsLast(parsers, i) ensures IsLast(parsers[..n], i) && IdOf(parsers[i]) != IdOf(parsers[n]) {
        LastEarlier(parsers, i);
      }
    }
  }

  /** No later record has the same id. */
  ghost predicate IsLast(parsers: seq<Record>, i: int)
    requires 0 <= i < |parsers|
  {
    forall j :: i < j < |parsers| ==> IdOf(parsers[j]) != IdOf(parsers[i])
  }

  lemma LastEarlier(parsers: seq<Record>, i: nat)
    requires i < |parsers| - 1 && IsLast(parsers, i)
    ensures IsLast(parsers[..|parsers| - 1], i) && IdOf(parsers[i]) != IdOf(parsers[|parsers| - 1])
  {
  }

  /** A parser got worse: fewer redactions, or more degraded files. */
  predicate Worse(b: Fields, h: Fields) {
    b.redacted.Some? && h.redacted.Some?
    && (h.redacted.value < b.redacted.value
        || (b.degraded.Some? && h.degraded.Some? && h.degraded.value > b.degraded.value))
  }

  /** Its counts can be compared; the second ones are looked at only if the first did not drop. */
  predicate CanCompare(b: Fields, h: Fields) {
    b.redacted.Some? && h.redacted.Some?
    && (h.redacted.value < b.redacted.value || (b.degraded.Some? && h.degraded.Some?))
  }

  /** A new parser is a risk without a redaction or with a degraded file. */
  predicate RiskyStart(h: Fields) {
    h.redacted.GetOr(0) < 1 || h.degraded.GetOr(0) > 0
  }

  lemma DegradesMeans(id: string, b: Fields, h: Fields)
    ensures var c := Change(id, Changed, Some(b), Some(h));
            (Degrades(c).Ok? <==> CanCompare(b, h)) && (Degrades(c) == Ok(true) <==> Worse(b, h))
    ensures Degrades(Change(id, Added, None, Some(WithDefaults(h)))) == Ok(RiskyStart(h))
    ensures Degrades(Change(id, Removed, Some(WithDefaults(b)), None)) == Ok(false)
  {
  }

  /** What the fields of an added or removed parser are shown as when they are missing. */
  predicate ShownAs(f: Fields, shown: Fields) {
    && shown.fixtures == (if f.fixtures.Some? then f.fixtures else Some(0))
    && shown.redacted == (if f.redacted.Some? then f.redacted else Some(0))
    && shown.degraded == (if f.degraded.Some? then f.degraded else Some(0))
    && shown.goldenHash == (if f.goldenHash.Some? then f.goldenHash else Some(""))
    && shown.status == (if f.status.Some? then f.status else Some("unknown"))
  }

  /** What the three lists are: the parsers only in the head, those only in the base, and those in both
      whose fields differ, with their fields on both sides. */
  lemma ListsAre(d: Diff, base: Summary, head: Summary, c: Change)
    requires IsDrift(d, base, head)
    ensures var b, h := ParserMapOf(base.parsers).value, ParserMapOf(head.parsers).value;
            var id := c.parserId;
            && (c in d.added <==> c.kind == Added && id !in b && id in h && c.base.None? && c.head.Some?
                                  && ShownAs(h[id].fields, c.head.value))
            && (c in d.removed <==> c.kind == Removed && id in b && id !in h && c.head.None? && c.base.Some?
                                    && ShownAs(b[id].fields, c.base.value))
            && (c in d.changed <==> c.kind == Changed && id in b && id in h && b[id].fields != h[id].fields
                                    && c.base == Some(b[id].fields) && c.head == Some(h[id].fields))
  {
    hide ParserMapOf, Changes, OfKind, AllIds, DetailsOf, Degrades;
    var changes := Changes(AllIds(base, head), ParserMapOf(base.parsers).value, ParserMapOf(head.parsers).value);
    Listed(d, base, head, c);
    InOfKind(changes, Added, c);
    InOfKind(changes, Removed, c);
    InOfKind(changes, Changed, c);
  }

  lemma {:induction false} InDetails(changes: seq<Change>, e: Detail)
    ensures e in DetailsOf(changes) <==> exists c :: c in changes && Degrades(c) == Ok(true) && e == DetailOf(c)
  {
    if changes != [] {
      hide Degrades, DetailOf;
      var n := |changes| - 1;
      InDetails(changes[..n], e);
      assert changes == changes[..n] + [changes[n]];
    }
  }

  /** Main result: what the reasons are. A reason is listed exactly for a parser in both tables whose
      fields differ and that got worse, for a new parser that is a risk, and for a total that dropped
      or rose; and the flag for the hashes is set when they differ. */
  lemma ReasonsAre(d: Diff, base: Summary, head: Summary, id: string, n: int)
    requires IsDrift(d, base, head)
    ensures var b, h := ParserMapOf(base.parsers).value, ParserMapOf(head.parsers).value;
            && (ParserDegraded(id) in d.details <==> id in b && id in h && Worse(b[id].fields, h[id].fields))
            && (ParserAddedWithRisk(id) in d.details <==> id !in b && id in h && RiskyStart(h[id].fields))
            && (TotalRedactionDrop(n) in d.details <==> n == head.totals.redacted - base.totals.redacted < 0)
            && (TotalDegradedIncrease(n) in d.details <==> n == head.totals.degraded - base.totals.degraded > 0)
            && (d.goldenHashDrift <==> base.goldenHash != head.goldenHash)
  {
    hide ParserMapOf, Changes, OfKind, AllIds, DetailsOf, Degrades;
    var totals, changed, added := TotalDetails(d.delta), DetailsOf(d.changed), DetailsOf(d.added);
    ParserReason(d, base, head, id);
    NewParserReason(d, base, head, id);
    forall e ensures e in d.details <==> e in totals || e in changed || e in added {
    }
    OnlyParsers(d.changed);
    OnlyParsers(d.added);
    NoneOfKind(d, base, head, id);
  }

  /** The parsers' own reasons are of the two parser kinds. */
  lemma OnlyParsers(changes: seq<Change>)
    ensures forall e :: e in DetailsOf(changes) ==> e.ParserDegraded? || e.ParserAddedWithRisk?
  {
    hide Degrades, DetailsOf;
    forall e | e in DetailsOf(changes) ensures e.ParserDegraded? || e.ParserAddedWithRisk? {
      InDetails(changes, e);
    }
  }

  lemma ParserReason(d: Diff, base: Summary, head: Summary, id: string)
    requires IsDrift(d, base, head)
    ensures var b, h := ParserMapOf(base.parsers).value, ParserMapOf(head.parsers).value;
            ParserDegraded(id) in DetailsOf(d.changed) <==> id in b && id in h && Worse(b[id].fields, h[id].fields)
  {
    hide ParserMapOf, Changes, OfKind, AllIds, DetailsOf, Degrades;
    var b, h := ParserMapOf(base.parsers).value, ParserMapOf(head.parsers).value;
    InDetails(d.changed, ParserDegraded(id));
    if c :| c in d.changed && Degrades(c) == Ok(true) && ParserDegraded(id) == DetailOf(c) {
      ListsAre(d, base, head, c);
      DegradesMeans(id, b[id].fields, h[id].fields);
      assert c == Change(id, Changed, Some(b[id].fields), Some(h[id].fields));
    }
    if id in b && id in h && Worse(b[id].fields, h[id].fields) {
      var c := Change(id, Changed, Some(b[id].fields), Some(h[id].fields));
      ListsAre(d, base, head, c);
      DegradesMeans(id, b[id].fields, h[id].fields);
    }
  }

  lemma NewParserReason(d: Diff, base: Summary, head: Summary, id: string)
    requires IsDrift(d, base, head)
    ensures var b, h := ParserMapOf(base.parsers).value, ParserMapOf(head.parsers).value;
            ParserAddedWithRisk(id) in DetailsOf(d.added) <==> id !in b && id in h && RiskyStart(h[id].fields)
  {
    hide ParserMapOf, Changes, OfKind, AllIds, DetailsOf, Degrades;
    var b, h := ParserMapOf(base.parsers).value, ParserMapOf(head.parsers).value;
    InDetails(d.added, ParserAddedWithRisk(id));
    if c :| c in d.added && Degrades(c) == Ok(true) && ParserAddedWithRisk(id) == DetailOf(c) {
      ListsAre(d, base, head, c);
      DegradesMeans(id, h[id].fields, h[id].fields);
      assert c == Change(id, Added, None, Some(WithDefaults(h[id].fields)));
    }
    if id !in b && id in h && RiskyStart(h[id].fields) {
      var c := Change(id, Added, None, Some(WithDefaults(h[id].fields)));
      ListsAre(d, base, head, c);
      DegradesMeans(id, h[id].fields, h[id].fields);
    }
  }

  /** A changed parser gives no reason of the other kind, nor a new one. */
  lemma NoneOfKind(d: Diff, base: Summary, head: Summary, id: string)
    requires IsDrift(d, base, head)
    ensures ParserAddedWithRisk(id) !in DetailsOf(d.changed) && ParserDegraded(id) !in DetailsOf(d.added)
  {
    hide ParserMapOf, Changes, OfKind, AllIds, DetailsOf, Degrades, IsDrift;
    InDetails(d.changed, ParserAddedWithRisk(id));
    InDetails(d.added, ParserDegraded(id));
    forall c | c in d.changed || c in d.added ensures (c in d.changed ==> c.kind == Changed) && (c in d.added ==> c.kind == Added) {
      ListsAre(d, base, head, c);
    }
  }

  /** There is a report exactly when every record has an id and every parser in both tables whose
      fields differ has the counts to compare. */
  lemma ReportIff(base: Summary, head: Summary)
    requires ParserMapOf(base.parsers).Ok? && ParserMapOf(head.parsers).Ok?
    ensures var b, h := ParserMapOf(base.parsers).value, ParserMapOf(head.parsers).value;
            Comparable(OfKind(Changes(AllIds(base, head), b, h), Changed))
            <==> forall id :: id in b && id in h && b[id].fields != h[id].fields ==> CanCompare(b[id].fields, h[id].fields)
  {
    hide ParserMapOf, Changes, OfKind, AllIds, Degrades;
    var b, h := ParserMapOf(base.parsers).value, ParserMapOf(head.parsers).value;
    var ids := AllIds(base, head);
    var changed := OfKind(Changes(ids, b, h), Changed);
    AllIdsCover(base, head);
    forall id | id in b && id in h && b[id].fields != h[id].fields
      ensures var c := Change(id, Changed, Some(b[id].fields), Some(h[id].fields));
              c in changed && (Degrades(c).Ok? <==> CanCompare(b[id].fields, h[id].fields))
    {
      var c := Change(id, Changed, Some(b[id].fields), Some(h[id].fields));
      InOfKind(Changes(ids, b, h), Changed, c);
      InChanges(ids, b, h, c);
      DegradesMeans(id, b[id].fields, h[id].fields);
    }
    forall c | c in changed
      ensures c.parserId in b && c.parserId in h && b[c.parserId].fields != h[c.parserId].fields
      ensures c == Change(c.parserId, Changed, Some(b[c.parserId].fields), Some(h[c.parserId].fields))
    {
      InOfKind(Changes(ids, b, h), Changed, c);
      InChanges(ids, b, h, c);
    }
  }

  // ---------------------------------------------------------------- the order of the report

  ghost predicate ById(changes: seq<Change>) {
    forall i, j :: 0 <= i < j < |changes| ==> Before(changes[i].parserId, changes[j].parserId)
  }

  /** Totals come first, redactions before degraded files, then the changed parsers, then the new
      ones, each by ascending id. */
  predicate ComesBefore(a: Detail, b: Detail) {
    if a.TotalRedactionDrop? then !b.TotalRedactionDrop?
    else if a.TotalDegradedIncrease? then b.ParserDegraded? || b.ParserAddedWithRisk?
    else if a.ParserDegraded? then b.ParserAddedWithRisk? || (b.ParserDegraded? && Before(a.parserId, b.parserId))
    else b.ParserAddedWithRisk? && Before(a.parserId, b.parserId)
  }

  ghost predicate InReportOrder(details: seq<Detail>) {
    forall i, j :: 0 <= i < j < |details| ==> ComesBefore(details[i], details[j])
  }

  lemma {:induction false} ChangesById(ids: seq<string>, base: ParserMap, head: ParserMap)
    requires Ascending(ids)
    ensures ById(Changes(ids, base, head))
  {
    if ids != [] {
      hide Before, ParserDiff;
      var n := |ids| - 1;
      ChangesById(ids[..n], base, head);
      forall c | c in Changes(ids[..n], base, head) ensures Before(c.parserId, ids[n]) {
        InChanges(ids[..n], base, head, c);
      }
      forall c | ParserDiff(ids[n], Lookup(base, ids[n]), Lookup(head, ids[n])) == Some(c) ensures c.parserId == ids[n] {
        DiffId(ids[n], base, head);
      }
    }
  }

  lemma DiffId(id: string, base: ParserMap, head: ParserMap)
    ensures var diff := ParserDiff(id, Lookup(base, id), Lookup(head, id));
            diff.Some? ==> diff.value.parserId == id
  {
  }

  lemma {:induction false} OfKindById(changes: seq<Change>, kind: Kind)
    requires ById(changes)
    ensures ById(OfKind(changes, kind))
  {
    if changes != [] {
      hide Before;
      var n := |changes| - 1;
      OfKindById(changes[..n], kind);
      forall c | c in OfKind(changes[..n], kind) ensures Before(c.parserId, changes[n].parserId) {
        InOfKind(changes[..n], kind, c);
      }
    }
  }

  lemma {:induction false} DetailsById(changes: seq<Change>, kind: Kind)
    requires ById(changes) && forall c :: c in changes ==> c.kind == kind
    ensures InReportOrder(DetailsOf(changes))
    ensures forall e :: e in DetailsOf(changes) ==> if kind == Added then e.ParserAddedWithRisk? else e.ParserDegraded?
  {
    if changes != [] {
      hide Before, Degrades;
      var n := |changes| - 1;
      DetailsById(changes[..n], kind);
      forall e | e in DetailsOf(changes[..n]) ensures ComesBefore(e, DetailOf(changes[n])) {
        InDetails(changes[..n], e);
      }
    }
  }

  lemma InOrderConcat(a: seq<Detail>, b: seq<Detail>)
    requires InReportOrder(a) && InReportOrder(b) && forall e, f :: e in a && f in b ==> ComesBefore(e, f)
    ensures InReportOrder(a + b)
  {
    hide ComesBefore;
  }

  /** Main result: the order of the report, lists and reasons; so nothing is listed twice. */
  lemma ReportInOrder(d: Diff, base: Summary, head: Summary)
    requires IsDrift(d, base, head)
    ensures ById(d.added) && ById(d.removed) && ById(d.changed) && InReportOrder(d.details)
  {
    hide ParserMapOf, Changes, OfKind, AllIds, DetailsOf, Degrades, Before, ById;
    var ids := AllIds(base, head);
    var changes := Changes(ids, ParserMapOf(base.parsers).value, ParserMapOf(head.parsers).value);
    AllIdsAscend(base, head);
    ChangesById(ids, ParserMapOf(base.parsers).value, ParserMapOf(head.parsers).value);
    OfKindById(changes, Added);
    OfKindById(changes, Removed);
    OfKindById(changes, Changed);
    forall c ensures (c in d.changed ==> c.kind == Changed) && (c in d.added ==> c.kind == Added) {
      InOfKind(changes, Changed, c);
      InOfKind(changes, Added, c);
    }
    DetailsById(d.changed, Changed);
    DetailsById(d.added, Added);
    InOrderConcat(TotalDetails(d.delta), DetailsOf(d.changed));
    InOrderConcat(TotalDetails(d.delta) + DetailsOf(d.changed), DetailsOf(d.added));
  }

  lemma AllIdsAscend(base: Summary, head: Summary)
    ensures Ascending(AllIds(base, head))
  {
    SortedIdsFacts(IdsOf(base.parsers) + IdsOf(head.parsers));
  }
}
