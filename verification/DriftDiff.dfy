/** The drift between two coverage summaries: `sanitizer_drift_diff.py`. */
module DriftDiff {
  import opened Wrappers
  import opened Coverage

  type ParserMap = map<string, Record>

  /** Records by parser id, later records winning; an id must be there and not empty. */
  function ParserMapOf(parsers: seq<Record>): Result<ParserMap, Error> {
    if parsers == [] then Ok(map[]) else
      var n := |parsers| - 1;
      var before := ParserMapOf(parsers[..n]);
      if before.Err? then before
      else if parsers[n].parserId.GetOr("") == "" then Err(MissingParserId)
      else Ok(before.value[parsers[n].parserId.value := parsers[n]])
  }

  datatype Kind = Added | Removed | Changed

  datatype Change = Change(parserId: string, kind: Kind, base: Option<Fields>, head: Option<Fields>)

  function WithDefaults(f: Fields): Fields {
    Fields(Some(f.fixtures.GetOr(0)), Some(f.redacted.GetOr(0)), Some(f.degraded.GetOr(0)),
           Some(f.goldenHash.GetOr("")), Some(f.status.GetOr("unknown")))
  }

  function Lookup(m: ParserMap, id: string): Option<Record> {
    if id in m then Some(m[id]) else None
  }

  function ParserDiff(id: string, base: Option<Record>, head: Option<Record>): Option<Change> {
    match (base, head)
    case (None, None) => None
    case (None, Some(h)) => Some(Change(id, Added, None, Some(WithDefaults(h.fields))))
    case (Some(b), None) => Some(Change(id, Removed, Some(WithDefaults(b.fields)), None))
    case (Some(b), Some(h)) =>
      if b.fields == h.fields then None else Some(Change(id, Changed, Some(b.fields), Some(h.fields)))
  }

  // ---------------------------------------------------------------- the ids, sorted

  /** Python's order on strings: by code points, a prefix first. */
  predicate Before(a: string, b: string) {
    if b == "" then false
    else if a == "" then true
    else a[0] < b[0] || (a[0] == b[0] && Before(a[1..], b[1..]))
  }

  function InsertId(sorted: seq<string>, id: string): seq<string> {
    if sorted == [] || Before(id, sorted[0]) then [id] + sorted
    else if sorted[0] == id then sorted
    else [sorted[0]] + InsertId(sorted[1..], id)
  }

  function SortedIds(ids: seq<string>): seq<string> {
    if ids == [] then [] else InsertId(SortedIds(ids[..|ids| - 1]), ids[|ids| - 1])
  }

  function IdsOf(parsers: seq<Record>): seq<string> {
    seq(|parsers|, i requires 0 <= i < |parsers| => parsers[i].parserId.GetOr(""))
  }

  /** `sorted(set(base) | set(head))`. */
  function AllIds(base: Summary, head: Summary): seq<string> {
    SortedIds(IdsOf(base.parsers) + IdsOf(head.parsers))
  }

  // ---------------------------------------------------------------- the diff

  function Changes(ids: seq<string>, base: ParserMap, head: ParserMap): seq<Change> {
    if ids == [] then [] else
      var n := |ids| - 1;
      Changes(ids[..n], base, head)
      + match ParserDiff(ids[n], Lookup(base, ids[n]), Lookup(head, ids[n]))
        case Some(change) => [change]
        case None => []
  }

  function OfKind(changes: seq<Change>, kind: Kind): seq<Change> {
    if changes == [] then [] else
      OfKind(changes[..|changes| - 1], kind)
      + if changes[|changes| - 1].kind == kind then [changes[|changes| - 1]] else []
  }

  /** Whether a change degrades its parser; comparing a missing count raises `TypeError`. */
  function Degrades(c: Change): Result<bool, Error> {
    match c.kind
    case Removed => Ok(false)
    case Added =>
      if c.head.None? then Ok(false)
      else Ok(c.head.value.redacted.GetOr(0) < 1 || c.head.value.degraded.GetOr(0) > 0)
    case Changed =>
      if c.base.None? || c.head.None? then Ok(false) else
        var b, h := c.base.value, c.head.value;
        if b.redacted.None? || h.redacted.None? then Err(NotComparable)
        else if h.redacted.value < b.redacted.value then Ok(true)
        else if b.degraded.None? || h.degraded.None? then Err(NotComparable)
        else Ok(h.degraded.value > b.degraded.value)
  }

  datatype Detail =
    | TotalRedactionDrop(delta: int)
    | TotalDegradedIncrease(delta: int)
    | ParserDegraded(parserId: string)
    | ParserAddedWithRisk(parserId: string)

  datatype Diff = Diff(added: seq<Change>, removed: seq<Change>, changed: seq<Change>, delta: Totals,
                       goldenHashDrift: bool, risky: bool, details: seq<Detail>)

  function DetailOf(c: Change): Detail {
    if c.kind == Added then ParserAddedWithRisk(c.parserId) else ParserDegraded(c.parserId)
  }

  function DetailsOf(changes: seq<Change>): seq<Detail> {
    if changes == [] then [] else
      var c := changes[|changes| - 1];
      DetailsOf(changes[..|changes| - 1])
      + if Degrades(c) == Ok(true) then [DetailOf(c)] else []
  }

  function TotalDetails(delta: Totals): seq<Detail> {
    (if delta.redacted < 0 then [TotalRedactionDrop(delta.redacted)] else [])
    + if delta.degraded > 0 then [TotalDegradedIncrease(delta.degraded)] else []
  }

  function DeltaOf(base: Totals, head: Totals): Totals {
    Totals(head.fixtures - base.fixtures, head.redacted - base.redacted, head.degraded - base.degraded)
  }

  ghost predicate Comparable(changes: seq<Change>) {
    forall c :: c in changes ==> Degrades(c).Ok?
  }

  /** What the drift report is, given that every changed pair is comparable. */
  ghost predicate IsDrift(d: Diff, base: Summary, head: Summary) {
    var baseParsers, headParsers := ParserMapOf(base.parsers), ParserMapOf(head.parsers);
    && baseParsers.Ok? && headParsers.Ok?
    && var changes := Changes(AllIds(base, head), baseParsers.value, headParsers.value);
       && Comparable(OfKind(changes, Changed))
       && d.added == OfKind(changes, Added) && d.removed == OfKind(changes, Removed) && d.changed == OfKind(changes, Changed)
       && d.delta == DeltaOf(base.totals, head.totals)
       && d.goldenHashDrift == (base.goldenHash != head.goldenHash)
       && d.details == TotalDetails(d.delta) + DetailsOf(d.changed) + DetailsOf(d.added)
       && (d.risky <==> d.delta.redacted < 0 || d.delta.degraded > 0
                        || (exists c :: c in d.changed + d.added && Degrades(c) == Ok(true)))
  }

  method MapParsers(parsers: seq<Record>) returns (r: Result<ParserMap, Error>)
    ensures r == ParserMapOf(parsers)
  {
    var result: ParserMap := map[];
    for i := 0 to |parsers|
      invariant Ok(result) == ParserMapOf(parsers[..i])
    {
      assert parsers[..i + 1][..i] == parsers[..i];
      var pid := parsers[i].parserId.GetOr("");
      if pid == "" {
        MapFails(parsers, i + 1);
        return Err(MissingParserId);
      }
      result := result[pid := parsers[i]];
    }
    assert parsers[..|parsers|] == parsers;
    return Ok(result);
  }

  lemma {:induction false} MapFails(parsers: seq<Record>, i: nat)
    requires i <= |parsers| && ParserMapOf(parsers[..i]).Err?
    ensures ParserMapOf(parsers) == ParserMapOf(parsers[..i])
    decreases |parsers|
  {
    if i == |parsers| {
      assert parsers[..i] == parsers;
    } else {
      assert parsers[..|parsers| - 1][..i] == parsers[..i];
      MapFails(parsers[..|parsers| - 1], i);
    }
  }

  lemma ChangesStep(ids: seq<string>, i: nat, base: ParserMap, head: ParserMap)
    requires i < |ids|
    ensures Changes(ids[..i + 1], base, head) == Changes(ids[..i], base, head)
              + match ParserDiff(ids[i], Lookup(base, ids[i]), Lookup(head, ids[i]))
                case Some(change) => [change]
                case None => []
  {
    assert ids[..i + 1][..i] == ids[..i];
  }

  lemma OfKindAppend(changes: seq<Change>, c: Change, kind: Kind)
    ensures OfKind(changes + [c], kind) == OfKind(changes, kind) + if c.kind == kind then [c] else []
  {
    assert (changes + [c])[..|changes|] == changes;
  }

  /** A change with the annotation the first pass puts on it: whether its parser is at risk. */
  datatype Annotated = Annotated(change: Change, risk: bool)

  /** Annotates one list of changes and tells whether any of them is at risk. */
  method AssessRisk(changes: seq<Change>) returns (r: Result<(bool, seq<Annotated>), Error>)
    ensures r.Ok? <==> Comparable(changes)
    ensures r.Ok? ==> |r.value.1| == |changes|
                      && forall i :: 0 <= i < |changes| ==> r.value.1[i] == Annotated(changes[i], Degrades(changes[i]).value)
    ensures r.Ok? ==> (r.value.0 <==> exists c :: c in changes && Degrades(c) == Ok(true))
  {
    var risky, annotated := false, [];
    for i := 0 to |changes|
      invariant Comparable(changes[..i]) && |annotated| == i
      invariant forall j :: 0 <= j < i ==> Degrades(changes[j]).Ok? && annotated[j] == Annotated(changes[j], Degrades(changes[j]).value)
      invariant risky <==> exists c :: c in changes[..i] && Degrades(c) == Ok(true)
    {
      assert changes[..i + 1] == changes[..i] + [changes[i]];
      var c := changes[i];
      var degrades := Degrades(c);
      if degrades.Err? {
        return Err(degrades.error);
      }
      if degrades.value {
        risky := true;
      }
      annotated := annotated + [Annotated(c, degrades.value)];
    }
    assert changes[..|changes|] == changes;
    return Ok((risky, annotated));
  }

  /** The second pass lists the annotated changes. */
  method CollectDetails(annotated: seq<Annotated>) returns (details: seq<Detail>)
    requires forall a :: a in annotated ==> Degrades(a.change) == Ok(a.risk)
    ensures details == DetailsOf(ChangesOf(annotated))
  {
    details := [];
    for i := 0 to |annotated|
      invariant details == DetailsOf(ChangesOf(annotated[..i]))
    {
      var a := annotated[i];
      assert ChangesOf(annotated[..i + 1]) == ChangesOf(annotated[..i]) + [a.change];
      DetailsAppend(ChangesOf(annotated[..i]), a.change);
      if a.risk {
        details := details + [DetailOf(a.change)];
      }
    }
    assert annotated[..|annotated|] == annotated;
  }

  function ChangesOf(annotated: seq<Annotated>): (r: seq<Change>)
    ensures |r| == |annotated| && forall i :: 0 <= i < |r| ==> r[i] == annotated[i].change
  {
    seq(|annotated|, i requires 0 <= i < |annotated| => annotated[i].change)
  }

  lemma DetailsAppend(changes: seq<Change>, c: Change)
    ensures DetailsOf(changes + [c]) == DetailsOf(changes) + if Degrades(c) == Ok(true) then [DetailOf(c)] else []
  {
    assert (changes + [c])[..|changes|] == changes;
  }

  method ComputeDriftDiff(base: Summary, head: Summary) returns (r: Result<Diff, Error>)
    ensures r.Ok? ==> IsDrift(r.value, base, head)
    ensures r.Err? <==>
              || ParserMapOf(base.parsers).Err? || ParserMapOf(head.parsers).Err?
              || !Comparable(OfKind(Changes(AllIds(base, head), ParserMapOf(base.parsers).value, ParserMapOf(head.parsers).value), Changed))
  {
    var baseParsers := MapParsers(base.parsers);
    if baseParsers.Err? {
      return Err(baseParsers.error);
    }
    var headParsers := MapParsers(head.parsers);
    if headParsers.Err? {
      return Err(headParsers.error);
    }
    var ids := AllIds(base, head);
    ghost var changes: seq<Change> := [];
    var added, removed, changed: seq<Change> := [], [], [];
    for i := 0 to |ids|
      invariant changes == Changes(ids[..i], baseParsers.value, headParsers.value)
      invariant added == OfKind(changes, Added) && removed == OfKind(changes, Removed) && changed == OfKind(changes, Changed)
    {
      ChangesStep(ids, i, baseParsers.value, headParsers.value);
      var diff := ParserDiff(ids[i], Lookup(baseParsers.value, ids[i]), Lookup(headParsers.value, ids[i]));
      if diff.Some? {
        OfKindAppend(changes, diff.value, Added);
        OfKindAppend(changes, diff.value, Removed);
        OfKindAppend(changes, diff.value, Changed);
        changes := changes + [diff.value];
        match diff.value.kind
        case Added => added := added + [diff.value];
        case Removed => removed := removed + [diff.value];
        case Changed => changed := changed + [diff.value];
      }
    }
    assert ids[..|ids|] == ids;
    var delta := DeltaOf(base.totals, head.totals);
    var onChanged := AssessRisk(changed);
    if onChanged.Err? {
      return Err(onChanged.error);
    }
    AddedAreComparable(changes);
    var onAdded := AssessRisk(added);
    var risky := delta.redacted < 0 || delta.degraded > 0 || onChanged.value.0 || onAdded.value.0;
    var details := TotalDetails(delta);
    assert ChangesOf(onChanged.value.1) == changed && ChangesOf(onAdded.value.1) == added;
    var fromChanged := CollectDetails(onChanged.value.1);
    var fromAdded := CollectDetails(onAdded.value.1);
    return Ok(Diff(added, removed, changed, delta, base.goldenHash != head.goldenHash, risky, details + fromChanged + fromAdded));
  }

  lemma {:induction false} AddedAreComparable(changes: seq<Change>)
    ensures Comparable(OfKind(changes, Added))
  {
    if changes != [] {
      AddedAreComparable(changes[..|changes| - 1]);
    }
  }
}
