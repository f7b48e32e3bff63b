/** The sanitizer coverage summary of `sanitizer_coverage.py`: one record per golden file, and
    three running totals. */
module Coverage {
  import opened Wrappers

  /** The compared fields of a parser record; a key missing from the JSON is `None`. */
  datatype Fields = Fields(fixtures: Option<int>, redacted: Option<int>, degraded: Option<int>,
                           goldenHash: Option<string>, status: Option<string>)

  datatype Record = Record(parserId: Option<string>, fields: Fields)

  datatype Totals = Totals(fixtures: int, redacted: int, degraded: int)

  datatype Summary = Summary(parsers: seq<Record>, totals: Totals, goldenHash: string)

  /** A golden file; `hash` is the SHA-256 of its content. */
  datatype Golden = Golden(parserId: Option<string>, redactionCount: Option<int>, status: Option<string>, hash: string)

  datatype Measure = Fixtures | Redacted | Degraded

  function ValueOf(m: Measure, f: Fields): int {
    match m
    case Fixtures => f.fixtures.GetOr(0)
    case Redacted => f.redacted.GetOr(0)
    case Degraded => f.degraded.GetOr(0)
  }

  function TotalOf(m: Measure, t: Totals): int {
    match m
    case Fixtures => t.fixtures
    case Redacted => t.redacted
    case Degraded => t.degraded
  }

  function RecordOf(g: Golden): Record {
    var status := g.status.GetOr("unknown");
    Record(Some(g.parserId.GetOr("unknown")),
           Fields(Some(1), Some(g.redactionCount.GetOr(0)), Some(if status == "degraded" then 1 else 0), Some(g.hash), Some(status)))
  }

  function RecordsOf(goldens: seq<Golden>): seq<Record> {
    seq(|goldens|, i requires 0 <= i < |goldens| => RecordOf(goldens[i]))
  }

  function SumOver(m: Measure, records: seq<Record>): int {
    if records == [] then 0 else SumOver(m, records[..|records| - 1]) + ValueOf(m, records[|records| - 1].fields)
  }

  datatype Error = NoGoldenFiles | MissingParserId | NotComparable

  /** The totals are the sums of the records. `aggregate` hashes the records. */
  method BuildCoverageSummary(goldens: seq<Golden>, aggregate: seq<Record> -> string) returns (r: Result<Summary, Error>)
    ensures goldens == [] ==> r == Err(NoGoldenFiles)
    ensures goldens != [] ==>
              && r.Ok? && r.value.parsers == RecordsOf(goldens) && r.value.goldenHash == aggregate(RecordsOf(goldens))
              && forall m :: TotalOf(m, r.value.totals) == SumOver(m, RecordsOf(goldens))
  {
    if goldens == [] {
      return Err(NoGoldenFiles);
    }
    var parsers: seq<Record> := [];
    var totalFixtures, totalRedacted, totalDegraded := 0, 0, 0;
    for i := 0 to |goldens|
      invariant parsers == RecordsOf(goldens[..i])
      invariant totalFixtures == SumOver(Fixtures, parsers)
      invariant totalRedacted == SumOver(Redacted, parsers)
      invariant totalDegraded == SumOver(Degraded, parsers)
    {
      var record := RecordOf(goldens[i]);
      assert (parsers + [record])[..|parsers|] == parsers;
      parsers := parsers + [record];
      totalFixtures := totalFixtures + 1;
      totalRedacted := totalRedacted + goldens[i].redactionCount.GetOr(0);
      totalDegraded := totalDegraded + if goldens[i].status.GetOr("unknown") == "degraded" then 1 else 0;
    }
    assert goldens[..|goldens|] == goldens;
    return Ok(Summary(parsers, Totals(totalFixtures, totalRedacted, totalDegraded), aggregate(parsers)));
  }

  /** What a summary built from golden files satisfies. */
  ghost predicate Built(s: Summary) {
    exists goldens :: goldens != [] && s.parsers == RecordsOf(goldens) && forall m :: TotalOf(m, s.totals) == SumOver(m, s.parsers)
  }

  /** What a record says of its golden file, missing keys included. */
  lemma RecordsAre(goldens: seq<Golden>, i: nat)
    requires i < |goldens|
    ensures |RecordsOf(goldens)| == |goldens|
    ensures var g, r := goldens[i], RecordsOf(goldens)[i];
            && r.parserId == (if g.parserId.Some? then g.parserId else Some("unknown"))
            && r.fields.status == (if g.status.Some? then g.status else Some("unknown"))
            && r.fields.fixtures == Some(1) && r.fields.goldenHash == Some(g.hash)
            && r.fields.redacted == (if g.redactionCount.Some? then g.redactionCount else Some(0))
            && r.fields.degraded == (if g.status == Some("degraded") then Some(1) else Some(0))
  {
    NotDegraded();
  }

  lemma NotDegraded()
    ensures "unknown" != "degraded"
  {
    assert "unknown"[0] != "degraded"[0];
  }

  function Redactions(goldens: seq<Golden>): int {
    if goldens == [] then 0 else Redactions(goldens[1..]) + goldens[0].redactionCount.GetOr(0)
  }

  function DegradedFiles(goldens: seq<Golden>): set<nat> {
    set i: nat | i < |goldens| && goldens[i].status == Some("degraded")
  }

  /** Main result: what the totals count: the golden files, their redactions, and those that are
      degraded. */
  lemma {:induction false} TotalsCount(goldens: seq<Golden>)
    ensures SumOver(Fixtures, RecordsOf(goldens)) == |goldens|
    ensures SumOver(Redacted, RecordsOf(goldens)) == Redactions(goldens)
    ensures SumOver(Degraded, RecordsOf(goldens)) == |DegradedFiles(goldens)|
  {
    hide RecordOf;
    if goldens == [] {
      assert DegradedFiles(goldens) == {};
    } else {
      var n := |goldens| - 1;
      TotalsCount(goldens[..n]);
      RecordsAre(goldens, n);
      assert RecordsOf(goldens)[..n] == RecordsOf(goldens[..n]);
      RedactionsLast(goldens[..n], goldens[n]);
      assert goldens[..n] + [goldens[n]] == goldens;
      DegradedLast(goldens);
    }
  }

  lemma {:induction false} RedactionsLast(goldens: seq<Golden>, g: Golden)
    ensures Redactions(goldens + [g]) == Redactions(goldens) + g.redactionCount.GetOr(0)
  {
    if goldens == [] {
      assert goldens + [g] == [g] && [g][1..] == [];
    } else {
      assert (goldens + [g])[1..] == goldens[1..] + [g];
      RedactionsLast(goldens[1..], g);
    }
  }

  lemma DegradedLast(goldens: seq<Golden>)
    requires goldens != []
    ensures |DegradedFiles(goldens)| == |DegradedFiles(goldens[..|goldens| - 1])|
                                        + if goldens[|goldens| - 1].status == Some("degraded") then 1 else 0
  {
    var n := |goldens| - 1;
    var before, all := DegradedFiles(goldens[..n]), DegradedFiles(goldens);
    assert n !in before;
    assert all == if n in all then before + {n} else before;
  }
}
