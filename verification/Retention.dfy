/** Retention of document versions and audit events: `retention.py`. */
module Retention {
  import opened Wrappers

  datatype Version = Version(document: nat, number: int, created: real)

  datatype AuditEvent = AuditEvent(workspace: Option<nat>, occurred: real)

  datatype KnowledgeBase = KnowledgeBase(id: nat, name: string, retentionDays: Option<int>)

  type Versions = map<nat, Version>

  const DAY: real := 86400.0

  function Cutoff(now: real, days: int): real {
    now - days as real * DAY
  }

  /** No version of the same document has a higher number. */
  predicate IsCurrent(versions: Versions, id: nat)
    requires id in versions
  {
    forall j :: j in versions && versions[j].document == versions[id].document ==> versions[j].number <= versions[id].number
  }

  predicate InBase(documents: map<nat, nat>, document: nat, kb: nat) {
    document in documents && documents[document] == kb
  }

  function OldVersions(documents: map<nat, nat>, versions: Versions, kb: nat, cutoff: real): (r: set<nat>)
    ensures r <= versions.Keys
  {
    set id | id in versions && InBase(documents, versions[id].document, kb)
             && !IsCurrent(versions, id) && versions[id].created < cutoff
  }

  function Purged(documents: map<nat, nat>, versions: Versions, kb: nat, cutoff: real): Versions {
    versions - OldVersions(documents, versions, kb, cutoff)
  }

  /** Some version of the same document has a higher number. */
  ghost predicate Superseded(versions: Versions, id: nat)
    requires id in versions
  {
    exists j :: j in versions && versions[j].document == versions[id].document && versions[j].number > versions[id].number
  }

  /** What a purge takes: exactly the superseded versions of the base's documents that were created
      more than so many days of 86400 seconds ago; the others stay as they are. */
  ghost predicate PurgedIs(documents: map<nat, nat>, before: Versions, after: Versions, kb: nat, days: int, now: real) {
    && (forall id :: id in after ==> id in before && after[id] == before[id])
    && forall id :: id in before ==>
         (id !in after <==> before[id].document in documents && documents[before[id].document] == kb
                            && Superseded(before, id) && before[id].created < now - days as real * 86400.0)
  }

  lemma PurgeTakes(documents: map<nat, nat>, versions: Versions, kb: nat, days: int, now: real)
    ensures PurgedIs(documents, versions, Purged(documents, versions, kb, Cutoff(now, days)), kb, days, now)
  {
    forall id | id in versions ensures IsCurrent(versions, id) <==> !Superseded(versions, id) {
    }
  }

  /** Exactly the events from before so many days ago, of the workspace if one is given. */
  ghost predicate TrimmedIs(before: map<nat, AuditEvent>, after: map<nat, AuditEvent>, workspace: Option<nat>, days: int, now: real) {
    && (forall id :: id in after ==> id in before && after[id] == before[id])
    && forall id :: id in before ==>
         (id !in after <==> before[id].occurred < now - days as real * 86400.0
                            && (workspace.None? || before[id].workspace == workspace))
  }

  lemma TrimTakes(audit: map<nat, AuditEvent>, workspace: Option<nat>, days: int, now: real)
    ensures TrimmedIs(audit, audit - OldEvents(audit, workspace, Cutoff(now, days)), workspace, days, now)
  {
  }

  /** Joining with the grouped maxima on a different number selects what is not current. */
  lemma JoinSelects(documents: map<nat, nat>, versions: Versions, kb: nat, cutoff: real, highest: map<nat, int>, joined: set<nat>)
    requires GroupedMaxima(documents, versions, kb, highest)
    requires joined == Joined(documents, versions, kb, cutoff, highest)
    ensures joined == OldVersions(documents, versions, kb, cutoff)
  {
  }

  /** What the subquery returns: each of the base's documents with a version, and its highest number. */
  ghost predicate GroupedMaxima(documents: map<nat, nat>, versions: Versions, kb: nat, highest: map<nat, int>) {
    && (forall id :: id in versions && InBase(documents, versions[id].document, kb) ==>
          versions[id].document in highest && versions[id].number <= highest[versions[id].document])
    && forall d :: d in highest ==>
         InBase(documents, d, kb) && exists id :: id in versions && versions[id] == Version(d, highest[d], versions[id].created)
  }

  /** The versions joined with the subquery on a different number, and older than the cutoff. */
  function Joined(documents: map<nat, nat>, versions: Versions, kb: nat, cutoff: real, highest: map<nat, int>): set<nat> {
    set id | id in versions && InBase(documents, versions[id].document, kb)
             && versions[id].document in highest && highest[versions[id].document] != versions[id].number
             && versions[id].created < cutoff
  }

  lemma RowsGone<K, V>(before: map<K, V>, gone: set<K>)
    requires gone <= before.Keys
    ensures |before - gone| == |before| - |gone|
  {
    assert (before - gone).Keys == before.Keys - gone;
    assert |before.Keys| == |before| && |(before - gone).Keys| == |before - gone|;
  }

  datatype KbResult = KbResult(name: string, skipped: bool, retentionDays: Option<int>, deleted: nat)

  class Store {
    const documents: map<nat, nat>
    const kbs: seq<KnowledgeBase>
    var versions: Versions
    var audit: map<nat, AuditEvent>

    constructor (documents: map<nat, nat>, kbs: seq<KnowledgeBase>, versions: Versions, audit: map<nat, AuditEvent>)
      ensures this.documents == documents && this.kbs == kbs && this.versions == versions && this.audit == audit
    {
      this.documents, this.kbs, this.versions, this.audit := documents, kbs, versions, audit;
    }

    /** The grouped subquery: the highest version number of each document of the base. */
    method MaxVersions(kb: nat) returns (highest: map<nat, int>)
      ensures GroupedMaxima(documents, versions, kb, highest)
    {
      highest := map[];
      var rest := versions.Keys;
      while rest != {}
        invariant rest <= versions.Keys
        invariant forall id :: id in versions.Keys - rest && InBase(documents, versions[id].document, kb) ==>
                    versions[id].document in highest && versions[id].number <= highest[versions[id].document]
        invariant forall d :: d in highest ==>
                    InBase(documents, d, kb) && exists id :: id in versions && versions[id] == Version(d, highest[d], versions[id].created)
        decreases rest
      {
        var id :| id in rest;
        var v := versions[id];
        if InBase(documents, v.document, kb) && (v.document !in highest || highest[v.document] < v.number) {
          highest := highest[v.document := v.number];
        }
        rest := rest - {id};
      }
    }

    /** Joins the versions with the subquery on a different number. */
    method PurgeOldDocumentVersions(kb: nat, days: int, now: real) returns (deleted: nat)
      modifies this`versions
      ensures versions == Purged(documents, old(versions), kb, Cutoff(now, days))
      ensures deleted == |OldVersions(documents, old(versions), kb, Cutoff(now, days))| == |old(versions)| - |versions|
      ensures PurgedIs(documents, old(versions), versions, kb, days, now)
    {
      hide PurgedIs, OldVersions, Joined, GroupedMaxima, Cutoff;
      var cutoff := Cutoff(now, days);
      var highest := MaxVersions(kb);
      var oldVersions := Joined(documents, versions, kb, cutoff, highest);
      JoinSelects(documents, versions, kb, cutoff, highest, oldVersions);
      PurgeTakes(documents, versions, kb, days, now);
      RowsGone(versions, oldVersions);
      if oldVersions == {} {
        assert versions - {} == versions;
        return 0;
      }
      versions := versions - oldVersions;
      return |oldVersions|;
    }

    method PurgeOldAuditEvents(days: int, workspace: Option<nat>, now: real) returns (deleted: nat)
      modifies this`audit
      ensures audit == old(audit) - OldEvents(old(audit), workspace, Cutoff(now, days))
      ensures deleted == |OldEvents(old(audit), workspace, Cutoff(now, days))| == |old(audit)| - |audit|
      ensures TrimmedIs(old(audit), audit, workspace, days, now)
    {
      hide TrimmedIs, IsOldEvent, Cutoff, OldEvents;
      TrimTakes(audit, workspace, days, now);
      RowsGone(audit, OldEvents(audit, workspace, Cutoff(now, days)));
      var cutoff := Cutoff(now, days);
      var rest := audit.Keys;
      ghost var gone: set<nat> := {};
      deleted := 0;
      while rest != {}
        invariant rest <= audit.Keys && audit == old(audit) - gone
        invariant gone <= old(audit).Keys - rest && deleted == |gone|
        invariant forall id :: id in old(audit).Keys - rest ==>
                    (id in gone <==> IsOldEvent(old(audit)[id], workspace, cutoff))
        decreases rest
      {
        var id :| id in rest;
        if IsOldEvent(audit[id], workspace, cutoff) {
          MinusTwice(old(audit), gone, {id});
          audit := audit - {id};
          gone := gone + {id};
          deleted := deleted + 1;
        }
        rest := rest - {id};
      }
      EventsAre(old(audit), workspace, cutoff, gone);
    }

    /** A knowledge base that is unknown or has no policy is skipped. */
    method RunForKnowledgeBase(kb: nat, name: string, now: real) returns (r: KbResult)
      modifies this`versions
      ensures var policy := PolicyOf(kbs, kb);
              if policy.None? then versions == old(versions) && r == KbResult(name, true, None, 0)
              else versions == Purged(documents, old(versions), kb, Cutoff(now, policy.value))
                   && PurgedIs(documents, old(versions), versions, kb, policy.value, now)
                   && r == KbResult(name, false, policy, |OldVersions(documents, old(versions), kb, Cutoff(now, policy.value))|)
    {
      var policy := PolicyOf(kbs, kb);
      if policy.None? {
        return KbResult(name, true, None, 0);
      }
      var deleted := PurgeOldDocumentVersions(kb, policy.value, now);
      return KbResult(name, false, policy, deleted);
    }

    /** `clock(i)` is the time the i-th purge reads, `clock(|kbs|)` that of the audit purge. */
    method RunAll(auditDays: int, clock: nat -> real) returns (results: seq<KbResult>, auditDeleted: nat)
      requires forall i, j :: 0 <= i < j < |kbs| ==> kbs[i].id != kbs[j].id
      modifies this
      ensures versions == old(versions) - AllOld(documents, old(versions), kbs, clock)
      ensures results == ResultsOf(documents, old(versions), kbs, clock)
      ensures var events := if auditDays > 0 then OldEvents(old(audit), None, Cutoff(clock(|kbs|), auditDays)) else {};
              audit == old(audit) - events && auditDeleted == |events|
      ensures if auditDays > 0 then TrimmedIs(old(audit), audit, None, auditDays, clock(|kbs|)) else audit == old(audit)
    {
      hide TrimmedIs, OldVersions, PurgedIs, AllOld, ResultsOf, OldEvents, PolicyOf, Purged;
      assert AllOld(documents, versions, [], clock) == {} && ResultsOf(documents, versions, [], clock) == [] by {
        NothingDue(documents, versions, clock);
      }
      results := [];
      ghost var before := versions;
      assert kbs[..0] == [];
      for i := 0 to |kbs|
        invariant versions == before - AllOld(documents, before, kbs[..i], clock)
        invariant results == ResultsOf(documents, before, kbs[..i], clock)
        invariant audit == old(audit)
      {
        PolicyAt(kbs, i);
        PurgeNext(documents, before, kbs, i, clock);
        if kbs[i].retentionDays.Some? {
          var result := RunForKnowledgeBase(kbs[i].id, kbs[i].name, clock(i));
          results := results + [result];
        }
      }
      assert kbs[..|kbs|] == kbs;
      auditDeleted := 0;
      if auditDays > 0 {
        auditDeleted := PurgeOldAuditEvents(auditDays, None, clock(|kbs|));
      }
    }
  }

  function OldEvents(audit: map<nat, AuditEvent>, workspace: Option<nat>, cutoff: real): (r: set<nat>)
    ensures r <= audit.Keys
  {
    set id | id in audit && IsOldEvent(audit[id], workspace, cutoff)
  }

  lemma EventsAre(audit: map<nat, AuditEvent>, workspace: Option<nat>, cutoff: real, gone: set<nat>)
    requires gone <= audit.Keys && forall id :: id in audit ==> (id in gone <==> IsOldEvent(audit[id], workspace, cutoff))
    ensures gone == OldEvents(audit, workspace, cutoff)
  {
  }

  predicate IsOldEvent(e: AuditEvent, workspace: Option<nat>, cutoff: real) {
    e.occurred < cutoff && (workspace.Some? ==> e.workspace == workspace)
  }

  function PolicyOf(kbs: seq<KnowledgeBase>, kb: nat): Option<int> {
    if kbs == [] then None else if kbs[0].id == kb then kbs[0].retentionDays else PolicyOf(kbs[1..], kb)
  }

  /** Everything the policies make old at once, each judged on the table before the run. */
  function AllOld(documents: map<nat, nat>, versions: Versions, kbs: seq<KnowledgeBase>, clock: nat -> real): set<nat> {
    if kbs == [] then {} else
      var n := |kbs| - 1;
      AllOld(documents, versions, kbs[..n], clock)
      + if kbs[n].retentionDays.None? then {}
        else OldVersions(documents, versions, kbs[n].id, Cutoff(clock(n), kbs[n].retentionDays.value))
  }

  function ResultsOf(documents: map<nat, nat>, versions: Versions, kbs: seq<KnowledgeBase>, clock: nat -> real): seq<KbResult> {
    if kbs == [] then [] else
      var n := |kbs| - 1;
      ResultsOf(documents, versions, kbs[..n], clock)
      + if kbs[n].retentionDays.None? then []
        else [KbResult(kbs[n].name, false, kbs[n].retentionDays,
                       |OldVersions(documents, versions, kbs[n].id, Cutoff(clock(n), kbs[n].retentionDays.value))|)]
  }

  lemma AllOldStep(documents: map<nat, nat>, versions: Versions, kbs: seq<KnowledgeBase>, i: nat, clock: nat -> real)
    requires i < |kbs|
    ensures AllOld(documents, versions, kbs[..i + 1], clock) == AllOld(documents, versions, kbs[..i], clock)
              + if kbs[i].retentionDays.None? then {}
                else OldVersions(documents, versions, kbs[i].id, Cutoff(clock(i), kbs[i].retentionDays.value))
    ensures ResultsOf(documents, versions, kbs[..i + 1], clock) == ResultsOf(documents, versions, kbs[..i], clock)
              + if kbs[i].retentionDays.None? then []
                else [KbResult(kbs[i].name, false, kbs[i].retentionDays,
                               |OldVersions(documents, versions, kbs[i].id, Cutoff(clock(i), kbs[i].retentionDays.value))|)]
  {
    assert kbs[..i + 1][..i] == kbs[..i];
  }

  lemma NothingDue(documents: map<nat, nat>, versions: Versions, clock: nat -> real)
    ensures AllOld(documents, versions, [], clock) == {} && ResultsOf(documents, versions, [], clock) == []
  {
  }

  /** The purge of the next base, on what the earlier ones left. */
  lemma PurgeNext(documents: map<nat, nat>, before: Versions, kbs: seq<KnowledgeBase>, i: nat, clock: nat -> real)
    requires i < |kbs| && forall j, k :: 0 <= j < k < |kbs| ==> kbs[j].id != kbs[k].id
    ensures var left, results := before - AllOld(documents, before, kbs[..i], clock), ResultsOf(documents, before, kbs[..i], clock);
            if kbs[i].retentionDays.None? then
              left == before - AllOld(documents, before, kbs[..i + 1], clock)
              && results == ResultsOf(documents, before, kbs[..i + 1], clock)
            else
              var cutoff := Cutoff(clock(i), kbs[i].retentionDays.value);
              Purged(documents, left, kbs[i].id, cutoff) == before - AllOld(documents, before, kbs[..i + 1], clock)
              && results + [KbResult(kbs[i].name, false, kbs[i].retentionDays, |OldVersions(documents, left, kbs[i].id, cutoff)|)]
                 == ResultsOf(documents, before, kbs[..i + 1], clock)
  {
    hide OldVersions, AllOld, ResultsOf;
    AllOldStep(documents, before, kbs, i, clock);
    if kbs[i].retentionDays.Some? {
      var cutoff := Cutoff(clock(i), kbs[i].retentionDays.value);
      OthersDoNotMatter(documents, before, kbs, i, clock, cutoff);
      MinusTwice(before, AllOld(documents, before, kbs[..i], clock), OldVersions(documents, before, kbs[i].id, cutoff));
    }
  }

  lemma MinusTwice<K, V>(m: map<K, V>, a: set<K>, b: set<K>)
    ensures m - a - b == m - (a + b)
  {
  }

  lemma {:induction false} PolicyAt(kbs: seq<KnowledgeBase>, i: nat)
    requires i < |kbs| && forall j, k :: 0 <= j < k < |kbs| ==> kbs[j].id != kbs[k].id
    ensures PolicyOf(kbs, kbs[i].id) == kbs[i].retentionDays
  {
    if i > 0 {
      PolicyAt(kbs[1..], i - 1);
    }
  }

  /** Main result: what a retention run takes. Exactly the superseded versions older than the policy of
      their own base, at the time that base's purge reads; a base without a policy loses nothing. */
  lemma {:induction false} RunTakes(documents: map<nat, nat>, versions: Versions, kbs: seq<KnowledgeBase>, clock: nat -> real, id: nat)
    requires id in versions
    ensures id in AllOld(documents, versions, kbs, clock) <==>
              versions[id].document in documents && Superseded(versions, id)
              && exists i :: 0 <= i < |kbs| && DueAt(kbs, i, documents[versions[id].document], versions[id].created, clock)
  {
    hide OldVersions, Superseded, DueAt;
    if id in AllOld(documents, versions, kbs, clock) {
      AllOldFacts(documents, versions, kbs, clock, id);
    }
    if kbs != [] && versions[id].document in documents {
      var n := |kbs| - 1;
      var base, created := documents[versions[id].document], versions[id].created;
      RunTakes(documents, versions, kbs[..n], clock, id);
      if kbs[n].retentionDays.Some? {
        LastDue(documents, versions, kbs[n], clock(n), id);
      }
      forall i | 0 <= i < n ensures DueAt(kbs[..n], i, base, created, clock) <==> DueAt(kbs, i, base, created, clock) {
        SameDue(kbs, n, i, base, created, clock);
      }
      SameDue(kbs, |kbs|, n, base, created, clock);
    }
  }

  lemma LastDue(documents: map<nat, nat>, versions: Versions, kb: KnowledgeBase, now: real, id: nat)
    requires id in versions && kb.retentionDays.Some? && versions[id].document in documents
    ensures id in OldVersions(documents, versions, kb.id, Cutoff(now, kb.retentionDays.value)) <==>
              Superseded(versions, id) && kb.id == documents[versions[id].document]
              && versions[id].created < now - kb.retentionDays.value as real * 86400.0
  {
    assert IsCurrent(versions, id) <==> !Superseded(versions, id);
  }

  lemma SameDue(kbs: seq<KnowledgeBase>, n: nat, i: nat, base: nat, created: real, clock: nat -> real)
    requires i < n <= |kbs|
    ensures DueAt(kbs[..n], i, base, created, clock) <==> DueAt(kbs, i, base, created, clock)
    ensures DueAt(kbs, i, base, created, clock) <==>
              kbs[i].id == base && kbs[i].retentionDays.Some?
              && created < clock(i) - kbs[i].retentionDays.value as real * 86400.0
  {
  }

  /** The i-th base is this one, and by its policy what was created then is due at its purge. */
  predicate DueAt(kbs: seq<KnowledgeBase>, i: int, base: nat, created: real, clock: nat -> real)
    requires 0 <= i < |kbs|
  {
    && kbs[i].id == base && kbs[i].retentionDays.Some?
    && created < clock(i) - kbs[i].retentionDays.value as real * 86400.0
  }

  function DeletedIn(results: seq<KbResult>): nat {
    if results == [] then 0 else DeletedIn(results[..|results| - 1]) + results[|results| - 1].deleted
  }

  predicate Reported(kbs: seq<KnowledgeBase>, name: string, days: Option<int>) {
    exists kb :: kb in kbs && days.Some? && kb.name == name && kb.retentionDays == days
  }

  /** What the bases report adds up to the rows gone, and only bases with a policy report. */
  lemma {:induction false} ReportsAddUp(documents: map<nat, nat>, versions: Versions, kbs: seq<KnowledgeBase>, clock: nat -> real)
    requires forall i, j :: 0 <= i < j < |kbs| ==> kbs[i].id != kbs[j].id
    ensures var results := ResultsOf(documents, versions, kbs, clock);
            && DeletedIn(results) == |AllOld(documents, versions, kbs, clock)|
            && AllOld(documents, versions, kbs, clock) <= versions.Keys
            && forall r :: r in results ==> !r.skipped && Reported(kbs, r.name, r.retentionDays)
  {
    hide OldVersions, AllOld, ResultsOf, DeletedIn, Reported;
    if kbs == [] {
      NothingDue(documents, versions, clock);
      NothingDeleted();
    } else {
      var n := |kbs| - 1;
      assert kbs[..n + 1] == kbs;
      ReportsAddUp(documents, versions, kbs[..n], clock);
      AllOldStep(documents, versions, kbs, n, clock);
      ReportedLater(kbs);
      if kbs[n].retentionDays.Some? {
        var due := OldVersions(documents, versions, kbs[n].id, Cutoff(clock(n), kbs[n].retentionDays.value));
        DueIsNew(documents, versions, kbs, clock, due);
        OneMoreReport(ResultsOf(documents, versions, kbs[..n], clock), KbResult(kbs[n].name, false, kbs[n].retentionDays, |due|));
      } else {
        assert ResultsOf(documents, versions, kbs, clock) == ResultsOf(documents, versions, kbs[..n], clock);
      }
    }
  }

  lemma NothingDeleted()
    ensures DeletedIn([]) == 0
  {
  }

  lemma OneMoreReport(results: seq<KbResult>, r: KbResult)
    ensures DeletedIn(results + [r]) == DeletedIn(results) + r.deleted
  {
    assert (results + [r])[..|results|] == results;
  }

  lemma ReportedLater(kbs: seq<KnowledgeBase>)
    requires kbs != []
    ensures forall name, days :: Reported(kbs[..|kbs| - 1], name, days) ==> Reported(kbs, name, days)
    ensures kbs[|kbs| - 1].retentionDays.Some? ==> Reported(kbs, kbs[|kbs| - 1].name, kbs[|kbs| - 1].retentionDays)
  {
    assert kbs[|kbs| - 1] in kbs;
  }

  lemma DueIsNew(documents: map<nat, nat>, versions: Versions, kbs: seq<KnowledgeBase>, clock: nat -> real, due: set<nat>)
    requires kbs != [] && kbs[|kbs| - 1].retentionDays.Some?
    requires forall i, j :: 0 <= i < j < |kbs| ==> kbs[i].id != kbs[j].id
    requires due == OldVersions(documents, versions, kbs[|kbs| - 1].id,
                                Cutoff(clock(|kbs| - 1), kbs[|kbs| - 1].retentionDays.value))
    ensures due <= versions.Keys && due !! AllOld(documents, versions, kbs[..|kbs| - 1], clock)
    ensures |AllOld(documents, versions, kbs, clock)| == |AllOld(documents, versions, kbs[..|kbs| - 1], clock)| + |due|
  {
    forall id | id in due ensures id !in AllOld(documents, versions, kbs[..|kbs| - 1], clock) {
      if id in AllOld(documents, versions, kbs[..|kbs| - 1], clock) {
        AllOldFacts(documents, versions, kbs[..|kbs| - 1], clock, id);
      }
    }
  }

  /** What is purged is no current version and belongs to a knowledge base of the list. */
  lemma {:induction false} AllOldFacts(documents: map<nat, nat>, versions: Versions, kbs: seq<KnowledgeBase>, clock: nat -> real, id: nat)
    requires id in AllOld(documents, versions, kbs, clock)
    ensures id in versions && !IsCurrent(versions, id) && versions[id].document in documents
    ensures exists k :: 0 <= k < |kbs| && kbs[k].id == documents[versions[id].document]
  {
    var n := |kbs| - 1;
    if id in AllOld(documents, versions, kbs[..n], clock) {
      AllOldFacts(documents, versions, kbs[..n], clock, id);
      var k :| 0 <= k < n && kbs[..n][k].id == documents[versions[id].document];
      assert kbs[k].id == documents[versions[id].document];
    }
  }

  /** Purging some knowledge bases does not change what is old in another: its documents keep all
      their versions, the current one included. */
  lemma OthersDoNotMatter(documents: map<nat, nat>, versions: Versions, kbs: seq<KnowledgeBase>, i: nat, clock: nat -> real, cutoff: real)
    requires i < |kbs| && forall j, k :: 0 <= j < k < |kbs| ==> kbs[j].id != kbs[k].id
    ensures OldVersions(documents, versions - AllOld(documents, versions, kbs[..i], clock), kbs[i].id, cutoff)
            == OldVersions(documents, versions, kbs[i].id, cutoff)
  {
    var gone := AllOld(documents, versions, kbs[..i], clock);
    var rest := versions - gone;
    var kb := kbs[i].id;
    forall id | id in versions && versions[id].document in documents && documents[versions[id].document] == kb
      ensures id in rest
    {
      if id in gone {
        AllOldFacts(documents, versions, kbs[..i], clock, id);
      }
    }
    forall id | id in rest && rest[id].document in documents && documents[rest[id].document] == kb
      ensures IsCurrent(rest, id) <==> IsCurrent(versions, id)
    {
      if !IsCurrent(versions, id) {
        var j :| j in versions && versions[j].document == versions[id].document && versions[j].number > versions[id].number;
        assert j in rest;
      }
    }
  }

  // ---------------------------------------------------------------- two purges are one

  lemma CutoffOrder(now: real, d1: int, d2: int)
    requires d1 <= d2
    ensures Cutoff(now, d1) >= Cutoff(now, d2)
  {
  }

  /** A current version survives any purge and stays current; what survives is no more current
      than it was. */
  lemma CurrentSurvives(documents: map<nat, nat>, versions: Versions, kb: nat, cutoff: real, id: nat)
    requires id in versions
    ensures var after := Purged(documents, versions, kb, cutoff);
            && (IsCurrent(versions, id) ==> id in after && IsCurrent(after, id))
            && (id in after && IsCurrent(after, id) ==> IsCurrent(versions, id))
  {
    var after := Purged(documents, versions, kb, cutoff);
    if id in after && !IsCurrent(versions, id) {
      var j :| j in versions && versions[j].document == versions[id].document && versions[j].number > versions[id].number;
      var top := HighestOf(versions, j);
      assert top in after && after[top].document == after[id].document && after[top].number > after[id].number;
    }
  }

  /** Among finitely many versions, some version of j's document is current. */
  lemma {:induction false} HighestOf(versions: Versions, j: nat) returns (top: nat)
    requires j in versions
    ensures top in versions && versions[top].document == versions[j].document
    ensures IsCurrent(versions, top) && versions[top].number >= versions[j].number
    decreases versions
  {
    if IsCurrent(versions, j) {
      top := j;
    } else {
      var k :| k in versions && versions[k].document == versions[j].document && versions[k].number > versions[j].number;
      var rest := versions - {j};
      assert versions.Keys == rest.Keys + {j};
      top := HighestOf(rest, k);
    }
  }

  /** Main result: at one instant, purging with d1 and then d2 days is one purge with the smaller. */
  lemma PurgesCompose(documents: map<nat, nat>, versions: Versions, kb: nat, d1: int, d2: int, now: real)
    ensures Purged(documents, Purged(documents, versions, kb, Cutoff(now, d1)), kb, Cutoff(now, d2))
            == Purged(documents, versions, kb, Cutoff(now, if d1 < d2 then d1 else d2))
  {
    CutoffOrder(now, if d1 < d2 then d1 else d2, if d1 < d2 then d2 else d1);
    var c1, c2 := Cutoff(now, d1), Cutoff(now, d2);
    var first := Purged(documents, versions, kb, c1);
    var least := if d1 < d2 then c1 else c2;
    forall id | id in versions
      ensures id in Purged(documents, first, kb, c2) <==> id in Purged(documents, versions, kb, least)
    {
      CurrentSurvives(documents, versions, kb, c1, id);
    }
  }

  // ---------------------------------------------------------------- runs

  datatype Op = Purge(kb: nat, days: int, now: real) | Append(id: nat, document: nat, created: real)

  /** The highest version number of a document, 0 without versions. */
  ghost function Highest(versions: Versions, document: nat): int {
    if exists id :: id in versions && versions[id].document == document && IsCurrent(versions, id)
    then (var id :| id in versions && versions[id].document == document && IsCurrent(versions, id); versions[id].number)
    else 0
  }

  /** Appending draws the next number, `max + 1`. */
  ghost function Apply(documents: map<nat, nat>, versions: Versions, op: Op): Versions {
    match op
    case Purge(kb, days, now) => Purged(documents, versions, kb, Cutoff(now, days))
    case Append(id, document, created) => versions[id := Version(document, Highest(versions, document) + 1, created)]
  }

  ghost function Run(documents: map<nat, nat>, versions: Versions, ops: seq<Op>): Versions {
    if ops == [] then versions else Apply(documents, Run(documents, versions, ops[..|ops| - 1]), ops[|ops| - 1])
  }

  /** Appended ids are new at every step. */
  ghost predicate FreshIds(documents: map<nat, nat>, versions: Versions, ops: seq<Op>) {
    forall i :: 0 <= i < |ops| && ops[i].Append? ==> ops[i].id !in Run(documents, versions, ops[..i])
  }

  function AppendsTo(ops: seq<Op>, document: nat): nat {
    if ops == [] then 0 else
      AppendsTo(ops[..|ops| - 1], document)
      + if ops[|ops| - 1].Append? && ops[|ops| - 1].document == document then 1 else 0
  }

  lemma HighestIs(versions: Versions, id: nat)
    requires id in versions && IsCurrent(versions, id)
    ensures Highest(versions, versions[id].document) == versions[id].number
  {
  }

  lemma NoVersions(versions: Versions, document: nat)
    requires forall id :: id in versions ==> versions[id].document != document
    ensures Highest(versions, document) == 0
  {
  }

  lemma PurgeKeepsHighest(documents: map<nat, nat>, versions: Versions, kb: nat, cutoff: real, document: nat)
    ensures Highest(Purged(documents, versions, kb, cutoff), document) == Highest(versions, document)
  {
    var after := Purged(documents, versions, kb, cutoff);
    if j :| j in versions && versions[j].document == document {
      var top := HighestOf(versions, j);
      CurrentSurvives(documents, versions, kb, cutoff, top);
      HighestIs(versions, top);
      HighestIs(after, top);
    } else {
      NoVersions(versions, document);
      NoVersions(after, document);
    }
  }

  lemma AppendRaisesHighest(versions: Versions, id: nat, document: nat, created: real, other: nat)
    requires id !in versions
    ensures var after := versions[id := Version(document, Highest(versions, document) + 1, created)];
            && IsCurrent(after, id)
            && Highest(after, other) == Highest(versions, other) + (if other == document then 1 else 0)
            && forall k :: k in versions && versions[k].document != document ==> (IsCurrent(versions, k) <==> IsCurrent(after, k))
  {
    var after := versions[id := Version(document, Highest(versions, document) + 1, created)];
    forall k | k in versions && versions[k].document == document ensures versions[k].number <= Highest(versions, document) {
      var top := HighestOf(versions, k);
      HighestIs(versions, top);
    }
    assert IsCurrent(after, id);
    forall k | k in versions && versions[k].document != document ensures IsCurrent(versions, k) <==> IsCurrent(after, k) {
      if IsCurrent(after, k) {
        forall j | j in versions && versions[j].document == versions[k].document ensures versions[j].number <= versions[k].number {
          assert j in after && after[j] == versions[j];
        }
      }
    }
    if other == document {
      HighestIs(after, id);
    } else if j :| j in versions && versions[j].document == other {
      var top := HighestOf(versions, j);
      HighestIs(versions, top);
      assert IsCurrent(after, top);
      HighestIs(after, top);
    } else {
      NoVersions(versions, other);
      NoVersions(after, other);
    }
  }

  lemma ApplyHighest(documents: map<nat, nat>, versions: Versions, op: Op, document: nat)
    requires op.Append? ==> op.id !in versions
    ensures Highest(Apply(documents, versions, op), document)
            == Highest(versions, document) + if op.Append? && op.document == document then 1 else 0
  {
    hide Highest, Purged, IsCurrent;
    match op
    case Purge(kb, days, now) => PurgeKeepsHighest(documents, versions, kb, Cutoff(now, days), document);
    case Append(id, d, created) => AppendRaisesHighest(versions, id, d, created, document);
  }

  /** Main result: over any run of purges and appends, version numbers are never reused: the next
      number of a document depends only on how many versions were ever appended. */
  lemma {:induction false} NumbersNeverReused(documents: map<nat, nat>, versions: Versions, ops: seq<Op>, document: nat)
    requires FreshIds(documents, versions, ops)
    ensures Highest(Run(documents, versions, ops), document) == Highest(versions, document) + AppendsTo(ops, document)
  {
    hide Highest, Apply;
    if ops != [] {
      FreshPrefix(documents, versions, ops);
      NumbersNeverReused(documents, versions, ops[..|ops| - 1], document);
      ApplyHighest(documents, Run(documents, versions, ops[..|ops| - 1]), ops[|ops| - 1], document);
    }
  }

  lemma FreshPrefix(documents: map<nat, nat>, versions: Versions, ops: seq<Op>)
    requires ops != [] && FreshIds(documents, versions, ops)
    ensures FreshIds(documents, versions, ops[..|ops| - 1])
    ensures ops[|ops| - 1].Append? ==> ops[|ops| - 1].id !in Run(documents, versions, ops[..|ops| - 1])
  {
    hide Run;
    var n := |ops| - 1;
    forall i | 0 <= i < n && ops[..n][i].Append? ensures ops[..n][i].id !in Run(documents, versions, ops[..n][..i]) {
      assert ops[..n][..i] == ops[..i];
    }
  }

  /** The version that should be current: the last one appended to the document, else `start`. */
  function Latest(ops: seq<Op>, document: nat, start: nat): nat {
    if ops == [] then start
    else if ops[|ops| - 1].Append? && ops[|ops| - 1].document == document then ops[|ops| - 1].id
    else Latest(ops[..|ops| - 1], document, start)
  }

  /** Main result: the current version is never deleted. After any run of purges and appends, the
      last version appended to a document (or, without appends, the one current at the start) is
      still there and current. */
  lemma {:induction false} CurrentIsKept(documents: map<nat, nat>, versions: Versions, ops: seq<Op>, start: nat)
    requires FreshIds(documents, versions, ops) && start in versions && IsCurrent(versions, start)
    ensures var document := versions[start].document;
            var after, id := Run(documents, versions, ops), Latest(ops, versions[start].document, start);
            id in after && after[id].document == document && IsCurrent(after, id)
  {
    if ops != [] {
      var n := |ops| - 1;
      var document := versions[start].document;
      FreshPrefix(documents, versions, ops);
      CurrentIsKept(documents, versions, ops[..n], start);
      var before, id := Run(documents, versions, ops[..n]), Latest(ops[..n], document, start);
      match ops[n]
      case Purge(kb, days, now) => CurrentSurvives(documents, before, kb, Cutoff(now, days), id);
      case Append(new', d, created) => AppendRaisesHighest(before, new', d, created, document);
    }
  }

  /** Main result: a knowledge base that is never purged loses nothing. */
  lemma {:induction false} OthersKeepAll(documents: map<nat, nat>, versions: Versions, ops: seq<Op>, id: nat)
    requires FreshIds(documents, versions, ops) && id in versions
    requires forall i :: 0 <= i < |ops| && ops[i].Purge? ==>
               versions[id].document in documents ==> documents[versions[id].document] != ops[i].kb
    ensures id in Run(documents, versions, ops) && Run(documents, versions, ops)[id] == versions[id]
  {
    if ops != [] {
      FreshPrefix(documents, versions, ops);
      OthersKeepAll(documents, versions, ops[..|ops| - 1], id);
    }
  }

  /** Main result: young versions stay. A version at some point of a run is still there at the end, as
      it was, if every later purge looks back to before its creation. */
  lemma {:induction false} YoungSurvives(documents: map<nat, nat>, versions: Versions, ops: seq<Op>, i: nat, id: nat)
    requires i <= |ops| && FreshIds(documents, versions, ops) && id in Run(documents, versions, ops[..i])
    requires forall j :: i <= j < |ops| && ops[j].Purge? ==>
               Run(documents, versions, ops[..i])[id].created >= ops[j].now - ops[j].days as real * 86400.0
    ensures id in Run(documents, versions, ops)
    ensures Run(documents, versions, ops)[id] == Run(documents, versions, ops[..i])[id]
    decreases |ops|
  {
    hide Run, Highest, FreshIds, IsCurrent;
    if i == |ops| {
      assert ops[..i] == ops;
    } else {
      var n := |ops| - 1;
      assert ops[..n][..i] == ops[..i];
      FreshPrefix(documents, versions, ops);
      YoungSurvives(documents, versions, ops[..n], i, id);
      RunLast(documents, versions, ops);
      if ops[n].Purge? {
        PurgeTakes(documents, Run(documents, versions, ops[..n]), ops[n].kb, ops[n].days, ops[n].now);
      }
    }
  }

  lemma RunLast(documents: map<nat, nat>, versions: Versions, ops: seq<Op>)
    requires ops != []
    ensures Run(documents, versions, ops) == Apply(documents, Run(documents, versions, ops[..|ops| - 1]), ops[|ops| - 1])
  {
  }

  /** The number an appended version gets: above all of its document by one, and 1 for the first. */
  lemma AppendNumber(documents: map<nat, nat>, versions: Versions, id: nat, document: nat, created: real)
    ensures var v := Apply(documents, versions, Append(id, document, created))[id];
            && v.document == document && v.created == created
            && (forall j :: j in versions && versions[j].document == document ==> versions[j].number < v.number)
            && ((exists j :: j in versions && versions[j].document == document && versions[j].number == v.number - 1)
                || (v.number == 1 && forall j :: j in versions ==> versions[j].document != document))
  {
    if j :| j in versions && versions[j].document == document {
      var top := HighestOf(versions, j);
      HighestIs(versions, top);
    } else {
      NoVersions(versions, document);
    }
  }
}
