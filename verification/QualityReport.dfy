/** The data-quality report: counters and findings, kept in step while references are recorded. */
module QualityReport {
  import opened Basics
  import opened Text
  import opened ReferenceIndex
  import opened MapSums

  datatype Status = WasCanonicalized | WasUnresolved | WasAmbiguous | WasDuplicate

  datatype Severity = Info | Warning | Error

  datatype SourceKind = LearnedSkills | GuaranteedPassives | PalDrops | UnlockItems

  datatype TargetKind = ActiveSkillTarget | PassiveTarget | SpeciesTarget | ItemTarget

  datatype Cause =
    | ByMethod(how: Method) | ExactDuplicate | AbsentFromCatalog
    | BossVariant | PredatorVariant | QuestVariant | AreaVariant | SourceAbsent

  datatype FindingKey = FindingKey(status: Status, severity: Severity, source: SourceKind, target: TargetKind,
                                   cause: Cause)

  datatype Finding = Finding(count: nat, subjects: set<string>, references: set<string>)

  datatype Report = Report(exact: nat, canonicalized: nat, duplicates: nat, unresolved: nat, ambiguous: nat,
                           findings: map<FindingKey, Finding>)

  function Empty(): Report {
    Report(0, 0, 0, 0, 0, map[])
  }

  /** References that stay without a target: the Error Book rows the report expects. */
  function Expected(r: Report): nat {
    r.unresolved + r.ambiguous
  }

  predicate Contains(s: string, part: string) {
    exists i :: 0 <= i <= |s| && part <= s[i..]
  }

  /** Cause and severity of a missing target. */
  function MissingCause(source: SourceKind, reference: string): (Cause, Severity) {
    var folded := Lower(reference);
    if source != PalDrops then (AbsentFromCatalog, Error)
    else if "boss_" <= folded then (BossVariant, Warning)
    else if "predator_" <= folded then (PredatorVariant, Warning)
    else if Contains(folded, "_quest_") || "quest_" <= folded then (QuestVariant, Warning)
    else if Contains(folded, "_oilrig") || Contains(folded, "_seabase") then (AreaVariant, Warning)
    else (SourceAbsent, Warning)
  }

  /** The finding a resolution is filed under, if it leaves one. */
  function FindingFor(source: SourceKind, target: TargetKind, raw: string, r: Resolution): Option<FindingKey> {
    match r.state
    case Exact => None
    case Canonicalized => Some(FindingKey(WasCanonicalized, Info, source, target, ByMethod(r.how)))
    case Missing =>
      var (cause, severity) := MissingCause(source, raw);
      Some(FindingKey(WasUnresolved, severity, source, target, cause))
    case Ambiguous => Some(FindingKey(WasAmbiguous, Error, source, target, ByMethod(r.how)))
  }

  function DuplicateKey(source: SourceKind, target: TargetKind): FindingKey {
    FindingKey(WasDuplicate, Warning, source, target, ExactDuplicate)
  }

  function WithFinding(findings: map<FindingKey, Finding>, key: FindingKey, subject: string,
                       reference: string): map<FindingKey, Finding> {
    var known := if key in findings then findings[key] else Finding(0, {}, {});
    findings[key := Finding(known.count + 1, known.subjects + {subject}, known.references + {reference})]
  }

  function Record(r: Report, source: SourceKind, target: TargetKind, subject: string, raw: string,
                  resolution: Resolution): Report {
    var key := FindingFor(source, target, raw, resolution);
    var findings := if key.Some? then WithFinding(r.findings, key.value, subject, raw) else r.findings;
    match resolution.state
    case Exact => r.(exact := r.exact + 1)
    case Canonicalized => r.(canonicalized := r.canonicalized + 1, findings := findings)
    case Missing => r.(unresolved := r.unresolved + 1, findings := findings)
    case Ambiguous => r.(ambiguous := r.ambiguous + 1, findings := findings)
  }

  function RecordDuplicate(r: Report, source: SourceKind, target: TargetKind, subject: string, raw: string): Report {
    r.(duplicates := r.duplicates + 1, findings := WithFinding(r.findings, DuplicateKey(source, target), subject, raw))
  }

  predicate Open(key: FindingKey) {
    key.status == WasUnresolved || key.status == WasAmbiguous
  }

  /** Occurrences of the findings that stay open. */
  ghost function OpenCounts(findings: map<FindingKey, Finding>): map<FindingKey, nat> {
    map key | key in findings && Open(key) :: findings[key].count
  }

  ghost function StatusCounts(findings: map<FindingKey, Finding>, status: Status): map<FindingKey, nat> {
    map key | key in findings && key.status == status :: findings[key].count
  }

  /** The findings account for every counter. */
  ghost predicate Tallied(r: Report) {
    && Sum(OpenCounts(r.findings)) == Expected(r)
    && Sum(StatusCounts(r.findings, WasCanonicalized)) == r.canonicalized
    && Sum(StatusCounts(r.findings, WasDuplicate)) == r.duplicates
  }

  lemma FindingMovesOpen(findings: map<FindingKey, Finding>, key: FindingKey, subject: string, reference: string)
    ensures Sum(OpenCounts(WithFinding(findings, key, subject, reference))) ==
            Sum(OpenCounts(findings)) + (if Open(key) then 1 else 0)
  {
    var after := WithFinding(findings, key, subject, reference);
    if Open(key) {
      assert OpenCounts(after) == Added(OpenCounts(findings), key, 1);
      SumAdded(OpenCounts(findings), key, 1);
    } else {
      assert OpenCounts(after) == OpenCounts(findings);
    }
  }

  lemma FindingMovesStatus(findings: map<FindingKey, Finding>, key: FindingKey, subject: string, reference: string,
                           status: Status)
    ensures Sum(StatusCounts(WithFinding(findings, key, subject, reference), status)) ==
            Sum(StatusCounts(findings, status)) + (if key.status == status then 1 else 0)
  {
    var after := WithFinding(findings, key, subject, reference);
    if key.status == status {
      assert StatusCounts(after, status) == Added(StatusCounts(findings, status), key, 1);
      SumAdded(StatusCounts(findings, status), key, 1);
    } else {
      assert StatusCounts(after, status) == StatusCounts(findings, status);
    }
  }

  lemma FindingMovesCounts(findings: map<FindingKey, Finding>, key: FindingKey, subject: string, reference: string)
    ensures var after := WithFinding(findings, key, subject, reference);
            && Sum(OpenCounts(after)) == Sum(OpenCounts(findings)) + (if Open(key) then 1 else 0)
            && Sum(StatusCounts(after, WasCanonicalized)) ==
               Sum(StatusCounts(findings, WasCanonicalized)) + (if key.status == WasCanonicalized then 1 else 0)
            && Sum(StatusCounts(after, WasDuplicate)) ==
               Sum(StatusCounts(findings, WasDuplicate)) + (if key.status == WasDuplicate then 1 else 0)
  {
    FindingMovesOpen(findings, key, subject, reference);
    FindingMovesStatus(findings, key, subject, reference, WasCanonicalized);
    FindingMovesStatus(findings, key, subject, reference, WasDuplicate);
  }

  lemma CountedFindingKeepsTally(r: Report, next: Report, key: FindingKey, subject: string, reference: string)
    requires Tallied(r) && next.findings == WithFinding(r.findings, key, subject, reference)
    requires Expected(next) == Expected(r) + if Open(key) then 1 else 0
    requires next.canonicalized == r.canonicalized + if key.status == WasCanonicalized then 1 else 0
    requires next.duplicates == r.duplicates + if key.status == WasDuplicate then 1 else 0
    ensures Tallied(next)
  {
    FindingMovesCounts(r.findings, key, subject, reference);
  }

  /** Recording a reference keeps the findings and the counters in step. */
  lemma RecordKeepsTally(r: Report, source: SourceKind, target: TargetKind, subject: string, raw: string,
                         resolution: Resolution)
    requires Tallied(r)
    ensures Tallied(Record(r, source, target, subject, raw, resolution))
    ensures Expected(Record(r, source, target, subject, raw, resolution)) ==
            Expected(r) + if Unsettled(resolution) then 1 else 0
  {
    var key := FindingFor(source, target, raw, resolution);
    if key.Some? {
      CountedFindingKeepsTally(r, Record(r, source, target, subject, raw, resolution), key.value, subject, raw);
    }
  }

  lemma DuplicateKeepsTally(r: Report, source: SourceKind, target: TargetKind, subject: string, raw: string)
    requires Tallied(r)
    ensures Tallied(RecordDuplicate(r, source, target, subject, raw))
    ensures Expected(RecordDuplicate(r, source, target, subject, raw)) == Expected(r)
  {
    CountedFindingKeepsTally(r, RecordDuplicate(r, source, target, subject, raw), DuplicateKey(source, target), subject,
                             raw);
  }

  // ----- the log of what was recorded

  datatype Event =
    | Resolved(source: SourceKind, target: TargetKind, subject: string, raw: string, resolution: Resolution)
    | Duplicate(source: SourceKind, target: TargetKind, subject: string, raw: string)

  function Apply(r: Report, e: Event): Report {
    match e
    case Resolved(source, target, subject, raw, resolution) => Record(r, source, target, subject, raw, resolution)
    case Duplicate(source, target, subject, raw) => RecordDuplicate(r, source, target, subject, raw)
  }

  /** The report after a series of records. */
  function Replay(log: seq<Event>): Report {
    if log == [] then Empty() else Apply(Replay(log[..|log| - 1]), log[|log| - 1])
  }

  /** How many recorded references stayed without a target. */
  function UnsettledEvents(log: seq<Event>): nat {
    if log == [] then 0
    else UnsettledEvents(log[..|log| - 1])
         + if log[|log| - 1].Resolved? && Unsettled(log[|log| - 1].resolution) then 1 else 0
  }

  lemma ReplayAppends(log: seq<Event>, e: Event)
    ensures Replay(log + [e]) == Apply(Replay(log), e)
    ensures UnsettledEvents(log + [e]) == UnsettledEvents(log) + if e.Resolved? && Unsettled(e.resolution) then 1 else 0
  {
    assert (log + [e])[..|log|] == log;
  }

  lemma LogGrows(log: seq<Event>, a: seq<Event>, b: seq<Event>)
    ensures (log + a) + b == log + (a + b)
  {
  }

  lemma {:induction false} UnsettledConcat(a: seq<Event>, b: seq<Event>)
    ensures UnsettledEvents(a + b) == UnsettledEvents(a) + UnsettledEvents(b)
  {
    if b == [] {
      assert a + b == a;
    } else {
      assert (a + b)[..|a + b| - 1] == a + b[..|b| - 1];
      UnsettledConcat(a, b[..|b| - 1]);
    }
  }

  /** After any series of records the findings add up to the counters, and the report expects
      one Error Book row for each recorded reference without a target. */
  lemma {:induction false} ReplayIsTallied(log: seq<Event>)
    ensures Tallied(Replay(log))
    ensures Expected(Replay(log)) == UnsettledEvents(log)
  {
    if log == [] {
      assert OpenCounts(map[]) == map[];
      assert StatusCounts(map[], WasCanonicalized) == map[];
      assert StatusCounts(map[], WasDuplicate) == map[];
    } else {
      var before, e := log[..|log| - 1], log[|log| - 1];
      ReplayIsTallied(before);
      match e
      case Resolved(source, target, subject, raw, resolution) =>
        RecordKeepsTally(Replay(before), source, target, subject, raw, resolution);
      case Duplicate(source, target, subject, raw) =>
        DuplicateKeepsTally(Replay(before), source, target, subject, raw);
    }
  }

  // ----- the builder

  class Builder {
    var exact: nat
    var canonicalized: nat
    var duplicates: nat
    var unresolved: nat
    var ambiguous: nat
    var findings: map<FindingKey, Finding>

    ghost var log: seq<Event>

    constructor ()
      ensures Valid() && log == []
    {
      exact, canonicalized, duplicates, unresolved, ambiguous, findings := 0, 0, 0, 0, 0, map[];
      log := [];
    }

    function Current(): Report
      reads this
    {
      Report(exact, canonicalized, duplicates, unresolved, ambiguous, findings)
    }

    /** The fields hold the report of everything recorded so far. (The quantifier keeps the
        definition of the report out of proofs that only extend the log.) */
    ghost predicate Valid()
      reads this
    {
      forall l {:trigger Replay(l)} :: l == log ==> Current() == Replay(l)
    }

    method RecordFinding(key: FindingKey, subject: string, reference: string)
      modifies this`findings
      ensures findings == WithFinding(old(findings), key, subject, reference)
    {
      findings := WithFinding(findings, key, subject, reference);
    }

    method RecordResolution(source: SourceKind, target: TargetKind, subject: string, raw: string,
                            resolution: Resolution)
      requires Valid()
      modifies this
      ensures Valid() && log == old(log) + [Resolved(source, target, subject, raw, resolution)]
    {
      ReplayAppends(log, Resolved(source, target, subject, raw, resolution));
      log := log + [Resolved(source, target, subject, raw, resolution)];
      match resolution.state
      case Exact =>
        exact := exact + 1;
      case Canonicalized =>
        canonicalized := canonicalized + 1;
        RecordFinding(FindingKey(WasCanonicalized, Info, source, target, ByMethod(resolution.how)), subject, raw);
      case Missing =>
        unresolved := unresolved + 1;
        var (cause, severity) := MissingCause(source, raw);
        RecordFinding(FindingKey(WasUnresolved, severity, source, target, cause), subject, raw);
      case Ambiguous =>
        ambiguous := ambiguous + 1;
        RecordFinding(FindingKey(WasAmbiguous, Error, source, target, ByMethod(resolution.how)), subject, raw);
    }

    method RecordDuplicateReference(source: SourceKind, target: TargetKind, subject: string, raw: string)
      requires Valid()
      modifies this
      ensures Valid() && log == old(log) + [Duplicate(source, target, subject, raw)]
    {
      ReplayAppends(log, Duplicate(source, target, subject, raw));
      log := log + [Duplicate(source, target, subject, raw)];
      duplicates := duplicates + 1;
      RecordFinding(DuplicateKey(source, target), subject, raw);
    }

    /** The three breakdowns of the open references. Each label shows the sum of its findings,
        and each breakdown as a whole sums to the unresolved and ambiguous references. */
    method Finish() returns (bySource: map<SourceKind, nat>, bySeverity: map<Severity, nat>, byCause: map<Cause, nat>)
      requires Valid()
      ensures Sum(bySource) == Sum(bySeverity) == Sum(byCause) == Expected(Current())
      ensures Groups(bySource, OpenCounts(findings), SourceOf)
      ensures Groups(bySeverity, OpenCounts(findings), SeverityOf)
      ensures Groups(byCause, OpenCounts(findings), CauseOf)
    {
      ReplayIsTallied(log);
      assert Current() == Replay(log);
      bySource, bySeverity, byCause := BreakDown(findings);
    }
  }

  method BreakDown(findings: map<FindingKey, Finding>)
    returns (bySource: map<SourceKind, nat>, bySeverity: map<Severity, nat>, byCause: map<Cause, nat>)
    ensures BrokenDown(bySource, bySeverity, byCause, OpenCounts(findings))
  {
    bySource, bySeverity, byCause := map[], map[], map[];
    var seen: set<FindingKey> := {};
    ghost var done: map<FindingKey, nat> := map[];
    NothingBrokenDown();
    while seen != findings.Keys
      invariant seen <= findings.Keys
      invariant done == OpenAmong(findings, seen)
      invariant BrokenDown(bySource, bySeverity, byCause, done)
      decreases |findings.Keys - seen|
    {
      var key :| key in findings.Keys - seen;
      assert findings.Keys - (seen + {key}) == (findings.Keys - seen) - {key};
      OpenAmongStep(findings, seen, key);
      if Open(key) {
        var n := findings[key].count;
        FindingBrokenDown(bySource, bySeverity, byCause, done, key, n);
        bySource := Added(bySource, key.source, n);
        bySeverity := Added(bySeverity, key.severity, n);
        byCause := Added(byCause, key.cause, n);
        done := done[key := n];
      }
      seen := seen + {key};
    }
    assert OpenAmong(findings, seen) == OpenCounts(findings);
  }

  lemma OpenAmongStep(findings: map<FindingKey, Finding>, keys: set<FindingKey>, key: FindingKey)
    requires key in findings && key !in keys
    ensures key !in OpenAmong(findings, keys)
    ensures OpenAmong(findings, keys + {key}) ==
            if Open(key) then OpenAmong(findings, keys)[key := findings[key].count] else OpenAmong(findings, keys)
  {
  }

  ghost function OpenAmong(findings: map<FindingKey, Finding>, keys: set<FindingKey>): map<FindingKey, nat> {
    map key | key in findings && key in keys && Open(key) :: findings[key].count
  }

  ghost predicate BrokenDown(bySource: map<SourceKind, nat>, bySeverity: map<Severity, nat>, byCause: map<Cause, nat>,
                             counts: map<FindingKey, nat>)
  {
    Breakdown(bySource, counts, SourceOf) && Breakdown(bySeverity, counts, SeverityOf)
    && Breakdown(byCause, counts, CauseOf)
  }

  lemma NothingBrokenDown()
    ensures BrokenDown(map[], map[], map[], map[])
  {
    BreakdownOfNothing(SourceOf);
    BreakdownOfNothing(SeverityOf);
    BreakdownOfNothing(CauseOf);
  }

  lemma FindingBrokenDown(bySource: map<SourceKind, nat>, bySeverity: map<Severity, nat>, byCause: map<Cause, nat>,
                          counts: map<FindingKey, nat>, key: FindingKey, n: nat)
    requires BrokenDown(bySource, bySeverity, byCause, counts) && key !in counts
    ensures BrokenDown(Added(bySource, key.source, n), Added(bySeverity, key.severity, n), Added(byCause, key.cause, n),
                       counts[key := n])
  {
    BreakdownAdds(bySource, counts, SourceOf, key, n);
    BreakdownAdds(bySeverity, counts, SeverityOf, key, n);
    BreakdownAdds(byCause, counts, CauseOf, key, n);
  }

  function SourceOf(key: FindingKey): SourceKind {
    key.source
  }

  function SeverityOf(key: FindingKey): Severity {
    key.severity
  }

  function CauseOf(key: FindingKey): Cause {
    key.cause
  }

  ghost predicate Breakdown<K, L(!new)>(g: map<L, nat>, m: map<K, nat>, tag: K -> L) {
    Sum(g) == Sum(m) && Groups(g, m, tag)
  }

  lemma BreakdownAdds<K, L(!new)>(g: map<L, nat>, m: map<K, nat>, tag: K -> L, k: K, n: nat)
    requires Breakdown(g, m, tag) && k !in m
    ensures Breakdown(Added(g, tag(k), n), m[k := n], tag)
  {
    GroupsAdded(g, m, tag, k, n);
    SumAdded(g, tag(k), n);
    SumUpdate(m, k, n);
  }

  lemma BreakdownOfNothing<K, L(!new)>(tag: K -> L)
    ensures Breakdown(map[], map[], tag)
  {
    forall l: L
      ensures Sum(Labelled(map[], tag, l)) == 0
    {
      assert Labelled(map[], tag, l) == map[];
    }
  }
}
