/** What a quality report says about a log of references: every counter and every finding is a
    count of records of its own kind. */
module QualityFindings {
  import opened Basics
  import opened Text
  import opened ReferenceIndex
  import opened QualityReport

  // ----- what one record is filed as

  /** The part occurs in the text. */
  ghost predicate Holds(s: string, part: string) {
    exists before, after :: s == before + part + after
  }

  lemma ContainsMeans(s: string, part: string)
    ensures Contains(s, part) <==> Holds(s, part)
  {
    if i :| 0 <= i <= |s| && part <= s[i..] {
      assert s == s[..i] + part + s[i..][|part|..];
    }
    if before, after :| s == before + part + after {
      assert s[|before|..] == part + after;
    }
  }

  ghost predicate IsBoss(raw: string) {
    "boss_" <= Lower(raw)
  }

  ghost predicate IsPredator(raw: string) {
    "predator_" <= Lower(raw)
  }

  ghost predicate IsQuest(raw: string) {
    "quest_" <= Lower(raw) || Holds(Lower(raw), "_quest_")
  }

  ghost predicate IsArea(raw: string) {
    Holds(Lower(raw), "_oilrig") || Holds(Lower(raw), "_seabase")
  }

  lemma MarksDiffer()
    ensures "boss_"[0] == 'b' && "predator_"[0] == 'p' && "quest_"[0] == 'q'
  {
  }

  /** Why a target is missing, and how severe that is: only the species of drops have variants. */
  lemma CausesMean(source: SourceKind, raw: string)
    ensures var (cause, severity) := MissingCause(source, raw);
            && (severity == Warning <==> source == PalDrops) && (severity == Error <==> source != PalDrops)
            && (cause == AbsentFromCatalog <==> source != PalDrops)
            && (cause == BossVariant <==> source == PalDrops && IsBoss(raw))
            && (cause == PredatorVariant <==> source == PalDrops && IsPredator(raw))
            && (cause == QuestVariant <==> source == PalDrops && !IsBoss(raw) && !IsPredator(raw) && IsQuest(raw))
            && (cause == AreaVariant <==>
                source == PalDrops && !IsBoss(raw) && !IsPredator(raw) && !IsQuest(raw) && IsArea(raw))
            && (cause == SourceAbsent <==>
                source == PalDrops && !IsBoss(raw) && !IsPredator(raw) && !IsQuest(raw) && !IsArea(raw))
  {
    ContainsMeans(Lower(raw), "_quest_");
    ContainsMeans(Lower(raw), "_oilrig");
    ContainsMeans(Lower(raw), "_seabase");
    MarksDiffer();
  }

  /** The record is filed under the key. */
  ghost predicate FiledAs(e: Event, key: FindingKey) {
    && key.source == e.source && key.target == e.target
    && if e.Duplicate? then key.status == WasDuplicate && key.severity == Warning && key.cause == ExactDuplicate
       else match e.resolution.state
         case Exact => false
         case Canonicalized =>
           key.status == WasCanonicalized && key.severity == Info && key.cause == ByMethod(e.resolution.how)
         case Ambiguous =>
           key.status == WasAmbiguous && key.severity == Error && key.cause == ByMethod(e.resolution.how)
         case Missing => key.status == WasUnresolved && (key.cause, key.severity) == MissingCause(e.source, e.raw)
  }

  // ----- counts over a log

  ghost function Count(log: seq<Event>, p: Event -> bool): nat {
    if log == [] then 0 else Count(log[..|log| - 1], p) + if p(log[|log| - 1]) then 1 else 0
  }

  ghost predicate InState(e: Event, state: State) {
    e.Resolved? && e.resolution.state == state
  }

  /** Every counter of the report counts the records of its state. */
  lemma {:induction false} CountersCount(log: seq<Event>)
    ensures var r := Replay(log);
            && r.exact == Count(log, e => InState(e, Exact))
            && r.canonicalized == Count(log, e => InState(e, Canonicalized))
            && r.unresolved == Count(log, e => InState(e, Missing))
            && r.ambiguous == Count(log, e => InState(e, Ambiguous))
            && r.duplicates == Count(log, (e: Event) => e.Duplicate?)
  {
    if log != [] {
      CountersCount(log[..|log| - 1]);
    }
  }

  ghost function Occurrences(log: seq<Event>, key: FindingKey): nat {
    Count(log, e => FiledAs(e, key))
  }

  ghost function Subjects(log: seq<Event>, key: FindingKey): set<string> {
    set e | e in log && FiledAs(e, key) :: e.subject
  }

  ghost function RawReferences(log: seq<Event>, key: FindingKey): set<string> {
    set e | e in log && FiledAs(e, key) :: e.raw
  }

  function FindingAt(findings: map<FindingKey, Finding>, key: FindingKey): Finding {
    if key in findings then findings[key] else Finding(0, {}, {})
  }

  lemma ApplyFiles(r: Report, e: Event, key: FindingKey)
    ensures FindingAt(Apply(r, e).findings, key) ==
            if FiledAs(e, key) then
              var f := FindingAt(r.findings, key);
              Finding(f.count + 1, f.subjects + {e.subject}, f.references + {e.raw})
            else FindingAt(r.findings, key)
  {
  }

  lemma SubjectsGrow(log: seq<Event>, e: Event, key: FindingKey)
    ensures Subjects(log + [e], key) == Subjects(log, key) + if FiledAs(e, key) then {e.subject} else {}
    ensures RawReferences(log + [e], key) == RawReferences(log, key) + if FiledAs(e, key) then {e.raw} else {}
  {
  }

  /** Every finding counts the records filed under its key and lists their subjects and references. */
  lemma {:induction false} FindingsCount(log: seq<Event>, key: FindingKey)
    ensures FindingAt(Replay(log).findings, key) ==
            Finding(Occurrences(log, key), Subjects(log, key), RawReferences(log, key))
  {
    if log != [] {
      var before, e := log[..|log| - 1], log[|log| - 1];
      FindingsCount(before, key);
      ApplyFiles(Replay(before), e, key);
      assert log == before + [e];
      SubjectsGrow(before, e, key);
    }
  }
}
