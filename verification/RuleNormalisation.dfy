/** The compiler's normalisation of breeding rules, and why the planner cannot tell normalised
    rules from the source's. */
module RuleNormalisation {
  import opened Basics
  import opened Ordering
  import opened Breeding
  import opened BreedingSearch
  import opened BreedingPlanner
  import opened KnowledgeProjection
  import SeedCompiler

  const WILDCARD := "WILDCARD"

  datatype SourceRule = SourceRule(genderA: string, genderB: string, parentA: string, parentB: string, child: string)

  predicate GenderSpecific(r: SourceRule) {
    r.genderA != WILDCARD || r.genderB != WILDCARD
  }

  predicate UnknownSpecies(r: SourceRule, species: set<string>) {
    r.parentA !in species || r.parentB !in species || r.child !in species
  }

  predicate Kept(r: SourceRule, species: set<string>) {
    !GenderSpecific(r) && !UnknownSpecies(r, species)
  }

  /** A rule is kept when both parents may have any gender and all three species are known. */
  lemma KeptMeans(r: SourceRule, species: set<string>)
    ensures Kept(r, species) <==>
            && r.genderA == "WILDCARD" && r.genderB == "WILDCARD"
            && r.parentA in species && r.parentB in species && r.child in species
    ensures GenderSpecific(r) <==> r.genderA != "WILDCARD" || r.genderB != "WILDCARD"
  {
  }

  /** A row stands for a source rule: same child, same parents in either order. */
  predicate StandsFor(row: RuleRow, r: SourceRule) {
    && row.2 == r.child
    && ((row.0 == r.parentA && row.1 == r.parentB) || (row.0 == r.parentB && row.1 == r.parentA))
  }

  predicate InOrder(row: RuleRow) {
    !StringLess(row.1, row.0)
  }

  ghost predicate Justified(row: RuleRow, source: seq<SourceRule>, species: set<string>) {
    exists r :: r in source && Kept(r, species) && StandsFor(row, r)
  }

  ghost predicate Represented(r: SourceRule, rows: set<RuleRow>) {
    exists row :: row in rows && StandsFor(row, r)
  }

  /** The rows stand for the kept rules of the source, all of them and nothing else. */
  ghost predicate Normalises(rows: set<RuleRow>, source: seq<SourceRule>, species: set<string>) {
    && (forall row :: row in rows ==> Justified(row, source, species))
    && (forall r :: r in source && Kept(r, species) ==> Represented(r, rows))
  }

  // ----- the loop over the source

  /** Indices below n of the source rules with a property. */
  ghost function Where(source: seq<SourceRule>, p: SourceRule -> bool, n: nat): set<nat>
    requires n <= |source|
  {
    set i: nat | i < n && p(source[i])
  }

  lemma WhereGrows(source: seq<SourceRule>, p: SourceRule -> bool, n: nat)
    requires n < |source|
    ensures |Where(source, p, n + 1)| == |Where(source, p, n)| + if p(source[n]) then 1 else 0
  {
    assert Where(source, p, n + 1) == Where(source, p, n) + if p(source[n]) then {n} else {};
  }

  function OrderedRow(r: SourceRule): RuleRow {
    if !StringLess(r.parentB, r.parentA) then (r.parentA, r.parentB, r.child) else (r.parentB, r.parentA, r.child)
  }

  ghost predicate NormalisesFirst(rows: set<RuleRow>, source: seq<SourceRule>, species: set<string>, n: nat)
    requires n <= |source|
  {
    && (forall row :: row in rows ==> InOrder(row) && Justified(row, source, species))
    && (forall k :: 0 <= k < n && Kept(source[k], species) ==> Represented(source[k], rows))
  }

  lemma SkipStep(rows: set<RuleRow>, source: seq<SourceRule>, species: set<string>, n: nat)
    requires n < |source| && NormalisesFirst(rows, source, species, n) && !Kept(source[n], species)
    ensures NormalisesFirst(rows, source, species, n + 1)
  {
  }

  lemma KeepStep(rows: set<RuleRow>, source: seq<SourceRule>, species: set<string>, n: nat)
    requires n < |source| && NormalisesFirst(rows, source, species, n) && Kept(source[n], species)
    ensures NormalisesFirst(rows + {OrderedRow(source[n])}, source, species, n + 1)
  {
    StringOrderIsTotal();
    var row := OrderedRow(source[n]);
    assert StandsFor(row, source[n]) && source[n] in source;
    forall k | 0 <= k < n + 1 && Kept(source[k], species)
      ensures Represented(source[k], rows + {row})
    {
      if k < n {
        var found :| found in rows && StandsFor(found, source[k]);
      }
    }
  }

  /** Every rule is counted as skipped for one reason or is represented, once, by the row with
      its parents in order; no row represents anything else. */
  method NormaliseRules(source: seq<SourceRule>, species: set<string>)
    returns (rules: set<RuleRow>, skippedGender: nat, skippedUnknown: nat)
    ensures skippedGender == |Where(source, GenderSpecific, |source|)|
    ensures skippedUnknown == |Where(source, r => !GenderSpecific(r) && UnknownSpecies(r, species), |source|)|
    ensures skippedGender + skippedUnknown + |Where(source, r => Kept(r, species), |source|)| == |source|
    ensures Normalises(rules, source, species) && forall row :: row in rules ==> InOrder(row)
  {
    rules, skippedGender, skippedUnknown := {}, 0, 0;
    ghost var unknown := (r: SourceRule) => !GenderSpecific(r) && UnknownSpecies(r, species);
    ghost var kept := (r: SourceRule) => Kept(r, species);
    for i := 0 to |source|
      invariant skippedGender == |Where(source, GenderSpecific, i)| && skippedUnknown == |Where(source, unknown, i)|
      invariant skippedGender + skippedUnknown + |Where(source, kept, i)| == i
      invariant NormalisesFirst(rules, source, species, i)
    {
      WhereGrows(source, GenderSpecific, i);
      WhereGrows(source, unknown, i);
      WhereGrows(source, kept, i);
      var rule := source[i];
      if rule.genderA != WILDCARD || rule.genderB != WILDCARD {
        SkipStep(rules, source, species, i);
        skippedGender := skippedGender + 1;
        continue;
      }
      if rule.parentA !in species || rule.parentB !in species || rule.child !in species {
        SkipStep(rules, source, species, i);
        skippedUnknown := skippedUnknown + 1;
        continue;
      }
      KeepStep(rules, source, species, i);
      rules := rules + {OrderedRow(rule)};
    }
  }

  /** Two ordered rows that stand for one rule are one row: duplicates and swapped pairs merge. */
  lemma OneRowPerRule(x: RuleRow, y: RuleRow, r: SourceRule)
    requires InOrder(x) && InOrder(y) && StandsFor(x, r) && StandsFor(y, r)
    ensures x == y
  {
    StringOrderIsTotal();
  }

  // ----- the planner's view

  /** Same child and same parents in either order; the rule ids may differ. */
  predicate Alike(a: Rule, b: Rule) {
    && a.child == b.child
    && ((a.parentA == b.parentA && a.parentB == b.parentB) || (a.parentA == b.parentB && a.parentB == b.parentA))
  }

  ghost predicate Covers(a: seq<Rule>, b: seq<Rule>) {
    forall r :: r in b ==> exists s :: s in a && Alike(s, r)
  }

  lemma {:induction false} CoverDerives(start: KnownMap, a: seq<Rule>, b: seq<Rule>, s: string, n: nat)
    requires Covers(a, b) && Within(start, b, s, n)
    ensures Within(start, a, s, n)
    decreases n
  {
    if s !in start {
      var r :| r in b && DerivesBy(start, b, r, s, n);
      var other :| other in a && Alike(other, r);
      CoverDerives(start, a, b, r.parentA, n - 1);
      CoverDerives(start, a, b, r.parentB, n - 1);
      assert DerivesBy(start, a, other, s, n);
    }
  }

  lemma SortedCovers(p: Request, q: Request)
    requires Covers(p.rules, q.rules)
    ensures Covers(SortedRules(p), SortedRules(q))
  {
    SortBySorts(RuleKey, p.rules);
    SortBySorts(RuleKey, q.rules);
    forall r | r in SortedRules(q)
      ensures exists s :: s in SortedRules(p) && Alike(s, r)
    {
      assert r in multiset(SortedRules(q));
      assert r in q.rules;
      var s :| s in p.rules && Alike(s, r);
      assert s in multiset(p.rules);
      assert s in SortedRules(p);
    }
  }

  lemma CoverNoLater(p: Request, q: Request, s: string)
    requires p.owned == q.owned && p.cap == q.cap && Covers(p.rules, q.rules) && s in FinalKnown(q)
    ensures s in FinalKnown(p) && FinalKnown(p)[s].generation <= FinalKnown(q)[s].generation
  {
    FinalIsFixpoint(p);
    FinalIsFixpoint(q);
    SortedCovers(p, q);
    var known := FinalKnown(q);
    KnownIsDerivable(Start(q), SortedRules(q), q.cap, known, s);
    assert s !in Start(q) ==> Backed(SortedRules(q), q.cap, known, s);
    CoverDerives(Start(p), SortedRules(p), SortedRules(q), s, known[s].generation);
    FixpointIsLeast(Start(p), SortedRules(p), p.cap, FinalKnown(p), s, known[s].generation);
  }

  /** Rules that cover each other give every species the same least generation. */
  lemma SameLeastGenerations(p: Request, q: Request, s: string)
    requires p.owned == q.owned && p.cap == q.cap && Covers(p.rules, q.rules) && Covers(q.rules, p.rules)
    ensures s in FinalKnown(p) <==> s in FinalKnown(q)
    ensures s in FinalKnown(p) ==> FinalKnown(p)[s].generation == FinalKnown(q)[s].generation
  {
    if s in FinalKnown(p) { CoverNoLater(q, p, s); }
    if s in FinalKnown(q) { CoverNoLater(p, q, s); }
  }

  /** The planner's rules for a source, with ids from any naming. */
  ghost predicate ListsKept(rules: seq<Rule>, source: seq<SourceRule>, species: set<string>) {
    && (forall rule :: rule in rules ==> exists r :: r in source && Kept(r, species) && RuleOf(rule, r))
    && (forall r :: r in source && Kept(r, species) ==> exists rule :: rule in rules && RuleOf(rule, r))
  }

  predicate RuleOf(rule: Rule, r: SourceRule) {
    rule.parentA == r.parentA && rule.parentB == r.parentB && rule.child == r.child
  }

  ghost predicate ListsRows(rules: seq<Rule>, rows: set<RuleRow>) {
    && (forall rule :: rule in rules ==> (rule.parentA, rule.parentB, rule.child) in rows)
    && (forall row :: row in rows ==> exists rule :: rule in rules && RowOf(rule, row))
  }

  predicate RowOf(rule: Rule, row: RuleRow) {
    (rule.parentA, rule.parentB, rule.child) == row
  }

  lemma RowsCoverSource(rows: set<RuleRow>, source: seq<SourceRule>, species: set<string>, kept: seq<Rule>,
                        normal: seq<Rule>)
    requires forall r :: r in source && Kept(r, species) ==> Represented(r, rows)
    requires forall rule :: rule in kept ==> exists r :: r in source && Kept(r, species) && RuleOf(rule, r)
    requires forall row :: row in rows ==> exists rule :: rule in normal && RowOf(rule, row)
    ensures Covers(normal, kept)
  {
    forall rule | rule in kept
      ensures exists other :: other in normal && Alike(other, rule)
    {
      var r :| r in source && Kept(r, species) && RuleOf(rule, r);
      var row :| row in rows && StandsFor(row, r);
      var other :| other in normal && RowOf(other, row);
      assert Alike(other, rule);
    }
  }

  lemma SourceCoversRows(rows: set<RuleRow>, source: seq<SourceRule>, species: set<string>, kept: seq<Rule>,
                         normal: seq<Rule>)
    requires forall row :: row in rows ==> Justified(row, source, species)
    requires forall r :: r in source && Kept(r, species) ==> exists rule :: rule in kept && RuleOf(rule, r)
    requires forall rule :: rule in normal ==> (rule.parentA, rule.parentB, rule.child) in rows
    ensures Covers(kept, normal)
  {
    forall rule | rule in normal
      ensures exists other :: other in kept && Alike(other, rule)
    {
      var row := (rule.parentA, rule.parentB, rule.child);
      var r :| r in source && Kept(r, species) && StandsFor(row, r);
      var other :| other in kept && RuleOf(other, r);
      assert Alike(other, rule);
    }
  }

  /** Planning with the normalised rows breeds every species in the same least generation as
      planning with the kept source rules themselves. */
  lemma NormalisationKeepsGenerations(p: Request, q: Request, source: seq<SourceRule>, species: set<string>,
                                      rows: set<RuleRow>, s: string)
    requires p.owned == q.owned && p.cap == q.cap
    requires Normalises(rows, source, species) && ListsKept(p.rules, source, species) && ListsRows(q.rules, rows)
    ensures s in FinalKnown(p) <==> s in FinalKnown(q)
    ensures s in FinalKnown(p) ==> FinalKnown(p)[s].generation == FinalKnown(q)[s].generation
  {
    RowsCoverSource(rows, source, species, p.rules, q.rules);
    SourceCoversRows(rows, source, species, p.rules, q.rules);
    SameLeastGenerations(p, q, s);
  }

  /** For a whole compilation, the projection inserts the predicted numbers of nodes and pages. */
  lemma CompiledCountsHold(src: SeedCompiler.Sources, source: seq<SourceRule>, rows: set<RuleRow>, rules: seq<RuleRow>)
    requires SeedCompiler.Compile(src).Success? && Distinct(src.passives)
    requires Normalises(rows, source, Elements(SeedCompiler.SpeciesIds(src.species)))
    requires forall row :: row in rules ==> row in rows
    ensures var t := SeedCompiler.Compile(src).value.0;
            |WikiPages(GraphNodes(t, rules))| == PredictedPages(t)
            && |AllNodes(t, rules)| == 2 * PredictedPages(t) + |rules|
  {
    CompiledIsWellKeyed(src);
    var t := SeedCompiler.Compile(src).value.0;
    forall row | row in rules
      ensures row.0 in RowIds(t.species) && row.1 in RowIds(t.species) && row.2 in RowIds(t.species)
    {
      assert Justified(row, source, Elements(SeedCompiler.SpeciesIds(src.species)));
    }
    PredictedCountsHold(t, rules);
  }
}
