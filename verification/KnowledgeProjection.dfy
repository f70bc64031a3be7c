/** The knowledge projection, read as relational queries over the compiled tables, and its
    agreement with the quality report. */
module KnowledgeProjection {
  import opened Basics
  import opened Text
  import opened ReferenceIndex
  import opened QualityReport
  import opened SeedCompiler
  import opened SeedRows

  type RuleRow = (string, string, string)

  datatype Node =
    | SpeciesNode(id: string) | SkillNode(id: string) | PassiveNode(id: string) | ItemNode(id: string)
    | RecipeNode(id: string) | RuleNode(rule: RuleRow) | WikiNode(page: Node)

  /** A reference between catalogue entries; it becomes an edge or an Error Book row. */
  datatype Reference =
    | SkillRef(species: string, skill: string)
    | PassiveRef(species: string, passive: string)
    | DropRef(method_: string, species: string, item: string)
    | UnlockRef(recipe: string, item: string)

  // ----- node and page statements

  function Occurrences<T(==)>(s: seq<T>, x: T): nat {
    if s == [] then 0 else Occurrences(s[..|s| - 1], x) + if s[|s| - 1] == x then 1 else 0
  }

  function Repeat<T>(x: T, n: nat): (r: seq<T>)
    ensures |r| == n
  {
    seq(n, _ => x)
  }

  function RowIds(species: seq<SpeciesRow>): seq<string> {
    Mapped((s: SpeciesRow) => s.id, species)
  }

  /** One node per recipe and matching row of its output item. */
  function RecipeNodes(recipes: seq<RecipeRow>, items: seq<string>): seq<Node> {
    if recipes == [] then []
    else
      var last := recipes[|recipes| - 1];
      RecipeNodes(recipes[..|recipes| - 1], items) + Repeat(RecipeNode(last.id), Occurrences(items, last.outputItem))
  }

  /** One node per rule and combination of matching rows of its three species. */
  function RuleNodes(rules: seq<RuleRow>, species: seq<string>): seq<Node> {
    if rules == [] then []
    else
      var last := rules[|rules| - 1];
      RuleNodes(rules[..|rules| - 1], species)
      + Repeat(RuleNode(last),
               Occurrences(species, last.0) * Occurrences(species, last.1) * Occurrences(species, last.2))
  }

  function GraphNodes(t: Tables, rules: seq<RuleRow>): seq<Node> {
    Mapped((id: string) => SpeciesNode(id), RowIds(t.species))
    + Mapped((id: string) => SkillNode(id), t.skills)
    + Mapped((id: string) => PassiveNode(id), t.passives)
    + Mapped((id: string) => ItemNode(id), t.items)
    + RecipeNodes(t.recipes, t.items)
    + RuleNodes(rules, RowIds(t.species))
  }

  /** A page for every node that is neither a page nor a breeding rule. */
  function WikiPages(nodes: seq<Node>): seq<Node> {
    if nodes == [] then []
    else
      var last := nodes[|nodes| - 1];
      WikiPages(nodes[..|nodes| - 1]) + if last.WikiNode? || last.RuleNode? then [] else [last]
  }

  function AllNodes(t: Tables, rules: seq<RuleRow>): seq<Node> {
    GraphNodes(t, rules) + Mapped((page: Node) => WikiNode(page), WikiPages(GraphNodes(t, rules)))
  }

  // ----- gap and edge statements

  function SkillRefs(species: seq<SpeciesRow>): seq<Reference> {
    if species == [] then []
    else
      var last := species[|species| - 1];
      SkillRefs(species[..|species| - 1]) + Mapped((s: LearnedSkill) => SkillRef(last.id, s.skillId), last.learned)
  }

  function PassiveRefs(species: seq<SpeciesRow>): seq<Reference> {
    if species == [] then []
    else
      var last := species[|species| - 1];
      PassiveRefs(species[..|species| - 1]) + Mapped((id: string) => PassiveRef(last.id, id), last.passives)
  }

  function DropRefs(drops: seq<DropRow>): seq<Reference> {
    Mapped((d: DropRow) => DropRef(d.methodId, d.sourceSpecies, d.itemId), drops)
  }

  /** Recipes whose unlock item is not NULL. */
  function UnlockRefs(recipes: seq<RecipeRow>): seq<Reference> {
    if recipes == [] then []
    else
      var last := recipes[|recipes| - 1];
      UnlockRefs(recipes[..|recipes| - 1])
      + if last.unlockItem.Some? then [UnlockRef(last.id, last.unlockItem.value)] else []
  }

  function References(t: Tables): seq<Reference> {
    SkillRefs(t.species) + PassiveRefs(t.species) + DropRefs(t.drops) + UnlockRefs(t.recipes)
  }

  /** The node whose presence decides about the reference. */
  function Endpoint(ref: Reference): Node {
    match ref
    case SkillRef(_, skill) => SkillNode(skill)
    case PassiveRef(_, passive) => PassiveNode(passive)
    case DropRef(_, species, _) => SpeciesNode(species)
    case UnlockRef(_, item) => ItemNode(item)
  }

  /** Error Book rows: references WHERE NOT EXISTS their endpoint. */
  function Gaps(refs: seq<Reference>, nodes: seq<Node>): seq<Reference> {
    if refs == [] then []
    else Gaps(refs[..|refs| - 1], nodes) + if Endpoint(refs[|refs| - 1]) in nodes then [] else [refs[|refs| - 1]]
  }

  /** Edges: references JOINed with the rows of their endpoint. */
  function Edges(refs: seq<Reference>, nodes: seq<Node>): seq<Reference> {
    if refs == [] then []
    else Edges(refs[..|refs| - 1], nodes) + Repeat(refs[|refs| - 1], Occurrences(nodes, Endpoint(refs[|refs| - 1])))
  }

  // ----- occurrences

  lemma {:induction false} OccurrencesConcat<T>(a: seq<T>, b: seq<T>, x: T)
    ensures Occurrences(a + b, x) == Occurrences(a, x) + Occurrences(b, x)
  {
    if b == [] {
      assert a + b == a;
    } else {
      assert (a + b)[..|a + b| - 1] == a + b[..|b| - 1];
      OccurrencesConcat(a, b[..|b| - 1], x);
    }
  }

  lemma {:induction false} OccursIffIn<T>(s: seq<T>, x: T)
    ensures Occurrences(s, x) > 0 <==> x in s
    ensures (forall i, j :: 0 <= i < j < |s| ==> s[i] != s[j]) ==> Occurrences(s, x) <= 1
  {
    if s != [] {
      var before := s[..|s| - 1];
      OccursIffIn(before, x);
      assert s == before + [s[|s| - 1]];
    }
  }

  lemma {:induction false} OccurrencesMapped<S, T>(f: S -> T, s: seq<S>, x: S)
    requires forall a, b :: a in s + [x] && b in s + [x] && f(a) == f(b) ==> a == b
    ensures Occurrences(Mapped(f, s), f(x)) == Occurrences(s, x)
  {
    if s != [] {
      var before, last := s[..|s| - 1], s[|s| - 1];
      assert s == before + [last];
      assert Mapped(f, s)[..|s| - 1] == Mapped(f, before);
      OccurrencesMapped(f, before, x);
      assert last in s + [x] && x in s + [x];
    }
  }

  // ----- which rows an endpoint has

  /** The catalogue column a reference points into, and the id it looks for. */
  function Catalogue(t: Tables, ref: Reference): seq<string> {
    match ref
    case SkillRef(_, _) => t.skills
    case PassiveRef(_, _) => t.passives
    case DropRef(_, _, _) => RowIds(t.species)
    case UnlockRef(_, _) => t.items
  }

  function Key(ref: Reference): string {
    match ref
    case SkillRef(_, skill) => skill
    case PassiveRef(_, passive) => passive
    case DropRef(_, species, _) => species
    case UnlockRef(_, item) => item
  }

  lemma {:induction false} RecipeNodesAreRecipes(recipes: seq<RecipeRow>, items: seq<string>, n: Node)
    requires !n.RecipeNode?
    ensures Occurrences(RecipeNodes(recipes, items), n) == 0
  {
    if recipes != [] {
      var last := recipes[|recipes| - 1];
      RecipeNodesAreRecipes(recipes[..|recipes| - 1], items, n);
      var more := Repeat(RecipeNode(last.id), Occurrences(items, last.outputItem));
      OccurrencesConcat(RecipeNodes(recipes[..|recipes| - 1], items), more, n);
      OccursIffIn(more, n);
    }
  }

  lemma {:induction false} RuleNodesAreRules(rules: seq<RuleRow>, species: seq<string>, n: Node)
    requires !n.RuleNode?
    ensures Occurrences(RuleNodes(rules, species), n) == 0
  {
    if rules != [] {
      var last := rules[|rules| - 1];
      RuleNodesAreRules(rules[..|rules| - 1], species, n);
      var more := Repeat(RuleNode(last),
                         Occurrences(species, last.0) * Occurrences(species, last.1) * Occurrences(species, last.2));
      OccurrencesConcat(RuleNodes(rules[..|rules| - 1], species), more, n);
      OccursIffIn(more, n);
    }
  }

  lemma MappedColumn(f: string -> Node, ids: seq<string>, n: Node, id: string)
    requires forall a, b :: f(a) == f(b) ==> a == b
    ensures n == f(id) ==> Occurrences(Mapped(f, ids), n) == Occurrences(ids, id)
    ensures (forall x :: f(x) != n) ==> Occurrences(Mapped(f, ids), n) == 0
  {
    if n == f(id) {
      OccurrencesMapped(f, ids, id);
    }
    if forall x :: f(x) != n {
      OccursIffIn(Mapped(f, ids), n);
    }
  }

  /** The endpoint of a reference has one node row per row of its catalogue entry. */
  lemma EndpointRows(t: Tables, rules: seq<RuleRow>, ref: Reference)
    ensures Occurrences(GraphNodes(t, rules), Endpoint(ref)) == Occurrences(Catalogue(t, ref), Key(ref))
  {
    var n, id := Endpoint(ref), Key(ref);
    var species := Mapped((id: string) => SpeciesNode(id), RowIds(t.species));
    var skills := Mapped((id: string) => SkillNode(id), t.skills);
    var passives := Mapped((id: string) => PassiveNode(id), t.passives);
    var items := Mapped((id: string) => ItemNode(id), t.items);
    var recipes, ruleNodes := RecipeNodes(t.recipes, t.items), RuleNodes(rules, RowIds(t.species));
    MappedColumn((id: string) => SpeciesNode(id), RowIds(t.species), n, id);
    MappedColumn((id: string) => SkillNode(id), t.skills, n, id);
    MappedColumn((id: string) => PassiveNode(id), t.passives, n, id);
    MappedColumn((id: string) => ItemNode(id), t.items, n, id);
    RecipeNodesAreRecipes(t.recipes, t.items, n);
    RuleNodesAreRules(rules, RowIds(t.species), n);
    OccurrencesConcat(species, skills, n);
    OccurrencesConcat(species + skills, passives, n);
    OccurrencesConcat(species + skills + passives, items, n);
    OccurrencesConcat(species + skills + passives + items, recipes, n);
    OccurrencesConcat(species + skills + passives + items + recipes, ruleNodes, n);
  }

  // ----- what the compiler guarantees about its tables

  ghost predicate WellKeyed(t: Tables) {
    && Distinct(t.skills) && Distinct(t.passives) && Distinct(t.items) && Distinct(RowIds(t.species))
    && forall r :: r in t.recipes ==> r.outputItem in t.items
  }

  lemma SpeciesKeyed(skills: Index, passives: Index, species: seq<Species>)
    requires SpeciesTable(skills, passives, species).Success?
    ensures RowIds(SpeciesTable(skills, passives, species).value.0) == SpeciesIds(species)
    ensures Distinct(SpeciesIds(species))
  {
    var logs := SpeciesTableIs(skills, passives, species);
  }

  lemma OutputsKnown(items: seq<string>, recipes: seq<Recipe>)
    requires AllValid(items) && RecipeTable(IndexOf(Elements(items)), recipes).Success?
    ensures forall r :: r in RecipeTable(IndexOf(Elements(items)), recipes).value.0 ==> r.outputItem in items
  {
    var logs := RecipeTableIs(items, recipes);
    var rows := RecipeTable(IndexOf(Elements(items)), recipes).value.0;
    forall i | 0 <= i < |rows|
      ensures rows[i].outputItem in items
    {
      assert RecipeStored(items, recipes[i], rows[i], logs[i]);
    }
  }

  /** Compiled tables have unique keys, keep the species in source order, and name only known output items. */
  lemma CompiledIsWellKeyed(src: Sources)
    requires Compile(src).Success? && Distinct(src.passives)
    ensures WellKeyed(Compile(src).value.0)
    ensures RowIds(Compile(src).value.0.species) == SpeciesIds(src.species)
  {
    SpeciesKeyed(IndexOf(Elements(SkillIds(src.skillKeys))), IndexOf(Elements(src.passives)), src.species);
    OutputsKnown(src.items, src.recipes);
  }

  // ----- edge or gap, never both

  /** Each reference yields exactly one edge or exactly one Error Book row. */
  lemma EdgeOrGap(t: Tables, rules: seq<RuleRow>, ref: Reference)
    requires WellKeyed(t)
    ensures |Edges([ref], GraphNodes(t, rules))| + |Gaps([ref], GraphNodes(t, rules))| == 1
    ensures |Gaps([ref], GraphNodes(t, rules))| == 1 <==> Key(ref) !in Catalogue(t, ref)
  {
    EndpointRows(t, rules, ref);
    OccursIffIn(GraphNodes(t, rules), Endpoint(ref));
    OccursIffIn(Catalogue(t, ref), Key(ref));
    assert [ref][..0] == [];
  }

  lemma {:induction false} RowsConcat(a: seq<Reference>, b: seq<Reference>, nodes: seq<Node>)
    ensures |Gaps(a + b, nodes)| == |Gaps(a, nodes)| + |Gaps(b, nodes)|
    ensures |Edges(a + b, nodes)| == |Edges(a, nodes)| + |Edges(b, nodes)|
  {
    if b == [] {
      assert a + b == a;
    } else {
      assert (a + b)[..|a + b| - 1] == a + b[..|b| - 1];
      RowsConcat(a, b[..|b| - 1], nodes);
    }
  }

  /** Edges and Error Book rows together are as many as the references. */
  lemma {:induction false} EdgesAndGapsPartition(t: Tables, rules: seq<RuleRow>, refs: seq<Reference>)
    requires WellKeyed(t)
    ensures |Edges(refs, GraphNodes(t, rules))| + |Gaps(refs, GraphNodes(t, rules))| == |refs|
  {
    if refs != [] {
      var before, last := refs[..|refs| - 1], refs[|refs| - 1];
      EdgesAndGapsPartition(t, rules, before);
      EdgeOrGap(t, rules, last);
      assert refs == before + [last];
      RowsConcat(before, [last], GraphNodes(t, rules));
    }
  }

  // ----- two ways to count the missing endpoints

  /** Gap count of references into one catalogue column. */
  lemma {:induction false} GapsOfColumn<S>(t: Tables, rules: seq<RuleRow>, f: S -> Reference, xs: seq<S>, x: S)
    requires WellKeyed(t)
    ensures |Gaps(Mapped(f, xs + [x]), GraphNodes(t, rules))| ==
            |Gaps(Mapped(f, xs), GraphNodes(t, rules))| + if Key(f(x)) in Catalogue(t, f(x)) then 0 else 1
  {
    assert Mapped(f, xs + [x]) == Mapped(f, xs) + [f(x)];
    RowsConcat(Mapped(f, xs), [f(x)], GraphNodes(t, rules));
    EdgeOrGap(t, rules, f(x));
  }

  /** Recorded references without a target less Error Book rows: what the steps keep constant. */
  ghost function SkillSurplus(t: Tables, rules: seq<RuleRow>, species: string, skills: seq<LearnedSkill>,
                              log: seq<Event>): int {
    UnsettledEvents(log) - |Gaps(Mapped((k: LearnedSkill) => SkillRef(species, k.skillId), skills),
                                 GraphNodes(t, rules))|
  }

  ghost function PassiveSurplus(t: Tables, rules: seq<RuleRow>, species: string, ids: seq<string>,
                                log: seq<Event>): int {
    UnsettledEvents(log) - |Gaps(Mapped((id: string) => PassiveRef(species, id), ids), GraphNodes(t, rules))|
  }

  lemma AddSkillKeepsSurplus(t: Tables, rules: seq<RuleRow>, skills: seq<LearnedSkill>, log: seq<Event>,
                             species: string, raw: string, details: string, resolution: Resolution)
    requires WellKeyed(t) && (Unsettled(resolution) <==> resolution.outputId !in t.skills)
    requires AddSkill(skills, log, species, raw, details, resolution).Success?
    ensures var (more, events) := AddSkill(skills, log, species, raw, details, resolution).value;
            SkillSurplus(t, rules, species, more, events) == SkillSurplus(t, rules, species, skills, log)
  {
    ReplayAppends(log, Duplicate(LearnedSkills, ActiveSkillTarget, species, raw));
    ReplayAppends(log, Resolved(LearnedSkills, ActiveSkillTarget, species, raw, resolution));
    GapsOfColumn(t, rules, (k: LearnedSkill) => SkillRef(species, k.skillId), skills,
                 LearnedSkill(resolution.outputId, details));
  }

  lemma AddPassiveKeepsSurplus(t: Tables, rules: seq<RuleRow>, ids: seq<string>, log: seq<Event>, species: string,
                               raw: string, resolution: Resolution)
    requires WellKeyed(t) && (Unsettled(resolution) <==> resolution.outputId !in t.passives)
    ensures var (more, events) := AddPassive(ids, log, species, raw, resolution);
            PassiveSurplus(t, rules, species, more, events) == PassiveSurplus(t, rules, species, ids, log)
  {
    ReplayAppends(log, Duplicate(GuaranteedPassives, PassiveTarget, species, raw));
    ReplayAppends(log, Resolved(GuaranteedPassives, PassiveTarget, species, raw, resolution));
    GapsOfColumn(t, rules, (id: string) => PassiveRef(species, id), ids, resolution.outputId);
  }

  lemma {:induction false} LearnedGaps(t: Tables, rules: seq<RuleRow>, s: Species, resolutions: seq<Resolution>, n: nat)
    requires WellKeyed(t) && n <= |s.learned| == |resolutions|
    requires forall i :: 0 <= i < |resolutions| ==>
               (Unsettled(resolutions[i]) <==> resolutions[i].outputId !in t.skills)
    requires LearnedAfter(s, resolutions, n).Success?
    ensures var (skills, events) := LearnedAfter(s, resolutions, n).value;
            SkillSurplus(t, rules, s.id, skills, events) == 0
  {
    if n > 0 {
      LearnedGaps(t, rules, s, resolutions, n - 1);
      var (skills, events) := LearnedAfter(s, resolutions, n - 1).value;
      AddSkillKeepsSurplus(t, rules, skills, events, s.id, s.learned[n - 1].skillId, s.learned[n - 1].details,
                           resolutions[n - 1]);
    }
  }

  lemma SkillsResolve(t: Tables, s: Species)
    ensures forall i :: 0 <= i < |s.learned| ==>
                          (Unsettled(SkillResolutions(IndexOf(Elements(t.skills)), s)[i]) <==>
                           SkillResolutions(IndexOf(Elements(t.skills)), s)[i].outputId !in t.skills)
  {
    var ix := IndexOf(Elements(t.skills));
    IndexDescribes(Elements(t.skills));
    forall i | 0 <= i < |s.learned|
      ensures Unsettled(SkillResolutions(ix, s)[i]) <==> SkillResolutions(ix, s)[i].outputId !in t.skills
    {
      SettledMeansPresent(ix, Elements(t.skills), s.learned[i].skillId, Some(SKILL_NAMESPACE));
    }
  }

  lemma {:induction false} PassiveGaps(t: Tables, rules: seq<RuleRow>, s: Species, resolutions: seq<Resolution>, n: nat)
    requires WellKeyed(t) && n <= |s.passives| == |resolutions|
    requires forall i :: 0 <= i < |resolutions| ==>
               (Unsettled(resolutions[i]) <==> resolutions[i].outputId !in t.passives)
    ensures var (ids, events) := PassivesAfter(s, resolutions, n);
            PassiveSurplus(t, rules, s.id, ids, events) == 0
  {
    if n > 0 {
      PassiveGaps(t, rules, s, resolutions, n - 1);
      var (ids, events) := PassivesAfter(s, resolutions, n - 1);
      AddPassiveKeepsSurplus(t, rules, ids, events, s.id, s.passives[n - 1], resolutions[n - 1]);
    }
  }

  lemma PassivesResolve(t: Tables, s: Species)
    ensures forall i :: 0 <= i < |s.passives| ==>
                          (Unsettled(PassiveResolutions(IndexOf(Elements(t.passives)), s)[i]) <==>
                           PassiveResolutions(IndexOf(Elements(t.passives)), s)[i].outputId !in t.passives)
  {
    var ix := IndexOf(Elements(t.passives));
    IndexDescribes(Elements(t.passives));
    forall i | 0 <= i < |s.passives|
      ensures Unsettled(PassiveResolutions(ix, s)[i]) <==> PassiveResolutions(ix, s)[i].outputId !in t.passives
    {
      SettledMeansPresent(ix, Elements(t.passives), s.passives[i], None);
    }
  }

  /** What one species adds to the Error Book. */
  ghost function RowGaps(t: Tables, rules: seq<RuleRow>, row: SpeciesRow): nat {
    |Gaps(Mapped((k: LearnedSkill) => SkillRef(row.id, k.skillId), row.learned), GraphNodes(t, rules))|
    + |Gaps(Mapped((id: string) => PassiveRef(row.id, id), row.passives), GraphNodes(t, rules))|
  }

  lemma OneSpeciesGaps(t: Tables, rules: seq<RuleRow>, s: Species)
    requires WellKeyed(t) && RowFor(IndexOf(Elements(t.skills)), IndexOf(Elements(t.passives)), s).Success?
    ensures var (row, events) := RowFor(IndexOf(Elements(t.skills)), IndexOf(Elements(t.passives)), s).value;
            UnsettledEvents(events) == RowGaps(t, rules, row)
  {
    var skills, passives := IndexOf(Elements(t.skills)), IndexOf(Elements(t.passives));
    SkillsResolve(t, s);
    LearnedGaps(t, rules, s, SkillResolutions(skills, s), |s.learned|);
    PassivesResolve(t, s);
    PassiveGaps(t, rules, s, PassiveResolutions(passives, s), |s.passives|);
    UnsettledConcat(Learned(skills, s).value.1, Passives(passives, s).1);
  }

  lemma AddRowGaps(t: Tables, rules: seq<RuleRow>, rows: seq<SpeciesRow>, row: SpeciesRow)
    ensures |Gaps(SkillRefs(rows + [row]), GraphNodes(t, rules))|
            + |Gaps(PassiveRefs(rows + [row]), GraphNodes(t, rules))| ==
            |Gaps(SkillRefs(rows), GraphNodes(t, rules))| + |Gaps(PassiveRefs(rows), GraphNodes(t, rules))|
            + RowGaps(t, rules, row)
  {
    assert (rows + [row])[..|rows|] == rows;
    RowsConcat(SkillRefs(rows), Mapped((k: LearnedSkill) => SkillRef(row.id, k.skillId), row.learned),
               GraphNodes(t, rules));
    RowsConcat(PassiveRefs(rows), Mapped((id: string) => PassiveRef(row.id, id), row.passives), GraphNodes(t, rules));
  }

  lemma {:induction false} SpeciesGaps(t: Tables, rules: seq<RuleRow>, species: seq<Species>,
                                       compiled: seq<Result<(SpeciesRow, seq<Event>)>>, n: nat)
    requires n <= |species| == |compiled| && SpeciesAfter(species, compiled, n).Success?
    requires forall i :: 0 <= i < |species| && compiled[i].Success? ==>
                           UnsettledEvents(compiled[i].value.1) == RowGaps(t, rules, compiled[i].value.0)
    ensures var (rows, events) := SpeciesAfter(species, compiled, n).value;
            UnsettledEvents(events) ==
            |Gaps(SkillRefs(rows), GraphNodes(t, rules))| + |Gaps(PassiveRefs(rows), GraphNodes(t, rules))|
  {
    if n > 0 {
      SpeciesGaps(t, rules, species, compiled, n - 1);
      var (rows, events) := SpeciesAfter(species, compiled, n - 1).value;
      AddRowGaps(t, rules, rows, compiled[n - 1].value.0);
      UnsettledConcat(events, compiled[n - 1].value.1);
    }
  }

  lemma SpeciesTableGaps(t: Tables, rules: seq<RuleRow>, species: seq<Species>)
    requires WellKeyed(t)
    requires SpeciesTable(IndexOf(Elements(t.skills)), IndexOf(Elements(t.passives)), species).Success?
    ensures var (rows, events) :=
              SpeciesTable(IndexOf(Elements(t.skills)), IndexOf(Elements(t.passives)), species).value;
            UnsettledEvents(events) ==
            |Gaps(SkillRefs(rows), GraphNodes(t, rules))| + |Gaps(PassiveRefs(rows), GraphNodes(t, rules))|
  {
    var skills, passives := IndexOf(Elements(t.skills)), IndexOf(Elements(t.passives));
    var compiled := CompiledSpecies(skills, passives, species);
    forall i | 0 <= i < |species| && compiled[i].Success?
      ensures UnsettledEvents(compiled[i].value.1) == RowGaps(t, rules, compiled[i].value.0)
    {
      OneSpeciesGaps(t, rules, species[i]);
    }
    SpeciesGaps(t, rules, species, compiled, |species|);
  }

  /** How many recipes name a blank unlock item, which is stored as NULL. */
  function BlankUnlocks(recipes: seq<Recipe>, n: nat): nat
    requires n <= |recipes|
  {
    if n == 0 then 0
    else BlankUnlocks(recipes, n - 1)
         + if recipes[n - 1].unlockItem.Some? && Trim(recipes[n - 1].unlockItem.value) == "" then 1 else 0
  }

  lemma UnlockStep(t: Tables, rules: seq<RuleRow>, rows: seq<RecipeRow>, recipe: Recipe, log: seq<Event>,
                   resolution: Resolution)
    requires WellKeyed(t) && recipe.unlockItem.Some? && UnlockResolution(t, recipe.unlockItem.value, resolution)
    ensures var row := RecipeRow(recipe.id, recipe.outputItem, OptionalText(Some(resolution.outputId)));
            var events := log + [Resolved(UnlockItems, ItemTarget, recipe.id, recipe.unlockItem.value, resolution)];
            UnsettledEvents(events) - |Gaps(UnlockRefs(rows + [row]), GraphNodes(t, rules))| ==
            UnsettledEvents(log) - |Gaps(UnlockRefs(rows), GraphNodes(t, rules))|
            + if Trim(recipe.unlockItem.value) == "" then 1 else 0
  {
    var raw := recipe.unlockItem.value;
    var row := RecipeRow(recipe.id, recipe.outputItem, OptionalText(Some(resolution.outputId)));
    ReplayAppends(log, Resolved(UnlockItems, ItemTarget, recipe.id, raw, resolution));
    assert (rows + [row])[..|rows|] == rows;
    var ref := UnlockRef(recipe.id, resolution.outputId);
    RowsConcat(UnlockRefs(rows), if row.unlockItem.Some? then [ref] else [], GraphNodes(t, rules));
    EdgeOrGap(t, rules, ref);
  }

  /** What the resolution of a named unlock item is known to satisfy. */
  ghost predicate UnlockResolution(t: Tables, raw: string, resolution: Resolution) {
    && (Unsettled(resolution) <==> resolution.outputId !in t.items)
    && (Trim(resolution.outputId) == "" <==> Trim(raw) == "")
    && (Trim(raw) == "" ==> Unsettled(resolution))
  }

  lemma UnlocksResolve(t: Tables, recipes: seq<Recipe>)
    requires AllValid(t.items)
    ensures forall i :: 0 <= i < |recipes| && recipes[i].unlockItem.Some? ==>
                          UnlockResolution(t, recipes[i].unlockItem.value,
                                           ItemResolutions(IndexOf(Elements(t.items)), recipes)[i])
  {
    var ix := IndexOf(Elements(t.items));
    IndexDescribes(Elements(t.items));
    forall i | 0 <= i < |recipes| && recipes[i].unlockItem.Some?
      ensures UnlockResolution(t, recipes[i].unlockItem.value, ItemResolutions(ix, recipes)[i])
    {
      BlankStaysUnsettled(t.items, recipes[i].unlockItem.value);
      SettledMeansPresent(ix, Elements(t.items), recipes[i].unlockItem.value, None);
    }
  }

  lemma {:induction false} RecipeGaps(t: Tables, rules: seq<RuleRow>, items: set<string>, recipes: seq<Recipe>,
                                      resolutions: seq<Resolution>, n: nat)
    requires WellKeyed(t) && n <= |recipes| == |resolutions|
    requires forall i :: 0 <= i < |recipes| && recipes[i].unlockItem.Some? ==>
                           UnlockResolution(t, recipes[i].unlockItem.value, resolutions[i])
    requires RecipesAfter(items, recipes, resolutions, n).Success?
    ensures var (rows, events) := RecipesAfter(items, recipes, resolutions, n).value;
            UnsettledEvents(events) == |Gaps(UnlockRefs(rows), GraphNodes(t, rules))| + BlankUnlocks(recipes, n)
  {
    if n > 0 {
      RecipeGaps(t, rules, items, recipes, resolutions, n - 1);
      var (rows, events) := RecipesAfter(items, recipes, resolutions, n - 1).value;
      var recipe := recipes[n - 1];
      if recipe.unlockItem.Some? {
        UnlockStep(t, rules, rows, recipe, events, resolutions[n - 1]);
      } else {
        var row := RecipeRow(recipe.id, recipe.outputItem, None);
        assert (rows + [row])[..|rows|] == rows;
        assert UnlockRefs(rows + [row]) == UnlockRefs(rows);
        assert events + [] == events;
      }
    }
  }

  lemma {:induction false} DropGaps(t: Tables, rules: seq<RuleRow>, items: set<string>, drops: seq<Drop>,
                                    resolutions: seq<Resolution>, n: nat)
    requires WellKeyed(t) && n <= |drops| == |resolutions|
    requires forall i :: 0 <= i < |drops| ==>
               (Unsettled(resolutions[i]) <==> resolutions[i].outputId !in RowIds(t.species))
    requires DropsAfter(items, drops, resolutions, n).Success?
    ensures var (rows, events) := DropsAfter(items, drops, resolutions, n).value;
            UnsettledEvents(events) == |Gaps(DropRefs(rows), GraphNodes(t, rules))|
  {
    if n > 0 {
      DropGaps(t, rules, items, drops, resolutions, n - 1);
      var (rows, events) := DropsAfter(items, drops, resolutions, n - 1).value;
      var drop, resolution := drops[n - 1], resolutions[n - 1];
      ReplayAppends(events, Resolved(PalDrops, SpeciesTarget, drop.methodId, drop.palId, resolution));
      GapsOfColumn(t, rules, (d: DropRow) => DropRef(d.methodId, d.sourceSpecies, d.itemId), rows,
                   DropRow(drop.methodId, resolution.outputId, drop.itemId));
    }
  }

  lemma ItemTablesGaps(t: Tables, rules: seq<RuleRow>, src: Sources)
    requires WellKeyed(t) && t.items == src.items
    requires ItemTables(src, IndexOf(Elements(RowIds(t.species)))).Success?
    ensures var (recipes, drops, events) := ItemTables(src, IndexOf(Elements(RowIds(t.species)))).value;
            UnsettledEvents(events) ==
            |Gaps(UnlockRefs(recipes), GraphNodes(t, rules))| + |Gaps(DropRefs(drops), GraphNodes(t, rules))|
            + BlankUnlocks(src.recipes, |src.recipes|)
  {
    var ids := RowIds(t.species);
    var species, items := IndexOf(Elements(ids)), IndexOf(Elements(src.items));
    UnlocksResolve(t, src.recipes);
    RecipeGaps(t, rules, items.exact, src.recipes, ItemResolutions(items, src.recipes), |src.recipes|);
    IndexDescribes(Elements(ids));
    forall i | 0 <= i < |src.drops|
      ensures Unsettled(DropResolutions(species, src.drops)[i]) <==>
                DropResolutions(species, src.drops)[i].outputId !in ids
    {
      SettledMeansPresent(species, Elements(ids), src.drops[i].palId, None);
    }
    DropGaps(t, rules, Elements(src.items), src.drops, DropResolutions(species, src.drops), |src.drops|);
    UnsettledConcat(RecipeTable(items, src.recipes).value.1,
                    DropTable(species, Elements(src.items), src.drops).value.1);
  }

  /** The rows of the Error Book after the projection. */
  function ErrorBook(t: Tables, rules: seq<RuleRow>): seq<Reference> {
    Gaps(References(t), GraphNodes(t, rules))
  }

  lemma ErrorBookParts(t: Tables, rules: seq<RuleRow>)
    ensures |ErrorBook(t, rules)| ==
            |Gaps(SkillRefs(t.species), GraphNodes(t, rules))| + |Gaps(PassiveRefs(t.species), GraphNodes(t, rules))|
            + |Gaps(DropRefs(t.drops), GraphNodes(t, rules))| + |Gaps(UnlockRefs(t.recipes), GraphNodes(t, rules))|
  {
    var nodes := GraphNodes(t, rules);
    RowsConcat(SkillRefs(t.species), PassiveRefs(t.species), nodes);
    RowsConcat(SkillRefs(t.species) + PassiveRefs(t.species), DropRefs(t.drops), nodes);
    RowsConcat(SkillRefs(t.species) + PassiveRefs(t.species) + DropRefs(t.drops), UnlockRefs(t.recipes), nodes);
  }

  /** The two counts differ by exactly the blank unlock items: the report counts them, the
      Error Book cannot. */
  lemma TwoWayAccounting(src: Sources, rules: seq<RuleRow>)
    requires Compile(src).Success? && Distinct(src.passives)
    ensures var (t, log) := Compile(src).value;
            Expected(Replay(log)) == |ErrorBook(t, rules)| + BlankUnlocks(src.recipes, |src.recipes|)
  {
    var (t, log) := Compile(src).value;
    CompiledIsWellKeyed(src);
    SpeciesTableGaps(t, rules, src.species);
    ItemTablesGaps(t, rules, src);
    UnsettledConcat(SpeciesTable(IndexOf(Elements(t.skills)), IndexOf(Elements(t.passives)), src.species).value.1,
                    ItemTables(src, IndexOf(Elements(SpeciesIds(src.species)))).value.2);
    ErrorBookParts(t, rules);
    ReplayIsTallied(log);
  }

  lemma {:induction false} NoBlanksMeansZero(recipes: seq<Recipe>, n: nat)
    requires n <= |recipes|
    ensures BlankUnlocks(recipes, n) == 0 <==>
            forall i :: 0 <= i < n && recipes[i].unlockItem.Some? ==> Trim(recipes[i].unlockItem.value) != ""
  {
    if n > 0 {
      NoBlanksMeansZero(recipes, n - 1);
    }
  }

  /** The final cross-check of the compiler passes exactly when no recipe names a blank unlock item. */
  lemma CrossCheckPassesExactly(src: Sources, rules: seq<RuleRow>)
    requires Compile(src).Success? && Distinct(src.passives)
    ensures var (t, log) := Compile(src).value;
            Expected(Replay(log)) == |ErrorBook(t, rules)| <==>
            forall i :: 0 <= i < |src.recipes| && src.recipes[i].unlockItem.Some? ==>
              Trim(src.recipes[i].unlockItem.value) != ""
  {
    TwoWayAccounting(src, rules);
    NoBlanksMeansZero(src.recipes, |src.recipes|);
  }

  /** Sources with one recipe whose unlock item is a blank. */
  function BlankUnlockSources(): Sources {
    Sources(["skill"], ["passive"], [], ["item"], [Recipe("recipe", "item", Some(" "))], [])
  }

  lemma OneSkill(keys: seq<string>, key: string)
    requires keys == [key] && |key| < |SKILL_NAMESPACE|
    ensures SkillIds(keys) == [key]
  {
    assert CanonicalSkillId(keys[0]) == key;
    assert SkillIds(keys)[0] == key;
  }

  lemma BlankUnlockCompiles()
    ensures Compile(BlankUnlockSources()).Success?
  {
    var src := BlankUnlockSources();
    var ix := IndexOf(Elements(src.items));
    var resolutions := ItemResolutions(ix, src.recipes);
    OneSkill(src.skillKeys, "skill");
    assert ValidId("skill") && ValidId("passive") && ValidId("item") && ValidId("recipe");
    assert "item" in src.items && "item" in ix.exact;
    assert RecipesAfter(ix.exact, src.recipes, resolutions, 0) == Success(([], []));
    assert RecipesAfter(ix.exact, src.recipes, resolutions, 1).Success?;
  }

  lemma OneBlank(recipes: seq<Recipe>)
    requires |recipes| == 1 && recipes[0].unlockItem == Some(" ")
    ensures BlankUnlocks(recipes, 1) == 1
  {
    assert Trim(" ") == "";
    assert BlankUnlocks(recipes, 0) == 0;
  }

  /** A concrete input on which the cross-check fires although compilation succeeds. */
  lemma CrossCheckCanFire(rules: seq<RuleRow>) returns (src: Sources)
    ensures src == BlankUnlockSources()
    ensures Compile(src).Success?
    ensures Expected(Replay(Compile(src).value.1)) == |ErrorBook(Compile(src).value.0, rules)| + 1
  {
    src := BlankUnlockSources();
    BlankUnlockCompiles();
    TwoWayAccounting(src, rules);
    OneBlank(src.recipes);
  }

  // ----- predicted counts

  ghost predicate RulesKnown(rules: seq<RuleRow>, species: seq<string>) {
    forall r :: r in rules ==> r.0 in species && r.1 in species && r.2 in species
  }

  lemma {:induction false} OneNodePerRecipe(recipes: seq<RecipeRow>, items: seq<string>)
    requires Distinct(items) && forall r :: r in recipes ==> r.outputItem in items
    ensures |RecipeNodes(recipes, items)| == |recipes|
    ensures forall n :: n in RecipeNodes(recipes, items) ==> n.RecipeNode?
  {
    if recipes != [] {
      OneNodePerRecipe(recipes[..|recipes| - 1], items);
      OccursIffIn(items, recipes[|recipes| - 1].outputItem);
    }
  }

  lemma OccursOnce(ids: seq<string>, id: string)
    requires Distinct(ids) && id in ids
    ensures Occurrences(ids, id) == 1
  {
    OccursIffIn(ids, id);
  }

  lemma {:induction false} OneNodePerRule(rules: seq<RuleRow>, species: seq<string>)
    requires Distinct(species) && RulesKnown(rules, species)
    ensures |RuleNodes(rules, species)| == |rules|
    ensures forall n :: n in RuleNodes(rules, species) ==> n.RuleNode?
  {
    if rules != [] {
      var last := rules[|rules| - 1];
      OneNodePerRule(rules[..|rules| - 1], species);
      assert last in rules;
      OccursOnce(species, last.0);
      OccursOnce(species, last.1);
      OccursOnce(species, last.2);
    }
  }

  lemma {:induction false} PagesConcat(a: seq<Node>, b: seq<Node>)
    ensures WikiPages(a + b) == WikiPages(a) + WikiPages(b)
  {
    if b == [] {
      assert a + b == a;
    } else {
      assert (a + b)[..|a + b| - 1] == a + b[..|b| - 1];
      PagesConcat(a, b[..|b| - 1]);
    }
  }

  lemma {:induction false} PagesOfKind(nodes: seq<Node>)
    ensures (forall n :: n in nodes ==> n.RuleNode?) ==> WikiPages(nodes) == []
    ensures (forall n :: n in nodes ==> !n.RuleNode? && !n.WikiNode?) ==> |WikiPages(nodes)| == |nodes|
  {
    if nodes != [] {
      PagesOfKind(nodes[..|nodes| - 1]);
      assert nodes[|nodes| - 1] in nodes;
    }
  }

  /** A page per row that is not a breeding rule, and a node per row and page. */
  function PredictedPages(t: Tables): nat {
    |t.species| + |t.skills| + |t.passives| + |t.items| + |t.recipes|
  }

  /** The projection inserts as many nodes and pages as the compiler predicts from its row counts. */
  lemma PredictedCountsHold(t: Tables, rules: seq<RuleRow>)
    requires WellKeyed(t) && RulesKnown(rules, RowIds(t.species))
    ensures |WikiPages(GraphNodes(t, rules))| == PredictedPages(t)
    ensures |AllNodes(t, rules)| == 2 * PredictedPages(t) + |rules|
  {
    OneNodePerRecipe(t.recipes, t.items);
    OneNodePerRule(rules, RowIds(t.species));
    var ruleNodes := RuleNodes(rules, RowIds(t.species));
    var others := Mapped((id: string) => SpeciesNode(id), RowIds(t.species))
                  + Mapped((id: string) => SkillNode(id), t.skills)
                  + Mapped((id: string) => PassiveNode(id), t.passives)
                  + Mapped((id: string) => ItemNode(id), t.items)
                  + RecipeNodes(t.recipes, t.items);
    assert GraphNodes(t, rules) == others + ruleNodes;
    PagesConcat(others, ruleNodes);
    PagesOfKind(ruleNodes);
    PagesOfKind(others);
  }
}
