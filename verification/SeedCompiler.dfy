/** The seed compiler: catalogue sources become table rows while every reference is resolved
    and recorded in the quality report. */
module SeedCompiler {
  import opened Basics
  import opened Text
  import opened ReferenceIndex
  import opened QualityReport

  const SKILL_NAMESPACE := "EPalWazaID::"

  /** A learned skill; `details` stands for its remaining fields. */
  datatype LearnedSkill = LearnedSkill(skillId: string, details: string)

  datatype Species = Species(id: string, learned: seq<LearnedSkill>, passives: seq<string>)

  datatype Recipe = Recipe(id: string, outputItem: string, unlockItem: Option<string>)

  datatype Drop = Drop(methodId: string, palId: string, itemId: string)

  /** Skill and passive keys are listed in the order of their source maps; skill keys may carry
      the namespace. */
  datatype Sources = Sources(skillKeys: seq<string>, passives: seq<string>, species: seq<Species>, items: seq<string>,
                             recipes: seq<Recipe>, drops: seq<Drop>)

  datatype SpeciesRow = SpeciesRow(id: string, learned: seq<LearnedSkill>, passives: seq<string>)

  /** `unlockItem` is None for SQL NULL. */
  datatype RecipeRow = RecipeRow(id: string, outputItem: string, unlockItem: Option<string>)

  datatype DropRow = DropRow(methodId: string, sourceSpecies: string, itemId: string)

  datatype Tables = Tables(skills: seq<string>, passives: seq<string>, species: seq<SpeciesRow>, items: seq<string>,
                           recipes: seq<RecipeRow>, drops: seq<DropRow>)

  datatype Result<+T> = Success(value: T) | Failure

  // ----- ids

  predicate ValidIdChar(c: char) {
    'a' <= c <= 'z' || 'A' <= c <= 'Z' || '0' <= c <= '9' || c == '_' || c == ':' || c == '-'
  }

  predicate ValidId(id: string) {
    0 < |id| <= 128 && forall i :: 0 <= i < |id| ==> ValidIdChar(id[i])
  }

  function CanonicalSkillId(raw: string): string {
    if SKILL_NAMESPACE <= raw then raw[|SKILL_NAMESPACE|..] else raw
  }

  /** SQL text, with blank text stored as NULL. */
  function OptionalText(value: Option<string>): Option<string> {
    if value.Some? && Trim(value.value) == "" then None else value
  }

  // ----- learned skills and passives of one species

  predicate Lists(skills: seq<LearnedSkill>, id: string) {
    exists k :: 0 <= k < |skills| && skills[k].skillId == id
  }

  /** One more record, already resolved: a second record for a skill must agree with the first
      and is dropped. */
  function AddSkill(skills: seq<LearnedSkill>, events: seq<Event>, species: string, raw: string, details: string,
                    resolution: Resolution)
    : Result<(seq<LearnedSkill>, seq<Event>)>
  {
    var skill := LearnedSkill(resolution.outputId, details);
    if Lists(skills, skill.skillId) then
      if skill !in skills then Failure
      else Success((skills, events + [Duplicate(LearnedSkills, ActiveSkillTarget, species, raw)]))
    else Success((skills + [skill], events + [Resolved(LearnedSkills, ActiveSkillTarget, species, raw, resolution)]))
  }

  function SkillResolutions(ix: Index, s: Species): seq<Resolution> {
    seq(|s.learned|, i requires 0 <= i < |s.learned| => Resolve(ix, s.learned[i].skillId, Some(SKILL_NAMESPACE)))
  }

  /** The canonical skills of the first n records and what recording them adds to the log. */
  function LearnedAfter(s: Species, resolutions: seq<Resolution>, n: nat): Result<(seq<LearnedSkill>, seq<Event>)>
    requires n <= |s.learned| == |resolutions|
  {
    if n == 0 then Success(([], []))
    else
      var before := LearnedAfter(s, resolutions, n - 1);
      if before.Failure? then Failure
      else AddSkill(before.value.0, before.value.1, s.id, s.learned[n - 1].skillId, s.learned[n - 1].details,
                    resolutions[n - 1])
  }

  function Learned(ix: Index, s: Species): Result<(seq<LearnedSkill>, seq<Event>)> {
    LearnedAfter(s, SkillResolutions(ix, s), |s.learned|)
  }

  lemma {:induction false} LearnedFailsForGood(s: Species, resolutions: seq<Resolution>, m: nat, n: nat)
    requires m <= n <= |s.learned| == |resolutions| && LearnedAfter(s, resolutions, m).Failure?
    ensures LearnedAfter(s, resolutions, n).Failure?
  {
    if m < n { LearnedFailsForGood(s, resolutions, m, n - 1); }
  }

  /** The map finds the record listed for a skill. */
  ghost predicate Mirrors(bySkill: map<string, LearnedSkill>, skills: seq<LearnedSkill>) {
    && (forall id :: id in bySkill ==> bySkill[id] in skills && bySkill[id].skillId == id)
    && (forall skill :: skill in skills ==> skill.skillId in bySkill && bySkill[skill.skillId] == skill)
  }

  lemma MirrorAnswers(bySkill: map<string, LearnedSkill>, skills: seq<LearnedSkill>, skill: LearnedSkill)
    requires Mirrors(bySkill, skills)
    ensures skill.skillId in bySkill <==> Lists(skills, skill.skillId)
    ensures skill.skillId in bySkill ==> (bySkill[skill.skillId] == skill <==> skill in skills)
    ensures skill.skillId !in bySkill ==> Mirrors(bySkill[skill.skillId := skill], skills + [skill])
  {
    if k :| 0 <= k < |skills| && skills[k].skillId == skill.skillId {
      assert skills[k] in skills;
    }
    if skill.skillId in bySkill {
      var k :| 0 <= k < |skills| && skills[k] == bySkill[skill.skillId];
    }
  }

  lemma LearnedStep(ix: Index, s: Species, i: nat, skills: seq<LearnedSkill>, events: seq<Event>,
                    bySkill: map<string, LearnedSkill>, resolution: Resolution, skill: LearnedSkill)
    requires i < |s.learned| && Mirrors(bySkill, skills)
    requires LearnedAfter(s, SkillResolutions(ix, s), i) == Success((skills, events))
    requires resolution == SkillResolutions(ix, s)[i] && skill == s.learned[i].(skillId := resolution.outputId)
    ensures skill.skillId !in bySkill ==>
              && Mirrors(bySkill[skill.skillId := skill], skills + [skill])
              && LearnedAfter(s, SkillResolutions(ix, s), i + 1) ==
                 Success((skills + [skill],
                          events
                          + [Resolved(LearnedSkills, ActiveSkillTarget, s.id, s.learned[i].skillId, resolution)]))
    ensures skill.skillId in bySkill && bySkill[skill.skillId] == skill ==>
              LearnedAfter(s, SkillResolutions(ix, s), i + 1) ==
              Success((skills, events + [Duplicate(LearnedSkills, ActiveSkillTarget, s.id, s.learned[i].skillId)]))
    ensures skill.skillId in bySkill && bySkill[skill.skillId] != skill ==> Learned(ix, s) == Failure
  {
    MirrorAnswers(bySkill, skills, skill);
    if LearnedAfter(s, SkillResolutions(ix, s), i + 1).Failure? {
      LearnedFailsForGood(s, SkillResolutions(ix, s), i + 1, |s.learned|);
    }
  }

  method AddLearnedSkill(skills: seq<LearnedSkill>, bySkill: map<string, LearnedSkill>, ix: Index, s: Species, i: nat,
                         report: Builder, ghost events: seq<Event>)
    returns (ok: bool, skills': seq<LearnedSkill>, bySkill': map<string, LearnedSkill>, ghost events': seq<Event>)
    requires i < |s.learned| && Mirrors(bySkill, skills)
    requires report.Valid() && LearnedAfter(s, SkillResolutions(ix, s), i) == Success((skills, events))
    modifies report
    ensures report.Valid() && Mirrors(bySkill', skills') && |events'| == |events| + (if ok then 1 else 0)
    ensures if ok then LearnedAfter(s, SkillResolutions(ix, s), i + 1) == Success((skills', events'))
                       && events' == events + [events'[|events|]] && report.log == old(report.log) + [events'[|events|]]
            else Learned(ix, s) == Failure
  {
    var source := s.learned[i];
    var resolution := Resolve(ix, source.skillId, Some(SKILL_NAMESPACE));
    var skill := source.(skillId := resolution.outputId);
    LearnedStep(ix, s, i, skills, events, bySkill, resolution, skill);
    if skill.skillId in bySkill {
      if bySkill[skill.skillId] != skill {
        return false, skills, bySkill, events;
      }
      report.RecordDuplicateReference(LearnedSkills, ActiveSkillTarget, s.id, source.skillId);
      return true, skills, bySkill, events + [Duplicate(LearnedSkills, ActiveSkillTarget, s.id, source.skillId)];
    }
    report.RecordResolution(LearnedSkills, ActiveSkillTarget, s.id, source.skillId, resolution);
    return true, skills + [skill], bySkill[skill.skillId := skill],
      events + [Resolved(LearnedSkills, ActiveSkillTarget, s.id, source.skillId, resolution)];
  }

  method CanonicalizeLearnedSkills(ix: Index, s: Species, report: Builder)
    returns (result: Result<seq<LearnedSkill>>, ghost events: seq<Event>)
    requires report.Valid()
    modifies report
    ensures report.Valid()
    ensures Learned(ix, s) == if result.Success? then Success((result.value, events)) else Failure
    ensures result.Success? ==> report.log == old(report.log) + events
  {
    var canonical: seq<LearnedSkill> := [];
    var bySkill: map<string, LearnedSkill> := map[];
    events := [];
    for i := 0 to |s.learned|
      invariant report.Valid() && Mirrors(bySkill, canonical)
      invariant LearnedAfter(s, SkillResolutions(ix, s), i) == Success((canonical, events))
      invariant report.log == old(report.log) + events
    {
      var ok;
      ok, canonical, bySkill, events := AddLearnedSkill(canonical, bySkill, ix, s, i, report, events);
      if !ok {
        return Failure, events;
      }
    }
    return Success(canonical), events;
  }

  function AddPassive(ids: seq<string>, events: seq<Event>, species: string, raw: string, resolution: Resolution)
    : (seq<string>, seq<Event>)
  {
    if resolution.outputId in ids then (ids, events + [Duplicate(GuaranteedPassives, PassiveTarget, species, raw)])
    else (ids + [resolution.outputId], events + [Resolved(GuaranteedPassives, PassiveTarget, species, raw, resolution)])
  }

  function PassiveResolutions(ix: Index, s: Species): seq<Resolution> {
    seq(|s.passives|, i requires 0 <= i < |s.passives| => Resolve(ix, s.passives[i], None))
  }

  function PassivesAfter(s: Species, resolutions: seq<Resolution>, n: nat): (seq<string>, seq<Event>)
    requires n <= |s.passives| == |resolutions|
  {
    if n == 0 then ([], [])
    else
      var (ids, events) := PassivesAfter(s, resolutions, n - 1);
      AddPassive(ids, events, s.id, s.passives[n - 1], resolutions[n - 1])
  }

  function Passives(ix: Index, s: Species): (seq<string>, seq<Event>) {
    PassivesAfter(s, PassiveResolutions(ix, s), |s.passives|)
  }

  method CanonicalizeGuaranteedPassives(ix: Index, s: Species, report: Builder)
    returns (canonical: seq<string>, ghost events: seq<Event>)
    requires report.Valid()
    modifies report
    ensures report.Valid() && report.log == old(report.log) + events
    ensures (canonical, events) == Passives(ix, s)
  {
    canonical, events := [], [];
    var seen: set<string> := {};
    ghost var resolutions := PassiveResolutions(ix, s);
    for i := 0 to |s.passives|
      invariant report.Valid() && report.log == old(report.log) + events
      invariant (canonical, events) == PassivesAfter(s, resolutions, i)
      invariant forall id :: id in seen <==> id in canonical
    {
      var raw := s.passives[i];
      var resolution := Resolve(ix, raw, None);
      assert resolution == resolutions[i];
      if resolution.outputId in seen {
        report.RecordDuplicateReference(GuaranteedPassives, PassiveTarget, s.id, raw);
        events := events + [Duplicate(GuaranteedPassives, PassiveTarget, s.id, raw)];
        continue;
      }
      seen := seen + {resolution.outputId};
      report.RecordResolution(GuaranteedPassives, PassiveTarget, s.id, raw, resolution);
      events := events + [Resolved(GuaranteedPassives, PassiveTarget, s.id, raw, resolution)];
      canonical := canonical + [resolution.outputId];
    }
  }

  // ----- rows

  function SpeciesIds(species: seq<Species>): seq<string> {
    Mapped((s: Species) => s.id, species)
  }

  function RecipeIds(recipes: seq<Recipe>): seq<string> {
    Mapped((r: Recipe) => r.id, recipes)
  }

  function MethodIds(drops: seq<Drop>): seq<string> {
    Mapped((d: Drop) => d.methodId, drops)
  }

  /** The ids seen in the first n records. */
  function FirstIds(ids: seq<string>, n: nat): set<string>
    requires n <= |ids|
  {
    if n == 0 then {} else FirstIds(ids, n - 1) + {ids[n - 1]}
  }

  /** The row of one species and what it adds to the log. */
  function RowFor(skills: Index, passives: Index, s: Species): Result<(SpeciesRow, seq<Event>)> {
    var learned := Learned(skills, s);
    if learned.Failure? then Failure
    else
      var (ids, events) := Passives(passives, s);
      Success((SpeciesRow(s.id, learned.value.0, ids), learned.value.1 + events))
  }

  function CompiledSpecies(skills: Index, passives: Index, species: seq<Species>)
    : seq<Result<(SpeciesRow, seq<Event>)>>
  {
    seq(|species|, i requires 0 <= i < |species| => RowFor(skills, passives, species[i]))
  }

  /** The rows of the first n species, given the outcome for each; ids must be valid and new. */
  function SpeciesAfter(species: seq<Species>, compiled: seq<Result<(SpeciesRow, seq<Event>)>>, n: nat)
    : Result<(seq<SpeciesRow>, seq<Event>)>
    requires n <= |species| == |compiled|
  {
    if n == 0 then Success(([], []))
    else
      var before := SpeciesAfter(species, compiled, n - 1);
      if before.Failure? || !ValidId(species[n - 1].id) || species[n - 1].id in FirstIds(SpeciesIds(species), n - 1)
         || compiled[n - 1].Failure?
      then Failure
      else Success((before.value.0 + [compiled[n - 1].value.0], before.value.1 + compiled[n - 1].value.1))
  }

  function SpeciesTable(skills: Index, passives: Index, species: seq<Species>): Result<(seq<SpeciesRow>, seq<Event>)> {
    SpeciesAfter(species, CompiledSpecies(skills, passives, species), |species|)
  }

  function ItemResolutions(ix: Index, recipes: seq<Recipe>): seq<Resolution> {
    seq(|recipes|, i requires 0 <= i < |recipes| =>
      Resolve(ix, if recipes[i].unlockItem.Some? then recipes[i].unlockItem.value else "", None))
  }

  /** The row of a recipe and what resolving its unlock item adds to the log. */
  function RecipeEntry(recipe: Recipe, resolution: Resolution): (RecipeRow, seq<Event>) {
    match recipe.unlockItem
    case None => (RecipeRow(recipe.id, recipe.outputItem, None), [])
    case Some(raw) => (RecipeRow(recipe.id, recipe.outputItem, OptionalText(Some(resolution.outputId))),
                       [Resolved(UnlockItems, ItemTarget, recipe.id, raw, resolution)])
  }

  /** The rows of the first n recipes; an unlock item is resolved and recorded where it is named. */
  function RecipesAfter(items: set<string>, recipes: seq<Recipe>, resolutions: seq<Resolution>, n: nat)
    : Result<(seq<RecipeRow>, seq<Event>)>
    requires n <= |recipes| == |resolutions|
  {
    if n == 0 then Success(([], []))
    else
      var before := RecipesAfter(items, recipes, resolutions, n - 1);
      var recipe := recipes[n - 1];
      if before.Failure? || !ValidId(recipe.id) || recipe.id in FirstIds(RecipeIds(recipes), n - 1)
         || recipe.outputItem !in items
      then Failure
      else
        var entry := RecipeEntry(recipe, resolutions[n - 1]);
        Success((before.value.0 + [entry.0], before.value.1 + entry.1))
  }

  function RecipeTable(ix: Index, recipes: seq<Recipe>): Result<(seq<RecipeRow>, seq<Event>)> {
    RecipesAfter(ix.exact, recipes, ItemResolutions(ix, recipes), |recipes|)
  }

  function DropResolutions(ix: Index, drops: seq<Drop>): seq<Resolution> {
    seq(|drops|, i requires 0 <= i < |drops| => Resolve(ix, drops[i].palId, None))
  }

  function DropsAfter(items: set<string>, drops: seq<Drop>, resolutions: seq<Resolution>, n: nat)
    : Result<(seq<DropRow>, seq<Event>)>
    requires n <= |drops| == |resolutions|
  {
    if n == 0 then Success(([], []))
    else
      var before := DropsAfter(items, drops, resolutions, n - 1);
      var drop := drops[n - 1];
      if before.Failure? || !ValidId(drop.methodId) || !ValidId(drop.palId)
         || drop.methodId in FirstIds(MethodIds(drops), n - 1) || drop.itemId !in items
      then Failure
      else Success((before.value.0 + [DropRow(drop.methodId, resolutions[n - 1].outputId, drop.itemId)],
                    before.value.1
                    + [Resolved(PalDrops, SpeciesTarget, drop.methodId, drop.palId, resolutions[n - 1])]))
  }

  function DropTable(ix: Index, items: set<string>, drops: seq<Drop>): Result<(seq<DropRow>, seq<Event>)> {
    DropsAfter(items, drops, DropResolutions(ix, drops), |drops|)
  }

  method CompileSpecies(skills: Index, passives: Index, s: Species, report: Builder)
    returns (row: Result<SpeciesRow>, ghost events: seq<Event>)
    requires report.Valid()
    modifies report
    ensures report.Valid()
    ensures RowFor(skills, passives, s) == if row.Success? then Success((row.value, events)) else Failure
    ensures row.Success? ==> report.log == old(report.log) + events
  {
    var learned, guaranteed;
    ghost var more;
    learned, events := CanonicalizeLearnedSkills(skills, s, report);
    if learned.Failure? {
      return Failure, events;
    }
    guaranteed, more := CanonicalizeGuaranteedPassives(passives, s, report);
    LogGrows(old(report.log), events, more);
    return Success(SpeciesRow(s.id, learned.value, guaranteed)), events + more;
  }

  lemma SpeciesStep(species: seq<Species>, compiled: seq<Result<(SpeciesRow, seq<Event>)>>, i: nat, ids: set<string>,
                    rows: seq<SpeciesRow>, events: seq<Event>)
    requires i < |species| == |compiled| && ids == FirstIds(SpeciesIds(species), i)
    requires SpeciesAfter(species, compiled, i) == Success((rows, events))
    ensures FirstIds(SpeciesIds(species), i + 1) == ids + {species[i].id}
    ensures if ValidId(species[i].id) && species[i].id !in ids && compiled[i].Success? then
              SpeciesAfter(species, compiled, i + 1) ==
              Success((rows + [compiled[i].value.0], events + compiled[i].value.1))
            else SpeciesAfter(species, compiled, |species|).Failure?
  {
    if SpeciesAfter(species, compiled, i + 1).Failure? {
      SpeciesFailForGood(species, compiled, i + 1, |species|);
    }
  }

  method SpeciesRows(skills: Index, passives: Index, species: seq<Species>, report: Builder)
    returns (result: Result<seq<SpeciesRow>>, ghost events: seq<Event>)
    requires report.Valid()
    modifies report
    ensures report.Valid()
    ensures SpeciesTable(skills, passives, species) ==
            if result.Success? then Success((result.value, events)) else Failure
    ensures result.Success? ==> report.log == old(report.log) + events
  {
    result, events := SpeciesLoop(skills, passives, species, report, CompiledSpecies(skills, passives, species));
  }

  /** What compiling a record comes to. (The quantifier keeps the definition of the row out of
      proofs that do not look into it.) */
  ghost predicate IsOutcome(skills: Index, passives: Index, s: Species, outcome: Result<(SpeciesRow, seq<Event>)>) {
    forall x {:trigger RowFor(skills, passives, x)} :: x == s ==> outcome == RowFor(skills, passives, x)
  }

  /** The loop over the species records, against the outcome each record is known to have. */
  method SpeciesLoop(skills: Index, passives: Index, species: seq<Species>, report: Builder,
                     ghost compiled: seq<Result<(SpeciesRow, seq<Event>)>>)
    returns (result: Result<seq<SpeciesRow>>, ghost events: seq<Event>)
    requires report.Valid() && |compiled| == |species|
    requires forall i :: 0 <= i < |species| ==> IsOutcome(skills, passives, species[i], compiled[i])
    modifies report
    ensures report.Valid()
    ensures SpeciesAfter(species, compiled, |species|) ==
            if result.Success? then Success((result.value, events)) else Failure
    ensures result.Success? ==> report.log == old(report.log) + events
  {
    var rows: seq<SpeciesRow> := [];
    var ids: set<string> := {};
    events := [];
    for i := 0 to |species|
      invariant report.Valid() && report.log == old(report.log) + events
      invariant SpeciesAfter(species, compiled, i) == Success((rows, events))
      invariant ids == FirstIds(SpeciesIds(species), i)
    {
      var ok, row;
      ghost var more;
      ok, row, more := AddSpecies(skills, passives, species, i, ids, rows, report, events, compiled);
      if !ok {
        return Failure, events;
      }
      LogGrows(old(report.log), events, more);
      ids, rows, events := ids + {species[i].id}, rows + [row], events + more;
    }
    return Success(rows), events;
  }

  method AddSpecies(skills: Index, passives: Index, species: seq<Species>, i: nat, ids: set<string>,
                    ghost rows: seq<SpeciesRow>,
                    report: Builder, ghost events: seq<Event>, ghost compiled: seq<Result<(SpeciesRow, seq<Event>)>>)
    returns (ok: bool, row: SpeciesRow, ghost more: seq<Event>)
    requires report.Valid() && i < |species| == |compiled| && ids == FirstIds(SpeciesIds(species), i)
    requires IsOutcome(skills, passives, species[i], compiled[i])
    requires SpeciesAfter(species, compiled, i) == Success((rows, events))
    modifies report
    ensures report.Valid()
    ensures if ok then
              && FirstIds(SpeciesIds(species), i + 1) == ids + {species[i].id}
              && SpeciesAfter(species, compiled, i + 1) == Success((rows + [row], events + more))
              && report.log == old(report.log) + more
            else SpeciesAfter(species, compiled, |species|).Failure?
  {
    SpeciesStep(species, compiled, i, ids, rows, events);
    row := SpeciesRow(species[i].id, [], []);
    if !ValidId(species[i].id) || species[i].id in ids {
      return false, row, [];
    }
    var compiledRow;
    compiledRow, more := CompileSpecies(skills, passives, species[i], report);
    if compiledRow.Failure? {
      return false, row, [];
    }
    return true, compiledRow.value, more;
  }

  lemma {:induction false} SpeciesFailForGood(species: seq<Species>, compiled: seq<Result<(SpeciesRow, seq<Event>)>>,
                                              m: nat, n: nat)
    requires m <= n <= |species| == |compiled| && SpeciesAfter(species, compiled, m).Failure?
    ensures SpeciesAfter(species, compiled, n).Failure?
  {
    if m < n { SpeciesFailForGood(species, compiled, m, n - 1); }
  }

  lemma RecipeStep(items: set<string>, recipes: seq<Recipe>, resolutions: seq<Resolution>, i: nat, ids: set<string>,
                   rows: seq<RecipeRow>, events: seq<Event>)
    requires i < |recipes| == |resolutions| && ids == FirstIds(RecipeIds(recipes), i)
    requires RecipesAfter(items, recipes, resolutions, i) == Success((rows, events))
    ensures FirstIds(RecipeIds(recipes), i + 1) == ids + {recipes[i].id}
    ensures var entry := RecipeEntry(recipes[i], resolutions[i]);
            if ValidId(recipes[i].id) && recipes[i].id !in ids && recipes[i].outputItem in items then
              RecipesAfter(items, recipes, resolutions, i + 1) == Success((rows + [entry.0], events + entry.1))
            else RecipesAfter(items, recipes, resolutions, |recipes|).Failure?
  {
    if RecipesAfter(items, recipes, resolutions, i + 1).Failure? {
      RecipesFailForGood(items, recipes, resolutions, i + 1, |recipes|);
    }
  }

  method RecipeRows(ix: Index, recipes: seq<Recipe>, report: Builder)
    returns (result: Result<seq<RecipeRow>>, ghost events: seq<Event>)
    requires report.Valid()
    modifies report
    ensures report.Valid()
    ensures RecipeTable(ix, recipes) == if result.Success? then Success((result.value, events)) else Failure
    ensures result.Success? ==> report.log == old(report.log) + events
  {
    result, events := RecipeLoop(ix, recipes, report, ItemResolutions(ix, recipes));
  }

  ghost predicate IsUnlockOf(ix: Index, recipe: Recipe, r: Resolution) {
    recipe.unlockItem.Some? ==>
      forall x {:trigger Resolve(ix, x, None)} :: x == recipe.unlockItem.value ==> r == Resolve(ix, x, None)
  }

  /** The loop over the recipes, against the resolutions their unlock items are known to have. */
  method RecipeLoop(ix: Index, recipes: seq<Recipe>, report: Builder, ghost resolutions: seq<Resolution>)
    returns (result: Result<seq<RecipeRow>>, ghost events: seq<Event>)
    requires report.Valid() && |resolutions| == |recipes|
    requires forall i :: 0 <= i < |recipes| ==> IsUnlockOf(ix, recipes[i], resolutions[i])
    modifies report
    ensures report.Valid()
    ensures RecipesAfter(ix.exact, recipes, resolutions, |recipes|) ==
            if result.Success? then Success((result.value, events)) else Failure
    ensures result.Success? ==> report.log == old(report.log) + events
  {
    var rows: seq<RecipeRow> := [];
    var ids: set<string> := {};
    events := [];
    for i := 0 to |recipes|
      invariant report.Valid() && report.log == old(report.log) + events
      invariant RecipesAfter(ix.exact, recipes, resolutions, i) == Success((rows, events))
      invariant ids == FirstIds(RecipeIds(recipes), i)
    {
      var recipe := recipes[i];
      RecipeStep(ix.exact, recipes, resolutions, i, ids, rows, events);
      if !ValidId(recipe.id) || recipe.id in ids || recipe.outputItem !in ix.exact {
        return Failure, events;
      }
      ids := ids + {recipe.id};
      var row;
      ghost var more;
      row, more := AddRecipe(ix, recipe, report, resolutions[i]);
      LogGrows(old(report.log), events, more);
      rows, events := rows + [row], events + more;
    }
    return Success(rows), events;
  }

  method AddRecipe(ix: Index, recipe: Recipe, report: Builder, ghost expected: Resolution)
    returns (row: RecipeRow, ghost events: seq<Event>)
    requires report.Valid() && IsUnlockOf(ix, recipe, expected)
    modifies report
    ensures report.Valid() && report.log == old(report.log) + events
    ensures (row, events) == RecipeEntry(recipe, expected)
  {
    var unlock: Option<string> := None;
    events := [];
    if recipe.unlockItem.Some? {
      var resolution := Resolve(ix, recipe.unlockItem.value, None);
      report.RecordResolution(UnlockItems, ItemTarget, recipe.id, recipe.unlockItem.value, resolution);
      events := [Resolved(UnlockItems, ItemTarget, recipe.id, recipe.unlockItem.value, resolution)];
      unlock := Some(resolution.outputId);
    }
    row := RecipeRow(recipe.id, recipe.outputItem, OptionalText(unlock));
  }

  lemma {:induction false} RecipesFailForGood(items: set<string>, recipes: seq<Recipe>, resolutions: seq<Resolution>,
                                              m: nat, n: nat)
    requires m <= n <= |recipes| == |resolutions| && RecipesAfter(items, recipes, resolutions, m).Failure?
    ensures RecipesAfter(items, recipes, resolutions, n).Failure?
  {
    if m < n { RecipesFailForGood(items, recipes, resolutions, m, n - 1); }
  }

  lemma DropStep(items: set<string>, drops: seq<Drop>, resolutions: seq<Resolution>, i: nat, ids: set<string>,
                 rows: seq<DropRow>, events: seq<Event>)
    requires i < |drops| == |resolutions| && ids == FirstIds(MethodIds(drops), i)
    requires DropsAfter(items, drops, resolutions, i) == Success((rows, events))
    ensures FirstIds(MethodIds(drops), i + 1) == ids + {drops[i].methodId}
    ensures if ValidId(drops[i].methodId) && ValidId(drops[i].palId) && drops[i].methodId !in ids
            && drops[i].itemId in items then
              DropsAfter(items, drops, resolutions, i + 1) ==
              Success((rows + [DropRow(drops[i].methodId, resolutions[i].outputId, drops[i].itemId)],
                       events + [Resolved(PalDrops, SpeciesTarget, drops[i].methodId, drops[i].palId, resolutions[i])]))
            else DropsAfter(items, drops, resolutions, |drops|).Failure?
  {
    if DropsAfter(items, drops, resolutions, i + 1).Failure? {
      DropsFailForGood(items, drops, resolutions, i + 1, |drops|);
    }
  }

  method DropRows(ix: Index, items: set<string>, drops: seq<Drop>, report: Builder)
    returns (result: Result<seq<DropRow>>, ghost events: seq<Event>)
    requires report.Valid()
    modifies report
    ensures report.Valid()
    ensures DropTable(ix, items, drops) == if result.Success? then Success((result.value, events)) else Failure
    ensures result.Success? ==> report.log == old(report.log) + events
  {
    result, events := DropLoop(ix, items, drops, report, DropResolutions(ix, drops));
  }

  /** The loop over the drops, against the resolutions their species are known to have. */
  method DropLoop(ix: Index, items: set<string>, drops: seq<Drop>, report: Builder, ghost resolutions: seq<Resolution>)
    returns (result: Result<seq<DropRow>>, ghost events: seq<Event>)
    requires report.Valid() && |resolutions| == |drops|
    requires forall i {:trigger Resolve(ix, drops[i].palId, None)} :: 0 <= i < |drops| ==>
               resolutions[i] == Resolve(ix, drops[i].palId, None)
    modifies report
    ensures report.Valid()
    ensures DropsAfter(items, drops, resolutions, |drops|) ==
            if result.Success? then Success((result.value, events)) else Failure
    ensures result.Success? ==> report.log == old(report.log) + events
  {
    var rows: seq<DropRow> := [];
    var ids: set<string> := {};
    events := [];
    for i := 0 to |drops|
      invariant report.Valid() && report.log == old(report.log) + events
      invariant DropsAfter(items, drops, resolutions, i) == Success((rows, events))
      invariant ids == FirstIds(MethodIds(drops), i)
    {
      var drop := drops[i];
      DropStep(items, drops, resolutions, i, ids, rows, events);
      if !ValidId(drop.methodId) || !ValidId(drop.palId) || drop.methodId in ids || drop.itemId !in items {
        return Failure, events;
      }
      ids := ids + {drop.methodId};
      var resolution := Resolve(ix, drop.palId, None);
      report.RecordResolution(PalDrops, SpeciesTarget, drop.methodId, drop.palId, resolution);
      events := events + [Resolved(PalDrops, SpeciesTarget, drop.methodId, drop.palId, resolution)];
      rows := rows + [DropRow(drop.methodId, resolution.outputId, drop.itemId)];
    }
    return Success(rows), events;
  }

  lemma {:induction false} DropsFailForGood(items: set<string>, drops: seq<Drop>, resolutions: seq<Resolution>, m: nat,
                                            n: nat)
    requires m <= n <= |drops| == |resolutions| && DropsAfter(items, drops, resolutions, m).Failure?
    ensures DropsAfter(items, drops, resolutions, n).Failure?
  {
    if m < n { DropsFailForGood(items, drops, resolutions, m, n - 1); }
  }

  // ----- the whole compilation

  predicate AllValid(ids: seq<string>) {
    forall id :: id in ids ==> ValidId(id)
  }

  function SkillIds(keys: seq<string>): seq<string> {
    Mapped(CanonicalSkillId, keys)
  }

  /** The recipe and drop rows with what recording their references adds to the log. */
  ghost function ItemTables(src: Sources, species: Index): Result<(seq<RecipeRow>, seq<DropRow>, seq<Event>)> {
    if !AllValid(src.items) || !Distinct(src.items) then Failure else
    var recipes := RecipeTable(IndexOf(Elements(src.items)), src.recipes);
    if recipes.Failure? then Failure else
    var drops := DropTable(species, Elements(src.items), src.drops);
    if drops.Failure? then Failure
    else Success((recipes.value.0, drops.value.0, recipes.value.1 + drops.value.1))
  }

  /** The species rows, once the skill keys and the passives have proved present and valid. */
  ghost function PalTables(src: Sources): Result<(seq<SpeciesRow>, seq<Event>)> {
    var skills := SkillIds(src.skillKeys);
    if src.skillKeys == [] || src.passives == [] || !AllValid(skills) || !Distinct(skills) then Failure else
    var species := SpeciesTable(IndexOf(Elements(skills)), IndexOf(Elements(src.passives)), src.species);
    if !AllValid(src.passives) then Failure else species
  }

  /** The tables and the log of recorded references, or Failure when the sources are rejected. */
  ghost function Compile(src: Sources): Result<(Tables, seq<Event>)> {
    var pals := PalTables(src);
    if pals.Failure? then Failure else
    var rest := ItemTables(src, IndexOf(Elements(SpeciesIds(src.species))));
    if rest.Failure? then Failure
    else Success((Tables(SkillIds(src.skillKeys), src.passives, pals.value.0, src.items, rest.value.0, rest.value.1),
                  pals.value.1 + rest.value.2))
  }

  method GeneratePalRows(src: Sources, report: Builder)
    returns (result: Result<seq<SpeciesRow>>, ghost events: seq<Event>)
    requires report.Valid()
    modifies report
    ensures report.Valid()
    ensures PalTables(src) == if result.Success? then Success((result.value, events)) else Failure
    ensures result.Success? ==> report.log == old(report.log) + events
  {
    var skills := SkillIds(src.skillKeys);
    if src.skillKeys == [] || src.passives == [] || !AllValid(skills) || !Distinct(skills) {
      return Failure, [];
    }
    var skillIndex := NewIndex(Elements(skills));
    var passiveIndex := NewIndex(Elements(src.passives));
    result, events := SpeciesRows(skillIndex, passiveIndex, src.species, report);
    if !AllValid(src.passives) {
      return Failure, events;
    }
  }

  method GenerateItemSeedRows(src: Sources, species: Index, report: Builder)
    returns (result: Result<(seq<RecipeRow>, seq<DropRow>)>, ghost events: seq<Event>)
    requires report.Valid()
    modifies report
    ensures report.Valid()
    ensures ItemTables(src, species) ==
            if result.Success? then Success((result.value.0, result.value.1, events)) else Failure
    ensures result.Success? ==> report.log == old(report.log) + events
  {
    events := [];
    if !AllValid(src.items) || !Distinct(src.items) {
      return Failure, events;
    }
    var ix := NewIndex(Elements(src.items));
    var recipes, drops;
    ghost var more;
    recipes, events := RecipeRows(ix, src.recipes, report);
    if recipes.Failure? {
      return Failure, events;
    }
    drops, more := DropRows(species, Elements(src.items), src.drops, report);
    LogGrows(old(report.log), events, more);
    if drops.Failure? {
      return Failure, events;
    }
    return Success((recipes.value, drops.value)), events + more;
  }

  /** Species first, then recipes and drops, all with their references in one report. */
  method CompileTables(src: Sources, report: Builder) returns (result: Result<Tables>, ghost events: seq<Event>)
    requires report.Valid()
    modifies report
    ensures report.Valid()
    ensures Compile(src) == if result.Success? then Success((result.value, events)) else Failure
    ensures result.Success? ==> report.log == old(report.log) + events
  {
    var species, rest;
    ghost var more;
    species, events := GeneratePalRows(src, report);
    if species.Failure? {
      return Failure, events;
    }
    var speciesIndex := NewIndex(Elements(SpeciesIds(src.species)));
    rest, more := GenerateItemSeedRows(src, speciesIndex, report);
    LogGrows(old(report.log), events, more);
    if rest.Failure? {
      return Failure, events;
    }
    return Success(Tables(SkillIds(src.skillKeys), src.passives, species.value, src.items, rest.value.0, rest.value.1)),
           events + more;
  }

  method GenerateSeed(src: Sources) returns (result: Result<Tables>, report: Builder)
    ensures report.Valid()
    ensures Compile(src) == if result.Success? then Success((result.value, report.log)) else Failure
  {
    report := new Builder();
    ghost var events;
    result, events := CompileTables(src, report);
    assert [] + events == events;
  }
}
