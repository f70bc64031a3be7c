/** What the rows of a compilation hold, stated over the index and the sources: every resolved
    reference is listed, once, where it first occurs, and every reference is on record. */
module SeedRows {
  import opened Basics
  import opened Text
  import opened ReferenceIndex
  import opened QualityReport
  import opened SeedCompiler

  // ----- first occurrences

  /** Position i is the first with its id. */
  predicate FirstAt(ids: seq<string>, i: nat)
    requires i < |ids|
  {
    forall j :: 0 <= j < i ==> ids[j] != ids[i]
  }

  /** The first occurrences below n, in order: ascending positions, all of them and no others. */
  ghost predicate Firsts(at: seq<nat>, ids: seq<string>, n: nat)
    requires n <= |ids|
  {
    && (forall k :: 0 <= k < |at| ==> at[k] < n && FirstAt(ids, at[k]))
    && (forall k, l :: 0 <= k < l < |at| ==> at[k] < at[l])
    && (forall i :: 0 <= i < n && FirstAt(ids, i) ==> i in at)
  }

  /** Each id below n is the id of some first occurrence below n. */
  lemma {:induction false} FirstExists(ids: seq<string>, i: nat) returns (j: nat)
    requires i < |ids|
    ensures j <= i && ids[j] == ids[i] && FirstAt(ids, j)
  {
    if FirstAt(ids, i) {
      j := i;
    } else {
      var k :| 0 <= k < i && ids[k] == ids[i];
      j := FirstExists(ids, k);
    }
  }

  lemma NextFirst(at: seq<nat>, ids: seq<string>, n: nat)
    requires n < |ids| && Firsts(at, ids, n)
    ensures FirstAt(ids, n) ==> Firsts(at + [n], ids, n + 1)
    ensures !FirstAt(ids, n) ==> Firsts(at, ids, n + 1)
    ensures FirstAt(ids, n) <==> forall k :: 0 <= k < |at| ==> ids[at[k]] != ids[n]
  {
    if !FirstAt(ids, n) {
      var j :| 0 <= j < n && ids[j] == ids[n];
      var f := FirstExists(ids, j);
      assert f in at;
      var k :| 0 <= k < |at| && at[k] == f;
      assert ids[at[k]] == ids[n];
    }
    if FirstAt(ids, n) {
      forall i | 0 <= i < n + 1 && FirstAt(ids, i)
        ensures i in at + [n]
      {
        if i < n { assert i in at; }
      }
    }
  }

  /** The ids are those of the first occurrences below n. */
  ghost predicate Picks(at: seq<nat>, ids: seq<string>, picked: seq<string>, n: nat)
    requires n <= |ids|
  {
    Firsts(at, ids, n) && |picked| == |at| && forall k :: 0 <= k < |at| ==> picked[k] == ids[at[k]]
  }

  lemma PickNext(at: seq<nat>, ids: seq<string>, picked: seq<string>, n: nat)
    requires n < |ids| && Picks(at, ids, picked, n)
    ensures ids[n] in picked <==> !FirstAt(ids, n)
    ensures ids[n] !in picked ==> Picks(at + [n], ids, picked + [ids[n]], n + 1)
    ensures ids[n] in picked ==> Picks(at, ids, picked, n + 1)
  {
    NextFirst(at, ids, n);
    if !FirstAt(ids, n) {
      var k :| 0 <= k < |at| && ids[at[k]] == ids[n];
      assert picked[k] == ids[n];
    }
  }

  function OutputIds(resolutions: seq<Resolution>): seq<string> {
    Mapped((r: Resolution) => r.outputId, resolutions)
  }

  // ----- guaranteed passives

  function PassiveEvent(s: Species, resolutions: seq<Resolution>, i: nat): Event
    requires i < |s.passives| == |resolutions|
  {
    if FirstAt(OutputIds(resolutions), i)
    then Resolved(GuaranteedPassives, PassiveTarget, s.id, s.passives[i], resolutions[i])
    else Duplicate(GuaranteedPassives, PassiveTarget, s.id, s.passives[i])
  }

  lemma {:induction false} PassivesBelow(s: Species, resolutions: seq<Resolution>, n: nat) returns (at: seq<nat>)
    requires n <= |s.passives| == |resolutions|
    ensures Picks(at, OutputIds(resolutions), PassivesAfter(s, resolutions, n).0, n)
    ensures |PassivesAfter(s, resolutions, n).1| == n
    ensures forall i :: 0 <= i < n ==> PassivesAfter(s, resolutions, n).1[i] == PassiveEvent(s, resolutions, i)
  {
    if n == 0 {
      at := [];
    } else {
      at := PassivesBelow(s, resolutions, n - 1);
      PickNext(at, OutputIds(resolutions), PassivesAfter(s, resolutions, n - 1).0, n - 1);
      if FirstAt(OutputIds(resolutions), n - 1) {
        at := at + [n - 1];
      }
    }
  }

  /** The passives of a species are what its references resolve to, each once and in the order of
      first occurrence, settled or not; every reference is on record, as resolved where its id first
      occurs and as a duplicate later. */
  lemma PassivesAre(ix: Index, s: Species, ids: seq<string>, events: seq<Event>) returns (at: seq<nat>)
    requires Passives(ix, s) == (ids, events)
    ensures |events| == |s.passives|
    ensures forall k :: 0 <= k < |at| ==> at[k] < |s.passives|
    ensures forall k, l :: 0 <= k < l < |at| ==> at[k] < at[l]
    ensures |ids| == |at| && forall k :: 0 <= k < |at| ==> ids[k] == Resolve(ix, s.passives[at[k]], None).outputId
    ensures forall i :: 0 <= i < |s.passives| ==>
              var r := Resolve(ix, s.passives[i], None);
              var first := forall j :: 0 <= j < i ==> Resolve(ix, s.passives[j], None).outputId != r.outputId;
              && (i in at <==> first)
              && events[i] == (if first then Resolved(GuaranteedPassives, PassiveTarget, s.id, s.passives[i], r)
                               else Duplicate(GuaranteedPassives, PassiveTarget, s.id, s.passives[i]))
  {
    var resolutions := PassiveResolutions(ix, s);
    at := PassivesBelow(s, resolutions, |s.passives|);
    var outputs := OutputIds(resolutions);
    forall i | 0 <= i < |s.passives|
      ensures FirstAt(outputs, i) <==>
              forall j :: 0 <= j < i ==>
                Resolve(ix, s.passives[j], None).outputId != Resolve(ix, s.passives[i], None).outputId
    {
      assert outputs[i] == Resolve(ix, s.passives[i], None).outputId;
      assert forall j :: 0 <= j < i ==> outputs[j] == Resolve(ix, s.passives[j], None).outputId;
    }
  }

  // ----- learned skills

  function SkillEvent(s: Species, resolutions: seq<Resolution>, i: nat): Event
    requires i < |s.learned| == |resolutions|
  {
    if FirstAt(OutputIds(resolutions), i)
    then Resolved(LearnedSkills, ActiveSkillTarget, s.id, s.learned[i].skillId, resolutions[i])
    else Duplicate(LearnedSkills, ActiveSkillTarget, s.id, s.learned[i].skillId)
  }

  function SkillIdsOf(skills: seq<LearnedSkill>): seq<string> {
    Mapped((k: LearnedSkill) => k.skillId, skills)
  }

  lemma ListsMeans(skills: seq<LearnedSkill>, id: string)
    ensures Lists(skills, id) <==> id in SkillIdsOf(skills)
  {
    if k :| 0 <= k < |skills| && skills[k].skillId == id { assert SkillIdsOf(skills)[k] == id; }
  }

  /** Records of the same skill say the same, among the first n. */
  predicate Agreeing(s: Species, outputs: seq<string>, n: nat)
    requires n <= |s.learned| == |outputs|
  {
    forall i, j :: 0 <= i < j < n && outputs[i] == outputs[j] ==> s.learned[i].details == s.learned[j].details
  }

  /** The skills are the records of the first occurrences. */
  ghost predicate PicksSkills(at: seq<nat>, s: Species, outputs: seq<string>, skills: seq<LearnedSkill>, n: nat)
    requires n <= |s.learned| == |outputs|
  {
    && Picks(at, outputs, SkillIdsOf(skills), n)
    && forall k :: 0 <= k < |at| ==> skills[k].details == s.learned[at[k]].details
  }

  lemma SkillPickNext(at: seq<nat>, s: Species, outputs: seq<string>, skills: seq<LearnedSkill>, n: nat)
    requires n < |s.learned| == |outputs| && PicksSkills(at, s, outputs, skills, n) && Agreeing(s, outputs, n)
    ensures Lists(skills, outputs[n]) <==> !FirstAt(outputs, n)
    ensures var skill := LearnedSkill(outputs[n], s.learned[n].details);
            && (FirstAt(outputs, n) ==>
                  PicksSkills(at + [n], s, outputs, skills + [skill], n + 1) && Agreeing(s, outputs, n + 1))
            && (!FirstAt(outputs, n) ==> PicksSkills(at, s, outputs, skills, n + 1))
            && (!FirstAt(outputs, n) ==> (skill in skills <==> Agreeing(s, outputs, n + 1)))
  {
    var skill := LearnedSkill(outputs[n], s.learned[n].details);
    PickNext(at, outputs, SkillIdsOf(skills), n);
    ListsMeans(skills, outputs[n]);
    assert SkillIdsOf(skills + [skill]) == SkillIdsOf(skills) + [outputs[n]];
    if !FirstAt(outputs, n) {
      var j :| 0 <= j < n && outputs[j] == outputs[n];
      var f := FirstExists(outputs, j);
      assert f in at;
      var k :| 0 <= k < |at| && at[k] == f;
      assert SkillIdsOf(skills)[k] == skills[k].skillId;
      if skill in skills {
        forall i | 0 <= i < n && outputs[i] == outputs[n]
          ensures s.learned[i].details == s.learned[n].details
        {
          SameDetails(at, s, outputs, skills, n, i, skill);
        }
      }
      if Agreeing(s, outputs, n + 1) {
        assert skills[k] == skill;
      }
    }
  }

  lemma SameDetails(at: seq<nat>, s: Species, outputs: seq<string>, skills: seq<LearnedSkill>, n: nat, i: nat,
                    skill: LearnedSkill)
    requires n <= |s.learned| == |outputs| && PicksSkills(at, s, outputs, skills, n) && Agreeing(s, outputs, n)
    requires i < n && outputs[i] == skill.skillId && skill in skills
    ensures s.learned[i].details == skill.details
  {
    var k :| 0 <= k < |skills| && skills[k] == skill;
    assert SkillIdsOf(skills)[k] == skill.skillId == outputs[at[k]];
    assert s.learned[at[k]].details == skill.details;
  }

  lemma SkillStep(at: seq<nat>, s: Species, resolutions: seq<Resolution>, skills: seq<LearnedSkill>, events: seq<Event>,
                  n: nat)
    requires n < |s.learned| == |resolutions|
    requires PicksSkills(at, s, OutputIds(resolutions), skills, n) && Agreeing(s, OutputIds(resolutions), n)
    ensures var next := AddSkill(skills, events, s.id, s.learned[n].skillId, s.learned[n].details, resolutions[n]);
            && (next.Success? <==> Agreeing(s, OutputIds(resolutions), n + 1))
            && (next.Success? ==> next.value.1 == events + [SkillEvent(s, resolutions, n)])
            && (next.Success? ==> PicksSkills(if FirstAt(OutputIds(resolutions), n) then at + [n] else at,
                                              s, OutputIds(resolutions), next.value.0, n + 1))
  {
    SkillPickNext(at, s, OutputIds(resolutions), skills, n);
  }

  ghost predicate SkillEvents(events: seq<Event>, s: Species, resolutions: seq<Resolution>, n: nat)
    requires n <= |s.learned| == |resolutions|
  {
    |events| == n && forall i :: 0 <= i < n ==> events[i] == SkillEvent(s, resolutions, i)
  }

  ghost predicate SkillsGood(at: seq<nat>, s: Species, resolutions: seq<Resolution>, n: nat,
                             r: Result<(seq<LearnedSkill>, seq<Event>)>)
    requires n <= |s.learned| == |resolutions|
  {
    && (r.Success? <==> Agreeing(s, OutputIds(resolutions), n))
    && (r.Success? ==> PicksSkills(at, s, OutputIds(resolutions), r.value.0, n)
                       && SkillEvents(r.value.1, s, resolutions, n))
  }

  lemma SkillsGoodNext(at: seq<nat>, s: Species, resolutions: seq<Resolution>, n: nat,
                       r: Result<(seq<LearnedSkill>, seq<Event>)>)
    returns (next: seq<nat>)
    requires n < |s.learned| == |resolutions| && SkillsGood(at, s, resolutions, n, r)
    ensures SkillsGood(next, s, resolutions, n + 1,
                       if r.Failure? then Failure
                       else AddSkill(r.value.0, r.value.1, s.id, s.learned[n].skillId, s.learned[n].details,
                                     resolutions[n]))
  {
    if r.Success? {
      next := if FirstAt(OutputIds(resolutions), n) then at + [n] else at;
      SkillStep(at, s, resolutions, r.value.0, r.value.1, n);
      SkillEventsNext(r.value.1, s, resolutions, n);
    } else {
      next := at;
      AgreeingBefore(s, OutputIds(resolutions), n);
    }
  }

  lemma AgreeingBefore(s: Species, outputs: seq<string>, n: nat)
    requires n < |s.learned| == |outputs|
    ensures Agreeing(s, outputs, n + 1) ==> Agreeing(s, outputs, n)
  {
  }

  lemma SkillEventsNext(events: seq<Event>, s: Species, resolutions: seq<Resolution>, n: nat)
    requires n < |s.learned| == |resolutions| && SkillEvents(events, s, resolutions, n)
    ensures SkillEvents(events + [SkillEvent(s, resolutions, n)], s, resolutions, n + 1)
  {
  }

  lemma {:induction false} SkillsBelow(s: Species, resolutions: seq<Resolution>, n: nat) returns (at: seq<nat>)
    requires n <= |s.learned| == |resolutions|
    ensures SkillsGood(at, s, resolutions, n, LearnedAfter(s, resolutions, n))
  {
    at := [];
    if n > 0 {
      var before := SkillsBelow(s, resolutions, n - 1);
      at := SkillsGoodNext(before, s, resolutions, n - 1, LearnedAfter(s, resolutions, n - 1));
    }
  }

  /** The learned skills of a species are the records whose skill first occurs there, in order and
      under the resolved id; every record is noted; records of one skill that disagree are the only
      reason to fail. */
  lemma SkillsAre(ix: Index, s: Species) returns (at: seq<nat>)
    ensures Learned(ix, s).Failure? <==>
            exists i, j :: 0 <= i < j < |s.learned| && SkillAt(ix, s, i) == SkillAt(ix, s, j)
                           && s.learned[i].details != s.learned[j].details
    ensures Learned(ix, s).Success? ==>
              var (skills, events) := Learned(ix, s).value;
              && |skills| == |at| && |events| == |s.learned|
              && (forall k :: 0 <= k < |at| ==> at[k] < |s.learned|)
              && (forall k, l :: 0 <= k < l < |at| ==> at[k] < at[l])
              && (forall k :: 0 <= k < |at| ==>
                                skills[k] == LearnedSkill(SkillAt(ix, s, at[k]), s.learned[at[k]].details))
    ensures Learned(ix, s).Success? ==>
              forall i :: 0 <= i < |s.learned| ==>
                var first := forall j :: 0 <= j < i ==> SkillAt(ix, s, j) != SkillAt(ix, s, i);
                && (i in at <==> first)
                && Learned(ix, s).value.1[i] ==
                   (if first then Resolved(LearnedSkills, ActiveSkillTarget, s.id, s.learned[i].skillId,
                                           Resolve(ix, s.learned[i].skillId, Some("EPalWazaID::")))
                    else Duplicate(LearnedSkills, ActiveSkillTarget, s.id, s.learned[i].skillId))
  {
    var resolutions := SkillResolutions(ix, s);
    var outputs := OutputIds(resolutions);
    at := SkillsBelow(s, resolutions, |s.learned|);
    assert forall i :: 0 <= i < |s.learned| ==> outputs[i] == SkillAt(ix, s, i);
    if Learned(ix, s).Success? {
      var skills := Learned(ix, s).value.0;
      forall k | 0 <= k < |at|
        ensures skills[k] == LearnedSkill(SkillAt(ix, s, at[k]), s.learned[at[k]].details)
      {
        assert SkillIdsOf(skills)[k] == skills[k].skillId;
      }
    }
  }

  /** What the reference of a learned skill resolves to. */
  function SkillAt(ix: Index, s: Species, i: nat): string
    requires i < |s.learned|
  {
    Resolve(ix, s.learned[i].skillId, Some("EPalWazaID::")).outputId
  }

  // ----- the tables

  function Flatten(logs: seq<seq<Event>>): seq<Event> {
    if logs == [] then [] else Flatten(logs[..|logs| - 1]) + logs[|logs| - 1]
  }

  lemma FlattenMore(logs: seq<seq<Event>>, log: seq<Event>)
    ensures Flatten(logs + [log]) == Flatten(logs) + log
  {
    assert (logs + [log])[..|logs|] == logs;
  }

  /** The row of a species is what its references come to, its id included, skills before passives. */
  lemma RowIs(skills: Index, passives: Index, s: Species)
    ensures RowFor(skills, passives, s).Failure? <==> Learned(skills, s).Failure?
    ensures RowFor(skills, passives, s).Success? ==>
              && RowFor(skills, passives, s).value.0 ==
                 SpeciesRow(s.id, Learned(skills, s).value.0, Passives(passives, s).0)
              && RowFor(skills, passives, s).value.1 == Learned(skills, s).value.1 + Passives(passives, s).1
  {
  }

  const SEED_CHARACTERS := LOWER + UPPER + DIGITS + "_:-"

  /** Which ids the compiler accepts. */
  lemma SeedIds(id: string)
    ensures ValidId(id) <==> 1 <= |id| <= 128 && MadeOf(id, SEED_CHARACTERS)
  {
    forall i | 0 <= i < |id|
      ensures id[i] in SEED_CHARACTERS <==> ValidIdChar(id[i])
    {
      AlphabetWith(id[i], "_:-");
    }
  }

  lemma {:induction false} FirstIdsAre(ids: seq<string>, n: nat)
    requires n <= |ids|
    ensures forall id :: id in FirstIds(ids, n) <==> id in ids[..n]
  {
    if n > 0 {
      FirstIdsAre(ids, n - 1);
      assert ids[..n] == ids[..n - 1] + [ids[n - 1]];
    }
  }

  lemma DistinctNext(ids: seq<string>, n: nat)
    requires n < |ids|
    ensures Distinct(ids[..n + 1]) <==> Distinct(ids[..n]) && ids[n] !in FirstIds(ids, n)
  {
    FirstIdsAre(ids, n);
    assert ids[..n + 1] == ids[..n] + [ids[n]];
    if Distinct(ids[..n + 1]) {
      assert forall i :: 0 <= i < n ==> ids[..n][i] == ids[..n + 1][i];
      assert ids[n] == ids[..n + 1][n];
    }
  }

  lemma {:induction false} SpeciesBelow(species: seq<Species>, compiled: seq<Result<(SpeciesRow, seq<Event>)>>, n: nat)
    returns (logs: seq<seq<Event>>)
    requires n <= |species| == |compiled|
    ensures SpeciesAfter(species, compiled, n).Success? <==>
            && Distinct(SpeciesIds(species)[..n])
            && forall i :: 0 <= i < n ==> ValidId(species[i].id) && compiled[i].Success?
    ensures SpeciesAfter(species, compiled, n).Success? ==>
              var (rows, events) := SpeciesAfter(species, compiled, n).value;
              && |rows| == |logs| == n && events == Flatten(logs)
              && forall i :: 0 <= i < n ==> compiled[i] == Success((rows[i], logs[i]))
  {
    logs := [];
    if n > 0 {
      logs := SpeciesBelow(species, compiled, n - 1);
      DistinctNext(SpeciesIds(species), n - 1);
      if compiled[n - 1].Success? {
        FlattenMore(logs, compiled[n - 1].value.1);
        logs := logs + [compiled[n - 1].value.1];
      }
    }
  }

  ghost predicate RecipesGood(items: set<string>, recipes: seq<Recipe>, n: nat)
    requires n <= |recipes|
  {
    Distinct(RecipeIds(recipes)[..n]) && forall i :: 0 <= i < n ==>
          ValidId(recipes[i].id) && recipes[i].outputItem in items
  }

  ghost predicate RecipeRowsAre(rows: seq<RecipeRow>, logs: seq<seq<Event>>, recipes: seq<Recipe>,
                                resolutions: seq<Resolution>, n: nat)
    requires n <= |recipes| == |resolutions|
  {
    |rows| == |logs| == n && forall i :: 0 <= i < n ==> (rows[i], logs[i]) == RecipeEntry(recipes[i], resolutions[i])
  }

  lemma RecipeRowsNext(rows: seq<RecipeRow>, logs: seq<seq<Event>>, recipes: seq<Recipe>, resolutions: seq<Resolution>,
                       n: nat)
    requires n < |recipes| == |resolutions| && RecipeRowsAre(rows, logs, recipes, resolutions, n)
    ensures var entry := RecipeEntry(recipes[n], resolutions[n]);
            RecipeRowsAre(rows + [entry.0], logs + [entry.1], recipes, resolutions, n + 1)
  {
  }

  lemma {:induction false} RecipesSucceed(items: set<string>, recipes: seq<Recipe>, resolutions: seq<Resolution>,
                                          n: nat)
    requires n <= |recipes| == |resolutions|
    ensures RecipesAfter(items, recipes, resolutions, n).Success? <==> RecipesGood(items, recipes, n)
  {
    if n > 0 {
      RecipesSucceed(items, recipes, resolutions, n - 1);
      DistinctNext(RecipeIds(recipes), n - 1);
      assert RecipeIds(recipes)[n - 1] == recipes[n - 1].id;
    }
  }

  lemma {:induction false} RecipesBelow(items: set<string>, recipes: seq<Recipe>, resolutions: seq<Resolution>, n: nat)
    returns (logs: seq<seq<Event>>)
    requires n <= |recipes| == |resolutions| && RecipesAfter(items, recipes, resolutions, n).Success?
    ensures RecipeRowsAre(RecipesAfter(items, recipes, resolutions, n).value.0, logs, recipes, resolutions, n)
    ensures RecipesAfter(items, recipes, resolutions, n).value.1 == Flatten(logs)
  {
    if n == 0 {
      logs := [];
    } else {
      var before := RecipesBelow(items, recipes, resolutions, n - 1);
      var more := RecipeEntry(recipes[n - 1], resolutions[n - 1]).1;
      FlattenMore(before, more);
      RecipeRowsNext(RecipesAfter(items, recipes, resolutions, n - 1).value.0, before, recipes, resolutions, n - 1);
      logs := before + [more];
    }
  }

  ghost predicate DropsGood(items: set<string>, drops: seq<Drop>, n: nat)
    requires n <= |drops|
  {
    && Distinct(MethodIds(drops)[..n])
    && forall i :: 0 <= i < n ==> ValidId(drops[i].methodId) && ValidId(drops[i].palId) && drops[i].itemId in items
  }

  ghost predicate DropRowsAre(rows: seq<DropRow>, events: seq<Event>, drops: seq<Drop>, resolutions: seq<Resolution>,
                              n: nat)
    requires n <= |drops| == |resolutions|
  {
    && |rows| == |events| == n
    && (forall i :: 0 <= i < n ==> rows[i] == DropRow(drops[i].methodId, resolutions[i].outputId, drops[i].itemId))
    && (forall i :: 0 <= i < n ==>
          events[i] == Resolved(PalDrops, SpeciesTarget, drops[i].methodId, drops[i].palId, resolutions[i]))
  }

  lemma {:induction false} DropsBelow(items: set<string>, drops: seq<Drop>, resolutions: seq<Resolution>, n: nat)
    requires n <= |drops| == |resolutions|
    ensures DropsAfter(items, drops, resolutions, n).Success? <==> DropsGood(items, drops, n)
    ensures DropsAfter(items, drops, resolutions, n).Success? ==>
              DropRowsAre(DropsAfter(items, drops, resolutions, n).value.0,
                          DropsAfter(items, drops, resolutions, n).value.1,
                          drops, resolutions, n)
  {
    if n > 0 {
      DropsBelow(items, drops, resolutions, n - 1);
      DistinctNext(MethodIds(drops), n - 1);
      assert MethodIds(drops)[n - 1] == drops[n - 1].methodId;
    }
  }

  /** One row per species, in order; the table fails only for a bad or repeated id or conflicting skills. */
  lemma SpeciesTableIs(skills: Index, passives: Index, species: seq<Species>) returns (logs: seq<seq<Event>>)
    ensures SpeciesTable(skills, passives, species).Success? <==>
            Distinct(SpeciesIds(species))
            && forall i :: 0 <= i < |species| ==> ValidId(species[i].id) && Learned(skills, species[i]).Success?
    ensures SpeciesTable(skills, passives, species).Success? ==>
              var (rows, events) := SpeciesTable(skills, passives, species).value;
              && |rows| == |logs| == |species| && events == Flatten(logs)
              && forall i :: 0 <= i < |species| ==>
                   && Learned(skills, species[i]).Success?
                   && rows[i] == SpeciesRow(species[i].id, Learned(skills, species[i]).value.0,
                                            Passives(passives, species[i]).0)
                   && logs[i] == Learned(skills, species[i]).value.1 + Passives(passives, species[i]).1
  {
    logs := SpeciesBelow(species, CompiledSpecies(skills, passives, species), |species|);
    assert SpeciesIds(species)[..|species|] == SpeciesIds(species);
    forall i | 0 <= i < |species| { RowIs(skills, passives, species[i]); }
  }

  lemma {:induction false} TrimOfValidId(id: string)
    requires ValidId(id)
    ensures Trim(id) == id
  {
    assert ValidIdChar(id[0]) && ValidIdChar(id[|id| - 1]);
  }

  /** A blank reference never resolves to an item, and nothing else resolves to blank text. */
  lemma BlankStaysUnsettled(items: seq<string>, raw: string)
    requires AllValid(items)
    ensures Trim(Resolve(IndexOf(Elements(items)), raw, None).outputId) == "" <==> Trim(raw) == ""
    ensures Trim(raw) == "" ==> Unsettled(Resolve(IndexOf(Elements(items)), raw, None))
  {
    var ix := IndexOf(Elements(items));
    var r := Resolve(ix, raw, None);
    IndexDescribes(Elements(items));
    SettledMeansPresent(ix, Elements(items), raw, None);
    ResolutionMeans(ix, Elements(items), raw, None);
    if !Unsettled(r) {
      TrimOfValidId(r.outputId);
    }
    if Trim(raw) == "" {
      if raw in items { TrimOfValidId(raw); }
      assert FoldClass(Elements(items), Lower("")) == {};
    }
  }

  /** The unlock item of a recipe: stored exactly when it is named and not blank, as what it
      resolves to, and on record whenever it is named. */
  ghost predicate RecipeStored(items: seq<string>, recipe: Recipe, row: RecipeRow, log: seq<Event>) {
    && row.id == recipe.id && row.outputItem == recipe.outputItem
    && (recipe.unlockItem.None? ==> row.unlockItem.None? && log == [])
    && (recipe.unlockItem.Some? ==>
          var r := Resolve(IndexOf(Elements(items)), recipe.unlockItem.value, None);
          && log == [Resolved(UnlockItems, ItemTarget, recipe.id, recipe.unlockItem.value, r)]
          && row.unlockItem == if Trim(recipe.unlockItem.value) == "" then None else Some(r.outputId))
  }

  lemma EntryIsStored(items: seq<string>, recipe: Recipe, r: Resolution)
    requires AllValid(items)
    requires recipe.unlockItem.Some? ==> r == Resolve(IndexOf(Elements(items)), recipe.unlockItem.value, None)
    ensures RecipeStored(items, recipe, RecipeEntry(recipe, r).0, RecipeEntry(recipe, r).1)
  {
    if recipe.unlockItem.Some? {
      BlankStaysUnsettled(items, recipe.unlockItem.value);
    }
  }

  lemma RecipeTableIs(items: seq<string>, recipes: seq<Recipe>) returns (logs: seq<seq<Event>>)
    requires AllValid(items)
    ensures RecipeTable(IndexOf(Elements(items)), recipes).Success? <==>
            Distinct(RecipeIds(recipes))
            && forall i :: 0 <= i < |recipes| ==> ValidId(recipes[i].id) && recipes[i].outputItem in items
    ensures RecipeTable(IndexOf(Elements(items)), recipes).Success? ==>
              var (rows, events) := RecipeTable(IndexOf(Elements(items)), recipes).value;
              && |rows| == |logs| == |recipes| && events == Flatten(logs)
              && forall i :: 0 <= i < |recipes| ==> RecipeStored(items, recipes[i], rows[i], logs[i])
  {
    var ix := IndexOf(Elements(items));
    var resolutions := ItemResolutions(ix, recipes);
    RecipesSucceed(ix.exact, recipes, resolutions, |recipes|);
    logs := [];
    if RecipesAfter(ix.exact, recipes, resolutions, |recipes|).Success? {
      logs := RecipesBelow(ix.exact, recipes, resolutions, |recipes|);
    }
    assert RecipeIds(recipes)[..|recipes|] == RecipeIds(recipes);
    forall i | 0 <= i < |recipes| { EntryIsStored(items, recipes[i], resolutions[i]); }
  }

  /** One row and one record per drop, under the species its reference resolves to. */
  lemma DropTableIs(species: Index, items: set<string>, drops: seq<Drop>)
    ensures DropTable(species, items, drops).Success? <==>
            Distinct(MethodIds(drops))
            && forall i :: 0 <= i < |drops| ==>
                 ValidId(drops[i].methodId) && ValidId(drops[i].palId) && drops[i].itemId in items
    ensures DropTable(species, items, drops).Success? ==>
              var (rows, events) := DropTable(species, items, drops).value;
              && |rows| == |events| == |drops|
              && forall i :: 0 <= i < |drops| ==>
                   var r := Resolve(species, drops[i].palId, None);
                   && rows[i] == DropRow(drops[i].methodId, r.outputId, drops[i].itemId)
                   && events[i] == Resolved(PalDrops, SpeciesTarget, drops[i].methodId, drops[i].palId, r)
  {
    DropsBelow(items, drops, DropResolutions(species, drops), |drops|);
    assert MethodIds(drops)[..|drops|] == MethodIds(drops);
  }

  lemma SkillKeys(keys: seq<string>, i: nat)
    requires i < |keys|
    ensures |SkillIds(keys)| == |keys|
    ensures "EPalWazaID::" <= keys[i] ==> keys[i] == "EPalWazaID::" + SkillIds(keys)[i]
    ensures !("EPalWazaID::" <= keys[i]) ==> SkillIds(keys)[i] == keys[i]
  {
    assert SKILL_NAMESPACE == "EPalWazaID::";
    assert SkillIds(keys)[i] == CanonicalSkillId(keys[i]);
    if SKILL_NAMESPACE <= keys[i] {
      assert keys[i] == keys[i][..|SKILL_NAMESPACE|] + keys[i][|SKILL_NAMESPACE|..];
    }
  }

  ghost predicate PalsAccepted(src: Sources) {
    && src.skillKeys != [] && src.passives != []
    && AllValid(SkillIds(src.skillKeys)) && Distinct(SkillIds(src.skillKeys)) && AllValid(src.passives)
    && SpeciesTable(IndexOf(Elements(SkillIds(src.skillKeys))), IndexOf(Elements(src.passives)), src.species).Success?
  }

  ghost predicate ItemsAccepted(src: Sources, species: Index) {
    && AllValid(src.items) && Distinct(src.items)
    && RecipeTable(IndexOf(Elements(src.items)), src.recipes).Success?
    && DropTable(species, Elements(src.items), src.drops).Success?
  }

  lemma PalTablesAre(src: Sources)
    ensures PalTables(src).Success? <==> PalsAccepted(src)
    ensures PalTables(src).Success? ==>
              PalTables(src) ==
              SpeciesTable(IndexOf(Elements(SkillIds(src.skillKeys))), IndexOf(Elements(src.passives)), src.species)
  {
  }

  lemma ItemTablesAre(src: Sources, species: Index)
    ensures ItemTables(src, species).Success? <==> ItemsAccepted(src, species)
    ensures ItemTables(src, species).Success? ==>
              var recipes := RecipeTable(IndexOf(Elements(src.items)), src.recipes).value;
              var drops := DropTable(species, Elements(src.items), src.drops).value;
              ItemTables(src, species).value == (recipes.0, drops.0, recipes.1 + drops.1)
  {
  }

  /** A compilation succeeds exactly when both parts are accepted, and puts them together: the
      catalogue's ids, the species, the recipes and the drops, and one log over all. */
  lemma CompileIs(src: Sources)
    ensures var species := IndexOf(Elements(SpeciesIds(src.species)));
            && (Compile(src).Success? <==> PalsAccepted(src) && ItemsAccepted(src, species))
            && (Compile(src).Success? ==>
                  var (t, log), pals, rest := Compile(src).value, PalTables(src).value, ItemTables(src, species).value;
                  && t.skills == SkillIds(src.skillKeys) && t.passives == src.passives && t.items == src.items
                  && t.species == pals.0 && t.recipes == rest.0 && t.drops == rest.1 && log == pals.1 + rest.2)
  {
    PalTablesAre(src);
    ItemTablesAre(src, IndexOf(Elements(SpeciesIds(src.species))));
  }
}
