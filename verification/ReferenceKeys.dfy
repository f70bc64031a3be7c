/** No row of the Error Book or of the reference edges is inserted twice: the compiled tables
    hold each reference once. */
module ReferenceKeys {
  import opened Basics
  import opened ReferenceIndex
  import opened QualityReport
  import opened SeedCompiler
  import opened SeedRows
  import opened KnowledgeProjection

  /** The primary key of the row a reference yields. */
  datatype EntryKey = SkillKey(species: string, skill: string) | PassiveKey(species: string, passive: string)
                    | DropKey(method_: string) | UnlockKey(recipe: string)

  function EntryOf(ref: Reference): EntryKey {
    match ref
    case SkillRef(species, skill) => SkillKey(species, skill)
    case PassiveRef(species, passive) => PassiveKey(species, passive)
    case DropRef(how, _, _) => DropKey(how)
    case UnlockRef(recipe, _) => UnlockKey(recipe)
  }

  ghost predicate KeysDistinct(refs: seq<Reference>) {
    forall i, j :: 0 <= i < j < |refs| ==> EntryOf(refs[i]) != EntryOf(refs[j])
  }

  lemma KeysConcat(a: seq<Reference>, b: seq<Reference>)
    requires KeysDistinct(a) && KeysDistinct(b)
    requires forall x, y :: x in a && y in b ==> EntryOf(x) != EntryOf(y)
    ensures KeysDistinct(a + b)
  {
    forall i, j | 0 <= i < j < |a + b|
      ensures EntryOf((a + b)[i]) != EntryOf((a + b)[j])
    {
      if i < |a| <= j { assert a[i] in a && b[j - |a|] in b; }
    }
  }

  // ----- what the compiler lists once

  ghost predicate RowListsOnce(row: SpeciesRow) {
    && (forall i, j :: 0 <= i < j < |row.learned| ==> row.learned[i].skillId != row.learned[j].skillId)
    && Distinct(row.passives)
  }

  lemma RowOnce(skills: Index, passives: Index, s: Species)
    requires Learned(skills, s).Success?
    ensures RowListsOnce(SpeciesRow(s.id, Learned(skills, s).value.0, Passives(passives, s).0))
  {
    var at := SkillsAre(skills, s);
    var from := PassivesAre(passives, s, Passives(passives, s).0, Passives(passives, s).1);
    var learned, ids := Learned(skills, s).value.0, Passives(passives, s).0;
    forall i, j | 0 <= i < j < |learned|
      ensures learned[i].skillId != learned[j].skillId
    {
      assert at[j] in at && at[i] < at[j];
    }
    forall i, j | 0 <= i < j < |ids|
      ensures ids[i] != ids[j]
    {
      assert from[j] in from && from[i] < from[j];
    }
  }

  // ----- the references of the tables

  lemma {:induction false} SkillKeysDistinct(rows: seq<SpeciesRow>)
    requires Distinct(RowIds(rows)) && forall row :: row in rows ==> RowListsOnce(row)
    ensures KeysDistinct(SkillRefs(rows))
    ensures forall ref :: ref in SkillRefs(rows) ==> ref.SkillRef? && ref.species in RowIds(rows)
  {
    if rows != [] {
      var before, last := rows[..|rows| - 1], rows[|rows| - 1];
      assert RowIds(before) == RowIds(rows)[..|before|] && last.id == RowIds(rows)[|before|];
      assert RowIds(rows) == RowIds(before) + [last.id];
      assert RowListsOnce(last);
      SkillKeysDistinct(before);
      KeysConcat(SkillRefs(before), Mapped((s: LearnedSkill) => SkillRef(last.id, s.skillId), last.learned));
    }
  }

  lemma {:induction false} PassiveKeysDistinct(rows: seq<SpeciesRow>)
    requires Distinct(RowIds(rows)) && forall row :: row in rows ==> RowListsOnce(row)
    ensures KeysDistinct(PassiveRefs(rows))
    ensures forall ref :: ref in PassiveRefs(rows) ==> ref.PassiveRef? && ref.species in RowIds(rows)
  {
    if rows != [] {
      var before, last := rows[..|rows| - 1], rows[|rows| - 1];
      assert RowIds(before) == RowIds(rows)[..|before|] && last.id == RowIds(rows)[|before|];
      assert RowIds(rows) == RowIds(before) + [last.id];
      assert RowListsOnce(last);
      PassiveKeysDistinct(before);
      KeysConcat(PassiveRefs(before), Mapped((id: string) => PassiveRef(last.id, id), last.passives));
    }
  }

  lemma {:induction false} UnlockKeysDistinct(rows: seq<RecipeRow>)
    requires forall i, j :: 0 <= i < j < |rows| ==> rows[i].id != rows[j].id
    ensures KeysDistinct(UnlockRefs(rows))
    ensures forall ref :: ref in UnlockRefs(rows) ==>
              ref.UnlockRef? && exists row :: row in rows && row.id == ref.recipe
  {
    if rows != [] {
      var before, last := rows[..|rows| - 1], rows[|rows| - 1];
      UnlockKeysDistinct(before);
      assert rows == before + [last];
      var more := if last.unlockItem.Some? then [UnlockRef(last.id, last.unlockItem.value)] else [];
      KeysConcat(UnlockRefs(before), more);
    }
  }

  ghost predicate ListsOnce(t: Tables) {
    && (forall row :: row in t.species ==> RowListsOnce(row))
    && (forall i, j :: 0 <= i < j < |t.drops| ==> t.drops[i].methodId != t.drops[j].methodId)
    && (forall i, j :: 0 <= i < j < |t.recipes| ==> t.recipes[i].id != t.recipes[j].id)
  }

  /** Every reference of such tables has its own key. */
  lemma ReferencesAreKeyed(t: Tables)
    requires WellKeyed(t) && ListsOnce(t)
    ensures KeysDistinct(References(t))
  {
    SkillKeysDistinct(t.species);
    PassiveKeysDistinct(t.species);
    UnlockKeysDistinct(t.recipes);
    KeysConcat(SkillRefs(t.species), PassiveRefs(t.species));
    KeysConcat(SkillRefs(t.species) + PassiveRefs(t.species), DropRefs(t.drops));
    KeysConcat(SkillRefs(t.species) + PassiveRefs(t.species) + DropRefs(t.drops), UnlockRefs(t.recipes));
  }

  lemma TablesListOnce(src: Sources)
    requires Compile(src).Success?
    ensures ListsOnce(Compile(src).value.0)
  {
    var skills, passives := IndexOf(Elements(SkillIds(src.skillKeys))), IndexOf(Elements(src.passives));
    SpeciesListOnce(skills, passives, src.species);
    RecipesListOnce(src.items, src.recipes);
    DropsListOnce(IndexOf(Elements(SpeciesIds(src.species))), Elements(src.items), src.drops);
  }

  lemma SpeciesListOnce(skills: Index, passives: Index, species: seq<Species>)
    requires SpeciesTable(skills, passives, species).Success?
    ensures forall row :: row in SpeciesTable(skills, passives, species).value.0 ==> RowListsOnce(row)
  {
    var logs := SpeciesTableIs(skills, passives, species);
    forall i | 0 <= i < |species| { RowOnce(skills, passives, species[i]); }
  }

  lemma RecipesListOnce(items: seq<string>, recipes: seq<Recipe>)
    requires AllValid(items) && RecipeTable(IndexOf(Elements(items)), recipes).Success?
    ensures var rows := RecipeTable(IndexOf(Elements(items)), recipes).value.0;
            forall i, j :: 0 <= i < j < |rows| ==> rows[i].id != rows[j].id
  {
    var logs := RecipeTableIs(items, recipes);
    var rows := RecipeTable(IndexOf(Elements(items)), recipes).value.0;
    forall i, j | 0 <= i < j < |rows|
      ensures rows[i].id != rows[j].id
    {
      assert RecipeStored(items, recipes[i], rows[i], logs[i]) && RecipeStored(items, recipes[j], rows[j], logs[j]);
      assert RecipeIds(recipes)[i] != RecipeIds(recipes)[j];
    }
  }

  lemma DropsListOnce(species: Index, items: set<string>, drops: seq<Drop>)
    requires DropTable(species, items, drops).Success?
    ensures var rows := DropTable(species, items, drops).value.0;
            forall i, j :: 0 <= i < j < |rows| ==> rows[i].methodId != rows[j].methodId
  {
    DropTableIs(species, items, drops);
    var rows := DropTable(species, items, drops).value.0;
    forall i, j | 0 <= i < j < |rows|
      ensures rows[i].methodId != rows[j].methodId
    {
      assert MethodIds(drops)[i] != MethodIds(drops)[j];
    }
  }

  /** Error Book rows and edges keep the references' keys apart. */
  lemma {:induction false} GapsKeepKeys(refs: seq<Reference>, nodes: seq<Node>)
    requires KeysDistinct(refs)
    ensures KeysDistinct(Gaps(refs, nodes))
    ensures forall ref :: ref in Gaps(refs, nodes) <==> ref in refs && Endpoint(ref) !in nodes
  {
    if refs != [] {
      var before, last := refs[..|refs| - 1], refs[|refs| - 1];
      GapsKeepKeys(before, nodes);
      assert refs == before + [last];
      KeysConcat(Gaps(before, nodes), if Endpoint(last) in nodes then [] else [last]);
    }
  }

  lemma {:induction false} EdgesKeepKeys(refs: seq<Reference>, nodes: seq<Node>)
    requires KeysDistinct(refs) && forall ref :: ref in refs ==> Occurrences(nodes, Endpoint(ref)) <= 1
    ensures KeysDistinct(Edges(refs, nodes))
    ensures forall ref :: ref in Edges(refs, nodes) <==> ref in refs && Endpoint(ref) in nodes
  {
    if refs != [] {
      var before, last := refs[..|refs| - 1], refs[|refs| - 1];
      EdgesKeepKeys(before, nodes);
      assert refs == before + [last];
      OccursIffIn(nodes, Endpoint(last));
      var more := Repeat(last, Occurrences(nodes, Endpoint(last)));
      assert more == if Endpoint(last) in nodes then [last] else [];
      KeysConcat(Edges(before, nodes), more);
    }
  }

  /** Each reference becomes one edge or one Error Book row, never both or neither, and no two
      rows of either table share a key. */
  ghost predicate Split(t: Tables, rules: seq<RuleRow>) {
    var gaps, edges := ErrorBook(t, rules), Edges(References(t), GraphNodes(t, rules));
    && KeysDistinct(gaps) && KeysDistinct(edges) && |gaps| + |edges| == |References(t)|
    && forall ref :: ref in References(t) <==> (ref in gaps) != (ref in edges)
  }

  lemma ReferencesSplit(t: Tables, rules: seq<RuleRow>)
    requires WellKeyed(t) && ListsOnce(t)
    ensures Split(t, rules)
  {
    var refs, nodes := References(t), GraphNodes(t, rules);
    ReferencesAreKeyed(t);
    EdgesAndGapsPartition(t, rules, refs);
    forall ref | ref in refs
      ensures Occurrences(nodes, Endpoint(ref)) <= 1
    {
      EndpointRows(t, rules, ref);
      OccursIffIn(Catalogue(t, ref), Key(ref));
    }
    GapsKeepKeys(refs, nodes);
    EdgesKeepKeys(refs, nodes);
  }

  lemma CompiledReferencesSplit(src: Sources, rules: seq<RuleRow>)
    requires Compile(src).Success? && Distinct(src.passives)
    ensures Split(Compile(src).value.0, rules)
  {
    CompiledIsWellKeyed(src);
    TablesListOnce(src);
    ReferencesSplit(Compile(src).value.0, rules);
  }
}
