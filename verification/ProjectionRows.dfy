/** Which rows the projection inserts, in terms of the compiled tables. */
module ProjectionRows {
  import opened Basics
  import opened SeedCompiler
  import opened KnowledgeProjection

  // ----- references

  ghost predicate HasReference(t: Tables, ref: Reference) {
    match ref
    case SkillRef(species, skill) =>
      exists row, k :: row in t.species && k in row.learned && row.id == species && k.skillId == skill
    case PassiveRef(species, passive) => exists row :: row in t.species && row.id == species && passive in row.passives
    case DropRef(how, species, item) => DropRow(how, species, item) in t.drops
    case UnlockRef(recipe, item) => exists row :: row in t.recipes && row.id == recipe && row.unlockItem == Some(item)
  }

  lemma {:induction false} SkillRefsAre(rows: seq<SpeciesRow>, ref: Reference)
    ensures ref in SkillRefs(rows) <==>
            && ref.SkillRef?
            && exists row, k :: row in rows && k in row.learned && row.id == ref.species && k.skillId == ref.skill
  {
    if rows != [] {
      var before, last := rows[..|rows| - 1], rows[|rows| - 1];
      SkillRefsAre(before, ref);
      assert rows == before + [last];
      var more := Mapped((s: LearnedSkill) => SkillRef(last.id, s.skillId), last.learned);
      if ref in more {
        var i :| 0 <= i < |more| && more[i] == ref;
        assert last.learned[i] in last.learned;
      }
      if k :| k in last.learned && ref == SkillRef(last.id, k.skillId) {
        var i :| 0 <= i < |last.learned| && last.learned[i] == k;
        assert more[i] == ref;
      }
    }
  }

  lemma {:induction false} PassiveRefsAre(rows: seq<SpeciesRow>, ref: Reference)
    ensures ref in PassiveRefs(rows) <==>
            ref.PassiveRef? && exists row :: row in rows && row.id == ref.species && ref.passive in row.passives
  {
    if rows != [] {
      var before, last := rows[..|rows| - 1], rows[|rows| - 1];
      PassiveRefsAre(before, ref);
      assert rows == before + [last];
      var more := Mapped((id: string) => PassiveRef(last.id, id), last.passives);
      if ref.PassiveRef? && ref.species == last.id && ref.passive in last.passives {
        var i :| 0 <= i < |last.passives| && last.passives[i] == ref.passive;
        assert more[i] == ref;
      }
    }
  }

  lemma {:induction false} UnlockRefsAre(rows: seq<RecipeRow>, ref: Reference)
    ensures ref in UnlockRefs(rows) <==>
            ref.UnlockRef? && exists row :: row in rows && row.id == ref.recipe && row.unlockItem == Some(ref.item)
  {
    if rows != [] {
      var before, last := rows[..|rows| - 1], rows[|rows| - 1];
      UnlockRefsAre(before, ref);
      assert rows == before + [last];
    }
  }

  /** The references of the tables: every skill and passive of a species, every drop, every stored unlock item. */
  lemma ReferencesAre(t: Tables, ref: Reference)
    ensures ref in References(t) <==> HasReference(t, ref)
  {
    SkillRefsAre(t.species, ref);
    PassiveRefsAre(t.species, ref);
    UnlockRefsAre(t.recipes, ref);
    var drops := DropRefs(t.drops);
    if ref.DropRef? && DropRow(ref.method_, ref.species, ref.item) in t.drops {
      var i :| 0 <= i < |t.drops| && t.drops[i] == DropRow(ref.method_, ref.species, ref.item);
      assert drops[i] == ref;
    }
  }

  // ----- nodes and pages

  ghost predicate HasNode(t: Tables, rules: seq<RuleRow>, n: Node) {
    match n
    case SpeciesNode(id) => id in RowIds(t.species)
    case SkillNode(id) => id in t.skills
    case PassiveNode(id) => id in t.passives
    case ItemNode(id) => id in t.items
    case RecipeNode(id) => exists row :: row in t.recipes && row.id == id
    case RuleNode(rule) => rule in rules
    case WikiNode(_) => false
  }

  lemma {:induction false} RecipeNodesAre(recipes: seq<RecipeRow>, items: seq<string>, n: Node)
    requires forall row :: row in recipes ==> row.outputItem in items
    ensures n in RecipeNodes(recipes, items) <==> n.RecipeNode? && exists row :: row in recipes && row.id == n.id
  {
    if recipes != [] {
      var before, last := recipes[..|recipes| - 1], recipes[|recipes| - 1];
      RecipeNodesAre(before, items, n);
      assert recipes == before + [last];
      OccursIffIn(items, last.outputItem);
      Repeated(RecipeNode(last.id), Occurrences(items, last.outputItem), n);
    }
  }

  lemma Repeated(x: Node, count: nat, n: Node)
    ensures n in Repeat(x, count) <==> n == x && count > 0
  {
    if count > 0 { assert Repeat(x, count)[0] == x; }
  }

  lemma {:induction false} RuleNodesAre(rules: seq<RuleRow>, species: seq<string>, n: Node)
    requires RulesKnown(rules, species)
    ensures n in RuleNodes(rules, species) <==> n.RuleNode? && n.rule in rules
  {
    if rules != [] {
      var before, last := rules[..|rules| - 1], rules[|rules| - 1];
      assert rules == before + [last];
      assert last in rules;
      RuleNodesAre(before, species, n);
      OccursIffIn(species, last.0);
      OccursIffIn(species, last.1);
      OccursIffIn(species, last.2);
      Repeated(RuleNode(last), Occurrences(species, last.0) * Occurrences(species, last.1) * Occurrences(species,
                                                                                                         last.2), n);
    }
  }

  lemma ColumnNodes(f: string -> Node, ids: seq<string>, n: Node)
    ensures n in Mapped(f, ids) <==> exists id :: id in ids && f(id) == n
  {
    if id :| id in ids && f(id) == n {
      var i :| 0 <= i < |ids| && ids[i] == id;
      assert Mapped(f, ids)[i] == n;
    }
    if n in Mapped(f, ids) {
      var i :| 0 <= i < |ids| && Mapped(f, ids)[i] == n;
      assert ids[i] in ids;
    }
  }

  /** The graph has a node for every row of every catalogue, for every recipe and every rule. */
  lemma NodesAre(t: Tables, rules: seq<RuleRow>, n: Node)
    requires WellKeyed(t) && RulesKnown(rules, RowIds(t.species))
    ensures n in GraphNodes(t, rules) <==> HasNode(t, rules, n)
  {
    ColumnNodes((id: string) => SpeciesNode(id), RowIds(t.species), n);
    ColumnNodes((id: string) => SkillNode(id), t.skills, n);
    ColumnNodes((id: string) => PassiveNode(id), t.passives, n);
    ColumnNodes((id: string) => ItemNode(id), t.items, n);
    RecipeNodesAre(t.recipes, t.items, n);
    RuleNodesAre(rules, RowIds(t.species), n);
  }

  lemma {:induction false} PagesAre(nodes: seq<Node>, n: Node)
    ensures n in WikiPages(nodes) <==> n in nodes && !n.WikiNode? && !n.RuleNode?
  {
    if nodes != [] {
      PagesAre(nodes[..|nodes| - 1], n);
      assert nodes == nodes[..|nodes| - 1] + [nodes[|nodes| - 1]];
    }
  }

  /** Every node that is not a rule has a page, and every page a node of its own. */
  lemma PageNodesAre(t: Tables, rules: seq<RuleRow>, page: Node)
    requires WellKeyed(t) && RulesKnown(rules, RowIds(t.species))
    ensures page in WikiPages(GraphNodes(t, rules)) <==> HasNode(t, rules, page) && !page.RuleNode?
    ensures WikiNode(page) in AllNodes(t, rules) <==> page in WikiPages(GraphNodes(t, rules))
  {
    NodesAre(t, rules, page);
    NodesAre(t, rules, WikiNode(page));
    PagesAre(GraphNodes(t, rules), page);
    var pages := WikiPages(GraphNodes(t, rules));
    var nodes := Mapped((p: Node) => WikiNode(p), pages);
    if page in pages {
      var i :| 0 <= i < |pages| && pages[i] == page;
      assert nodes[i] == WikiNode(page);
    }
  }
}
