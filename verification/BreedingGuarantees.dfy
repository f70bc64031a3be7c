/** What a caller of the planner may rely on, stated over the request alone. */
module BreedingGuarantees {
  import opened Basics
  import opened Ordering
  import opened Text
  import opened Breeding
  import opened BreedingSearch
  import opened BreedingPlanner

  // ----- breeding trees: the independent meaning of a plan

  datatype Tree = Caught(pal: OwnedPal) | Hatched(rule: Rule, left: Tree, right: Tree)

  /** The tree starts from owned Pals, applies given rules, and ends in species s. */
  ghost predicate Makes(q: Request, t: Tree, s: string) {
    match t
    case Caught(pal) => pal in q.owned && pal.speciesId == s
    case Hatched(r, a, b) => r in q.rules && r.child == s && Makes(q, a, r.parentA) && Makes(q, b, r.parentB)
  }

  function Height(t: Tree): nat {
    match t
    case Caught(_) => 0
    case Hatched(_, a, b) => 1 + Max(Height(a), Height(b))
  }

  // ----- sorting loses nothing

  lemma SortedElements(q: Request)
    ensures forall r :: r in SortedRules(q) <==> r in q.rules
    ensures forall p :: p in SortedPals(q) <==> p in q.owned
    ensures |SortedRules(q)| == |q.rules|
  {
    SortBySorts(RuleKey, q.rules);
    SortBySorts(OwnedKey, q.owned);
    forall r
      ensures r in SortedRules(q) <==> r in q.rules
    {
      assert r in multiset(SortedRules(q)) <==> r in multiset(q.rules);
    }
    forall p
      ensures p in SortedPals(q) <==> p in q.owned
    {
      assert p in multiset(SortedPals(q)) <==> p in multiset(q.owned);
    }
  }

  ghost predicate Represents(owned: seq<OwnedPal>, s: string, instance: string) {
    && (exists pal :: pal in owned && pal.speciesId == s && pal.instanceId == instance)
    && forall pal :: pal in owned && pal.speciesId == s ==> !StringLess(pal.instanceId, instance)
  }

  lemma {:induction false} StartPicksFirst(pals: seq<OwnedPal>, n: nat, s: string)
    requires n <= |pals|
    ensures s in StartKnown(pals, n) <==> exists i :: 0 <= i < n && pals[i].speciesId == s
    ensures s in StartKnown(pals, n) ==>
              exists i :: 0 <= i < n && pals[i].speciesId == s
                          && StartKnown(pals, n)[s] == Known(0, Owned(pals[i].instanceId))
                          && forall j :: 0 <= j < i ==> pals[j].speciesId != s
  {
    if n > 0 {
      StartPicksFirst(pals, n - 1, s);
    }
  }

  lemma SecondComponent(s: string, x: string, y: string)
    requires !KeyLess([s, x], [s, y])
    ensures !StringLess(x, y)
  {
    StringOrderIsTotal();
    assert !KeyLess([x], [y]);
  }

  /** In a sorted list, the first Pal of a species has its least instance id. */
  lemma FirstIsLeast(pals: seq<OwnedPal>, i: nat, j: nat)
    requires SortedBy(OwnedKey, pals) && i <= j < |pals| && pals[i].speciesId == pals[j].speciesId
    ensures !StringLess(pals[j].instanceId, pals[i].instanceId)
  {
    if i == j {
      StringOrderIsTotal();
    } else {
      assert !KeyLess(OwnedKey(pals[j]), OwnedKey(pals[i]));
      SecondComponent(pals[i].speciesId, pals[j].instanceId, pals[i].instanceId);
    }
  }

  /** An owned species is represented by its least instance id. */
  lemma StartIsLeastInstance(q: Request, s: string)
    ensures s in Start(q) <==> exists pal :: pal in q.owned && pal.speciesId == s
    ensures s in Start(q) ==> Represents(q.owned, s, Start(q)[s].source.instanceId)
  {
    var pals := SortedPals(q);
    SortedElements(q);
    StartPicksFirst(pals, |pals|, s);
    if pal :| pal in q.owned && pal.speciesId == s {
      var j :| 0 <= j < |pals| && pals[j] == pal;
    }
    if s in Start(q) {
      var i :| 0 <= i < |pals| && pals[i].speciesId == s && Start(q)[s] == Known(0, Owned(pals[i].instanceId))
               && forall j :: 0 <= j < i ==> pals[j].speciesId != s;
      SortBySorts(OwnedKey, q.owned);
      assert pals[i] in q.owned;
      forall pal | pal in q.owned && pal.speciesId == s
        ensures !StringLess(pal.instanceId, pals[i].instanceId)
      {
        var j :| 0 <= j < |pals| && pals[j] == pal;
        FirstIsLeast(pals, i, j);
      }
    }
  }

  lemma {:induction false} TreeIsWithin(q: Request, t: Tree, s: string)
    requires Makes(q, t, s)
    ensures Within(Start(q), SortedRules(q), s, Height(t))
  {
    SortedElements(q);
    match t
    case Caught(pal) => StartIsLeastInstance(q, s);
    case Hatched(r, a, b) =>
      TreeIsWithin(q, a, r.parentA);
      TreeIsWithin(q, b, r.parentB);
      WithinMonotone(Start(q), SortedRules(q), r.parentA, Height(a), Height(t) - 1);
      WithinMonotone(Start(q), SortedRules(q), r.parentB, Height(b), Height(t) - 1);
      assert DerivesBy(Start(q), SortedRules(q), r, s, Height(t));
  }

  lemma {:induction false} WithinHasTree(q: Request, s: string, n: nat) returns (t: Tree)
    requires Within(Start(q), SortedRules(q), s, n)
    ensures Makes(q, t, s) && Height(t) <= n
    decreases n
  {
    SortedElements(q);
    if s in Start(q) {
      StartIsLeastInstance(q, s);
      var pal :| pal in q.owned && pal.speciesId == s;
      t := Caught(pal);
    } else {
      var r :| r in SortedRules(q) && DerivesBy(Start(q), SortedRules(q), r, s, n);
      var a := WithinHasTree(q, r.parentA, n - 1);
      var b := WithinHasTree(q, r.parentB, n - 1);
      t := Hatched(r, a, b);
    }
  }

  // ----- main guarantees

  /** The search is exact: it fails as unreachable only when no tree fits under the cap, and
      a returned generation count is attained and is the least possible. */
  lemma PlannerIsExact(q: Request)
    requires ValidateInputs(q).None? && Solve(q) != Failure(BudgetExhausted)
    ensures Solve(q) == Failure(Unreachable) <==> !exists t :: Makes(q, t, q.target) && Height(t) <= q.cap
    ensures Solve(q).Success? ==>
              && (exists t :: Makes(q, t, q.target) && Height(t) == Solve(q).value.generations)
              && (forall t :: Makes(q, t, q.target) ==> Solve(q).value.generations <= Height(t))
  {
    var start, rules, known := Start(q), SortedRules(q), FinalKnown(q);
    FinalIsFixpoint(q);
    forall t | Makes(q, t, q.target) && Height(t) <= q.cap
      ensures q.target in known && known[q.target].generation <= Height(t)
    {
      TreeIsWithin(q, t, q.target);
      FixpointIsLeast(start, rules, q.cap, known, q.target, Height(t));
    }
    if q.target in known {
      KnownIsDerivable(start, rules, q.cap, known, q.target);
      assert q.target !in start ==> Backed(rules, q.cap, known, q.target);
      var t := WithinHasTree(q, q.target, known[q.target].generation);
      assert Makes(q, t, q.target) && Height(t) <= q.cap;
    }
  }

  /** The search never runs more than one pass beyond the generation cap. */
  lemma BudgetSuffices(q: Request)
    requires ValidateInputs(q).None?
    ensures VisitsNeeded(q) <= (q.cap + 1) * |q.rules|
    ensures Solve(q) == Failure(BudgetExhausted) <==> VisitsNeeded(q) > q.budget
    ensures (q.cap + 1) * |q.rules| <= q.budget ==> Solve(q) != Failure(BudgetExhausted)
    ensures Solve(q).Success? ==> Solve(q).value.nodeVisits <= q.budget
  {
    SortedElements(q);
    TimesMonotone(PassCount(Start(q), SortedRules(q), q.cap), q.cap + 1, |q.rules|);
  }

  // ----- the extracted plan

  ghost predicate HasNode(plan: Plan, s: string, generation: nat) {
    exists node :: node in plan.nodes && node.speciesId == s && node.generation == generation
  }

  /** t lies n sources below s, going through the plan's own nodes only. */
  ghost predicate PlanReaches(plan: Plan, s: string, t: string, n: nat)
    decreases n
  {
    if n == 0 then s == t
    else exists node :: node in plan.nodes && node.speciesId == s && node.source.Bred?
                        && (PlanReaches(plan, node.source.parentA, t, n - 1)
                            || PlanReaches(plan, node.source.parentB, t, n - 1))
  }

  /** An owned leaf is a real instance of its species; a bred node applies a given rule to
      two earlier nodes of the plan and is exactly one generation after the later one. */
  ghost predicate NodeJustified(q: Request, plan: Plan, node: PlanNode) {
    match node.source
    case Owned(instance) => node.generation == 0 && Represents(q.owned, node.speciesId, instance)
    case Bred(id, a, b) =>
      && Rule(id, a, b, node.speciesId) in q.rules
      && exists ga: nat, gb: nat :: HasNode(plan, a, ga) && HasNode(plan, b, gb) && node.generation == 1 + Max(ga, gb)
  }

  function SpeciesOf(nodes: seq<PlanNode>): seq<string> {
    seq(|nodes|, i requires 0 <= i < |nodes| => nodes[i].speciesId)
  }

  lemma NodeListed(q: Request, s: string)
    requires Solve(q).Success? && Reaches(FinalKnown(q), q.target, s)
    ensures s in FinalKnown(q) && NodeOf(FinalKnown(q), s) in Solve(q).value.nodes
  {
    var known := FinalKnown(q);
    FinalIsFixpoint(q);
    var n: nat :| ReachesIn(known, q.target, s, n);
    RequiredAreKnown(Start(q), SortedRules(q), q.cap, known, q.target, s, n);
    var ids := Ascending(RequiredSpecies(known, q.target));
    assert s in ids;
    var i :| 0 <= i < |ids| && ids[i] == s;
    assert Solve(q).value.nodes[i] == NodeOf(known, s);
  }

  lemma {:induction false} ReachedInPlan(q: Request, s: string, t: string, n: nat)
    requires Solve(q).Success? && Reaches(FinalKnown(q), q.target, s) && ReachesIn(FinalKnown(q), s, t, n)
    ensures PlanReaches(Solve(q).value, s, t, n)
    decreases n
  {
    var known := FinalKnown(q);
    if n > 0 {
      NodeListed(q, s);
      var a, b := known[s].source.parentA, known[s].source.parentB;
      StepReaches(known, q.target, s, a);
      StepReaches(known, q.target, s, b);
      if ReachesIn(known, a, t, n - 1) {
        ReachedInPlan(q, a, t, n - 1);
      } else {
        ReachedInPlan(q, b, t, n - 1);
      }
    }
  }

  lemma {:induction false} StepAfter(known: KnownMap, s: string, t: string, n: nat, parent: string)
    requires ReachesIn(known, s, t, n) && t in known && known[t].source.Bred?
    requires parent == known[t].source.parentA || parent == known[t].source.parentB
    ensures ReachesIn(known, s, parent, n + 1)
    decreases n
  {
    if n == 0 {
      assert ReachesIn(known, parent, parent, 0);
    } else if ReachesIn(known, known[s].source.parentA, t, n - 1) {
      StepAfter(known, known[s].source.parentA, t, n - 1, parent);
    } else {
      StepAfter(known, known[s].source.parentB, t, n - 1, parent);
    }
  }

  lemma StepReaches(known: KnownMap, s: string, t: string, parent: string)
    requires Reaches(known, s, t) && t in known && known[t].source.Bred?
    requires parent == known[t].source.parentA || parent == known[t].source.parentB
    ensures Reaches(known, s, parent)
  {
    var n: nat :| ReachesIn(known, s, t, n);
    StepAfter(known, s, t, n, parent);
  }

  lemma NodeIsKnown(q: Request, node: PlanNode)
    requires Solve(q).Success? && node in Solve(q).value.nodes
    ensures node.speciesId in FinalKnown(q) && NodeOf(FinalKnown(q), node.speciesId) == node
    ensures Reaches(FinalKnown(q), q.target, node.speciesId)
  {
    var known := FinalKnown(q);
    var ids := Ascending(RequiredSpecies(known, q.target));
    var i :| 0 <= i < |Solve(q).value.nodes| && Solve(q).value.nodes[i] == node;
    assert ids[i] in RequiredSpecies(known, q.target);
  }

  /** The plan is a closed, well-founded account of the target: every node is justified by an
      owned Pal or by earlier nodes, and nothing the target does not need is listed. */
  lemma PlanIsClosed(q: Request, node: PlanNode)
    requires Solve(q).Success? && node in Solve(q).value.nodes
    ensures NodeJustified(q, Solve(q).value, node)
    ensures exists n: nat :: PlanReaches(Solve(q).value, q.target, node.speciesId, n)
    ensures StrictlyAscending(SpeciesOf(Solve(q).value.nodes))
    ensures HasNode(Solve(q).value, q.target, Solve(q).value.generations)
  {
    var plan, known, start, rules := Solve(q).value, FinalKnown(q), Start(q), SortedRules(q);
    FinalIsFixpoint(q);
    SortedElements(q);
    var ids := Ascending(RequiredSpecies(known, q.target));
    assert SpeciesOf(plan.nodes) == ids;
    assert ReachesIn(known, q.target, q.target, 0);
    NodeListed(q, q.target);
    var s := node.speciesId;
    NodeIsKnown(q, node);
    var n: nat :| ReachesIn(known, q.target, s, n);
    ReachedInPlan(q, q.target, s, n);
    StartIsLeastInstance(q, s);
    if s !in start {
      FixpointGeneration(start, rules, q.cap, known, s);
      var a, b := known[s].source.parentA, known[s].source.parentB;
      StepReaches(known, q.target, s, a);
      StepReaches(known, q.target, s, b);
      NodeListed(q, a);
      NodeListed(q, b);
      assert HasNode(plan, a, known[a].generation) && HasNode(plan, b, known[b].generation);
    }
  }

  lemma LowTreeIsWithin(q: Request, t: Tree, s: string, n: nat)
    requires Makes(q, t, s) && Height(t) <= n
    ensures Within(Start(q), SortedRules(q), s, n)
  {
    TreeIsWithin(q, t, s);
    WithinMonotone(Start(q), SortedRules(q), s, Height(t), n);
  }

  lemma TreesDerive(q: Request, r: Rule, a: Tree, b: Tree, n: nat)
    requires r in q.rules && Makes(q, a, r.parentA) && Makes(q, b, r.parentB)
    requires n == 1 + Max(Height(a), Height(b))
    ensures r in SortedRules(q) && DerivesBy(Start(q), SortedRules(q), r, r.child, n)
  {
    SortedElements(q);
    LowTreeIsWithin(q, a, r.parentA, n - 1);
    LowTreeIsWithin(q, b, r.parentB, n - 1);
  }

  /** Among the rules that can breed a listed species in its listed generation, the plan names
      the one with the least (rule id, parent a, parent b). */
  lemma PlanNamesLeastRule(q: Request, node: PlanNode, r: Rule, a: Tree, b: Tree)
    requires Solve(q).Success? && node in Solve(q).value.nodes && node.source.Bred?
    requires r in q.rules && r.child == node.speciesId && Makes(q, a, r.parentA) && Makes(q, b, r.parentB)
    requires 1 + Max(Height(a), Height(b)) == node.generation
    ensures !KeyLess([r.ruleId, r.parentA, r.parentB], SourceKey(node.source))
  {
    var known, start, rules := FinalKnown(q), Start(q), SortedRules(q);
    FinalIsFixpoint(q);
    var s := node.speciesId;
    NodeIsKnown(q, node);
    TreesDerive(q, r, a, b, node.generation);
    FixpointChoosesLeastRule(start, rules, q.cap, known, s, r);
  }

  // ----- order independence

  ghost predicate Rearranged(p: Request, q: Request) {
    && multiset(p.owned) == multiset(q.owned)
    && multiset(p.rules) == multiset(q.rules)
    && (forall id :: id in p.required <==> id in q.required)
    && p.target == q.target && p.cap == q.cap && p.budget == q.budget
  }

  lemma SameElements<T>(a: seq<T>, b: seq<T>)
    requires multiset(a) == multiset(b)
    ensures |a| == |b|
    ensures forall x :: x in a <==> x in b
  {
    assert |multiset(a)| == |a| && |multiset(b)| == |b|;
    forall x
      ensures x in a <==> x in b
    {
      assert x in multiset(a) <==> x in multiset(b);
    }
  }

  lemma {:induction false} DonorsAre(pals: seq<OwnedPal>, passive: string, instance: string)
    ensures instance in DonorsOf(pals, passive) <==>
            exists pal :: pal in pals && passive in pal.passiveIds && pal.instanceId == instance
  {
    if pals != [] {
      DonorsAre(pals[1..], passive, instance);
      assert pals == [pals[0]] + pals[1..];
    }
  }

  lemma StartIgnoresOrder(p: Request, q: Request)
    requires Rearranged(p, q)
    ensures Start(p) == Start(q)
  {
    SameElements(p.owned, q.owned);
    StringOrderIsTotal();
    forall s
      ensures s in Start(p) <==> s in Start(q)
      ensures s in Start(p) ==> Start(p)[s] == Start(q)[s]
    {
      StartIsLeastInstance(p, s);
      StartIsLeastInstance(q, s);
      if s in Start(p) {
        SameRepresentative(p.owned, q.owned, s, Start(p)[s].source.instanceId, Start(q)[s].source.instanceId);
      }
    }
  }

  lemma SameRepresentative(a: seq<OwnedPal>, b: seq<OwnedPal>, s: string, x: string, y: string)
    requires forall p :: p in a <==> p in b
    requires Represents(a, s, x) && Represents(b, s, y)
    ensures x == y
  {
    StringOrderIsTotal();
    assert !StringLess(x, y) && !StringLess(y, x);
  }

  lemma CoverageIgnoresOrder(p: Request, q: Request)
    requires Rearranged(p, q)
    ensures CoverageOf(SortedPals(p), SortDedup(p.required)) == CoverageOf(SortedPals(q), SortDedup(q.required))
  {
    SortDedupDependsOnElements(p.required, q.required);
    SameElements(p.owned, q.owned);
    SortedElements(p);
    SortedElements(q);
    var ids := SortDedup(p.required);
    forall i | 0 <= i < |ids|
      ensures SortDedup(DonorsOf(SortedPals(p), ids[i])) == SortDedup(DonorsOf(SortedPals(q), ids[i]))
    {
      forall instance
        ensures instance in DonorsOf(SortedPals(p), ids[i]) <==> instance in DonorsOf(SortedPals(q), ids[i])
      {
        DonorsAre(SortedPals(p), ids[i], instance);
        DonorsAre(SortedPals(q), ids[i], instance);
      }
      SortDedupDependsOnElements(DonorsOf(SortedPals(p), ids[i]), DonorsOf(SortedPals(q), ids[i]));
    }
  }

  /** Rearranging the owned Pals, the rules or the required passives changes nothing in the
      answer, its node visits and its errors included. */
  lemma OrderDoesNotMatter(p: Request, q: Request)
    requires Rearranged(p, q)
    ensures Solve(p) == Solve(q)
  {
    SameElements(p.owned, q.owned);
    SameElements(p.rules, q.rules);
    assert ValidateInputs(p) == ValidateInputs(q);
    StartIgnoresOrder(p, q);
    CoverageIgnoresOrder(p, q);
    SortBySorts(RuleKey, p.rules);
    SortBySorts(RuleKey, q.rules);
    SortedUnique(RuleKey, SortedRules(p), SortedRules(q));
  }

  /** Donors listed for a required passive are exactly the owned instances that carry it. */
  lemma CoverageIsExact(q: Request, entry: Coverage, instance: string)
    requires Solve(q).Success? && entry in Solve(q).value.coverage
    ensures entry.passiveId in q.required && StrictlyAscending(entry.donors)
    ensures instance in entry.donors <==>
            exists pal :: pal in q.owned && entry.passiveId in pal.passiveIds && pal.instanceId == instance
  {
    SortDedupAscends(q.required);
    SortedElements(q);
    DonorsAre(SortedPals(q), entry.passiveId, instance);
    SortDedupAscends(DonorsOf(SortedPals(q), entry.passiveId));
  }

  /** Every required passive has one entry, in ascending order, and nothing else has one. */
  lemma CoverageIsComplete(q: Request)
    requires Solve(q).Success?
    ensures forall i, j :: 0 <= i < j < |Solve(q).value.coverage| ==>
                             StringLess(Solve(q).value.coverage[i].passiveId, Solve(q).value.coverage[j].passiveId)
    ensures forall id :: id in q.required <==>
                           exists i :: 0 <= i < |Solve(q).value.coverage| && Solve(q).value.coverage[i].passiveId == id
  {
    SortDedupAscends(q.required);
    var ids, entries := SortDedup(q.required), Solve(q).value.coverage;
    assert |entries| == |ids| && forall i :: 0 <= i < |ids| ==> entries[i].passiveId == ids[i];
    forall id
      ensures id in q.required <==> exists i :: 0 <= i < |entries| && entries[i].passiveId == id
    {
      if id in q.required {
        var i :| 0 <= i < |ids| && ids[i] == id;
        assert entries[i].passiveId == id;
      }
    }
  }

  ghost predicate Carried(q: Request, passive: string) {
    exists pal :: pal in q.owned && passive in pal.passiveIds
  }

  /** An entry without donors stands for a required passive that no owned Pal carries. */
  lemma EmptyEntryExactly(q: Request)
    requires Solve(q).Success?
    ensures (exists entry :: entry in Solve(q).value.coverage && entry.donors == []) <==>
            exists id :: id in q.required && !Carried(q, id)
  {
    var entries := Solve(q).value.coverage;
    CoverageIsComplete(q);
    if entry :| entry in entries && entry.donors == [] {
      CoverageIsExact(q, entry, "");
      if Carried(q, entry.passiveId) {
        var pal :| pal in q.owned && entry.passiveId in pal.passiveIds;
        CoverageIsExact(q, entry, pal.instanceId);
      }
    }
    if id :| id in q.required && !Carried(q, id) {
      var i :| 0 <= i < |entries| && entries[i].passiveId == id;
      if entries[i].donors != [] {
        CoverageIsExact(q, entries[i], entries[i].donors[0]);
      }
    }
  }

  lemma WarningsDiffer()
    ensures |"MISSING_REQUIRED_PASSIVE_DONOR"| == 30 && |"PASSIVE_INHERITANCE_PROBABILITY_UNKNOWN"| == 39
    ensures |"PARENT_GENDER_NOT_EVALUATED"| == 27 && |"DISTINCT_PARENT_INSTANCE_NOT_EVALUATED"| == 38
  {
  }

  /** The warnings, each with the requests it is given for. */
  lemma WarningsAreExact(q: Request)
    requires Solve(q).Success?
    ensures var w := Solve(q).value.warnings;
            && ("MISSING_REQUIRED_PASSIVE_DONOR" in w <==> exists id :: id in q.required && !Carried(q, id))
            && ("PASSIVE_INHERITANCE_PROBABILITY_UNKNOWN" in w <==> q.required != [])
            && "PARENT_GENDER_NOT_EVALUATED" in w && "DISTINCT_PARENT_INSTANCE_NOT_EVALUATED" in w
            && |w| == 2 + (if q.required != [] then 1 else 0)
                      + (if exists id :: id in q.required && !Carried(q, id) then 1 else 0)
  {
    CoverageIsComplete(q);
    EmptyEntryExactly(q);
    WarningsDiffer();
    assert Solve(q).value.coverage == [] <==> q.required == [] by {
      if q.required != [] { assert q.required[0] in q.required; }
      if Solve(q).value.coverage != [] { assert Solve(q).value.coverage[0].passiveId in q.required; }
    }
  }

  // ----- budget and refusals

  /** The reported visits are the least budget with which the request is answered. */
  lemma VisitsAreLeastBudget(q: Request, budget: nat)
    requires Solve(q).Success? && 0 < budget <= 2_000_000
    ensures Solve(q).value.target == q.target
    ensures Solve(q.(budget := budget)) == Failure(BudgetExhausted) <==> budget < Solve(q).value.nodeVisits
    ensures budget >= Solve(q).value.nodeVisits ==> Solve(q.(budget := budget)) == Solve(q)
  {
    var other := q.(budget := budget);
    assert SortedPals(other) == SortedPals(q) && SortedRules(other) == SortedRules(q) && Start(other) == Start(q);
    assert FinalKnown(other) == FinalKnown(q) && VisitsNeeded(other) == VisitsNeeded(q);
  }

  const ID_CHARACTERS := LOWER + UPPER + DIGITS + "_-.:"
  const HEX_CHARACTERS := "0123456789abcdefABCDEF"

  predicate UsableId(id: string) {
    1 <= |id| <= 128 && MadeOf(id, ID_CHARACTERS)
  }

  predicate UsablePal(pal: OwnedPal) {
    && |pal.instanceId| == 32 && MadeOf(pal.instanceId, HEX_CHARACTERS) && UsableId(pal.speciesId)
    && forall id :: id in pal.passiveIds ==> UsableId(id)
  }

  predicate UsableRule(rule: Rule) {
    UsableId(rule.ruleId) && UsableId(rule.parentA) && UsableId(rule.parentB) && UsableId(rule.child)
  }

  lemma HexCharacters(c: char)
    ensures c in HEX_CHARACTERS <==> '0' <= c <= '9' || 'a' <= c <= 'f' || 'A' <= c <= 'F'
  {
  }

  lemma UsableIds(id: string)
    ensures ValidId(id) <==> UsableId(id)
    ensures ValidHexId(id) <==> |id| == 32 && MadeOf(id, HEX_CHARACTERS)
  {
    forall i | 0 <= i < |id|
      ensures id[i] in ID_CHARACTERS <==> IsAsciiAlphanumeric(id[i]) || id[i] in "_-.:"
      ensures id[i] in HEX_CHARACTERS <==> '0' <= id[i] <= '9' || 'a' <= id[i] <= 'f' || 'A' <= id[i] <= 'F'
    {
      AlphabetWith(id[i], "_-.:");
      HexCharacters(id[i]);
    }
  }

  predicate AllUsable(q: Request) {
    && (forall pal :: pal in q.owned ==> UsablePal(pal))
    && (forall rule :: rule in q.rules ==> UsableRule(rule))
    && (forall id :: id in q.required ==> UsableId(id))
  }

  lemma UsablePals(pal: OwnedPal)
    ensures ValidPal(pal) <==> UsablePal(pal)
  {
    UsableIds(pal.instanceId);
    UsableIds(pal.speciesId);
    forall id | id in pal.passiveIds
      ensures ValidId(id) <==> UsableId(id)
    {
      UsableIds(id);
    }
  }

  lemma UsableRules(rule: Rule)
    ensures ValidRule(rule) <==> UsableRule(rule)
  {
    UsableIds(rule.ruleId);
    UsableIds(rule.parentA);
    UsableIds(rule.parentB);
    UsableIds(rule.child);
  }

  lemma UsableInputs(q: Request)
    ensures (exists pal :: pal in q.owned && !ValidPal(pal)) <==> !forall pal :: pal in q.owned ==> UsablePal(pal)
    ensures (exists rule :: rule in q.rules && !ValidRule(rule)) <==> !forall rule :: rule in q.rules ==>
              UsableRule(rule)
    ensures (exists id :: id in q.required && !ValidId(id)) <==> !forall id :: id in q.required ==> UsableId(id)
  {
    forall pal { UsablePals(pal); }
    forall rule { UsableRules(rule); }
    forall id { UsableIds(id); }
  }

  lemma SolveRefuses(q: Request, e: BreedingError)
    requires e != BudgetExhausted && e != Unreachable
    ensures Solve(q) == Failure(e) <==> ValidateInputs(q) == Some(e)
  {
  }

  ghost predicate WithinLimits(q: Request) {
    |q.owned| <= 10_000 && |q.rules| <= 1_048_576 && q.cap <= 32 && 1 <= q.budget <= 2_000_000
  }

  /** Which requests are refused, and as what: the limits are checked in turn, then the target,
      then all other ids; what passes is searched. */
  lemma RefusalsAreExact(q: Request)
    ensures match Solve(q)
            case Failure(TooManyOwnedPals) => |q.owned| > 10_000
            case Failure(TooManyRules) => |q.owned| <= 10_000 && |q.rules| > 1_048_576
            case Failure(InvalidGenerationLimit) => |q.owned| <= 10_000 && |q.rules| <= 1_048_576 && q.cap > 32
            case Failure(InvalidNodeBudget) =>
              |q.owned| <= 10_000 && |q.rules| <= 1_048_576 && q.cap <= 32 && (q.budget == 0 || q.budget > 2_000_000)
            case Failure(InvalidTarget) => WithinLimits(q) && !UsableId(q.target)
            case Failure(InvalidIdentifier) => WithinLimits(q) && UsableId(q.target) && !AllUsable(q)
            case _ => WithinLimits(q) && UsableId(q.target) && AllUsable(q)
  {
    UsableIds(q.target);
    UsableInputs(q);
    if Solve(q).Failure? && Solve(q).error != BudgetExhausted && Solve(q).error != Unreachable {
      SolveRefuses(q, Solve(q).error);
    }
  }
}
