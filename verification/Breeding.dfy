/** The owned-species breeding planner: input validation, the chaotic-iteration search over
    the breeding rules, and the extraction of the plan from the back-pointers. */
module Breeding {
  import opened Basics
  import opened Ordering

  const MAX_RULES := 1_048_576
  const MAX_OWNED_PALS := 10_000
  const MAX_GENERATIONS := 32
  const MAX_NODE_BUDGET := 2_000_000

  datatype OwnedPal = OwnedPal(instanceId: string, speciesId: string, passiveIds: seq<string>)

  datatype Rule = Rule(ruleId: string, parentA: string, parentB: string, child: string)

  datatype Source =
    | Owned(instanceId: string)
    | Bred(ruleId: string, parentA: string, parentB: string)

  datatype Known = Known(generation: nat, source: Source)

  type KnownMap = map<string, Known>

  datatype PlanNode = PlanNode(speciesId: string, generation: nat, source: Source)

  datatype Coverage = Coverage(passiveId: string, donors: seq<string>)

  datatype Plan = Plan(target: string, generations: nat, nodes: seq<PlanNode>, coverage: seq<Coverage>,
                       nodeVisits: nat, warnings: seq<string>)

  datatype BreedingError =
    | InvalidTarget | TooManyOwnedPals | TooManyRules | InvalidGenerationLimit
    | InvalidNodeBudget | BudgetExhausted | Unreachable | InvalidIdentifier

  datatype Result<T> = Success(value: T) | Failure(error: BreedingError)

  datatype Request = Request(owned: seq<OwnedPal>, rules: seq<Rule>, target: string, required: seq<string>,
                             cap: nat, budget: nat)

  // ----- validation

  predicate IsAsciiAlphanumeric(c: char) {
    'a' <= c <= 'z' || 'A' <= c <= 'Z' || '0' <= c <= '9'
  }

  predicate ValidId(value: string) {
    && 0 < |value| <= 128
    && forall i :: 0 <= i < |value| ==> IsAsciiAlphanumeric(value[i]) || value[i] in "_-.:"
  }

  predicate ValidHexId(value: string) {
    && |value| == 32
    && forall i :: 0 <= i < |value| ==>
                     '0' <= value[i] <= '9' || 'a' <= value[i] <= 'f' || 'A' <= value[i] <= 'F'
  }

  predicate ValidPal(pal: OwnedPal) {
    ValidHexId(pal.instanceId) && ValidId(pal.speciesId) && forall id :: id in pal.passiveIds ==> ValidId(id)
  }

  predicate ValidRule(rule: Rule) {
    ValidId(rule.ruleId) && ValidId(rule.parentA) && ValidId(rule.parentB) && ValidId(rule.child)
  }

  /** The first failing check in the order the planner performs them. */
  function ValidateInputs(q: Request): Option<BreedingError> {
    if |q.owned| > MAX_OWNED_PALS then Some(TooManyOwnedPals)
    else if |q.rules| > MAX_RULES then Some(TooManyRules)
    else if q.cap > MAX_GENERATIONS then Some(InvalidGenerationLimit)
    else if q.budget == 0 || q.budget > MAX_NODE_BUDGET then Some(InvalidNodeBudget)
    else if !ValidId(q.target) then Some(InvalidTarget)
    else if exists pal :: pal in q.owned && !ValidPal(pal) then Some(InvalidIdentifier)
    else if exists rule :: rule in q.rules && !ValidRule(rule) then Some(InvalidIdentifier)
    else if exists id :: id in q.required && !ValidId(id) then Some(InvalidIdentifier)
    else None
  }

  // ----- ranks

  function SourceKey(source: Source): seq<string> {
    match source
    case Owned(instance) => ["", "", instance]
    case Bred(rule, a, b) => [rule, a, b]
  }

  predicate RankLess(x: Known, y: Known) {
    x.generation < y.generation
    || (x.generation == y.generation && KeyLess(SourceKey(x.source), SourceKey(y.source)))
  }

  // ----- the search, as functions of the known species

  function OwnedKey(pal: OwnedPal): seq<string> {
    [pal.speciesId, pal.instanceId]
  }

  function RuleKey(rule: Rule): seq<string> {
    [rule.child, rule.ruleId, rule.parentA, rule.parentB]
  }

  /** The owned species among the first n Pals; the first Pal of a species represents it. */
  function StartKnown(pals: seq<OwnedPal>, n: nat): (known: KnownMap)
    requires n <= |pals|
    ensures forall s :: s in known ==> known[s].generation == 0 && known[s].source.Owned?
  {
    if n == 0 then map[]
    else
      var known := StartKnown(pals, n - 1);
      var pal := pals[n - 1];
      if pal.speciesId in known then known else known[pal.speciesId := Known(0, Owned(pal.instanceId))]
  }

  predicate Applicable(rule: Rule, known: KnownMap, cap: nat) {
    && rule.parentA in known
    && rule.parentB in known
    && 1 + Max(known[rule.parentA].generation, known[rule.parentB].generation) <= cap
  }

  function Candidate(rule: Rule, known: KnownMap): Known
    requires rule.parentA in known && rule.parentB in known
  {
    Known(1 + Max(known[rule.parentA].generation, known[rule.parentB].generation),
          Bred(rule.ruleId, rule.parentA, rule.parentB))
  }

  predicate Improving(rule: Rule, known: KnownMap, cap: nat) {
    && Applicable(rule, known, cap)
    && (rule.child !in known || RankLess(Candidate(rule, known), known[rule.child]))
  }

  /** One visit of one rule. */
  function Relax(rule: Rule, known: KnownMap, cap: nat): KnownMap {
    if Improving(rule, known, cap) then known[rule.child := Candidate(rule, known)] else known
  }

  /** The first n rule visits of a pass. */
  function Pass(rules: seq<Rule>, n: nat, known: KnownMap, cap: nat): KnownMap
    requires n <= |rules|
  {
    if n == 0 then known else Relax(rules[n - 1], Pass(rules, n - 1, known, cap), cap)
  }

  /** k whole passes. */
  function Passes(rules: seq<Rule>, k: nat, start: KnownMap, cap: nat): KnownMap {
    if k == 0 then start else Pass(rules, |rules|, Passes(rules, k - 1, start, cap), cap)
  }

  ghost predicate StopsAfter(rules: seq<Rule>, k: nat, start: KnownMap, cap: nat) {
    k >= 1 && Passes(rules, k, start, cap) == Passes(rules, k - 1, start, cap)
  }

  /** k is the pass in which nothing changed for the first time. */
  ghost predicate FirstStop(rules: seq<Rule>, k: nat, start: KnownMap, cap: nat) {
    StopsAfter(rules, k, start, cap) && forall j :: 1 <= j < k ==> !StopsAfter(rules, j, start, cap)
  }

  // ----- plan extraction

  predicate IsDonor(pal: OwnedPal, passive: string) {
    passive in pal.passiveIds
  }

  function DonorsOf(pals: seq<OwnedPal>, passive: string): seq<string> {
    if pals == [] then []
    else (if IsDonor(pals[0], passive) then [pals[0].instanceId] else []) + DonorsOf(pals[1..], passive)
  }

  function CoverageOf(pals: seq<OwnedPal>, requested: seq<string>): seq<Coverage> {
    seq(|requested|, i requires 0 <= i < |requested| =>
      Coverage(requested[i], SortDedup(DonorsOf(pals, requested[i]))))
  }

  function Warnings(coverage: seq<Coverage>): seq<string> {
    (if exists entry :: entry in coverage && entry.donors == [] then ["MISSING_REQUIRED_PASSIVE_DONOR"] else [])
    + (if coverage != [] then ["PASSIVE_INHERITANCE_PROBABILITY_UNKNOWN"] else [])
    + ["PARENT_GENDER_NOT_EVALUATED", "DISTINCT_PARENT_INSTANCE_NOT_EVALUATED"]
  }

  /** t lies n back-pointers below s. */
  ghost predicate ReachesIn(known: KnownMap, s: string, t: string, n: nat)
    decreases n
  {
    if n == 0 then s == t
    else s in known && known[s].source.Bred?
         && (ReachesIn(known, known[s].source.parentA, t, n - 1)
             || ReachesIn(known, known[s].source.parentB, t, n - 1))
  }

  ghost predicate Reaches(known: KnownMap, s: string, t: string) {
    exists n: nat :: ReachesIn(known, s, t, n)
  }

  ghost function RequiredSpecies(known: KnownMap, target: string): set<string> {
    set s | s in known && Reaches(known, target, s)
  }

  function NodeOf(known: KnownMap, s: string): PlanNode
    requires s in known
  {
    PlanNode(s, known[s].generation, known[s].source)
  }

  function NodesOf(known: KnownMap, ids: seq<string>): seq<PlanNode>
    requires forall s :: s in ids ==> s in known
  {
    seq(|ids|, i requires 0 <= i < |ids| => NodeOf(known, ids[i]))
  }
}
