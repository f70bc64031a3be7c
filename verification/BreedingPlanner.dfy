/** The planner itself, proved against a specification function, and the guarantees that
    function gives to a caller. */
module BreedingPlanner {
  import opened Basics
  import opened Ordering
  import opened Breeding
  import opened BreedingSearch

  // ----- specification

  function SortedPals(q: Request): seq<OwnedPal> {
    SortBy(OwnedKey, q.owned)
  }

  function SortedRules(q: Request): seq<Rule> {
    SortBy(RuleKey, q.rules)
  }

  function Start(q: Request): KnownMap {
    StartKnown(SortedPals(q), |SortedPals(q)|)
  }

  ghost function FinalKnown(q: Request): KnownMap {
    Passes(SortedRules(q), PassCount(Start(q), SortedRules(q), q.cap), Start(q), q.cap)
  }

  /** Rule visits of an unlimited search. */
  ghost function VisitsNeeded(q: Request): nat {
    PassCount(Start(q), SortedRules(q), q.cap) * |SortedRules(q)|
  }

  ghost function PlanFor(q: Request): Plan
    requires q.target in FinalKnown(q)
  {
    var known := FinalKnown(q);
    var coverage := CoverageOf(SortedPals(q), SortDedup(q.required));
    Plan(q.target, known[q.target].generation, NodesOf(known, Ascending(RequiredSpecies(known, q.target))),
         coverage, VisitsNeeded(q), Warnings(coverage))
  }

  ghost function Solve(q: Request): Result<Plan> {
    match ValidateInputs(q)
    case Some(e) => Failure(e)
    case None =>
      if VisitsNeeded(q) > q.budget then Failure(BudgetExhausted)
      else if q.target !in FinalKnown(q) then Failure(Unreachable)
      else Success(PlanFor(q))
  }

  lemma FinalIsFixpoint(q: Request)
    ensures Fixpoint(Start(q), SortedRules(q), q.cap, FinalKnown(q))
  {
    StopIsFixpoint(Start(q), SortedRules(q), q.cap, PassCount(Start(q), SortedRules(q), q.cap));
  }

  // ----- the planner

  lemma {:induction false} ReachesComposes(known: KnownMap, s: string, parent: string, t: string)
    requires s in known && known[s].source.Bred?
    requires parent == known[s].source.parentA || parent == known[s].source.parentB
    requires Reaches(known, parent, t)
    ensures Reaches(known, s, t)
  {
    var n: nat :| ReachesIn(known, parent, t, n);
    assert ReachesIn(known, s, t, n + 1);
  }

  /** Species added to the set bring their back-pointers with them. */
  ghost predicate ClosedOutside(known: KnownMap, output: set<string>, r: set<string>) {
    forall x :: x in r && x !in output && x in known && known[x].source.Bred? ==>
                  known[x].source.parentA in r && known[x].source.parentB in r
  }

  lemma {:induction false} ClosedContainsReached(known: KnownMap, r: set<string>, s: string, t: string, n: nat)
    requires ClosedOutside(known, {}, r) && s in r && ReachesIn(known, s, t, n)
    ensures t in r
    decreases n
  {
    if n > 0 {
      if ReachesIn(known, known[s].source.parentA, t, n - 1) {
        ClosedContainsReached(known, r, known[s].source.parentA, t, n - 1);
      } else {
        ClosedContainsReached(known, r, known[s].source.parentB, t, n - 1);
      }
    }
  }

  method CollectRequiredNodes(species: string, known: KnownMap, output: set<string>) returns (r: set<string>)
    ensures output + {species} <= r
    ensures ClosedOutside(known, output, r)
    ensures forall x :: x in r && x !in output ==> Reaches(known, species, x)
    ensures output == {} ==> forall x :: x in r <==> Reaches(known, species, x)
    decreases |known.Keys - output|
  {
    assert ReachesIn(known, species, species, 0);
    if species in output {
      return output;
    }
    r := output + {species};
    if species in known && known[species].source.Bred? {
      var seen := r;
      assert known.Keys - output == (known.Keys - seen) + {species};
      var a, b := known[species].source.parentA, known[species].source.parentB;
      var left := CollectRequiredNodes(a, known, seen);
      assert known.Keys - seen == (known.Keys - left) + (known.Keys * (left - seen));
      r := CollectRequiredNodes(b, known, left);
      forall x | x in r && x !in output
        ensures Reaches(known, species, x)
      {
        if x !in left {
          ReachesComposes(known, species, b, x);
        } else if x !in seen {
          ReachesComposes(known, species, a, x);
        }
      }
    }
    if output == {} {
      forall x | Reaches(known, species, x)
        ensures x in r
      {
        var n: nat :| ReachesIn(known, species, x, n);
        ClosedContainsReached(known, r, species, x, n);
      }
    }
  }

  /** Iterates an ordered set from its least element up. */
  method InOrder(s: set<string>) returns (r: seq<string>)
    ensures r == Ascending(s)
  {
    r := [];
    var rest := s;
    while rest != {}
      invariant rest <= s && StrictlyAscending(r)
      invariant forall x :: x in r <==> x in s - rest
      invariant forall x, y :: x in r && y in rest ==> StringLess(x, y)
      decreases |rest|
    {
      LeastExists(rest);
      StringOrderIsTotal();
      var x :| x in rest && forall y :: y in rest ==> !StringLess(y, x);
      r := r + [x];
      rest := rest - {x};
    }
    AscendingUnique(r, Ascending(s));
  }

  lemma RequiredAreKnown(start: KnownMap, rules: seq<Rule>, cap: nat, known: KnownMap, s: string, t: string, n: nat)
    requires Starting(start) && Sound(start, rules, cap, known) && s in known && ReachesIn(known, s, t, n)
    ensures t in known
    decreases n
  {
    if n > 0 {
      assert s !in start ==> Backed(rules, cap, known, s);
      if ReachesIn(known, known[s].source.parentA, t, n - 1) {
        RequiredAreKnown(start, rules, cap, known, known[s].source.parentA, t, n - 1);
      } else {
        RequiredAreKnown(start, rules, cap, known, known[s].source.parentB, t, n - 1);
      }
    }
  }

  /** Some visit among the first n of a pass replaces an entry. */
  ghost predicate PassChanges(rules: seq<Rule>, n: nat, known: KnownMap, cap: nat)
    requires n <= |rules|
  {
    n > 0 && (PassChanges(rules, n - 1, known, cap) || Improving(rules[n - 1], Pass(rules, n - 1, known, cap), cap))
  }

  lemma {:induction false} TimesMonotone(a: nat, b: nat, n: nat)
    requires a <= b
    ensures a * n <= b * n
    decreases b
  {
    if a < b {
      TimesMonotone(a, b - 1, n);
      assert b * n == (b - 1) * n + n;
    }
  }

  lemma BudgetRunsOut(k: nat, needed: nat, n: nat)
    requires k < needed
    ensures (k + 1) * n == k * n + n <= needed * n
  {
    TimesMonotone(k + 1, needed, n);
  }

  /** The changed flag is set exactly when the pass ends in a different state. */
  lemma {:induction false} VisitsShowChange(start: KnownMap, rules: seq<Rule>, cap: nat, n: nat, known: KnownMap)
    requires Starting(start) && Sound(start, rules, cap, known) && n <= |rules|
    ensures PassChanges(rules, n, known, cap) <==> Pass(rules, n, known, cap) != known
  {
    if n > 0 {
      VisitsShowChange(start, rules, cap, n - 1, known);
      PassUnchanged(start, rules, cap, n - 1, known);
      PassUnchanged(start, rules, cap, n, known);
    }
  }

  method OwnedSpecies(pals: seq<OwnedPal>) returns (known: KnownMap)
    ensures known == StartKnown(pals, |pals|)
  {
    known := map[];
    for i := 0 to |pals|
      invariant known == StartKnown(pals, i)
    {
      if pals[i].speciesId !in known {
        known := known[pals[i].speciesId := Known(0, Owned(pals[i].instanceId))];
      }
    }
  }

  /** One pass over the rules, stopping as soon as the visit budget is spent. */
  method RunPass(rules: seq<Rule>, known0: KnownMap, cap: nat, visits0: nat, budget: nat)
    returns (known: KnownMap, changed: bool, visits: nat, exhausted: bool)
    requires visits0 <= budget <= MAX_NODE_BUDGET
    ensures exhausted <==> visits0 + |rules| > budget
    ensures !exhausted ==> known == Pass(rules, |rules|, known0, cap) && visits == visits0 + |rules|
    ensures !exhausted ==> changed == PassChanges(rules, |rules|, known0, cap)
  {
    known, changed, visits, exhausted := known0, false, visits0, false;
    for i := 0 to |rules|
      invariant visits == visits0 + i <= budget
      invariant known == Pass(rules, i, known0, cap)
      invariant changed == PassChanges(rules, i, known0, cap)
    {
      if visits == U64_MAX {
        return known, changed, visits, true;
      }
      visits := visits + 1;
      if visits > budget {
        return known, changed, visits, true;
      }
      var rule := rules[i];
      if rule.parentA !in known || rule.parentB !in known {
        continue;
      }
      var generation := Max(known[rule.parentA].generation, known[rule.parentB].generation) + 1;
      if generation > cap {
        continue;
      }
      var candidate := Known(generation, Bred(rule.ruleId, rule.parentA, rule.parentB));
      if rule.child !in known || RankLess(candidate, known[rule.child]) {
        known := known[rule.child := candidate];
        changed := true;
      }
    }
  }

  /** Passes are repeated until one changes nothing. */
  method Search(rules: seq<Rule>, start: KnownMap, cap: nat, budget: nat)
    returns (known: KnownMap, visits: nat, exhausted: bool)
    requires Starting(start) && budget <= MAX_NODE_BUDGET
    ensures exhausted <==> PassCount(start, rules, cap) * |rules| > budget
    ensures !exhausted ==> visits == PassCount(start, rules, cap) * |rules|
    ensures !exhausted ==> known == Passes(rules, PassCount(start, rules, cap), start, cap)
  {
    ghost var needed := PassCount(start, rules, cap);
    known, visits, exhausted := start, 0, false;
    var changed := true;
    ghost var k := 0;
    while changed
      invariant k <= needed && visits == k * |rules| <= budget
      invariant known == Passes(rules, k, start, cap)
      invariant if changed then k < needed else k == needed
      decreases needed - k
    {
      PassesKeep(start, rules, cap, k);
      VisitsShowChange(start, rules, cap, |rules|, known);
      BudgetRunsOut(k, needed, |rules|);
      known, changed, visits, exhausted := RunPass(rules, known, cap, visits, budget);
      if exhausted {
        return;
      }
      k := k + 1;
      assert changed <==> !StopsAfter(rules, k, start, cap);
    }
  }

  method SolveOwnedBreeding(q: Request) returns (result: Result<Plan>)
    ensures result == Solve(q)
  {
    var invalid := ValidateInputs(q);
    if invalid.Some? {
      return Failure(invalid.value);
    }
    var pals := SortBy(OwnedKey, q.owned);
    var start := OwnedSpecies(pals);
    var rules := SortBy(RuleKey, q.rules);
    var known, visits, exhausted := Search(rules, start, q.cap, q.budget);
    if exhausted {
      return Failure(BudgetExhausted);
    }
    if q.target !in known {
      return Failure(Unreachable);
    }
    var required := CollectRequiredNodes(q.target, known, {});
    assert required == RequiredSpecies(known, q.target) by {
      FinalIsFixpoint(q);
      forall x | x in required
        ensures x in known
      {
        var n: nat :| ReachesIn(known, q.target, x, n);
        RequiredAreKnown(start, rules, q.cap, known, q.target, x, n);
      }
    }
    var ids := InOrder(required);
    var coverage := CoverageOf(pals, SortDedup(q.required));
    return Success(Plan(q.target, known[q.target].generation, NodesOf(known, ids), coverage, visits,
                        Warnings(coverage)));
  }
}
