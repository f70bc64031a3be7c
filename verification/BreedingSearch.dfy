/** What the chaotic iteration over the breeding rules keeps, how fast it converges, and
    what its fixpoint means. */
module BreedingSearch {
  import opened Basics
  import opened Ordering
  import opened Breeding

  // ----- the reference meaning: derivations from owned species

  /** Species s has a derivation of height at most n. */
  ghost predicate Within(start: KnownMap, rules: seq<Rule>, s: string, n: nat)
    decreases n, 1
  {
    s in start || (n > 0 && exists r :: r in rules && DerivesBy(start, rules, r, s, n))
  }

  ghost predicate DerivesBy(start: KnownMap, rules: seq<Rule>, r: Rule, s: string, n: nat)
    requires n > 0
    decreases n, 0
  {
    r.child == s && Within(start, rules, r.parentA, n - 1) && Within(start, rules, r.parentB, n - 1)
  }

  lemma {:induction false} WithinMonotone(start: KnownMap, rules: seq<Rule>, s: string, m: nat, n: nat)
    requires m <= n && Within(start, rules, s, m)
    ensures Within(start, rules, s, n)
    decreases m
  {
    if s !in start {
      var r :| r in rules && DerivesBy(start, rules, r, s, m);
      WithinMonotone(start, rules, r.parentA, m - 1, n - 1);
      WithinMonotone(start, rules, r.parentB, m - 1, n - 1);
      assert DerivesBy(start, rules, r, s, n);
    }
  }

  // ----- ranks

  lemma RankTotal(x: Known, y: Known, z: Known)
    ensures !RankLess(x, x)
    ensures RankLess(x, y) ==> !RankLess(y, x)
    ensures !RankLess(y, x) && !RankLess(z, y) ==> !RankLess(z, x)
    ensures !RankLess(x, y) && !RankLess(y, x) ==>
              x.generation == y.generation && SourceKey(x.source) == SourceKey(y.source)
  {
    KeyOrderIsTotal();
  }

  // ----- the state every prefix of every pass keeps

  ghost predicate Starting(start: KnownMap) {
    forall s :: s in start ==> start[s].generation == 0 && start[s].source.Owned?
  }

  /** The stored source is a rule for s whose parents are known; its parents may have
      improved since, so the stored generation is only an upper bound. */
  ghost predicate Backed(rules: seq<Rule>, cap: nat, known: KnownMap, s: string)
    requires s in known
  {
    var k := known[s];
    && k.source.Bred?
    && Rule(k.source.ruleId, k.source.parentA, k.source.parentB, s) in rules
    && k.source.parentA in known
    && k.source.parentB in known
    && 1 + Max(known[k.source.parentA].generation, known[k.source.parentB].generation) <= k.generation <= cap
  }

  ghost predicate Sound(start: KnownMap, rules: seq<Rule>, cap: nat, known: KnownMap) {
    && (forall s :: s in start ==> s in known && known[s] == start[s])
    && (forall s {:trigger Backed(rules, cap, known, s)} :: s in known && s !in start ==> Backed(rules, cap, known, s))
  }

  /** Ranks never get worse from one state to a later one. */
  ghost predicate NoWorse(before: KnownMap, after: KnownMap) {
    forall s :: s in before ==> s in after && !RankLess(before[s], after[s])
  }

  lemma NoWorseTransitive(a: KnownMap, b: KnownMap, c: KnownMap)
    requires NoWorse(a, b) && NoWorse(b, c)
    ensures NoWorse(a, c)
  {
    forall s | s in a
      ensures s in c && !RankLess(a[s], c[s])
    {
      RankTotal(c[s], b[s], a[s]);
    }
  }

  lemma RelaxKeeps(start: KnownMap, rules: seq<Rule>, cap: nat, rule: Rule, known: KnownMap)
    requires Starting(start) && Sound(start, rules, cap, known) && rule in rules
    ensures Sound(start, rules, cap, Relax(rule, known, cap))
    ensures NoWorse(known, Relax(rule, known, cap))
    ensures Improving(rule, known, cap) <==> Relax(rule, known, cap) != known
  {
    var after := Relax(rule, known, cap);
    if Improving(rule, known, cap) {
      var c := Candidate(rule, known);
      assert rule.child !in start;
      assert rule.child != rule.parentA && rule.child != rule.parentB;
      assert Rule(c.source.ruleId, c.source.parentA, c.source.parentB, rule.child) == rule;
      assert Backed(rules, cap, after, rule.child);
      forall s | s in known && s !in start && s != rule.child
        ensures Backed(rules, cap, after, s)
      {
        assert Backed(rules, cap, known, s);
      }
      if rule.child in known { RankTotal(c, known[rule.child], c); }
    }
    forall s | s in known
      ensures s in after && !RankLess(known[s], after[s])
    {
      RankTotal(known[s], after[s], known[s]);
    }
  }

  lemma {:induction false} PassKeeps(start: KnownMap, rules: seq<Rule>, cap: nat, n: nat, known: KnownMap)
    requires Starting(start) && Sound(start, rules, cap, known) && n <= |rules|
    ensures Sound(start, rules, cap, Pass(rules, n, known, cap))
    ensures NoWorse(known, Pass(rules, n, known, cap))
  {
    if n == 0 {
      forall s | s in known
        ensures !RankLess(known[s], known[s])
      {
        RankTotal(known[s], known[s], known[s]);
      }
    } else {
      PassKeeps(start, rules, cap, n - 1, known);
      var mid := Pass(rules, n - 1, known, cap);
      RelaxKeeps(start, rules, cap, rules[n - 1], mid);
      NoWorseTransitive(known, mid, Relax(rules[n - 1], mid, cap));
    }
  }

  /** A pass returns to its starting state only if none of its visits changed anything. */
  lemma {:induction false} PassUnchanged(start: KnownMap, rules: seq<Rule>, cap: nat, n: nat, known: KnownMap)
    requires Starting(start) && Sound(start, rules, cap, known) && n <= |rules|
    ensures Pass(rules, n, known, cap) == known <==> forall i :: 0 <= i < n ==> !Improving(rules[i], known, cap)
  {
    if n > 0 {
      PassUnchanged(start, rules, cap, n - 1, known);
      PassKeeps(start, rules, cap, n - 1, known);
      var mid := Pass(rules, n - 1, known, cap);
      var rule := rules[n - 1];
      RelaxKeeps(start, rules, cap, rule, mid);
      assert mid != known ==> Relax(rule, mid, cap) != known;
    }
  }

  lemma {:induction false} PassesKeep(start: KnownMap, rules: seq<Rule>, cap: nat, k: nat)
    requires Starting(start)
    ensures Sound(start, rules, cap, Passes(rules, k, start, cap))
    ensures k > 0 ==> NoWorse(Passes(rules, k - 1, start, cap), Passes(rules, k, start, cap))
  {
    if k > 0 {
      PassesKeep(start, rules, cap, k - 1);
      PassKeeps(start, rules, cap, |rules|, Passes(rules, k - 1, start, cap));
    }
  }

  /** Every stored generation is the height of some derivation. */
  lemma {:induction false} KnownIsDerivable(start: KnownMap, rules: seq<Rule>, cap: nat, known: KnownMap, s: string)
    requires Starting(start) && Sound(start, rules, cap, known) && s in known
    ensures Within(start, rules, s, known[s].generation)
    decreases known[s].generation
  {
    if s !in start {
      assert Backed(rules, cap, known, s);
      var k := known[s];
      var r := Rule(k.source.ruleId, k.source.parentA, k.source.parentB, s);
      var n := k.generation;
      KnownIsDerivable(start, rules, cap, known, r.parentA);
      KnownIsDerivable(start, rules, cap, known, r.parentB);
      WithinMonotone(start, rules, r.parentA, known[r.parentA].generation, n - 1);
      WithinMonotone(start, rules, r.parentB, known[r.parentB].generation, n - 1);
      assert r in rules && DerivesBy(start, rules, r, s, n);
    }
  }

  // ----- convergence

  /** Rank of rule r as a way to breed its child in generation m. */
  function RankAt(r: Rule, m: nat): Known {
    Known(m, Bred(r.ruleId, r.parentA, r.parentB))
  }

  ghost predicate Served(known: KnownMap, r: Rule, m: nat) {
    r.child in known && !RankLess(RankAt(r, m), known[r.child])
  }

  /** Every way to breed a species by generation n is already matched or beaten. */
  ghost predicate Settled(start: KnownMap, rules: seq<Rule>, cap: nat, n: nat, known: KnownMap) {
    forall r, m: nat :: r in rules && 1 <= m <= n && m <= cap && DerivesBy(start, rules, r, r.child, m) ==>
                          Served(known, r, m)
  }

  lemma ServedPersists(a: KnownMap, b: KnownMap, r: Rule, m: nat)
    requires NoWorse(a, b) && Served(a, r, m)
    ensures Served(b, r, m)
  {
    RankTotal(b[r.child], a[r.child], RankAt(r, m));
  }

  /** In a settled state, species derivable by n have a generation of at most n. */
  lemma SettledGeneration(start: KnownMap, rules: seq<Rule>, cap: nat, n: nat, known: KnownMap, s: string)
    requires Starting(start) && Sound(start, rules, cap, known) && Settled(start, rules, cap, n, known)
    requires n <= cap && Within(start, rules, s, n)
    ensures s in known && known[s].generation <= n
  {
    if s !in start {
      var r :| r in rules && DerivesBy(start, rules, r, s, n);
      assert Served(known, r, n);
    }
  }

  /** Visiting a rule serves it at every generation its parents allow. */
  lemma VisitServes(start: KnownMap, rules: seq<Rule>, cap: nat, r: Rule, m: nat, known: KnownMap)
    requires Starting(start) && Sound(start, rules, cap, known) && r in rules && 1 <= m <= cap
    requires r.parentA in known && known[r.parentA].generation <= m - 1
    requires r.parentB in known && known[r.parentB].generation <= m - 1
    ensures Served(Relax(r, known, cap), r, m)
  {
    var after := Relax(r, known, cap);
    var c := Candidate(r, known);
    RankTotal(c, c, c);
    assert r.child in after && !RankLess(c, after[r.child]);
    assert !RankLess(RankAt(r, m), c) by { RankTotal(c, c, c); }
    RankTotal(after[r.child], c, RankAt(r, m));
  }

  lemma {:induction false} PassServes(start: KnownMap, rules: seq<Rule>, cap: nat, i: nat, n: nat, known: KnownMap,
                                      m: nat)
    requires Starting(start) && Sound(start, rules, cap, known) && i < n <= |rules| && 1 <= m <= cap
    requires Settled(start, rules, cap, m - 1, known) && DerivesBy(start, rules, rules[i], rules[i].child, m)
    ensures Served(Pass(rules, n, known, cap), rules[i], m)
  {
    var mid := Pass(rules, n - 1, known, cap);
    var r := rules[i];
    PassKeeps(start, rules, cap, n - 1, known);
    RelaxKeeps(start, rules, cap, rules[n - 1], mid);
    if i == n - 1 {
      SettledGeneration(start, rules, cap, m - 1, known, r.parentA);
      SettledGeneration(start, rules, cap, m - 1, known, r.parentB);
      assert !RankLess(known[r.parentA], mid[r.parentA]) && !RankLess(known[r.parentB], mid[r.parentB]);
      VisitServes(start, rules, cap, r, m, mid);
    } else {
      PassServes(start, rules, cap, i, n - 1, known, m);
      ServedPersists(mid, Relax(rules[n - 1], mid, cap), r, m);
    }
  }

  /** After pass k, every generation up to k is settled. */
  lemma {:induction false} PassesSettle(start: KnownMap, rules: seq<Rule>, cap: nat, k: nat)
    requires Starting(start)
    ensures Settled(start, rules, cap, k, Passes(rules, k, start, cap))
  {
    if k > 0 {
      PassesSettle(start, rules, cap, k - 1);
      PassesKeep(start, rules, cap, k - 1);
      PassesKeep(start, rules, cap, k);
      var before, after := Passes(rules, k - 1, start, cap), Passes(rules, k, start, cap);
      forall r, m: nat | r in rules && 1 <= m <= k && m <= cap && DerivesBy(start, rules, r, r.child, m)
        ensures Served(after, r, m)
      {
        if m < k {
          assert Served(before, r, m);
          ServedPersists(before, after, r, m);
        } else {
          var i :| 0 <= i < |rules| && rules[i] == r;
          PassServes(start, rules, cap, i, |rules|, before, m);
        }
      }
    }
  }

  /** A state settled up to the cap cannot be improved. */
  lemma SettledStops(start: KnownMap, rules: seq<Rule>, cap: nat, known: KnownMap, r: Rule)
    requires Starting(start) && Sound(start, rules, cap, known) && Settled(start, rules, cap, cap, known)
    requires r in rules
    ensures !Improving(r, known, cap)
  {
    if Applicable(r, known, cap) {
      var a, b := known[r.parentA].generation, known[r.parentB].generation;
      var m := 1 + Max(a, b);
      KnownIsDerivable(start, rules, cap, known, r.parentA);
      KnownIsDerivable(start, rules, cap, known, r.parentB);
      WithinMonotone(start, rules, r.parentA, a, m - 1);
      WithinMonotone(start, rules, r.parentB, b, m - 1);
      assert DerivesBy(start, rules, r, r.child, m);
      assert Served(known, r, m);
      assert Candidate(r, known) == RankAt(r, m);
    }
  }

  /** The pass after the cap-th changes nothing. */
  lemma ConvergesByCap(start: KnownMap, rules: seq<Rule>, cap: nat)
    requires Starting(start)
    ensures StopsAfter(rules, cap + 1, start, cap)
  {
    var known := Passes(rules, cap, start, cap);
    PassesSettle(start, rules, cap, cap);
    PassesKeep(start, rules, cap, cap);
    forall i | 0 <= i < |rules|
      ensures !Improving(rules[i], known, cap)
    {
      SettledStops(start, rules, cap, known, rules[i]);
    }
    PassUnchanged(start, rules, cap, |rules|, known);
  }

  lemma {:induction false} FirstStopExists(start: KnownMap, rules: seq<Rule>, cap: nat, n: nat)
    requires StopsAfter(rules, n, start, cap)
    ensures exists k: nat :: k <= n && FirstStop(rules, k, start, cap)
  {
    if exists j :: 1 <= j < n && StopsAfter(rules, j, start, cap) {
      var j :| 1 <= j < n && StopsAfter(rules, j, start, cap);
      FirstStopExists(start, rules, cap, j);
    } else {
      assert FirstStop(rules, n, start, cap);
    }
  }

  /** How many passes the search runs before one changes nothing. */
  ghost function PassCount(start: KnownMap, rules: seq<Rule>, cap: nat): (k: nat)
    requires Starting(start)
    ensures FirstStop(rules, k, start, cap) && 1 <= k <= cap + 1
  {
    ConvergesByCap(start, rules, cap);
    FirstStopExists(start, rules, cap, cap + 1);
    var k: nat :| k <= cap + 1 && FirstStop(rules, k, start, cap);
    k
  }

  // ----- meaning of the fixpoint

  ghost predicate Fixpoint(start: KnownMap, rules: seq<Rule>, cap: nat, known: KnownMap) {
    Starting(start) && Sound(start, rules, cap, known) && forall r :: r in rules ==> !Improving(r, known, cap)
  }

  lemma StopIsFixpoint(start: KnownMap, rules: seq<Rule>, cap: nat, k: nat)
    requires Starting(start) && StopsAfter(rules, k, start, cap)
    ensures Fixpoint(start, rules, cap, Passes(rules, k, start, cap))
  {
    PassesKeep(start, rules, cap, k - 1);
    PassUnchanged(start, rules, cap, |rules|, Passes(rules, k - 1, start, cap));
  }

  /** Stored generations are stale while the search runs, but exact once it stops. */
  lemma FixpointGeneration(start: KnownMap, rules: seq<Rule>, cap: nat, known: KnownMap, s: string)
    requires Fixpoint(start, rules, cap, known) && s in known && s !in start
    ensures Backed(rules, cap, known, s)
    ensures known[s].generation ==
            1 + Max(known[known[s].source.parentA].generation, known[known[s].source.parentB].generation)
  {
    assert Backed(rules, cap, known, s);
    var r := Rule(known[s].source.ruleId, known[s].source.parentA, known[s].source.parentB, s);
    assert !Improving(r, known, cap);
  }

  lemma {:induction false} FixpointIsLeast(start: KnownMap, rules: seq<Rule>, cap: nat, known: KnownMap, s: string,
                                           n: nat)
    requires Fixpoint(start, rules, cap, known) && n <= cap && Within(start, rules, s, n)
    ensures s in known && known[s].generation <= n
    decreases n
  {
    if s !in start {
      var r :| r in rules && DerivesBy(start, rules, r, s, n);
      FixpointIsLeast(start, rules, cap, known, r.parentA, n - 1);
      FixpointIsLeast(start, rules, cap, known, r.parentB, n - 1);
      assert !Improving(r, known, cap);
    }
  }

  /** Among the rules that breed s in its least generation, the stored one has the least key. */
  lemma FixpointChoosesLeastRule(start: KnownMap, rules: seq<Rule>, cap: nat, known: KnownMap, s: string, r: Rule)
    requires Fixpoint(start, rules, cap, known) && s in known && s !in start
    requires known[s].generation > 0 && r in rules && DerivesBy(start, rules, r, s, known[s].generation)
    ensures !KeyLess([r.ruleId, r.parentA, r.parentB], SourceKey(known[s].source))
  {
    FixpointGeneration(start, rules, cap, known, s);
    var n := known[s].generation;
    FixpointIsLeast(start, rules, cap, known, r.parentA, n - 1);
    FixpointIsLeast(start, rules, cap, known, r.parentB, n - 1);
    assert !Improving(r, known, cap);
    assert Candidate(r, known).generation <= n;
  }

  lemma {:induction false} LaterPassesNoWorse(start: KnownMap, rules: seq<Rule>, cap: nat, i: nat, j: nat)
    requires Starting(start) && i <= j
    ensures NoWorse(Passes(rules, i, start, cap), Passes(rules, j, start, cap))
    decreases j
  {
    if i == j {
      forall s | s in Passes(rules, i, start, cap)
        ensures !RankLess(Passes(rules, i, start, cap)[s], Passes(rules, i, start, cap)[s])
      {
        var x := Passes(rules, i, start, cap)[s];
        RankTotal(x, x, x);
      }
    } else {
      LaterPassesNoWorse(start, rules, cap, i, j - 1);
      PassesKeep(start, rules, cap, j);
      NoWorseTransitive(Passes(rules, i, start, cap), Passes(rules, j - 1, start, cap), Passes(rules, j, start, cap));
    }
  }

  lemma BackedDerives(start: KnownMap, rules: seq<Rule>, cap: nat, known: KnownMap, s: string)
    requires Starting(start) && Sound(start, rules, cap, known) && s in known && s !in start
    ensures Backed(rules, cap, known, s) && known[s].generation > 0
    ensures var r := Rule(known[s].source.ruleId, known[s].source.parentA, known[s].source.parentB, s);
            r in rules && DerivesBy(start, rules, r, s, known[s].generation)
            && RankAt(r, known[s].generation) == known[s]
  {
    assert Backed(rules, cap, known, s);
    var g, source := known[s].generation, known[s].source;
    KnownIsDerivable(start, rules, cap, known, source.parentA);
    KnownIsDerivable(start, rules, cap, known, source.parentB);
    WithinMonotone(start, rules, source.parentA, known[source.parentA].generation, g - 1);
    WithinMonotone(start, rules, source.parentB, known[source.parentB].generation, g - 1);
  }

  /** What is settled stays as it is in every later sound state. */
  lemma SettledIsFinal(start: KnownMap, rules: seq<Rule>, cap: nat, s: string, k: nat, early: KnownMap, late: KnownMap)
    requires Starting(start) && k <= cap && Within(start, rules, s, k)
    requires Sound(start, rules, cap, early) && Settled(start, rules, cap, k, early)
    requires Sound(start, rules, cap, late) && NoWorse(early, late)
    ensures s in early && s in late && late[s] == early[s]
  {
    SettledGeneration(start, rules, cap, k, early, s);
    if s !in start {
      BackedDerives(start, rules, cap, late, s);
      BackedDerives(start, rules, cap, early, s);
      var r := Rule(late[s].source.ruleId, late[s].source.parentA, late[s].source.parentB, s);
      assert Served(early, r, late[s].generation);
      RankTotal(early[s], late[s], early[s]);
    }
  }

  /** After pass k, a species derivable in k generations keeps its generation and its source for good. */
  lemma FinalAfterPass(start: KnownMap, rules: seq<Rule>, cap: nat, s: string, k: nat, later: nat)
    requires Starting(start) && k <= cap && k <= later && Within(start, rules, s, k)
    ensures s in Passes(rules, k, start, cap) && s in Passes(rules, later, start, cap)
    ensures Passes(rules, later, start, cap)[s] == Passes(rules, k, start, cap)[s]
    ensures Passes(rules, k, start, cap)[s].generation <= k
  {
    PassesKeep(start, rules, cap, k);
    PassesKeep(start, rules, cap, later);
    PassesSettle(start, rules, cap, k);
    LaterPassesNoWorse(start, rules, cap, k, later);
    SettledGeneration(start, rules, cap, k, Passes(rules, k, start, cap), s);
    SettledIsFinal(start, rules, cap, s, k, Passes(rules, k, start, cap), Passes(rules, later, start, cap));
  }
}
