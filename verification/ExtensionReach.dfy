/** How far extensions travel: to every module that can be reached from where they were declared, and nowhere else. */
module ExtensionReach {
  import opened Selectors
  import opened ExtendEngine
  import opened ExtendRuns
  import opened Extensions
  import opened StoreFacts
  import opened ExtensionStores
  import opened StoreMerge
  import opened ModuleGraphs
  import opened ModuleEntries
  import opened ExtendModules

  type Declared = map<ModuleId, set<Rule>>

  /** A chain of uses among the listed modules, users first. */
  ghost predicate UseChain(p: Program, sorted: seq<ModuleId>, path: seq<ModuleId>)
    requires p.Closed()
  {
    && path != [] && (forall m <- path :: m in sorted)
    && forall i | 0 <= i < |path| - 1 :: p.Feeds(path[i], path[i + 1])
  }

  /** `x` is `m`, or uses it directly or through other listed modules. */
  ghost predicate ReachesModule(p: Program, sorted: seq<ModuleId>, x: ModuleId, m: ModuleId)
    requires p.Closed()
  {
    exists path :: UseChain(p, sorted, path) && path[0] == x && path[|path| - 1] == m
  }

  /** The store of each module holds the rules declared in it, and only what follows from those. */
  ghost predicate Registered(declared: Declared, held: Kept) {
    forall m <- declared :: m in held
      && declared[m] <= RulesOf(held[m]) && Follows(declared[m], RulesOf(held[m]))
      && (ChainFree(declared[m]) ==> RulesOf(held[m]) == declared[m])
  }

  lemma ValidIsRegistered(stores: Stores)
    requires AllValid(stores)
    ensures Registered(DeclaredIn(stores), Held(stores))
  {
    hide RulesShape, Populated, RulesOf, Follows, ChainFree;
    hide ExtensionStore.IndexValid, ExtensionStore.MeaningValid;
    forall m | m in stores
      ensures var rules := RulesOf(stores[m].extensions);
              && stores[m].declared <= rules && Follows(stores[m].declared, rules)
              && (ChainFree(stores[m].declared) ==> rules == stores[m].declared)
    {
      assert stores[m].Valid();
    }
  }

  /** Everything the modules that reach `m` declared themselves. */
  ghost function DeclaredAbove(p: Program, sorted: seq<ModuleId>, before: Declared, m: ModuleId): set<Rule>
    requires p.Closed() && forall x <- sorted :: x in before
  {
    set x, r | x in sorted && ReachesModule(p, sorted, x, m) && r in before[x] :: r
  }

  /** What the modules have declared once all have taken in what was sent to them. */
  ghost predicate Settled(p: Program, sorted: seq<ModuleId>, before: Declared, declared: Declared, held: Kept) {
    && p.Closed() && DownstreamFirst(p, sorted) && Registered(declared, held) && held.Keys == p.g.modules
    && TakenIn(p, sorted, |sorted|, before, declared, held)
  }

  lemma SettledAt(p: Program, sorted: seq<ModuleId>, before: Declared, declared: Declared, held: Kept, m: ModuleId)
    requires Settled(p, sorted, before, declared, held) && m in sorted
    ensures m in p.g.modules && m in declared && m in before && m in held
    ensures declared[m] == before[m] + Incoming(p, sorted, held, m)
  {
    hide Incoming, DownstreamFirst, Registered;
    var j :| 0 <= j < |sorted| && sorted[j] == m;
    assert sorted[..|sorted|] == sorted;
  }

  lemma ReachesItself(p: Program, sorted: seq<ModuleId>, m: ModuleId)
    requires p.Closed() && m in sorted
    ensures ReachesModule(p, sorted, m, m)
  {
    assert UseChain(p, sorted, [m]) && [m][0] == m && [m][|[m]| - 1] == m;
  }

  lemma ReachesFurther(p: Program, sorted: seq<ModuleId>, x: ModuleId, d: ModuleId, m: ModuleId)
    requires p.Closed() && ReachesModule(p, sorted, x, d) && p.Feeds(d, m) && m in sorted
    ensures ReachesModule(p, sorted, x, m)
  {
    var path :| UseChain(p, sorted, path) && path[0] == x && path[|path| - 1] == d;
    var longer := path + [m];
    forall i | 0 <= i < |longer| - 1 ensures p.Feeds(longer[i], longer[i + 1]) {
      assert i < |path| - 1 ==> p.Feeds(path[i], path[i + 1]);
    }
    assert UseChain(p, sorted, longer) && longer[0] == x && longer[|longer| - 1] == m;
  }

  /** A rule with a public target arrives wherever a chain of uses leads. */
  lemma {:induction false} RuleTravels(p: Program, sorted: seq<ModuleId>, before: Declared, declared: Declared,
                                       held: Kept, path: seq<ModuleId>, r: Rule)
    requires Settled(p, sorted, before, declared, held) && UseChain(p, sorted, path)
    requires path[0] in before && r in before[path[0]] && !r.target.IsPrivate()
    ensures path[|path| - 1] in declared && r in declared[path[|path| - 1]]
    decreases |path|
  {
    hide DownstreamFirst, TakenIn, RulesOf;
    var m := path[|path| - 1];
    SettledAt(p, sorted, before, declared, held, m);
    if |path| > 1 {
      var shorter := path[..|path| - 1];
      var d := shorter[|shorter| - 1];
      assert d == path[|path| - 2] && p.Feeds(path[|path| - 2], path[|path| - 2 + 1]);
      RuleTravels(p, sorted, before, declared, held, shorter, r);
      assert r in RulesOf(held[d]) && r in PublicRules(held[d]);
      assert d in sorted;
    }
  }

  /** Whatever a module holds follows from what the modules that reach it declared. */
  lemma {:induction false} NothingElseArrives(p: Program, sorted: seq<ModuleId>, before: Declared, declared: Declared,
                                              held: Kept, j: nat)
    requires Settled(p, sorted, before, declared, held) && j < |sorted|
    requires forall x <- sorted :: x in before
    ensures sorted[j] in held && Follows(DeclaredAbove(p, sorted, before, sorted[j]), RulesOf(held[sorted[j]]))
    decreases j
  {
    hide TakenIn, RulesOf, Follows, ReachesModule;
    var m := sorted[j];
    SettledAt(p, sorted, before, declared, held, m);
    var above := DeclaredAbove(p, sorted, before, m);
    forall r | r in declared[m] ensures Follows(above, {r}) {
      if r in before[m] {
        ReachesItself(p, sorted, m);
        FollowsFromMember(above, r);
      } else {
        var d :| d in sorted && d in held && p.Feeds(d, m) && r in PublicRules(held[d]);
        var i :| 0 <= i < |sorted| && sorted[i] == d;
        NothingElseArrives(p, sorted, before, declared, held, i);
        AboveGrows(p, sorted, before, d, m);
        FollowsSubset(DeclaredAbove(p, sorted, before, d), RulesOf(held[d]), {r});
        FollowsFromMore(DeclaredAbove(p, sorted, before, d), above, {r});
      }
    }
    FollowsEach(above, declared[m]);
    FollowsTransitive(above, declared[m], RulesOf(held[m]));
  }

  lemma FollowsFromMember(rules: set<Rule>, r: Rule)
    requires r in rules
    ensures Follows(rules, {r})
  {}

  lemma FollowsFromMore(rules: set<Rule>, more: set<Rule>, some: set<Rule>)
    requires Follows(rules, some) && rules <= more
    ensures Follows(more, some)
  {
    forall e | Closed(e, more) ensures Closed(e, some) {
      assert Closed(e, rules);
    }
  }

  lemma FollowsEach(rules: set<Rule>, some: set<Rule>)
    requires forall r <- some :: Follows(rules, {r})
    ensures Follows(rules, some)
  {
    forall e | Closed(e, rules) ensures Closed(e, some) {
      forall r | r in some && Matches(r.extender, e) ensures SimpleMatches(r.target, e) {
        assert Closed(e, {r});
      }
    }
  }

  lemma AboveGrows(p: Program, sorted: seq<ModuleId>, before: Declared, d: ModuleId, m: ModuleId)
    requires p.Closed() && (forall x <- sorted :: x in before) && p.Feeds(d, m) && m in sorted
    ensures DeclaredAbove(p, sorted, before, d) <= DeclaredAbove(p, sorted, before, m)
  {
    hide ReachesModule;
    forall x | x in sorted && ReachesModule(p, sorted, x, d) ensures ReachesModule(p, sorted, x, m) {
      ReachesFurther(p, sorted, x, d, m);
    }
  }

  // ---- Without chains ----

  /** Where a rule of a module may come from: itself, or publicly from a module that reaches it. */
  ghost predicate ComesFrom(p: Program, sorted: seq<ModuleId>, before: Declared, m: ModuleId, r: Rule)
    requires p.Closed()
  {
    exists x <- sorted :: x in before && r in before[x] && (x == m || (ReachesModule(p, sorted, x, m) && !r.target.IsPrivate()))
  }

  function AllDeclared(sorted: seq<ModuleId>, before: Declared): set<Rule> {
    set x, r | x in sorted && x in before && r in before[x] :: r
  }

  lemma FewerChains(rules: set<Rule>, more: set<Rule>)
    requires rules <= more && ChainFree(more)
    ensures ChainFree(rules)
  {}

  lemma {:induction false} RulesComeFrom(p: Program, sorted: seq<ModuleId>, before: Declared, declared: Declared,
                                         held: Kept, j: nat)
    requires Settled(p, sorted, before, declared, held) && ChainFree(AllDeclared(sorted, before)) && j < |sorted|
    ensures sorted[j] in held && forall r <- RulesOf(held[sorted[j]]) :: ComesFrom(p, sorted, before, sorted[j], r)
    ensures sorted[j] in declared && ChainFree(declared[sorted[j]])
    decreases j
  {
    hide TakenIn, RulesOf, Follows, ReachesModule, ChainFree;
    var m := sorted[j];
    SettledAt(p, sorted, before, declared, held, m);
    forall r | r in declared[m] ensures ComesFrom(p, sorted, before, m, r) {
      if r !in before[m] {
        var d :| d in sorted && d in held && p.Feeds(d, m) && r in PublicRules(held[d]);
        var i :| 0 <= i < |sorted| && sorted[i] == d;
        RulesComeFrom(p, sorted, before, declared, held, i);
        var x :| x in sorted && x in before && r in before[x] && (x == d || ReachesModule(p, sorted, x, d));
        ReachesItself(p, sorted, d);
        ReachesFurther(p, sorted, x, d, m);
      }
    }
    assert forall r <- declared[m] :: ComesFrom(p, sorted, before, m, r);
    FewerChains(declared[m], AllDeclared(sorted, before));
  }

  /**
   Once extensions have been passed on, a module's store holds a rule with a public
   target exactly when it was declared there or in a module that reaches it, and one
   with a private target exactly when it was declared there.
   */
  lemma HoldsExactlyWhatReachesIt(p: Program, sorted: seq<ModuleId>, before: Declared, declared: Declared,
                                  held: Kept, m: ModuleId, r: Rule)
    requires Settled(p, sorted, before, declared, held) && ChainFree(AllDeclared(sorted, before)) && m in sorted
    ensures m in held && m in before
    ensures !r.target.IsPrivate() ==>
              (r in RulesOf(held[m]) <==>
               exists x <- sorted :: x in before && r in before[x] && ReachesModule(p, sorted, x, m))
    ensures r.target.IsPrivate() ==> (r in RulesOf(held[m]) <==> r in before[m])
  {
    hide TakenIn, RulesOf, Follows, ChainFree;
    SettledAt(p, sorted, before, declared, held, m);
    var j :| 0 <= j < |sorted| && sorted[j] == m;
    RulesComeFrom(p, sorted, before, declared, held, j);
    ReachesItself(p, sorted, m);
    if !r.target.IsPrivate() {
      forall x | x in sorted && x in before && r in before[x] && ReachesModule(p, sorted, x, m)
        ensures r in RulesOf(held[m])
      {
        var path :| UseChain(p, sorted, path) && path[0] == x && path[|path| - 1] == m;
        RuleTravels(p, sorted, before, declared, held, path, r);
      }
    }
  }

  /** Where the stores stand once all modules have taken in their extensions is settled. */
  lemma StoresSettle(p: Program, sorted: seq<ModuleId>, before: Declared, stores: Stores)
    requires p.Closed() && DownstreamFirst(p, sorted) && stores.Keys == p.g.modules && AllValid(stores)
    requires TakenIn(p, sorted, |sorted|, before, DeclaredIn(stores), Held(stores))
    ensures Settled(p, sorted, before, DeclaredIn(stores), Held(stores))
  {
    hide AllValid, Registered, DownstreamFirst, TakenIn;
    ValidIsRegistered(stores);
  }
}
