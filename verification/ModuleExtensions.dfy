/** Putting a program's CSS together: combining, passing extensions on, and where they end up. */
module ModuleExtensions {
  import opened Wrappers
  import opened Collections
  import opened Selectors
  import opened ExtendEngine
  import opened ExtendRuns
  import opened Extensions
  import opened StoreFacts
  import opened ExtensionStores
  import opened StoreMerge
  import opened ModuleGraphs
  import opened ModuleEntries
  import opened ExtendModules
  import opened ExtensionReach
  import opened UnsatisfiedReports

  /** A module has CSS if anything it uses does. */
  predicate CssSpreads(g: Graph)
    requires g.Closed()
  {
    forall m <- g.modules :: forall u <- g.upstream[m] :: g.containsCss[u] ==> g.containsCss[m]
  }

  /** No module uses itself, however indirectly. */
  ghost predicate Acyclic(g: Graph, rank: ModuleId -> nat)
    requires g.Closed()
  {
    forall m <- g.modules :: forall u <- g.upstream[m] :: rank(u) < rank(m)
  }

  /** Every module uses the next one, which has a URL; it does not matter whether they are listed. */
  ghost predicate UpstreamChain(p: Program, path: seq<ModuleId>)
    requires p.Closed()
  {
    path != [] && path[0] in p.g.modules && forall i | 0 <= i < |path| - 1 :: p.Feeds(path[i], path[i + 1])
  }

  /** `m` is `x`, or one of the modules it uses directly or indirectly. */
  ghost predicate UsesThrough(p: Program, x: ModuleId, m: ModuleId)
    requires p.Closed()
  {
    exists path :: UpstreamChain(p, path) && path[0] == x && path[|path| - 1] == m
  }

  lemma {:induction false} ChainHasCss(p: Program, path: seq<ModuleId>, i: nat)
    requires p.Closed() && CssSpreads(p.g) && UpstreamChain(p, path) && i < |path|
    requires path[|path| - 1] in p.g.modules && p.g.containsCss[path[|path| - 1]]
    ensures path[i] in p.g.modules && p.g.containsCss[path[i]]
    decreases |path| - i
  {
    if i < |path| - 1 {
      ChainHasCss(p, path, i + 1);
      assert p.Feeds(path[i], path[i + 1]);
    }
  }

  lemma {:induction false} ChainIsListed(p: Program, sorted: seq<ModuleId>, root: ModuleId, path: seq<ModuleId>, i: nat)
    requires p.Closed() && CssSpreads(p.g) && InOrder(p.g, sorted, root) && UpstreamChain(p, path) && path[0] in sorted
    requires path[|path| - 1] in p.g.modules && p.g.containsCss[path[|path| - 1]] && i < |path|
    ensures path[i] in sorted
  {
    hide InOrder, CssSpreads;
    if i > 0 {
      ChainIsListed(p, sorted, root, path, i - 1);
      ChainHasCss(p, path, i);
      assert p.Feeds(path[i - 1], path[i - 1 + 1]);
      UsedIsListed(p.g, sorted, root, path[i - 1], path[i]);
    }
  }

  lemma UsedIsListed(g: Graph, sorted: seq<ModuleId>, root: ModuleId, m: ModuleId, u: ModuleId)
    requires g.Closed() && InOrder(g, sorted, root) && m in sorted && g.Uses(m, u)
    ensures u in sorted
  {
    var i :| 0 <= i < |sorted| && sorted[i] == m;
    var j :| i < j < |sorted| && sorted[j] == u;
  }

  /** Among listed modules, using one another through listed modules is using one another. */
  lemma ReachIsUpstream(p: Program, sorted: seq<ModuleId>, root: ModuleId, x: ModuleId, m: ModuleId)
    requires p.Closed() && CssSpreads(p.g) && InOrder(p.g, sorted, root) && x in sorted && m in sorted
    requires forall d <- sorted :: d in p.g.modules && p.g.containsCss[d]
    ensures ReachesModule(p, sorted, x, m) <==> UsesThrough(p, x, m)
  {
    hide InOrder, CssSpreads;
    if ReachesModule(p, sorted, x, m) {
      var path :| UseChain(p, sorted, path) && path[0] == x && path[|path| - 1] == m;
      assert path[0] in path && UpstreamChain(p, path);
    }
    if UsesThrough(p, x, m) {
      var path :| UpstreamChain(p, path) && path[0] == x && path[|path| - 1] == m;
      forall x | x in path ensures x in sorted {
        var i :| 0 <= i < |path| && path[i] == x;
        ChainIsListed(p, sorted, root, path, i);
      }
    }
  }

  /** A rule of `m` that is declared there, or publicly in a module of the program that uses `m`. */
  ghost predicate Arrives(p: Program, sorted: seq<ModuleId>, before: Declared, m: ModuleId, r: Rule)
    requires p.Closed()
  {
    exists x <- sorted :: x in before && r in before[x] && (x == m || (UsesThrough(p, x, m) && !r.target.IsPrivate()))
  }

  /**
   Every store holds the rules that arrive at its module and only what follows from
   rules of modules that use it; without chains it holds exactly those that arrive.
   */
  ghost predicate AllArrived(p: Program, sorted: seq<ModuleId>, before: Declared, held: Kept)
    requires p.Closed() && forall x <- sorted :: x in before
  {
    forall m <- sorted ::
      && m in held
      && (forall r | Arrives(p, sorted, before, m, r) :: r in RulesOf(held[m]))
      && Follows(DeclaredAbove(p, sorted, before, m), RulesOf(held[m]))
      && (ChainFree(AllDeclared(sorted, before)) ==> forall r <- RulesOf(held[m]) :: Arrives(p, sorted, before, m, r))
  }

  lemma SettledHasArrived(p: Program, sorted: seq<ModuleId>, root: ModuleId, before: Declared, declared: Declared,
                          held: Kept)
    requires p.Closed() && Settled(p, sorted, before, declared, held) && CssSpreads(p.g) && InOrder(p.g, sorted, root)
    requires forall d <- sorted :: d in p.g.modules && p.g.containsCss[d] && d in before
    ensures AllArrived(p, sorted, before, held)
  {
    hide Settled, InOrder, RulesOf, Follows, ChainFree, UsesThrough, ReachesModule, CssSpreads, DeclaredAbove;
    forall m | m in sorted
      ensures m in held && Follows(DeclaredAbove(p, sorted, before, m), RulesOf(held[m]))
      ensures forall r | Arrives(p, sorted, before, m, r) :: r in RulesOf(held[m])
      ensures ChainFree(AllDeclared(sorted, before)) ==> forall r <- RulesOf(held[m]) :: Arrives(p, sorted, before, m, r)
    {
      var j :| 0 <= j < |sorted| && sorted[j] == m;
      NothingElseArrives(p, sorted, before, declared, held, j);
      forall r | Arrives(p, sorted, before, m, r) ensures r in RulesOf(held[m]) {
        var x :| x in sorted && x in before && r in before[x] && (x == m || (UsesThrough(p, x, m) && !r.target.IsPrivate()));
        ArrivedIsHeld(p, sorted, root, before, declared, held, x, m, r);
      }
      if ChainFree(AllDeclared(sorted, before)) {
        RulesComeFrom(p, sorted, before, declared, held, j);
        forall r | r in RulesOf(held[m]) ensures Arrives(p, sorted, before, m, r) {
          var x :| x in sorted && x in before && r in before[x]
                   && (x == m || (ReachesModule(p, sorted, x, m) && !r.target.IsPrivate()));
          ReachIsUpstream(p, sorted, root, x, m);
        }
      }
    }
  }

  lemma ArrivedIsHeld(p: Program, sorted: seq<ModuleId>, root: ModuleId, before: Declared, declared: Declared,
                      held: Kept, x: ModuleId, m: ModuleId, r: Rule)
    requires p.Closed() && Settled(p, sorted, before, declared, held) && CssSpreads(p.g) && InOrder(p.g, sorted, root)
    requires forall d <- sorted :: d in p.g.modules && p.g.containsCss[d] && d in before
    requires x in sorted && m in sorted && r in before[x] && (x == m || (UsesThrough(p, x, m) && !r.target.IsPrivate()))
    ensures m in held && r in RulesOf(held[m])
  {
    hide InOrder, RulesOf, Follows, ChainFree, CssSpreads, TakenIn, DownstreamFirst, Incoming, UsesThrough;
    SettledAt(p, sorted, before, declared, held, m);
    if x != m {
      ReachIsUpstream(p, sorted, root, x, m);
      var path :| UseChain(p, sorted, path) && path[0] == x && path[|path| - 1] == m;
      RuleTravels(p, sorted, before, declared, held, path, r);
    }
  }

  /** Where no listed module feeds another, everything that was to arrive is there already. */
  lemma NothingToPassOn(p: Program, sorted: seq<ModuleId>, before: Declared, held: Kept)
    requires p.Closed() && before.Keys == held.Keys == p.g.modules && ExtensionReach.Registered(before, held)
    requires forall x <- sorted :: x in before
    requires forall x <- sorted, m <- sorted, r :: r in before[x] && x != m ==> !UsesThrough(p, x, m)
    ensures AllArrived(p, sorted, before, held)
  {
    hide RulesOf, ChainFree, UsesThrough;
    forall m | m in sorted
      ensures Follows(DeclaredAbove(p, sorted, before, m), RulesOf(held[m]))
      ensures ChainFree(AllDeclared(sorted, before)) ==> forall r <- RulesOf(held[m]) :: Arrives(p, sorted, before, m, r)
    {
      ReachesItself(p, sorted, m);
      FollowsFromMore(before[m], DeclaredAbove(p, sorted, before, m), RulesOf(held[m]));
      if ChainFree(AllDeclared(sorted, before)) {
        FewerChains(before[m], AllDeclared(sorted, before));
      }
    }
  }

  // ---- The whole of it ----

  lemma AcyclicIsRanked(g: Graph, rank: ModuleId -> nat)
    requires g.Closed() && Acyclic(g, rank)
    ensures g.Ranked(rank)
  {}

  lemma ListedAreReached(g: Graph, sorted: seq<ModuleId>, root: ModuleId, m: ModuleId)
    requires g.Closed() && CssSpreads(g) && InOrder(g, sorted, root) && m in sorted
    ensures m in g.modules && (m == root || g.containsCss[m])
    ensures (forall u :: !g.Uses(root, u)) ==> m == root
  {
    hide InOrder;
    assert Reaches(g, root, m) by {
      ListedIsReached(g, sorted, root, m);
    }
    var path :| IsPath(g, path) && path[0] == root && path[|path| - 1] == m;
    if |path| > 1 {
      assert g.Uses(path[|path| - 2], path[|path| - 2 + 1]);
      assert g.Uses(path[0], path[0 + 1]);
    }
  }

  lemma ListedIsReached(g: Graph, sorted: seq<ModuleId>, root: ModuleId, m: ModuleId)
    requires g.Closed() && InOrder(g, sorted, root) && m in sorted
    ensures Reaches(g, root, m)
  {}

  lemma AllHaveCss(g: Graph, sorted: seq<ModuleId>, root: ModuleId)
    requires g.Closed() && CssSpreads(g) && InOrder(g, sorted, root)
    requires root in g.modules && exists u <- g.upstream[root] :: g.containsCss[u]
    ensures forall m <- sorted :: m in g.modules && g.containsCss[m]
  {
    hide InOrder;
    assert g.containsCss[root];
    forall m | m in sorted ensures m in g.modules && g.containsCss[m] {
      ListedAreReached(g, sorted, root, m);
    }
  }

  lemma CombinedInOrder(g: Graph, root: ModuleId, statements: seq<Statement>, sorted: seq<ModuleId>)
    requires g.Closed() && exists log :: Combined(g, root, statements, sorted, log)
    ensures InOrder(g, sorted, root)
  {}

  /** Where nothing is passed on, there was nothing to pass on. */
  lemma AloneUsesNothing(g: Graph, root: ModuleId)
    requires g.Closed() && root in g.modules && !exists u <- g.upstream[root] :: g.containsCss[u]
    ensures forall u :: !g.Uses(root, u)
  {}

  lemma NoExtensionsNothingDeclared(store: ExtensionStore)
    requires store.Valid() && store.extensions.Keys == {}
    ensures store.declared == {}
  {
    assert RulesOf(store.extensions) == {};
  }

  /** Whether modules have to be told of each other's extensions at all. */
  ghost predicate NothingDeclared(g: Graph, root: ModuleId, stores: Stores)
    requires g.Closed()
    reads stores.Values
  {
    forall m <- stores | Reaches(g, root, m) :: stores[m].extensions.Keys == {}
  }

  lemma NoneToPassOn(p: Program, sorted: seq<ModuleId>, root: ModuleId, stores: Stores)
    requires p.Closed() && CssSpreads(p.g) && root in p.g.modules && stores.Keys == p.g.modules && AllValid(stores)
    requires InOrder(p.g, sorted, root)
    requires NothingDeclared(p.g, root, stores) || forall u :: !p.g.Uses(root, u)
    ensures forall x <- sorted :: x in DeclaredIn(stores)
    ensures AllArrived(p, sorted, DeclaredIn(stores), Held(stores))
  {
    hide InOrder, UsesThrough, ExtensionReach.Registered, AllArrived, Reaches, CssSpreads;
    hide ExtensionStore.Valid;
    var before := DeclaredIn(stores);
    ValidIsRegistered(stores);
    forall x | x in sorted ensures x in before && (before[x] == {} || forall m <- sorted :: m == x) {
      ListedAreReached(p.g, sorted, root, x);
      ListedIsReached(p.g, sorted, root, x);
      if NothingDeclared(p.g, root, stores) {
        assert stores[x].Valid();
        NoExtensionsNothingDeclared(stores[x]);
      } else {
        forall m | m in sorted ensures m == x {
          ListedAreReached(p.g, sorted, root, m);
        }
      }
    }
    NothingToPassOn(p, sorted, before, Held(stores));
  }

  lemma AllHaveArrived(p: Program, sorted: seq<ModuleId>, root: ModuleId, before: Declared, stores: Stores)
    requires p.Closed() && CssSpreads(p.g) && DownstreamFirst(p, sorted) && InOrder(p.g, sorted, root)
    requires stores.Keys == p.g.modules && AllValid(stores) && before.Keys == p.g.modules
    requires TakenIn(p, sorted, |sorted|, before, DeclaredIn(stores), Held(stores))
    requires forall m <- sorted :: m in p.g.modules && p.g.containsCss[m]
    ensures AllArrived(p, sorted, before, Held(stores))
  {
    hide DownstreamFirst, InOrder, AllValid, TakenIn, Settled, AllArrived, CssSpreads;
    StoresSettle(p, sorted, before, stores);
    SettledHasArrived(p, sorted, root, before, DeclaredIn(stores), Held(stores));
  }

  lemma OneMember<T>(s: seq<T>, x: T)
    requires NoRepeats(s) && s != [] && forall y <- s :: y == x
    ensures s == [x]
  {
    assert s[0] in s && s[|s| - 1] in s;
  }

  lemma OnlyRootListed(g: Graph, sorted: seq<ModuleId>, root: ModuleId)
    requires g.Closed() && CssSpreads(g) && InOrder(g, sorted, root) && forall u :: !g.Uses(root, u)
    ensures sorted == [root]
  {
    forall m | m in sorted ensures m == root {
      ListedAreReached(g, sorted, root, m);
    }
    OneMember(sorted, root);
  }

  /** A module without upstream CSS is checked by itself. */
  method CheckAlone(root: ModuleId, stores: Stores) returns (error: Option<Extension>)
    requires root in stores && Separate(stores) && AllValid(stores)
    ensures Separate(stores) && AllValid(stores) && Held(stores) == old(Held(stores))
    ensures DeclaredIn(stores) == old(DeclaredIn(stores)) && KnownIn(stores) == old(KnownIn(stores))
    ensures if error.None? then MandatoryAt(stores[root].extensions, stores[root].selectors.Keys, false) == {}
            else error.value in MandatoryAt(stores[root].extensions, stores[root].selectors.Keys, false)
  {
    hide Separate, MandatoryAt, ExtensionStore.Valid, BoxesOf;
    var missing := UsesIn(stores, root, stores[root].selectors.Keys, false);
    if missing != {} {
      var x :| x in missing;
      return Some(x);
    }
    return None;
  }

  /** Nothing needs to be passed on: as many modules, and no variants. */
  function Quiet(p: Program, sorted: seq<ModuleId>, held: Kept): Passing {
    Passing(p, sorted, held, seq(|sorted|, _ => []))
  }

  lemma QuietIsValid(p: Program, sorted: seq<ModuleId>, stores: Stores)
    requires p.Closed() && DownstreamFirst(p, sorted) && (forall m <- sorted :: m in stores) && AllValid(stores)
    ensures Quiet(p, sorted, Held(stores)).Valid() && Quiet(p, sorted, Held(stores)).Apart()
    ensures NoneMade(Quiet(p, sorted, Held(stores)).variants) && TokensOf(Quiet(p, sorted, Held(stores)).variants) == {}
  {
    hide DownstreamFirst;
    ValidIsFiled(stores);
  }

  lemma AloneIsDownstreamFirst(p: Program, root: ModuleId, rank: ModuleId -> nat)
    requires p.Closed() && Acyclic(p.g, rank) && root in p.g.modules
    ensures DownstreamFirst(p, [root])
  {}

  /**
   In the end the stores keep what is told from before, and so is what is reported. A
   program is accepted only if no target is unknown, and always if all are found and
   merging loses nothing.
   */
  ghost predicate Verdict(error: Option<Extension>, run: Passing, known: Known, after: Kept) {
    && run.Valid() && run.Apart() && run.EndsIn(after) && Reported(error, run, known)
    && (error.None? ==> NoneUnknown(run, known) && (OneOwner(run) ==> AllFound(run, known)))
    && (AllFound(run, known) && NothingLost(run) ==> error.None?)
  }

  lemma ReportedIsVerdict(error: Option<Extension>, run: Passing, known: Known, after: Kept)
    requires run.Valid() && run.Apart() && run.EndsIn(after) && Reported(error, run, known)
    ensures Verdict(error, run, known, after)
  {
    hide Passing.Valid, Passing.Apart, Passing.EndsIn, OneOwner, AllFound, NothingLost, Passing.Unplaced, NoneUnknown;
    if error.None? {
      AcceptedIsFound(run, known);
    }
    if OneOwner(run) {
      ReportedExactly(run, known);
    }
    if AllFound(run, known) && NothingLost(run) {
      FoundIsPlaced(run, known);
    }
  }

  lemma AloneVerdict(p: Program, root: ModuleId, stores: Stores, rank: ModuleId -> nat, error: Option<Extension>)
    requires p.Closed() && Acyclic(p.g, rank) && root in p.g.modules && root in stores && AllValid(stores)
    requires var missing := MandatoryAt(stores[root].extensions, stores[root].selectors.Keys, false);
             if error.None? then missing == {} else error.value in missing
    ensures Verdict(error, Quiet(p, [root], Held(stores)), KnownIn(stores), Held(stores))
  {
    hide MandatoryAt, AllValid, DownstreamFirst, Verdict, Acyclic;
    hide Passing.Valid, Passing.Apart, Passing.EndsIn, Passing.Unplaced;
    AloneIsDownstreamFirst(p, root, rank);
    QuietIsValid(p, [root], stores);
    UnplacedAlone(Quiet(p, [root], Held(stores)), KnownIn(stores));
    ReportedIsVerdict(error, Quiet(p, [root], Held(stores)), KnownIn(stores), Held(stores));
  }

  lemma QuietVerdict(p: Program, sorted: seq<ModuleId>, root: ModuleId, stores: Stores)
    requires p.Closed() && DownstreamFirst(p, sorted) && InOrder(p.g, sorted, root) && NothingDeclared(p.g, root, stores)
    requires (forall m <- sorted :: m in stores) && AllValid(stores)
    ensures Verdict(None, Quiet(p, sorted, Held(stores)), KnownIn(stores), Held(stores))
  {
    hide InOrder, Reaches, AllValid, DownstreamFirst, Verdict;
    hide Passing.Valid, Passing.Apart, Passing.EndsIn, Passing.Unplaced;
    forall m | m in sorted ensures Held(stores)[m].Keys == {} {
      ListedIsReached(p.g, sorted, root, m);
    }
    QuietIsValid(p, sorted, stores);
    NothingUnplaced(Quiet(p, sorted, Held(stores)), KnownIn(stores));
    ReportedIsVerdict(None, Quiet(p, sorted, Held(stores)), KnownIn(stores), Held(stores));
  }

  lemma ListedHaveStores(g: Graph, sorted: seq<ModuleId>, root: ModuleId, stores: Stores)
    requires g.Closed() && CssSpreads(g) && InOrder(g, sorted, root) && stores.Keys == g.modules
    ensures forall m <- sorted :: m in stores
  {
    hide InOrder;
    forall m | m in sorted ensures m in stores {
      ListedAreReached(g, sorted, root, m);
    }
  }

  /** Without chains in the whole program no module makes variants. */
  lemma NoneMadeWithoutChains(p: Program, sorted: seq<ModuleId>, before: Declared, stores: Stores,
                              variants: seq<seq<Extension>>)
    requires p.Closed() && DownstreamFirst(p, sorted) && stores.Keys == p.g.modules && AllValid(stores)
    requires TakenIn(p, sorted, |sorted|, before, DeclaredIn(stores), Held(stores))
    requires |variants| == |sorted| && NoneWithoutChains(sorted, |sorted|, DeclaredIn(stores), variants)
    ensures ChainFree(AllDeclared(sorted, before)) ==> NoneMade(variants)
  {
    hide DownstreamFirst, AllValid, TakenIn, Settled, ChainFree, AllDeclared;
    StoresSettle(p, sorted, before, stores);
    if ChainFree(AllDeclared(sorted, before)) {
      forall j | 0 <= j < |sorted| ensures variants[j] == [] {
        RulesComeFrom(p, sorted, before, DeclaredIn(stores), Held(stores), j);
      }
    }
  }

  /** Passes extensions on between the listed modules, users first. */
  method PassOn(p: Program, sorted: seq<ModuleId>, root: ModuleId, stores: Stores, ghost rank: ModuleId -> nat)
    returns (error: Option<Extension>, ghost variants: seq<seq<Extension>>)
    requires p.Closed() && p.g.Ranked(rank) && CssSpreads(p.g) && InOrder(p.g, sorted, root)
    requires stores.Keys == p.g.modules && Separate(stores) && AllValid(stores)
    requires forall m <- sorted :: m in p.g.modules && p.g.containsCss[m]
    modifies stores.Values, BoxesOf(stores)
    ensures Separate(stores) && AllValid(stores)
    ensures forall x <- sorted :: x in old(DeclaredIn(stores))
    ensures AllArrived(p, sorted, old(DeclaredIn(stores)), Held(stores))
    ensures fresh(TokensOf(variants)) && (ChainFree(AllDeclared(sorted, old(DeclaredIn(stores)))) ==> NoneMade(variants))
    ensures Verdict(error, Passing(p, sorted, old(Held(stores)), variants), old(KnownIn(stores)), Held(stores))
  {
    ghost var before, kept, known := DeclaredIn(stores), Held(stores), KnownIn(stores);
    assert before.Keys == p.g.modules;
    hide Program.Closed, Graph.Closed, Graph.Ranked, CssSpreads, InOrder, Separate, AllValid, AllArrived, DeclaredIn, Held;
    hide KnownIn, TakenIn, DownstreamFirst, NoneWithoutChains, ChainFree, AllDeclared, NoneMade, AreBases, TokensOf;
    hide Reported, Verdict;
    hide Passing.Valid, Passing.Apart, Passing.EndsIn;
    InOrderIsDownstreamFirst(p, sorted, root, rank);
    error, variants := ExtendAll(p, sorted, stores);
    AllHaveArrived(p, sorted, root, before, stores);
    NoneMadeWithoutChains(p, sorted, before, stores, variants);
    ReportedIsVerdict(error, Passing(p, sorted, kept, variants), known, Held(stores));
  }

  /** What is left to do once the CSS is put together. */
  method ExtendProgram(p: Program, root: ModuleId, sorted: seq<ModuleId>, stores: Stores, containsExtensions: bool,
                       ghost rank: ModuleId -> nat)
    returns (error: Option<Extension>, ghost variants: seq<seq<Extension>>)
    requires p.Closed() && Acyclic(p.g, rank) && CssSpreads(p.g) && root in p.g.modules && InOrder(p.g, sorted, root)
    requires stores.Keys == p.g.modules && Separate(stores) && AllValid(stores)
    requires !containsExtensions ==> NothingDeclared(p.g, root, stores)
    modifies stores.Values, BoxesOf(stores)
    ensures Separate(stores) && AllValid(stores)
    ensures forall x <- sorted :: x in old(DeclaredIn(stores))
    ensures AllArrived(p, sorted, old(DeclaredIn(stores)), Held(stores))
    ensures fresh(TokensOf(variants)) && (ChainFree(AllDeclared(sorted, old(DeclaredIn(stores)))) ==> NoneMade(variants))
    ensures Verdict(error, Passing(p, sorted, old(Held(stores)), variants), old(KnownIn(stores)), Held(stores))
  {
    hide CssSpreads, Separate, AllValid, NothingDeclared, AllArrived, InOrder, DeclaredIn, Held, KnownIn, Verdict, Acyclic;
    hide ChainFree, AllDeclared, NoneMade, DownstreamFirst, Passing.Valid, Passing.Apart, Graph.Ranked;
    var any := AnyTransitivelyContainsCss(p.g, p.g.upstream[root]);
    if !any {
      AloneUsesNothing(p.g, root);
      NoneToPassOn(p, sorted, root, stores);
      OnlyRootListed(p.g, sorted, root);
      error := CheckAlone(root, stores);
      AloneVerdict(p, root, stores, rank, error);
      NoneMadeAlone(p, root, stores, rank);
      variants := Quiet(p, sorted, Held(stores)).variants;
    } else if containsExtensions {
      AllHaveCss(p.g, sorted, root);
      AcyclicIsRanked(p.g, rank);
      error, variants := PassOn(p, sorted, root, stores, rank);
    } else {
      NoneToPassOn(p, sorted, root, stores);
      ListedHaveStores(p.g, sorted, root, stores);
      AllHaveCss(p.g, sorted, root);
      AcyclicIsRanked(p.g, rank);
      InOrderIsDownstreamFirst(p, sorted, root, rank);
      QuietVerdict(p, sorted, root, stores);
      QuietIsValid(p, sorted, stores);
      error, variants := None, Quiet(p, sorted, Held(stores)).variants;
    }
  }

  lemma NoneMadeAlone(p: Program, root: ModuleId, stores: Stores, rank: ModuleId -> nat)
    requires p.Closed() && Acyclic(p.g, rank) && root in p.g.modules && root in stores && AllValid(stores)
    ensures NoneMade(Quiet(p, [root], Held(stores)).variants) && TokensOf(Quiet(p, [root], Held(stores)).variants) == {}
  {
    hide AllValid, DownstreamFirst, Acyclic;
    AloneIsDownstreamFirst(p, root, rank);
    QuietIsValid(p, [root], stores);
  }

  /**
   Puts a program's CSS together. The statements are those of the reachable modules,
   upstream first. Afterwards every store holds exactly the extensions that arrive at
   its module from those that use it, as far as no rule extends another, and keeps for
   each rule what merging those extensions in turn leaves. The program is rejected
   exactly if that leaves some mandatory use unplaced: always if the target of one is
   not found anywhere it gets to, and, as long as merging loses no use, only then.
   */
  method Combine(p: Program, root: ModuleId, stores: Stores, containsExtensions: bool, ghost rank: ModuleId -> nat)
    returns (error: Option<Extension>, statements: seq<Statement>, sorted: seq<ModuleId>,
             ghost variants: seq<seq<Extension>>)
    requires p.Closed() && Acyclic(p.g, rank) && CssSpreads(p.g) && root in p.g.modules
    requires stores.Keys == p.g.modules && Separate(stores) && AllValid(stores)
    requires !containsExtensions ==> NothingDeclared(p.g, root, stores)
    modifies stores.Values, BoxesOf(stores)
    ensures Separate(stores) && AllValid(stores)
    ensures exists log :: Combined(p.g, root, statements, sorted, log)
    ensures Arranged(p.g, root, statements, sorted)
    ensures forall x <- sorted :: x in old(DeclaredIn(stores))
    ensures AllArrived(p, sorted, old(DeclaredIn(stores)), Held(stores))
    ensures fresh(TokensOf(variants)) && (ChainFree(AllDeclared(sorted, old(DeclaredIn(stores)))) ==> NoneMade(variants))
    ensures Verdict(error, Passing(p, sorted, old(Held(stores)), variants), old(KnownIn(stores)), Held(stores))
  {
    hide Acyclic, CssSpreads, Separate, AllValid, NothingDeclared, AllArrived, InOrder, Combined, Arranged, DeclaredIn, Held;
    hide KnownIn, Verdict, Graph.Ranked, ChainFree, AllDeclared, NoneMade, TokensOf;
    AcyclicIsRanked(p.g, rank);
    statements, sorted := CombineCss(p.g, root, rank);
    CombinedInOrder(p.g, root, statements, sorted);
    error, variants := ExtendProgram(p, root, sorted, stores, containsExtensions, rank);
  }
}
