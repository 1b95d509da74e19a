/** A program that is rejected although every target is found, from its declarations on. */
module RejectedPrograms {
  import opened Wrappers
  import opened Collections
  import opened Selectors
  import opened Extensions
  import opened MandatoryUses
  import opened ExtendEngine
  import opened ExtendRuns
  import opened Trim
  import opened Expansion
  import opened StoreFacts
  import opened StoreEntries
  import opened ExtensionStores
  import opened ModuleGraphs
  import opened ModuleEntries
  import opened ExtendModules
  import opened ExtensionReach
  import opened UnsatisfiedReports
  import opened RepeatedUses
  import opened ModuleExtensions

  /** Module 0 is used by 1, 2 and 3, and these by the root, 4. */
  function ThreeUse(m: ModuleId): seq<ModuleId> {
    if m == 0 then [] else if m == 4 then [1, 2, 3] else [0]
  }

  function Name(m: ModuleId): (name: string)
    ensures |name| == if m == 4 then 0 else m + 1
  {
    if m == 4 then "" else seq(m + 1, _ => 'm')
  }

  function ThreeUsers(): Program {
    var modules := {0, 1, 2, 3, 4};
    Program(
      Graph(
        modules,
        map m | m in modules :: ThreeUse(m),
        map m | m in modules :: [],
        map m | m in modules :: true,
        map[]),
      map m | m in modules :: Name(m))
  }

  const USERS_FIRST: seq<ModuleId> := [4, 1, 2, 3, 0]

  lemma ThreeUsersClosed()
    ensures ThreeUsers().Closed()
    ensures ThreeUsers().g.modules == {0, 1, 2, 3, 4}
    ensures forall m <- ThreeUsers().g.modules :: ThreeUsers().urls[m] == Name(m)
    ensures forall m <- ThreeUsers().g.modules :: ThreeUsers().g.upstream[m] == ThreeUse(m)
  {
    var p := ThreeUsers();
    assert p.g.Closed();
    forall m, n | m in p.urls && n in p.urls && p.urls[m] == p.urls[n] && p.urls[m] != "" ensures m == n {
      assert |Name(m)| == |Name(n)|;
    }
  }

  lemma UsersAreFirst()
    requires ThreeUsers().Closed()
    ensures DownstreamFirst(ThreeUsers(), USERS_FIRST)
  {
    ThreeUsersClosed();
    hide ThreeUsers, Program.Closed, Graph.Closed, ThreeUse;
    var p := ThreeUsers();
    assert NoRepeats(USERS_FIRST) && forall m <- USERS_FIRST :: m in {0, 1, 2, 3, 4};
    hide NoRepeats;
    forall i, j | 0 <= i < 5 && 0 <= j < 5 && p.Feeds(USERS_FIRST[i], USERS_FIRST[j]) ensures i < j {
      UsedIsLater(i, j);
    }
  }

  lemma UsedIsLater(i: nat, j: nat)
    requires i < 5 && j < 5 && USERS_FIRST[j] in ThreeUse(USERS_FIRST[i])
    ensures i < j
  {
    if i == 0 {
      assert USERS_FIRST[j] in [1, 2, 3];
    } else {
      assert i < 4 && USERS_FIRST[j] == 0;
    }
  }

  lemma CountInThree(list: seq<ModuleId>, m: ModuleId)
    requires |list| <= 3
    ensures Count(list, m) == (if |list| > 0 && list[0] == m then 1 else 0)
              + (if |list| > 1 && list[1] == m then 1 else 0) + if |list| > 2 && list[2] == m then 1 else 0
  {
    if |list| > 0 {
      CountInThree(list[..|list| - 1], m);
    }
  }

  lemma ThreeUsersIsStar()
    requires ThreeUsers().Closed()
    ensures IsStar(ThreeUsers(), USERS_FIRST, 3)
  {
    ThreeUsersClosed();
    hide ThreeUsers, Count, ThreeUse, Program.Closed, Graph.Closed;
    var p := ThreeUsers();
    forall a, b | 0 <= a < 5 && 0 <= b < 5
      ensures p.TimesUsed(USERS_FIRST[a], USERS_FIRST[b])
              == if (a == 0 && 1 <= b <= 3) || (1 <= a <= 3 && b == 4) then 1 else 0
    {
      CountOfThree(a, b);
    }
  }

  lemma CountOfThree(a: nat, b: nat)
    requires a < 5 && b < 5
    ensures Count(ThreeUse(USERS_FIRST[a]), USERS_FIRST[b])
            == if (a == 0 && 1 <= b <= 3) || (1 <= a <= 3 && b == 4) then 1 else 0
  {
    hide Count;
    CountInThree(ThreeUse(USERS_FIRST[a]), USERS_FIRST[b]);
  }

  /** A new module that declares nothing but `c {@extend t}`. */
  method Declaring(t: Simple, c: NonemptyCompound) returns (store: ExtensionStore, ghost use: Extension)
    ensures fresh(store) && store.Valid() && store.originalOf == map[] && store.selectors == map[]
    ensures store.declared == {Rule(c, t)} && Single(use) && ForRule(use, t, c) && fresh(use.token)
    ensures forall s, d :: EntryAt(store.extensions, s, d) == if s == t && d == c then Some(use) else None
  {
    hide *;
    store := new ExtensionStore();
    var extender := new ComplexSelector(c);
    var list := new SelectorList([extender]);
    ghost var added, exts, uses, variants := store.AddExtension(list, t, false);
    OneUseKept(store.extensions, t, c, extender, uses, variants);
    use := uses[0];
  }

  lemma OneUseKept(exts: ExtensionMap, t: Simple, c: Compound, extender: ComplexSelector, uses: seq<Extension>,
                   variants: seq<Extension>)
    requires UsesFor(uses, [extender], t, false) && variants == [] && extender.simples == c
    requires Melded(map[], exts, uses + variants)
    ensures |uses| == 1 && uses[0] in uses && Single(uses[0]) && uses[0].Base? && ForRule(uses[0], t, c)
    ensures DeclaredBy([extender], t) == {Rule(c, t)}
    ensures forall s, d :: EntryAt(exts, s, d) == if s == t && d == c then Some(uses[0]) else None
  {
    hide MeldAll;
    assert uses + variants == [uses[0]];
    forall s, d ensures EntryAt(exts, s, d) == if s == t && d == c then Some(uses[0]) else None {
      OfOne(uses[0], s, d);
      assert EntryAt(map[], s, d) == None;
      MeldNone(None);
      MeldOne(None, uses[0]);
    }
  }

  /** The simple selector of a style rule leads to its box. */
  lemma StyleRuleIsKnown(value: SelectorList, t: Simple)
    requires IsExpansion(value.components, ListCandidates([[t]], map[]))
    ensures t in SimplesIn(value.Simples())
  {
    UntouchedCandidates([[t]], map[]);
    assert CoveredBy([[t]][0], value.Simples());
    assert value.Simples()[0] in [[t]] && t in value.Simples()[0];
  }

  /** A new module with nothing but the style rule `t`. */
  method Having(t: Simple) returns (store: ExtensionStore)
    ensures fresh(store) && store.Valid() && fresh(store.originalOf.Keys) && t in store.selectors
    ensures store.extensions == map[] && store.declared == {}
  {
    hide IsExpansion, ListCandidates, SimplesIn, ExtensionStore.Valid, KeepsOriginals, NewOriginals;
    store := new ExtensionStore();
    var complex := new ComplexSelector([t]);
    var list := new SelectorList([complex]);
    var box := store.AddSelector(list);
    assert list.Simples() == [[t]];
    StyleRuleIsKnown(box.value, t);
  }

  /** What the run over the three users has to go by. */
  lemma ThreeHaveOneEach(run: Passing, t: Simple, c: Compound, uses: seq<Extension>)
    requires run.Valid() && run.p == ThreeUsers() && run.sorted == USERS_FIRST && NoneMade(run.variants)
    requires |uses| == 3 && Repeats(t, c, uses)
    requires forall a, s, d | 0 <= a < 5 :: USERS_FIRST[a] in run.before &&
               EntryAt(run.before[USERS_FIRST[a]], s, d)
               == if s == t && d == c && 1 <= a <= 3 then Some(uses[a - 1]) else None
    ensures EachHasOne(run, t, c, uses)
  {
    ThreeUsersClosed();
    ThreeUsersIsStar();
    hide Passing.Valid, EntryAt, Repeats, IsStar, ThreeUsers;
  }

  /** What the five modules have before extensions are passed on. */
  ghost predicate FiveStand(now: Snapshot, t: Simple, c: Compound, uses: seq<Extension>) {
    && now.kept.Keys == now.declared.Keys == now.known.Keys == {0, 1, 2, 3, 4}
    && |uses| == 3 && Repeats(t, c, uses)
    && (forall m, s, d | m in now.kept ::
          EntryAt(now.kept[m], s, d) == if s == t && d == c && 1 <= m <= 3 then Some(uses[m - 1]) else None)
    && (forall m <- now.declared :: now.declared[m] <= {Rule(c, t)})
    && (forall m <- now.known :: t in now.known[m] <==> m == 0)
  }

  /** Three mandatory uses of one rule. */
  predicate ThreeUses(t: Simple, c: Compound, use1: Extension, use2: Extension, use3: Extension) {
    && Single(use1) && Single(use2) && Single(use3)
    && ForRule(use1, t, c) && ForRule(use2, t, c) && ForRule(use3, t, c)
    && use1.token != use2.token && use1.token != use3.token && use2.token != use3.token
  }

  /** Three modules with the same rule. */
  method DeclareThree(t: Simple, c: NonemptyCompound)
    returns (one: ExtensionStore, two: ExtensionStore, three: ExtensionStore,
             ghost use1: Extension, ghost use2: Extension, ghost use3: Extension)
    ensures fresh(one) && fresh(two) && fresh(three) && one != two && one != three && two != three
    ensures one.Valid() && one.originalOf == map[] && one.selectors == map[] && one.declared == {Rule(c, t)}
    ensures two.Valid() && two.originalOf == map[] && two.selectors == map[] && two.declared == {Rule(c, t)}
    ensures three.Valid() && three.originalOf == map[] && three.selectors == map[] && three.declared == {Rule(c, t)}
    ensures ThreeUses(t, c, use1, use2, use3)
    ensures forall s, d :: EntryAt(one.extensions, s, d) == if s == t && d == c then Some(use1) else None
    ensures forall s, d :: EntryAt(two.extensions, s, d) == if s == t && d == c then Some(use2) else None
    ensures forall s, d :: EntryAt(three.extensions, s, d) == if s == t && d == c then Some(use3) else None
  {
    hide EntryAt, ForRule, ExtensionStore.Valid;
    one, use1 := Declaring(t, c);
    two, use2 := Declaring(t, c);
    three, use3 := Declaring(t, c);
  }

  /** Sets up the five modules. */
  method SetUp(t: Simple, c: NonemptyCompound) returns (stores: Stores, ghost uses: seq<Extension>)
    requires !t.IsPrivate()
    ensures FiveStand(Now(stores), t, c, uses) && Separate(stores) && AllValid(stores)
    ensures stores.Keys == {0, 1, 2, 3, 4} && fresh(stores.Values) && fresh(BoxesOf(stores))
  {
    hide *;
    var one, two, three;
    ghost var use1, use2, use3;
    one, two, three, use1, use2, use3 := DeclareThree(t, c);
    var used := Having(t);
    var root := new ExtensionStore();
    stores := Five(used, one, two, three, root);
    uses := [use1, use2, use3];
    TheyStand(used, one, two, three, root, t, c, use1, use2, use3);
    FiveAreSeparate(used, one, two, three, root);
    AreValid(used, one, two, three, root);
  }

  function Five(used: ExtensionStore, one: ExtensionStore, two: ExtensionStore, three: ExtensionStore,
                root: ExtensionStore): Stores
  {
    map[0 := used, 1 := one, 2 := two, 3 := three, 4 := root]
  }

  lemma FiveAreSeparate(used: ExtensionStore, one: ExtensionStore, two: ExtensionStore, three: ExtensionStore,
                        root: ExtensionStore)
    requires used != one && used != two && used != three && used != root && one != two && one != three && one != root
    requires two != three && two != root && three != root
    requires one.originalOf == map[] && two.originalOf == map[] && three.originalOf == map[] && root.originalOf == map[]
    ensures var stores := Five(used, one, two, three, root);
            && stores.Keys == {0, 1, 2, 3, 4}
            && (forall s <- stores.Values :: s == used || s == one || s == two || s == three || s == root)
            && Separate(stores) && BoxesOf(stores) == used.originalOf.Keys
  {
    var stores, list := Five(used, one, two, three, root), [used, one, two, three, root];
    assert forall m | 0 <= m < 5 :: stores[m] == list[m];
    assert forall s | s in stores.Values :: exists m | 0 <= m < 5 :: s == list[m];
    forall s | s in list ensures s in stores.Values {
      var m :| 0 <= m < 5 && list[m] == s;
      assert stores[m] == s;
    }
  }

  lemma AreValid(used: ExtensionStore, one: ExtensionStore, two: ExtensionStore, three: ExtensionStore,
                 root: ExtensionStore)
    requires used.Valid() && one.Valid() && two.Valid() && three.Valid() && root.Valid()
    ensures AllValid(Five(used, one, two, three, root))
  {
    hide ExtensionStore.Valid, BoxesOf;
  }

  lemma TheyStand(used: ExtensionStore, one: ExtensionStore, two: ExtensionStore, three: ExtensionStore,
                  root: ExtensionStore, t: Simple, c: Compound, use1: Extension, use2: Extension, use3: Extension)
    requires ThreeUses(t, c, use1, use2, use3) && !t.IsPrivate()
    requires used.extensions == map[] && root.extensions == map[]
    requires forall s, d :: EntryAt(one.extensions, s, d) == if s == t && d == c then Some(use1) else None
    requires forall s, d :: EntryAt(two.extensions, s, d) == if s == t && d == c then Some(use2) else None
    requires forall s, d :: EntryAt(three.extensions, s, d) == if s == t && d == c then Some(use3) else None
    requires used.declared == {} && root.declared == {}
    requires one.declared == {Rule(c, t)} && two.declared == {Rule(c, t)} && three.declared == {Rule(c, t)}
    requires t in used.selectors && t !in root.selectors
    requires t !in one.selectors && t !in two.selectors && t !in three.selectors
    ensures FiveStand(Now(Five(used, one, two, three, root)), t, c, [use1, use2, use3])
  {
    NothingFiled();
    hide EntryAt, ForRule, Single;
    ThreeRepeat(t, c, use1, use2, use3);
    hide Repeats;
  }

  lemma NothingFiled()
    ensures forall s, d :: EntryAt(map[], s, d) == None
  {
    forall s, d ensures EntryAt(map[], s, d) == None {}
  }

  lemma ThreeRepeat(t: Simple, c: Compound, use1: Extension, use2: Extension, use3: Extension)
    requires ThreeUses(t, c, use1, use2, use3) && !t.IsPrivate()
    ensures Repeats(t, c, [use1, use2, use3])
  {
    hide ForRule;
    assert use1 != use2 && use1 != use3 && use2 != use3;
  }

  lemma OneRuleIsChainFree(sorted: seq<ModuleId>, declared: Declared, t: Simple, c: Compound)
    requires t !in c && forall m <- sorted :: m in declared && declared[m] <= {Rule(c, t)}
    ensures ChainFree(AllDeclared(sorted, declared))
  {
    forall r | r in AllDeclared(sorted, declared) ensures r == Rule(c, t) {}
  }

  /** Where the five modules stand, the third use is one too many. */
  lemma ThreeAreRejected(now: Snapshot, t: Simple, c: Compound, uses: seq<Extension>, run: Passing)
    requires FiveStand(now, t, c, uses) && run.Valid()
    requires run.p == ThreeUsers() && run.sorted == USERS_FIRST && run.before == now.kept && NoneMade(run.variants)
    ensures forall m <- run.sorted :: m in now.known
    ensures AllFound(run, now.known)
    ensures run.Unplaced(now.known) != {} && forall x <- run.Unplaced(now.known) :: x.target == t
  {
    hide Passing.Valid, EntryAt, Repeats, ThreeUsers;
    ThreeHaveOneEach(run, t, c, uses);
    KnownInMiddle(now, t, c, uses, run);
    ThirdRepeatIsReported(run, now.known, t, c, uses);
    hide EachHasOne, AllFound, Passing.Unplaced, LastUses;
    UsesHaveTarget(t, c, uses);
  }

  lemma UsesHaveTarget(t: Simple, c: Compound, uses: seq<Extension>)
    requires Repeats(t, c, uses)
    ensures forall u <- uses :: u.target == t
  {}

  lemma KnownInMiddle(now: Snapshot, t: Simple, c: Compound, uses: seq<Extension>, run: Passing)
    requires FiveStand(now, t, c, uses) && run.sorted == USERS_FIRST
    ensures KnownLast(run, now.known, t, 3)
  {
    hide EntryAt, Repeats;
  }

  lemma FiveAreChainFree(now: Snapshot, t: Simple, c: Compound, uses: seq<Extension>)
    requires FiveStand(now, t, c, uses) && t !in c
    ensures ChainFree(AllDeclared(USERS_FIRST, now.declared))
  {
    hide EntryAt, Repeats;
    OneRuleIsChainFree(USERS_FIRST, now.declared, t, c);
  }

  lemma RejectedForOne(error: Option<Extension>, run: Passing, known: Known)
    requires run.Valid() && Reported(error, run, known) && run.Unplaced(known) != {}
    ensures error.Some? && error.value in run.Unplaced(known)
  {
    hide Passing.Valid, Passing.Unplaced;
  }

  /**
   Three modules that declare `c {@extend t}` and use a fourth one with the style rule
   `t` are rejected, although `t` is right there.
   */
  method RejectThree(t: Simple, c: NonemptyCompound)
    returns (error: Option<Extension>, ghost run: Passing, ghost known: Known)
    requires !t.IsPrivate() && t !in c
    ensures run.Valid() && run.p == ThreeUsers() && (forall m <- run.sorted :: m in known) && AllFound(run, known)
    ensures error.Some? && error.value.target == t
  {
    hide *;
    var stores;
    ghost var uses, variants;
    stores, uses := SetUp(t, c);
    ThreeUsersClosed();
    UsersAreFirst();
    ghost var before := Now(stores);
    PartsOfNow(stores);
    known := before.known;
    FiveAreChainFree(before, t, c, uses);
    error, variants := ExtendAll(ThreeUsers(), USERS_FIRST, stores);
    NoneMadeWithoutChains(ThreeUsers(), USERS_FIRST, before.declared, stores, variants);
    run := Passing(ThreeUsers(), USERS_FIRST, before.kept, variants);
    ThreeAreRejected(before, t, c, uses, run);
    RejectedForOne(error, run, known);
  }
}
