/** Extensions travel from each module to the modules it uses. */
module ExtendModules {
  import opened Wrappers
  import opened Collections
  import opened Selectors
  import opened ExtendEngine
  import opened ExtendRuns
  import opened Extensions
  import opened MandatoryUses
  import opened StoreFacts
  import opened StoreEntries
  import opened ExtensionStores
  import opened StoreMerge
  import opened ModuleGraphs
  import opened ModuleEntries

  type Stores = map<ModuleId, ExtensionStore>

  /** What the listed modules that use `m` make public. */
  function Incoming(p: Program, done: seq<ModuleId>, exts: map<ModuleId, ExtensionMap>, m: ModuleId): set<Rule>
    requires p.Closed()
  {
    set d, r | d in done && d in exts && p.Feeds(d, m) && r in PublicRules(exts[d]) :: r
  }

  /** An order with users first and upstream modules later is one. */
  lemma InOrderIsDownstreamFirst(p: Program, sorted: seq<ModuleId>, root: ModuleId, rank: ModuleId -> nat)
    requires p.Closed() && p.g.Ranked(rank) && InOrder(p.g, sorted, root)
    requires forall m <- sorted :: m in p.g.modules && p.g.containsCss[m]
    ensures DownstreamFirst(p, sorted)
  {
    forall i, j | 0 <= i < |sorted| && 0 <= j < |sorted| && p.Feeds(sorted[i], sorted[j]) ensures i < j {
      assert sorted[j] in sorted && p.g.Uses(sorted[i], sorted[j]);
      var k :| i < k < |sorted| && sorted[k] == sorted[j];
    }
  }

  /** Different modules share neither a store nor a box. */
  ghost predicate Separate(stores: Stores)
    reads stores.Values
  {
    && (forall m <- stores, n <- stores :: m != n ==>
          stores[m] != stores[n] && stores[m].originalOf.Keys !! stores[n].originalOf.Keys)
  }

  ghost function BoxesOf(stores: Stores): set<ModifiableBox>
    reads stores.Values
  {
    set m, b | m in stores && b in stores[m].originalOf :: b
  }

  /** What each store holds. */
  function Held(stores: Stores): map<ModuleId, ExtensionMap>
    reads stores.Values
  {
    map m | m in stores :: ExtensionsOf(stores, m)
  }

  function ExtensionsOf(stores: Stores, m: ModuleId): ExtensionMap
    requires m in stores
    reads stores.Values
  {
    stores[m].extensions
  }

  ghost function DeclaredIn(stores: Stores): map<ModuleId, set<Rule>>
    reads stores.Values
  {
    map m | m in stores :: DeclaredOf(stores, m)
  }

  ghost function DeclaredOf(stores: Stores, m: ModuleId): set<Rule>
    requires m in stores
    reads stores.Values
  {
    stores[m].declared
  }

  /** The simple selectors each store handles. */
  function KnownIn(stores: Stores): map<ModuleId, set<Simple>>
    reads stores.Values
  {
    map m | m in stores :: SelectorsOf(stores, m)
  }

  function SelectorsOf(stores: Stores, m: ModuleId): set<Simple>
    requires m in stores
    reads stores.Values
  {
    stores[m].selectors.Keys
  }

  /** Who has been noted as using the module of each URL. */
  function Noted(downstream: map<string, seq<ModuleId>>, url: string): seq<ModuleId> {
    if url in downstream then downstream[url] else []
  }

  /** Noted for each module are those done so far that have extensions and use it, as often as they do. */
  predicate Notes(p: Program, done: seq<ModuleId>, exts: map<ModuleId, ExtensionMap>, downstream: map<string, seq<ModuleId>>)
    requires p.Closed()
  {
    forall m <- p.g.modules :: p.urls[m] != "" ==> Noted(downstream, p.urls[m]) == Users(p, done, exts, m)
  }

  lemma {:induction false} ImportedMember(maps: seq<ExtensionMap>, r: Rule)
    ensures r in Imported(maps) <==> exists i | 0 <= i < |maps| :: r in PublicRules(maps[i])
  {
    if maps != [] {
      var n := |maps| - 1;
      ImportedMember(maps[..n], r);
      if r in Imported(maps[..n]) {
        var i :| 0 <= i < n && r in PublicRules(maps[..n][i]);
        assert maps[i] == maps[..n][i];
      }
      if exists i | 0 <= i < |maps| :: r in PublicRules(maps[i]) {
        var i :| 0 <= i < |maps| && r in PublicRules(maps[i]);
        assert i < n ==> maps[..n][i] == maps[i];
      }
    }
  }

  /** Importing the noted stores is importing what the modules done so far send. */
  lemma NotedIsIncoming(p: Program, done: seq<ModuleId>, exts: map<ModuleId, ExtensionMap>,
                        downstream: map<string, seq<ModuleId>>, m: ModuleId, maps: seq<ExtensionMap>)
    requires p.Closed() && m in p.g.modules && p.urls[m] != "" && Notes(p, done, exts, downstream)
    requires forall d <- done :: d in exts
    requires var ids := Noted(downstream, p.urls[m]);
             |maps| == |ids| && forall i | 0 <= i < |ids| :: ids[i] in exts && maps[i] == exts[ids[i]]
    ensures Imported(maps) == Incoming(p, done, exts, m)
  {
    hide PublicRules, Users;
    var ids := Noted(downstream, p.urls[m]);
    forall r ensures r in Imported(maps) <==> r in Incoming(p, done, exts, m) {
      ImportedMember(maps, r);
      if r in Imported(maps) {
        var i :| 0 <= i < |maps| && r in PublicRules(maps[i]);
        assert ids[i] in ids;
        UsersMember(p, done, exts, m, ids[i]);
      }
      if r in Incoming(p, done, exts, m) {
        var d :| d in done && p.Feeds(d, m) && r in PublicRules(exts[d]);
        if exts[d].Keys == {} {
          NoKeysNoRules(exts[d]);
        }
        UsersMember(p, done, exts, m, d);
        var i :| 0 <= i < |ids| && ids[i] == d;
        assert r in PublicRules(maps[i]);
      }
    }
  }

  lemma {:induction false} UnnamedHasNoUsers(p: Program, done: seq<ModuleId>, held: Kept, m: ModuleId)
    requires p.Closed() && m in p.g.modules && p.urls[m] == ""
    ensures Users(p, done, held, m) == []
  {
    if done != [] {
      UnnamedHasNoUsers(p, done[..|done| - 1], held, m);
    }
  }

  lemma NothingIncoming(p: Program, done: seq<ModuleId>, exts: map<ModuleId, ExtensionMap>, m: ModuleId)
    requires p.Closed() && m in p.g.modules && p.urls[m] == ""
    ensures Incoming(p, done, exts, m) == {}
  {}

  /** A module that is listed later sends nothing to one listed earlier, and its store is not among those that did. */
  lemma IncomingStep(p: Program, sorted: seq<ModuleId>, k: nat, held: map<ModuleId, ExtensionMap>, after: ExtensionMap,
                     j: nat)
    requires p.Closed() && DownstreamFirst(p, sorted) && j <= k < |sorted|
    ensures Incoming(p, sorted[..k + 1], held[sorted[k] := after], sorted[j]) == Incoming(p, sorted[..k], held, sorted[j])
  {
    hide PublicRules;
    var m := sorted[k];
    assert sorted[..k + 1] == sorted[..k] + [m];
    assert !p.Feeds(m, sorted[j]);
    forall d | d in sorted[..k] ensures d != m {
      var i :| 0 <= i < k && sorted[i] == d;
    }
    var now := held[m := after];
    forall r ensures r in Incoming(p, sorted[..k + 1], now, sorted[j]) <==> r in Incoming(p, sorted[..k], held, sorted[j]) {
      if r in Incoming(p, sorted[..k + 1], now, sorted[j]) {
        var d :| d in sorted[..k + 1] && d in now && p.Feeds(d, sorted[j]) && r in PublicRules(now[d]);
        assert d in sorted[..k];
      }
      if r in Incoming(p, sorted[..k], held, sorted[j]) {
        var d :| d in sorted[..k] && d in held && p.Feeds(d, sorted[j]) && r in PublicRules(held[d]);
        assert d in sorted[..k + 1] && now[d] == held[d];
      }
    }
  }

  lemma NotesStep(p: Program, sorted: seq<ModuleId>, k: nat, held: map<ModuleId, ExtensionMap>, after: ExtensionMap,
                  before: map<string, seq<ModuleId>>, downstream: map<string, seq<ModuleId>>)
    requires p.Closed() && DownstreamFirst(p, sorted) && k < |sorted|
    requires Notes(p, sorted[..k], held, before) && forall d <- sorted[..k] :: d in held
    requires forall x <- p.g.modules :: p.urls[x] != "" ==>
               Noted(downstream, p.urls[x])
               == Noted(before, p.urls[x]) + if after.Keys != {} then Repeat(sorted[k], p.TimesUsed(sorted[k], x)) else []
    ensures Notes(p, sorted[..k + 1], held[sorted[k] := after], downstream)
  {
    hide Repeat, Users, Noted;
    var m, now := sorted[k], held[sorted[k] := after];
    forall d | d in sorted[..k] ensures d in held && d != m {
      var i :| 0 <= i < k && sorted[i] == d;
    }
    forall x | x in p.g.modules && p.urls[x] != ""
      ensures Noted(downstream, p.urls[x]) == Users(p, sorted[..k + 1], now, x)
    {
      SameUsers(p, sorted[..k], held, now, x);
      UsersMore(p, sorted, k, now, x);
    }
  }

  /** `m` has been noted under the URLs of the first `i` modules it uses. */
  ghost predicate NotedUpTo(p: Program, m: ModuleId, i: nat, downstream: map<string, seq<ModuleId>>,
                            noted: map<string, seq<ModuleId>>)
    requires p.Closed() && m in p.g.modules && i <= |p.g.upstream[m]|
  {
    && "" !in noted
    && forall x <- p.g.modules | p.urls[x] != "" ::
         Noted(noted, p.urls[x]) == Noted(downstream, p.urls[x]) + Repeat(m, Count(p.g.upstream[m][..i], x))
  }

  lemma NotedOneMore(p: Program, m: ModuleId, i: nat, downstream: map<string, seq<ModuleId>>,
                     noted: map<string, seq<ModuleId>>)
    requires p.Closed() && m in p.g.modules && i < |p.g.upstream[m]| && NotedUpTo(p, m, i, downstream, noted)
    ensures var url := p.urls[p.g.upstream[m][i]];
            NotedUpTo(p, m, i + 1, downstream, if url != "" then noted[url := Noted(noted, url) + [m]] else noted)
  {
    var u := p.g.upstream[m][i];
    var after := if p.urls[u] != "" then noted[p.urls[u] := Noted(noted, p.urls[u]) + [m]] else noted;
    assert p.g.upstream[m][..i + 1] == p.g.upstream[m][..i] + [u];
    assert p.g.upstream[m][..i + 1][..i] == p.g.upstream[m][..i];
    hide Repeat;
    forall x <- p.g.modules | p.urls[x] != ""
      ensures Noted(after, p.urls[x]) == Noted(downstream, p.urls[x]) + Repeat(m, Count(p.g.upstream[m][..i + 1], x))
    {
      RepeatMore(m, Count(p.g.upstream[m][..i], x));
      if x == u {
        assert Noted(after, p.urls[x]) == Noted(noted, p.urls[x]) + [m];
      } else {
        assert Noted(after, p.urls[x]) == Noted(noted, p.urls[x]);
      }
    }
  }

  /** Notes a module under the URL of everything it uses. */
  method NoteUpstream(p: Program, m: ModuleId, downstream: map<string, seq<ModuleId>>)
    returns (noted: map<string, seq<ModuleId>>)
    requires p.Closed() && m in p.g.modules && "" !in downstream
    ensures "" !in noted
    ensures forall x <- p.g.modules :: p.urls[x] != "" ==>
              Noted(noted, p.urls[x]) == Noted(downstream, p.urls[x]) + Repeat(m, p.TimesUsed(m, x))
  {
    noted := downstream;
    var upstream := p.g.upstream[m];
    assert NotedUpTo(p, m, 0, downstream, noted);
    for i := 0 to |upstream|
      invariant NotedUpTo(p, m, i, downstream, noted)
    {
      hide NotedUpTo;
      NotedOneMore(p, m, i, downstream, noted);
      var url := p.urls[upstream[i]];
      if url != "" {
        noted := noted[url := Noted(noted, url) + [m]];
      }
    }
    assert upstream[..|upstream|] == upstream;
  }

  /** The stores of the listed modules. */
  function StoresOf(stores: Stores, ids: seq<ModuleId>): seq<ExtensionStore>
    requires forall d <- ids :: d in stores
  {
    seq(|ids|, i requires 0 <= i < |ids| => stores[ids[i]])
  }

  /** Every store is valid. */
  ghost predicate AllValid(stores: Stores)
    reads stores.Values, BoxesOf(stores)
  {
    forall m <- stores :: stores[m].Valid()
  }

  /** A valid store can be read. */
  lemma ValidIsReadable(stores: Stores, list: seq<ExtensionStore>, ids: seq<ModuleId>)
    requires AllValid(stores) && |list| == |ids|
    requires forall i | 0 <= i < |ids| :: ids[i] in stores && list[i] == stores[ids[i]]
    ensures forall i | 0 <= i < |list| :: Readable(list[i])
  {
    forall i | 0 <= i < |list| ensures Readable(list[i]) {
      assert stores[ids[i]].Valid();
      ReadableStore(stores[ids[i]]);
    }
  }

  lemma ReadableStore(store: ExtensionStore)
    requires store.Valid()
    ensures Readable(store)
  {}

  /** One store takes in the extensions of others; what belongs to other modules stays as it is. */
  method AddToOne(stores: Stores, m: ModuleId, list: seq<ExtensionStore>) returns (ghost variants: seq<Extension>)
    requires Separate(stores) && AllValid(stores) && m in stores && stores[m] !in list
    requires forall i | 0 <= i < |list| :: Readable(list[i])
    modifies stores[m], stores[m].originalOf.Keys
    ensures forall n <- stores :: stores[n].Valid() && stores[n].originalOf == old(stores[n].originalOf)
    ensures forall n <- stores :: n != m ==>
              stores[n].extensions == old(stores[n].extensions) && stores[n].declared == old(stores[n].declared)
    ensures stores[m].declared == old(stores[m].declared) + Imported(old(Maps(list)))
    ensures TakesIn(old(stores[m].extensions), stores[m].extensions, old(Maps(list)), variants)
    ensures ChainFree(stores[m].declared) ==> variants == []
    ensures forall v <- variants :: v.Base? && v.media.None? && fresh(v.token)
    ensures forall n <- stores :: n != m ==> stores[n].selectors == old(stores[n].selectors)
  {
    hide ExtensionStore.Valid, Imported, Maps, AllComplete, RulesOf, Readable, Gathered, AllPropagated, TakesIn, ChainFree;
    hide AreVariants;
    ghost var newExtensions, boxes, toExtend;
    newExtensions, boxes, toExtend, variants := AddExtensions(stores[m], list);
    VariantsAreBases(variants, toExtend, newExtensions);
    forall n | n in stores ensures stores[n].Valid() {}
  }

  lemma VariantsAreBases(variants: seq<Extension>, exts: seq<Extension>, newExts: ExtensionMap)
    requires AreVariants(variants, exts, newExts)
    ensures forall v <- variants :: v.Base? && v.media.None?
  {}

  twostate lemma SameBoxes(stores: Stores)
    requires old(Separate(stores)) && forall n <- stores :: stores[n].originalOf == old(stores[n].originalOf)
    ensures Separate(stores) && BoxesOf(stores) == old(BoxesOf(stores))
  {}

  lemma OneChanged(stores: Stores, m: ModuleId, held: map<ModuleId, ExtensionMap>, declared: map<ModuleId, set<Rule>>)
    requires m in stores && held.Keys == declared.Keys == stores.Keys
    requires forall n <- stores :: n != m ==> held[n] == stores[n].extensions && declared[n] == stores[n].declared
    ensures Held(stores) == held[m := stores[m].extensions]
    ensures DeclaredIn(stores) == declared[m := stores[m].declared]
  {}

  method AddTo(stores: Stores, m: ModuleId, list: seq<ExtensionStore>) returns (ghost variants: seq<Extension>)
    requires Separate(stores) && AllValid(stores) && m in stores && stores[m] !in list
    requires forall i | 0 <= i < |list| :: Readable(list[i])
    modifies stores[m], stores[m].originalOf.Keys
    ensures Separate(stores) && AllValid(stores) && BoxesOf(stores) == old(BoxesOf(stores))
    ensures stores.Keys == old(Held(stores)).Keys && Held(stores) == old(Held(stores))[m := stores[m].extensions]
    ensures DeclaredIn(stores) == old(DeclaredIn(stores))[m := old(stores[m].declared) + Imported(old(Maps(list)))]
    ensures TakesIn(old(stores[m].extensions), stores[m].extensions, old(Maps(list)), variants)
    ensures ChainFree(stores[m].declared) ==> variants == []
    ensures forall v <- variants :: v.Base? && v.media.None? && fresh(v.token)
    ensures forall n <- stores :: n != m ==> stores[n].selectors == old(stores[n].selectors)
  {
    hide ExtensionStore.Valid, Imported, Maps, RulesOf, Readable, TakesIn, ChainFree;
    ghost var held, declared := Held(stores), DeclaredIn(stores);
    variants := AddToOne(stores, m, list);
    SameBoxes(stores);
    OneChanged(stores, m, held, declared);
    hide Separate, BoxesOf;
  }

  /** The listed stores are those of the users of a module, in order. */
  ghost predicate AreNoted(p: Program, m: ModuleId, stores: Stores, done: seq<ModuleId>, list: seq<ExtensionStore>)
    requires p.Closed() && m in stores
    reads stores.Values, list
  {
    && Imported(Maps(list)) == Incoming(p, done, Held(stores), m)
    && Maps(list) == MapsOf(Held(stores), Users(p, done, Held(stores), m))
    && stores[m] !in list && forall i | 0 <= i < |list| :: Readable(list[i])
  }

  /** What the stores noted for a module hold together. */
  lemma NotedStores(p: Program, m: ModuleId, stores: Stores, downstream: map<string, seq<ModuleId>>, done: seq<ModuleId>)
    requires p.Closed() && m in p.g.modules && stores.Keys == p.g.modules && Separate(stores) && AllValid(stores)
    requires "" !in downstream && Notes(p, done, Held(stores), downstream)
    requires m !in done && forall d <- done :: d in stores
    ensures p.urls[m] !in downstream ==> Incoming(p, done, Held(stores), m) == {} && Users(p, done, Held(stores), m) == []
    ensures p.urls[m] in downstream ==>
              && (forall d <- downstream[p.urls[m]] :: d in stores)
              && AreNoted(p, m, stores, done, StoresOf(stores, downstream[p.urls[m]]))
  {
    hide AllValid, Separate, Imported, Incoming, Readable, Users;
    var url := p.urls[m];
    var held := Held(stores);
    if url in downstream {
      var ids := downstream[url];
      NotedAreDone(p, done, held, downstream, m);
      var list := StoresOf(stores, ids);
      NotedIsIncoming(p, done, held, downstream, m, Maps(list));
      ValidIsReadable(stores, list, ids);
      NotOwnStore(stores, m, ids, list);
    } else if url == "" {
      NothingIncoming(p, done, held, m);
      UnnamedHasNoUsers(p, done, held, m);
    } else {
      NothingImported();
      NotedIsIncoming(p, done, held, downstream, m, []);
    }
  }

  lemma NoMaps(held: Kept)
    ensures MapsOf(held, []) == []
  {}

  /** What one module takes in from those that use it. */
  method TakeIn(p: Program, m: ModuleId, stores: Stores, downstream: map<string, seq<ModuleId>>, ghost done: seq<ModuleId>)
    returns (ghost variants: seq<Extension>)
    requires p.Closed() && m in p.g.modules && stores.Keys == p.g.modules && Separate(stores) && AllValid(stores)
    requires "" !in downstream && Notes(p, done, Held(stores), downstream)
    requires m !in done && forall d <- done :: d in stores
    modifies stores[m], stores[m].originalOf.Keys
    ensures Separate(stores) && AllValid(stores) && BoxesOf(stores) == old(BoxesOf(stores))
    ensures Held(stores) == old(Held(stores))[m := stores[m].extensions]
    ensures DeclaredIn(stores)
            == old(DeclaredIn(stores))[m := old(stores[m].declared) + Incoming(p, done, old(Held(stores)), m)]
    ensures TakesIn(old(stores[m].extensions), stores[m].extensions,
                    MapsOf(old(Held(stores)), Users(p, done, old(Held(stores)), m)), variants)
    ensures ChainFree(stores[m].declared) ==> variants == []
    ensures forall v <- variants :: v.Base? && v.media.None? && fresh(v.token)
    ensures forall n <- stores :: n != m ==> stores[n].selectors == old(stores[n].selectors)
  {
    hide AllValid, Separate, Imported, Incoming, Readable, Notes, Maps, TakesIn, Users, ChainFree, MapsOf, StoresOf;
    NotedStores(p, m, stores, downstream, done);
    if p.urls[m] in downstream {
      variants := AddTo(stores, m, StoresOf(stores, downstream[p.urls[m]]));
    } else {
      assert stores[m].declared + {} == stores[m].declared;
      NoMaps(Held(stores));
      TakesNothing(stores[m].extensions);
      variants := [];
    }
  }

  /** Notes a module for what it uses, if it has any extensions to pass on. */
  method Note(p: Program, m: ModuleId, stores: Stores, downstream: map<string, seq<ModuleId>>)
    returns (noted: map<string, seq<ModuleId>>)
    requires p.Closed() && m in p.g.modules && m in stores && "" !in downstream && Separate(stores) && AllValid(stores)
    ensures "" !in noted
    ensures forall x <- p.g.modules :: p.urls[x] != "" ==>
              Noted(noted, p.urls[x])
              == Noted(downstream, p.urls[x]) + if stores[m].extensions.Keys != {} then Repeat(m, p.TimesUsed(m, x)) else []
    ensures Separate(stores) && AllValid(stores) && BoxesOf(stores) == old(BoxesOf(stores))
    ensures Held(stores) == old(Held(stores)) && DeclaredIn(stores) == old(DeclaredIn(stores))
    ensures KnownIn(stores) == old(KnownIn(stores))
  {
    hide ExtensionStore.Valid;
    noted := downstream;
    if stores[m].extensions.Keys != {} {
      noted := NoteUpstream(p, m, downstream);
      forall n | n in stores ensures stores[n].Valid() {}
    }
  }

  lemma NotedAreDone(p: Program, done: seq<ModuleId>, exts: map<ModuleId, ExtensionMap>,
                     downstream: map<string, seq<ModuleId>>, m: ModuleId)
    requires p.Closed() && m in p.g.modules && Notes(p, done, exts, downstream)
    requires p.urls[m] in downstream && "" !in downstream
    ensures p.urls[m] != "" && Noted(downstream, p.urls[m]) == downstream[p.urls[m]] == Users(p, done, exts, m)
    ensures forall d <- downstream[p.urls[m]] :: d in done
  {
    hide Users;
    forall d | d in downstream[p.urls[m]] ensures d in done {
      UsersMember(p, done, exts, m, d);
    }
  }

  lemma NotOwnStore(stores: Stores, m: ModuleId, ids: seq<ModuleId>, list: seq<ExtensionStore>)
    requires Separate(stores) && m in stores && m !in ids && |list| == |ids|
    requires forall i | 0 <= i < |ids| :: ids[i] in stores && list[i] == stores[ids[i]]
    ensures stores[m] !in list
  {}

  lemma NothingImported()
    ensures Imported([]) == {}
  {}

  /** Where things stand once the first `k` modules have taken in their extensions. */
  ghost predicate TakenIn(p: Program, sorted: seq<ModuleId>, k: nat, before: map<ModuleId, set<Rule>>,
                          declared: map<ModuleId, set<Rule>>, held: map<ModuleId, ExtensionMap>)
    requires p.Closed() && k <= |sorted|
  {
    && before.Keys == declared.Keys == p.g.modules && (forall m <- sorted :: m in p.g.modules)
    && (forall j | 0 <= j < k ::
          declared[sorted[j]] == before[sorted[j]] + Incoming(p, sorted[..k], held, sorted[j]))
    && (forall m <- p.g.modules :: m !in sorted[..k] ==> declared[m] == before[m])
  }

  lemma TakenInStep(p: Program, sorted: seq<ModuleId>, k: nat, before: map<ModuleId, set<Rule>>,
                    declared: map<ModuleId, set<Rule>>, held: map<ModuleId, ExtensionMap>, after: ExtensionMap)
    requires p.Closed() && DownstreamFirst(p, sorted) && k < |sorted| && TakenIn(p, sorted, k, before, declared, held)
    ensures var m := sorted[k];
            TakenIn(p, sorted, k + 1, before,
                    declared[m := declared[m] + Incoming(p, sorted[..k], held, m)], held[m := after])
  {
    hide Incoming, DownstreamFirst, Program.Closed;
    ListedOnce(p, sorted, k);
    var m := sorted[k];
    var now := declared[m := declared[m] + Incoming(p, sorted[..k], held, m)];
    forall j | 0 <= j < k + 1
      ensures now[sorted[j]] == before[sorted[j]] + Incoming(p, sorted[..k + 1], held[m := after], sorted[j])
    {
      IncomingStep(p, sorted, k, held, after, j);
      assert j < k ==> sorted[j] in sorted[..k];
    }
  }

  // ---- Mandatory uses that are not placed ----

  method ExtensionsWhereTarget(exts: ExtensionMap, known: set<Simple>, found: bool) returns (result: set<Extension>)
    ensures result == MandatoryAt(exts, known, found)
  {
    hide MandatoryLeaves;
    result := {};
    var left := exts.Keys;
    assert exts - left == map[];
    while left != {}
      invariant left <= exts.Keys && result == MandatoryAt(exts - left, known, found)
      decreases |left|
    {
      var t :| t in left;
      ghost var before := exts - left;
      left := left - {t};
      var here := {};
      if (t in known) == found {
        for i := 0 to |exts[t]|
          invariant here == set j, x | 0 <= j < i && x in MandatoryLeaves(exts[t][j]) :: x
        {
          here := here + set x | x in MandatoryLeaves(exts[t][i]);
        }
      }
      MandatoryOfOneMore(exts, before, exts - left, t, known, found, here);
      result := result + here;
    }
    assert exts - {} == exts;
  }

  lemma MandatoryOfOneMore(exts: ExtensionMap, before: ExtensionMap, after: ExtensionMap, t: Simple, known: set<Simple>,
                           found: bool, here: set<Extension>)
    requires t in exts && t !in before && after == before[t := exts[t]]
    requires here == if (t in known) == found
                     then set j, x | 0 <= j < |exts[t]| && x in MandatoryLeaves(exts[t][j]) :: x else {}
    ensures MandatoryAt(after, known, found) == MandatoryAt(before, known, found) + here
  {
    hide MandatoryLeaves;
    forall x | x in MandatoryAt(after, known, found) ensures x in MandatoryAt(before, known, found) + here {
      var u, i :| u in after && (u in known) == found && 0 <= i < |after[u]| && x in MandatoryLeaves(after[u][i]);
      assert u != t ==> u in before && before[u] == after[u];
    }
    forall x | x in MandatoryAt(before, known, found) ensures x in MandatoryAt(after, known, found) {
      var u, i :| u in before && (u in known) == found && 0 <= i < |before[u]| && x in MandatoryLeaves(before[u][i]);
      assert after[u] == before[u];
    }
    forall x | x in here ensures x in MandatoryAt(after, known, found) {
      var i :| 0 <= i < |exts[t]| && x in MandatoryLeaves(exts[t][i]);
      assert after[t][i] == exts[t][i];
    }
  }

  /** The mandatory uses a module holds, and whether it knows their targets. */
  function UsesAt(m: ModuleId, held: map<ModuleId, ExtensionMap>, known: map<ModuleId, set<Simple>>, found: bool)
    : set<Extension>
  {
    if m in held && m in known then MandatoryAt(held[m], known[m], found) else {}
  }

  /**
   The mandatory uses that some module could not place when it was its turn, and that
   neither it nor a later one could place among what it knew.
   */
  function Unsatisfied(sorted: seq<ModuleId>, k: nat, before: map<ModuleId, ExtensionMap>,
                       after: map<ModuleId, ExtensionMap>, known: map<ModuleId, set<Simple>>): set<Extension>
    requires k <= |sorted|
  {
    set i, x |
      && 0 <= i < k && x in UsesAt(sorted[i], before, known, false)
      && (forall j | i <= j < k :: x !in UsesAt(sorted[j], after, known, true)) :: x
  }

  lemma UnsatisfiedStep(sorted: seq<ModuleId>, k: nat, before: map<ModuleId, ExtensionMap>,
                        held: map<ModuleId, ExtensionMap>, known: map<ModuleId, set<Simple>>, exts: ExtensionMap)
    requires k < |sorted| && sorted[k] !in sorted[..k] && sorted[k] in before && sorted[k] in known
    ensures Unsatisfied(sorted, k + 1, before, held[sorted[k] := exts], known)
            == Unsatisfied(sorted, k, before, held, known) + MandatoryAt(before[sorted[k]], known[sorted[k]], false)
               - MandatoryAt(exts, known[sorted[k]], true)
  {
    hide MandatoryAt;
    var m, now := sorted[k], held[sorted[k] := exts];
    forall j | 0 <= j < k ensures UsesAt(sorted[j], now, known, true) == UsesAt(sorted[j], held, known, true) {
      assert sorted[j] in sorted[..k];
    }
    var last, met := UsesAt(m, before, known, false), UsesAt(m, now, known, true);
    var earlier, all := Unsatisfied(sorted, k, before, held, known), Unsatisfied(sorted, k + 1, before, now, known);
    hide UsesAt;
    forall x | x in all ensures x in earlier + last - met {
      var i :| 0 <= i < k + 1 && x in UsesAt(sorted[i], before, known, false)
               && forall j | i <= j < k + 1 :: x !in UsesAt(sorted[j], now, known, true);
      assert i < k ==> x in earlier;
    }
    forall x | x in earlier + last - met ensures x in all {
      if x in earlier {
        var i :| 0 <= i < k && x in UsesAt(sorted[i], before, known, false)
                 && forall j | i <= j < k :: x !in UsesAt(sorted[j], held, known, true);
        assert forall j | i <= j < k + 1 :: x !in UsesAt(sorted[j], now, known, true);
      }
    }
  }

  /** Nothing has changed for modules whose turn is still to come, and the books are right for the others. */
  predicate Booked(sorted: seq<ModuleId>, k: nat, before: map<ModuleId, ExtensionMap>, held: map<ModuleId, ExtensionMap>,
                   known: map<ModuleId, set<Simple>>, now: map<ModuleId, set<Simple>>, unsatisfied: set<Extension>)
    requires k <= |sorted|
  {
    && before.Keys == held.Keys == known.Keys == now.Keys
    && (forall m <- before :: m !in sorted[..k] ==> held[m] == before[m] && now[m] == known[m])
    && unsatisfied == Unsatisfied(sorted, k, before, held, known)
  }

  lemma BookedAtFirst(sorted: seq<ModuleId>, exts: map<ModuleId, ExtensionMap>, known: map<ModuleId, set<Simple>>)
    requires exts.Keys == known.Keys && sorted[..0] == []
    ensures Booked(sorted, 0, exts, exts, known, known, {})
  {}

  lemma BookedStep(sorted: seq<ModuleId>, k: nat, before: map<ModuleId, ExtensionMap>, held: map<ModuleId, ExtensionMap>,
                   known: map<ModuleId, set<Simple>>, was: map<ModuleId, set<Simple>>, unsatisfied: set<Extension>,
                   exts: ExtensionMap, now: map<ModuleId, set<Simple>>)
    requires k < |sorted| && Booked(sorted, k, before, held, known, was, unsatisfied) && sorted[k] in held
    requires sorted[k] !in sorted[..k] && sorted[..k + 1] == sorted[..k] + [sorted[k]]
    requires now.Keys == was.Keys && forall n <- now :: n != sorted[k] ==> now[n] == was[n]
    ensures Booked(sorted, k + 1, before, held[sorted[k] := exts], known, now,
                   unsatisfied + MandatoryAt(held[sorted[k]], was[sorted[k]], false)
                   - MandatoryAt(exts, was[sorted[k]], true))
  {
    hide Unsatisfied, MandatoryAt;
    UnsatisfiedStep(sorted, k, before, held, known, exts);
  }

  lemma BooksAreRight(sorted: seq<ModuleId>, before: map<ModuleId, ExtensionMap>, held: map<ModuleId, ExtensionMap>,
                      known: map<ModuleId, set<Simple>>, now: map<ModuleId, set<Simple>>, unsatisfied: set<Extension>)
    requires Booked(sorted, |sorted|, before, held, known, now, unsatisfied)
    ensures unsatisfied == Unsatisfied(sorted, |sorted|, before, held, known)
  {}

  /** The uses a module's store holds; looking does not change any store. */
  method UsesIn(stores: Stores, m: ModuleId, known: set<Simple>, found: bool) returns (uses: set<Extension>)
    requires m in stores && Separate(stores) && AllValid(stores)
    ensures uses == MandatoryAt(stores[m].extensions, known, found)
    ensures Separate(stores) && AllValid(stores) && BoxesOf(stores) == old(BoxesOf(stores))
    ensures Held(stores) == old(Held(stores)) && DeclaredIn(stores) == old(DeclaredIn(stores))
    ensures KnownIn(stores) == old(KnownIn(stores))
  {
    hide ExtensionStore.Valid, MandatoryAt;
    uses := ExtensionsWhereTarget(stores[m].extensions, known, found);
    forall n | n in stores ensures stores[n].Valid() {}
  }

  /** What is known of all stores at one time. */
  datatype Snapshot = Snapshot(declared: map<ModuleId, set<Rule>>, kept: Kept, known: map<ModuleId, set<Simple>>)

  ghost function Now(stores: Stores): Snapshot
    reads stores.Values
  {
    Snapshot(DeclaredIn(stores), Held(stores), KnownIn(stores))
  }

  /** What a module's turn does: who is noted as its user, what it takes in, and what is left unsatisfied. */
  ghost predicate Turn(p: Program, done: seq<ModuleId>, m: ModuleId, was: Snapshot, now: Snapshot,
                       downstream: map<string, seq<ModuleId>>, noted: map<string, seq<ModuleId>>,
                       unsatisfied: set<Extension>, left: set<Extension>, made: seq<Extension>)
    requires p.Closed()
  {
    && m in was.kept && m in was.declared && m in was.known && m in now.kept && m in now.declared
    && now.kept == was.kept[m := now.kept[m]]
    && now.declared == was.declared[m := was.declared[m] + Incoming(p, done, was.kept, m)]
    && now.known.Keys == was.known.Keys && (forall n <- was.known :: n != m ==> now.known[n] == was.known[n])
    && "" !in noted
    && (forall x <- p.g.modules :: p.urls[x] != "" ==>
          Noted(noted, p.urls[x])
          == Noted(downstream, p.urls[x]) + if now.kept[m].Keys != {} then Repeat(m, p.TimesUsed(m, x)) else [])
    && TakesIn(was.kept[m], now.kept[m], MapsOf(was.kept, Users(p, done, was.kept, m)), made)
    && (ChainFree(now.declared[m]) ==> made == [])
    && left == unsatisfied + MandatoryAt(was.kept[m], was.known[m], false) - MandatoryAt(now.kept[m], was.known[m], true)
  }

  /** A module takes in extensions, passes its own on, and counts what it misses and what it has found. */
  method PassThrough(p: Program, m: ModuleId, stores: Stores, downstream: map<string, seq<ModuleId>>,
                     unsatisfied: set<Extension>, ghost done: seq<ModuleId>)
    returns (noted: map<string, seq<ModuleId>>, left: set<Extension>, ghost made: seq<Extension>)
    requires p.Closed() && m in p.g.modules && stores.Keys == p.g.modules && Separate(stores) && AllValid(stores)
    requires "" !in downstream && Notes(p, done, Held(stores), downstream)
    requires m !in done && forall d <- done :: d in stores
    modifies stores[m], stores[m].originalOf.Keys
    ensures Separate(stores) && AllValid(stores) && BoxesOf(stores) == old(BoxesOf(stores))
    ensures Held(stores) == old(Held(stores))[m := stores[m].extensions]
    ensures DeclaredIn(stores)
            == old(DeclaredIn(stores))[m := old(stores[m].declared) + Incoming(p, done, old(Held(stores)), m)]
    ensures KnownIn(stores).Keys == old(KnownIn(stores)).Keys
    ensures forall n <- stores :: n != m ==> KnownIn(stores)[n] == old(KnownIn(stores))[n]
    ensures "" !in noted
    ensures forall x <- p.g.modules :: p.urls[x] != "" ==>
              Noted(noted, p.urls[x])
              == Noted(downstream, p.urls[x]) + if stores[m].extensions.Keys != {} then Repeat(m, p.TimesUsed(m, x)) else []
    ensures TakesIn(old(stores[m].extensions), stores[m].extensions,
                    MapsOf(old(Held(stores)), Users(p, done, old(Held(stores)), m)), made)
    ensures ChainFree(stores[m].declared) ==> made == []
    ensures forall v <- made :: v.Base? && v.media.None? && fresh(v.token)
    ensures left == unsatisfied + MandatoryAt(old(stores[m].extensions), old(stores[m].selectors).Keys, false)
                    - MandatoryAt(stores[m].extensions, old(stores[m].selectors).Keys, true)
  {
    hide AllValid, Separate, Imported, Incoming, Notes, MandatoryAt, BoxesOf, TakesIn, Users, ChainFree, Noted;
    var originalSelectors := stores[m].selectors.Keys;
    var missing := UsesIn(stores, m, originalSelectors, false);
    made := TakeIn(p, m, stores, downstream, done);
    noted := Note(p, m, stores, downstream);
    var nowSatisfied := UsesIn(stores, m, originalSelectors, true);
    left := unsatisfied + missing - nowSatisfied;
  }

  /** One module's turn. */
  method TakeTurn(p: Program, m: ModuleId, stores: Stores, downstream: map<string, seq<ModuleId>>,
                  unsatisfied: set<Extension>, ghost done: seq<ModuleId>)
    returns (noted: map<string, seq<ModuleId>>, left: set<Extension>, ghost made: seq<Extension>)
    requires p.Closed() && m in p.g.modules && stores.Keys == p.g.modules && Separate(stores) && AllValid(stores)
    requires "" !in downstream && Notes(p, done, Held(stores), downstream)
    requires m !in done && forall d <- done :: d in stores
    modifies stores[m], stores[m].originalOf.Keys
    ensures Separate(stores) && AllValid(stores) && BoxesOf(stores) == old(BoxesOf(stores))
    ensures Turn(p, done, m, old(Now(stores)), Now(stores), downstream, noted, unsatisfied, left, made)
    ensures forall v <- made :: v.Base? && v.media.None? && fresh(v.token)
  {
    hide AllValid, Separate, Incoming, Notes, MandatoryAt, BoxesOf, TakesIn, Users, ChainFree, Noted, MapsOf, Repeat;
    hide Program.Closed, Graph.Closed, Program.TimesUsed;
    ghost var was := Now(stores);
    noted, left, made := PassThrough(p, m, stores, downstream, unsatisfied, done);
    ghost var now := Now(stores);
    assert now.kept == was.kept[m := now.kept[m]];
    assert now.declared == was.declared[m := was.declared[m] + Incoming(p, done, was.kept, m)];
    hide Held, DeclaredIn;
  }

  /** One more module has taken in what was sent to it. */
  lemma PassedOnStep(p: Program, sorted: seq<ModuleId>, k: nat, before: Kept, held: Kept, after: ExtensionMap,
                     variants: seq<seq<Extension>>, made: seq<Extension>)
    requires p.Closed() && DownstreamFirst(p, sorted) && k < |sorted| && |variants| == k
    requires Passing(p, sorted, before, variants).PassedOn(k, held)
    requires forall d <- sorted[..k + 1] :: d in held && d in before
    requires held[sorted[k]] == before[sorted[k]]
    requires TakesIn(held[sorted[k]], after, MapsOf(held, Users(p, sorted[..k], held, sorted[k])), made)
    ensures Passing(p, sorted, before, variants + [made]).PassedOn(k + 1, held[sorted[k] := after])
  {
    hide TakesIn, Users, MapsOf;
    var m, now := sorted[k], held[sorted[k] := after];
    forall j | 0 <= j < k + 1
      ensures sorted[j] in now && sorted[j] in before
      ensures TakesIn(before[sorted[j]], now[sorted[j]], MapsOf(now, Users(p, sorted[..j], now, sorted[j])),
                      (variants + [made])[j])
    {
      assert sorted[j] in sorted[..k + 1];
      forall d | d in sorted[..j] ensures d in held && d != m {
        var i :| 0 <= i < j && sorted[i] == d;
        assert sorted[i] in sorted[..k + 1];
      }
      SameUsers(p, sorted[..j], held, now, sorted[j]);
    }
  }

  /** A module makes variants only if some of its rules form a chain. */
  predicate NoneWithoutChains(sorted: seq<ModuleId>, k: nat, declared: map<ModuleId, set<Rule>>,
                              variants: seq<seq<Extension>>)
    requires k <= |sorted| && k <= |variants|
  {
    forall j | 0 <= j < k :: sorted[j] in declared && (ChainFree(declared[sorted[j]]) ==> variants[j] == [])
  }

  lemma ChainsStep(sorted: seq<ModuleId>, k: nat, declared: map<ModuleId, set<Rule>>, variants: seq<seq<Extension>>,
                   rules: set<Rule>, made: seq<Extension>)
    requires k < |sorted| && |variants| == k && sorted[k] !in sorted[..k]
    requires NoneWithoutChains(sorted, k, declared, variants)
    requires ChainFree(rules) ==> made == []
    ensures NoneWithoutChains(sorted, k + 1, declared[sorted[k] := rules], variants + [made])
  {
    hide ChainFree;
    forall j | 0 <= j < k ensures sorted[j] != sorted[k] {
      assert sorted[j] in sorted[..k];
    }
  }

  predicate AreBases(variants: seq<seq<Extension>>) {
    forall j | 0 <= j < |variants| :: forall v <- variants[j] :: v.Base? && v.media.None?
  }

  lemma ValidIsFiled(stores: Stores)
    requires AllValid(stores)
    ensures forall m <- Held(stores) :: Filed(Held(stores)[m])
  {
    forall m | m in stores ensures Filed(stores[m].extensions) {
      assert stores[m].Valid();
    }
  }

  /** What is reported: a mandatory use that is not placed, if there is one. */
  ghost predicate Reported(error: Option<Extension>, run: Passing, known: map<ModuleId, set<Simple>>)
    requires run.Valid()
  {
    && (forall m <- run.sorted :: m in known)
    && if error.None? then run.Unplaced(known) == {} else error.value in run.Unplaced(known)
  }

  /** The books tell which mandatory uses are not placed. */
  lemma UnsatisfiedAreUnplaced(run: Passing, held: Kept, known: map<ModuleId, set<Simple>>)
    requires run.Valid() && run.EndsIn(held)
    requires forall m <- run.sorted :: m in known && m in held && Filed(held[m])
    ensures Unsatisfied(run.sorted, |run.sorted|, run.before, held, known) == run.Unplaced(known)
  {
    hide MandatoryAt, Filed, Passing.EndsIn, Passing.Valid, Passing.Placed;
    var sorted := run.sorted;
    ListedHaveEntries(run);
    var books, unplaced := Unsatisfied(sorted, |sorted|, run.before, held, known), run.Unplaced(known);
    forall x: Extension | x in books + unplaced ensures x in books && x in unplaced {
      forall j | 0 <= j < |sorted|
        ensures x in UsesAt(sorted[j], held, known, true) <==> run.Placed(known, x, j)
        ensures UsesAt(sorted[j], run.before, known, false)
                == MandatoryAt(run.before[sorted[j]], known[sorted[j]], false)
      {
        KeptIsPlaced(run, held, known, x, j);
      }
    }
  }

  lemma ListedHaveEntries(run: Passing)
    requires run.Valid()
    ensures forall j | 0 <= j < |run.sorted| :: run.sorted[j] in run.before
  {
    forall j | 0 <= j < |run.sorted| ensures run.sorted[j] in run.before {
      assert run.sorted[j] in run.sorted;
    }
  }

  lemma KeptIsPlaced(run: Passing, held: Kept, known: map<ModuleId, set<Simple>>, x: Extension, j: nat)
    requires run.Valid() && run.EndsIn(held) && j < |run.sorted| && run.sorted[j] in known
    requires run.sorted[j] in held && Filed(held[run.sorted[j]])
    ensures x in UsesAt(run.sorted[j], held, known, true) <==> run.Placed(known, x, j)
    ensures run.sorted[j] in run.before
  {
    hide MandatoryAt, Filed;
    MandatoryIsKept(held[run.sorted[j]], known[run.sorted[j]], true, x);
    assert run.sorted[j] in run.sorted;
    assert EntryAt(held[run.sorted[j]], x.target, x.extender.simples) == run.Entry(j, x.target, x.extender.simples);
  }

  /** Where things stand after the first `k` turns. */
  ghost predicate Underway(p: Program, sorted: seq<ModuleId>, k: nat, before: Snapshot, now: Snapshot,
                           downstream: map<string, seq<ModuleId>>, unsatisfied: set<Extension>,
                           variants: seq<seq<Extension>>)
    requires p.Closed()
  {
    && k <= |sorted| && |variants| == k && "" !in downstream
    && Notes(p, sorted[..k], now.kept, downstream)
    && TakenIn(p, sorted, k, before.declared, now.declared, now.kept)
    && Booked(sorted, k, before.kept, now.kept, before.known, now.known, unsatisfied)
    && AreBases(variants) && Passing(p, sorted, before.kept, variants).PassedOn(k, now.kept)
    && NoneWithoutChains(sorted, k, now.declared, variants)
  }

  lemma UnderwayAtFirst(p: Program, sorted: seq<ModuleId>, before: Snapshot)
    requires p.Closed() && DownstreamFirst(p, sorted)
    requires before.declared.Keys == before.kept.Keys == before.known.Keys == p.g.modules
    ensures Underway(p, sorted, 0, before, before, map[], {}, []) && TokensOf([]) == {}
  {
    assert sorted[..0] == [];
    NothingNoted(p, sorted, before.kept, before.declared);
    BookedAtFirst(sorted, before.kept, before.known);
  }

  lemma UnderwayStep(p: Program, sorted: seq<ModuleId>, k: nat, before: Snapshot, was: Snapshot, now: Snapshot,
                     downstream: map<string, seq<ModuleId>>, noted: map<string, seq<ModuleId>>,
                     unsatisfied: set<Extension>, left: set<Extension>, variants: seq<seq<Extension>>, made: seq<Extension>)
    requires p.Closed() && DownstreamFirst(p, sorted) && k < |sorted| && was.kept.Keys == p.g.modules
    requires Underway(p, sorted, k, before, was, downstream, unsatisfied, variants)
    requires Turn(p, sorted[..k], sorted[k], was, now, downstream, noted, unsatisfied, left, made)
    requires forall v <- made :: v.Base? && v.media.None?
    ensures Underway(p, sorted, k + 1, before, now, noted, left, variants + [made])
  {
    hide Notes, TakenIn, Booked, Passing.PassedOn, NoneWithoutChains, Incoming, TakesIn, Users, MapsOf, MandatoryAt, Noted;
    hide AreBases, ChainFree, DownstreamFirst, Repeat, TokensOf, Program.Closed, Program.TimesUsed;
    ListedOnce(p, sorted, k);
    var m, after := sorted[k], now.kept[sorted[k]];
    NotesStep(p, sorted, k, was.kept, after, downstream, noted);
    TakenInStep(p, sorted, k, before.declared, was.declared, was.kept, after);
    KeptBefore(sorted, k, before.kept, was.kept, before.known, was.known, unsatisfied);
    BookedStep(sorted, k, before.kept, was.kept, before.known, was.known, unsatisfied, after, now.known);
    PassedOnStep(p, sorted, k, before.kept, was.kept, after, variants, made);
    ChainsStep(sorted, k, was.declared, variants, now.declared[m], made);
    OneMoreMade(variants, made);
  }

  /** After the last turn the stores keep what is told from before, and the books are right. */
  lemma UnderwayDone(p: Program, sorted: seq<ModuleId>, before: Snapshot, now: Snapshot,
                     downstream: map<string, seq<ModuleId>>, unsatisfied: set<Extension>, variants: seq<seq<Extension>>)
    requires p.Closed() && DownstreamFirst(p, sorted)
    requires before.kept.Keys == before.known.Keys == now.kept.Keys == p.g.modules
    requires forall m <- p.g.modules :: Filed(before.kept[m]) && Filed(now.kept[m])
    requires Underway(p, sorted, |sorted|, before, now, downstream, unsatisfied, variants)
    ensures var run := Passing(p, sorted, before.kept, variants);
            && run.Valid() && run.EndsIn(now.kept) && (forall m <- sorted :: m in before.known)
            && unsatisfied == run.Unplaced(before.known)
    ensures |variants| == |sorted| && AreBases(variants)
    ensures TakenIn(p, sorted, |sorted|, before.declared, now.declared, now.kept)
    ensures NoneWithoutChains(sorted, |sorted|, now.declared, variants)
  {
    hide Notes, TakenIn, Booked, Passing.PassedOn, NoneWithoutChains, Unsatisfied, Filed, Passing.Unplaced, Passing.EndsIn;
    var run := Passing(p, sorted, before.kept, variants);
    AllListed(p, sorted);
    RunIsValid(run);
    hide DownstreamFirst, Passing.Valid;
    run.PassedOnEnds(now.kept);
    BooksAreRight(sorted, before.kept, now.kept, before.known, now.known, unsatisfied);
    UnsatisfiedAreUnplaced(run, now.kept, before.known);
  }

  /**
   Passes extensions downstream to upstream. Every module ends up having declared
   what it declared itself and what the modules that use it make public in the end.
   The extension it keeps for a rule is the one it kept before, merged with those its
   users keep in the end, and then with variants; and an error is reported exactly if
   some mandatory use is not placed: the module that has it does not know its target,
   and no module from there on both knows the target and keeps the use in the end.
   A use may be unplaced although its target is known where it arrives, since merging
   drops some.
   */
  method ExtendAll(p: Program, sorted: seq<ModuleId>, stores: Stores)
    returns (error: Option<Extension>, ghost variants: seq<seq<Extension>>)
    requires p.Closed() && DownstreamFirst(p, sorted) && stores.Keys == p.g.modules && Separate(stores)
    requires AllValid(stores)
    modifies stores.Values, BoxesOf(stores)
    ensures Separate(stores) && AllValid(stores)
    ensures TakenIn(p, sorted, |sorted|, old(DeclaredIn(stores)), DeclaredIn(stores), Held(stores))
    ensures |variants| == |sorted| && AreBases(variants) && fresh(TokensOf(variants))
    ensures NoneWithoutChains(sorted, |sorted|, DeclaredIn(stores), variants)
    ensures Passing(p, sorted, old(Held(stores)), variants).Valid()
    ensures Passing(p, sorted, old(Held(stores)), variants).Apart()
    ensures Passing(p, sorted, old(Held(stores)), variants).EndsIn(Held(stores))
    ensures Reported(error, Passing(p, sorted, old(Held(stores)), variants), old(KnownIn(stores)))
  {
    hide *;
    var downstream: map<string, seq<ModuleId>> := map[];
    var unsatisfied: set<Extension> := {};
    variants := [];
    ghost var before, made := Now(stores), [];
    ghost var own := OwnTokens(before.kept);
    assert allocated(before);
    assert allocated(own);
    PartsOfNow(stores);
    UnderwayAtFirst(p, sorted, before);
    ValidIsFiled(stores);
    for k := 0 to |sorted|
      invariant Separate(stores) && AllValid(stores) && BoxesOf(stores) == old(BoxesOf(stores))
      invariant Underway(p, sorted, k, before, Now(stores), downstream, unsatisfied, variants)
      invariant fresh(TokensOf(variants)) && own !! TokensOf(variants)
    {
      ghost var was, noted, missing := Now(stores), downstream, unsatisfied;
      ListedOnce(p, sorted, k);
      PartsOfNow(stores);
      NotesUnderway(p, sorted, k, before, was, downstream, unsatisfied, variants);
      OneOfMany(stores, sorted[k]);
      downstream, unsatisfied, made := TakeTurn(p, sorted[k], stores, downstream, unsatisfied, sorted[..k]);
      UnderwayStep(p, sorted, k, before, was, Now(stores), noted, downstream, missing, unsatisfied, variants, made);
      OneMoreMade(variants, made);
      variants := variants + [made];
    }
    ValidIsFiled(stores);
    PartsOfNow(stores);
    UnderwayDone(p, sorted, before, Now(stores), downstream, unsatisfied, variants);
    error := None;
    if unsatisfied != {} {
      var x :| x in unsatisfied;
      error := Some(x);
    }
    EndedWith(error, Passing(p, sorted, before.kept, variants), before.known, unsatisfied, own);
  }

  lemma EndedWith(error: Option<Extension>, run: Passing, known: map<ModuleId, set<Simple>>, unsatisfied: set<Extension>,
                  own: set<Token>)
    requires run.Valid() && (forall m <- run.sorted :: m in known) && unsatisfied == run.Unplaced(known)
    requires if error.None? then unsatisfied == {} else error.value in unsatisfied
    requires own == OwnTokens(run.before) && own !! TokensOf(run.variants)
    ensures Reported(error, run, known) && run.Apart()
  {
    hide Passing.Valid, Passing.Unplaced;
  }

  lemma PartsOfNow(stores: Stores)
    ensures Now(stores).declared == DeclaredIn(stores) && Now(stores).kept == Held(stores)
    ensures Now(stores).known == KnownIn(stores)
    ensures DeclaredIn(stores).Keys == Held(stores).Keys == KnownIn(stores).Keys == stores.Keys
  {}

  lemma OneOfMany(stores: Stores, m: ModuleId)
    requires m in stores
    ensures stores[m] in stores.Values && stores[m].originalOf.Keys <= BoxesOf(stores)
  {}

  lemma NotesUnderway(p: Program, sorted: seq<ModuleId>, k: nat, before: Snapshot, now: Snapshot,
                      downstream: map<string, seq<ModuleId>>, unsatisfied: set<Extension>,
                      variants: seq<seq<Extension>>)
    requires p.Closed() && Underway(p, sorted, k, before, now, downstream, unsatisfied, variants)
    ensures k <= |sorted| && |variants| == k && "" !in downstream && Notes(p, sorted[..k], now.kept, downstream)
    ensures AreBases(variants)
  {}

  lemma OneMoreMade(variants: seq<seq<Extension>>, made: seq<Extension>)
    requires AreBases(variants) && forall v <- made :: v.Base? && v.media.None?
    ensures AreBases(variants + [made])
    ensures TokensOf(variants + [made]) == TokensOf(variants) + set v | v in made && v.Base? :: v.token
  {
    var all := variants + [made];
    assert all[|variants|] == made && forall j | 0 <= j < |variants| :: all[j] == variants[j];
    forall t | t in TokensOf(all) ensures t in TokensOf(variants) + set v | v in made && v.Base? :: v.token {
      var j: nat, v: Extension :| j < |all| && v in all[j] && v.Base? && t == v.token;
      assert j < |variants| ==> v in variants[j];
    }
    forall t | t in TokensOf(variants) ensures t in TokensOf(all) {
      var j: nat, v: Extension :| j < |variants| && v in variants[j] && v.Base? && t == v.token;
      assert v in all[j];
    }
    forall v | v in made && v.Base? ensures v.token in TokensOf(all) {
      assert v in all[|variants|];
    }
  }

  lemma KeptBefore(sorted: seq<ModuleId>, k: nat, before: Kept, held: Kept, known: map<ModuleId, set<Simple>>,
                   now: map<ModuleId, set<Simple>>, unsatisfied: set<Extension>)
    requires k < |sorted| && Booked(sorted, k, before, held, known, now, unsatisfied)
    requires sorted[k] in held && sorted[k] !in sorted[..k]
    ensures sorted[k] in before && held[sorted[k]] == before[sorted[k]] && held.Keys == before.Keys
  {}

  lemma AllListed(p: Program, sorted: seq<ModuleId>)
    requires p.Closed() && DownstreamFirst(p, sorted)
    ensures forall m <- sorted :: m in p.g.modules
  {}

  lemma RunIsValid(run: Passing)
    requires run.p.Closed() && DownstreamFirst(run.p, run.sorted) && |run.variants| == |run.sorted|
    requires (forall m <- run.sorted :: m in run.before && Filed(run.before[m])) && AreBases(run.variants)
    ensures run.Valid()
  {}

  lemma NothingNoted(p: Program, sorted: seq<ModuleId>, exts: map<ModuleId, ExtensionMap>, before: map<ModuleId, set<Rule>>)
    requires p.Closed() && DownstreamFirst(p, sorted) && before.Keys == p.g.modules
    ensures Notes(p, [], exts, map[]) && TakenIn(p, sorted, 0, before, before, exts)
  {}

  lemma ListedOnce(p: Program, sorted: seq<ModuleId>, k: nat)
    requires p.Closed() && DownstreamFirst(p, sorted) && k < |sorted|
    ensures sorted[k] in p.g.modules && sorted[k] !in sorted[..k]
    ensures forall d <- sorted[..k] :: d in p.g.modules
    ensures sorted[..k + 1] == sorted[..k] + [sorted[k]]
  {
    assert sorted[k] in sorted && forall d <- sorted[..k] :: d in sorted;
  }
}
