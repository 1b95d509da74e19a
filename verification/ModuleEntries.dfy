/**
 What the stores of a program's modules keep for each rule once extensions have been
 passed on, told from what they kept before and from who uses whom.
 */
module ModuleEntries {
  import opened Wrappers
  import opened Collections
  import opened Selectors
  import opened Extensions
  import opened MandatoryUses
  import opened ExtendEngine
  import opened StoreFacts
  import opened StoreEntries
  import opened ModuleGraphs

  /** What the store of each module keeps. */
  type Kept = map<ModuleId, ExtensionMap>

  /** The graph, with what each module is called; an unnamed module is never extended from outside. */
  datatype Program = Program(g: Graph, urls: map<ModuleId, string>) {
    predicate Closed() {
      && g.Closed() && urls.Keys == g.modules
      && forall m <- urls, n <- urls :: urls[m] == urls[n] && urls[m] != "" ==> m == n
    }

    /** `d` uses `m`, and can name it. */
    predicate Feeds(d: ModuleId, m: ModuleId)
      requires Closed()
    {
      d in g.modules && m in g.modules && urls[m] != "" && m in g.upstream[d]
    }

    /** How often `d` uses `m`. */
    function TimesUsed(d: ModuleId, m: ModuleId): nat
      requires Closed()
    {
      if d in g.modules && m in g.modules && urls[m] != "" then Count(g.upstream[d], m) else 0
    }
  }

  function Count(list: seq<ModuleId>, m: ModuleId): nat {
    if list == [] then 0 else Count(list[..|list| - 1], m) + if list[|list| - 1] == m then 1 else 0
  }

  function Repeat<T>(x: T, n: nat): seq<T> { seq(n, _ => x) }

  lemma {:induction false} CountMember(list: seq<ModuleId>, m: ModuleId)
    ensures Count(list, m) > 0 <==> m in list
  {
    if list != [] {
      CountMember(list[..|list| - 1], m);
      assert list == list[..|list| - 1] + [list[|list| - 1]];
    }
  }

  /** Nobody uses a module listed before it. */
  ghost predicate DownstreamFirst(p: Program, sorted: seq<ModuleId>)
    requires p.Closed()
  {
    && NoRepeats(sorted) && (forall m <- sorted :: m in p.g.modules)
    && forall i, j | 0 <= i < |sorted| && 0 <= j < |sorted| && p.Feeds(sorted[i], sorted[j]) :: i < j
  }

  /** The listed modules with extensions that use `m`, in order, as often as they use it. */
  function Users(p: Program, done: seq<ModuleId>, held: Kept, m: ModuleId): seq<ModuleId>
    requires p.Closed()
  {
    if done == [] then []
    else
      var n := |done| - 1;
      Users(p, done[..n], held, m)
      + if done[n] in held && held[done[n]].Keys != {} then Repeat(done[n], p.TimesUsed(done[n], m)) else []
  }

  lemma {:induction false} UsersMember(p: Program, done: seq<ModuleId>, held: Kept, m: ModuleId, d: ModuleId)
    requires p.Closed()
    ensures d in Users(p, done, held, m) <==> d in done && d in held && held[d].Keys != {} && p.Feeds(d, m)
  {
    if done != [] {
      var n := |done| - 1;
      UsersMember(p, done[..n], held, m, d);
      assert done == done[..n] + [done[n]];
      if done[n] in p.g.modules {
        CountMember(p.g.upstream[done[n]], m);
      }
      var more := Repeat(done[n], p.TimesUsed(done[n], m));
      assert |more| > 0 ==> more[0] == done[n];
    }
  }

  /** Who uses a module depends on what the listed modules keep only. */
  lemma {:induction false} SameUsers(p: Program, done: seq<ModuleId>, held: Kept, now: Kept, m: ModuleId)
    requires p.Closed() && forall d <- done :: d in held && d in now && held[d] == now[d]
    ensures Users(p, done, held, m) == Users(p, done, now, m)
    ensures MapsOf(held, Users(p, done, held, m)) == MapsOf(now, Users(p, done, now, m))
  {
    if done != [] {
      var n := |done| - 1;
      assert done == done[..n] + [done[n]];
      SameUsers(p, done[..n], held, now, m);
      forall d | d in Users(p, done, held, m) ensures d in done {
        UsersMember(p, done, held, m, d);
      }
    }
  }

  function MapsOf(held: Kept, ids: seq<ModuleId>): seq<ExtensionMap> {
    seq(|ids|, i requires 0 <= i < |ids| => if ids[i] in held then held[ids[i]] else map[])
  }

  /** A store's extensions as it keeps them. */
  predicate Filed(exts: ExtensionMap) { forall t <- exts :: FiledUnder(exts[t], t) }

  lemma {:induction false} EntryInMember(sources: seq<Extension>, c: Compound)
    ensures EntryIn(sources, c).Some? ==>
              EntryIn(sources, c).value in sources && EntryIn(sources, c).value.extender.simples == c
  {
    if sources != [] {
      assert sources[0] in sources && forall x <- sources[1..] :: x in sources;
      EntryInMember(sources[1..], c);
    }
  }

  lemma EntryIsForRule(exts: ExtensionMap, t: Simple, c: Compound)
    requires Filed(exts)
    ensures EntryAt(exts, t, c).Some? ==> ForRule(EntryAt(exts, t, c).value, t, c)
  {
    EntryInMember(SourcesFor(exts, t), c);
  }

  // ---- Passing on ----

  /**
   Extensions being passed on between the listed modules, users first: what the stores
   kept before, and the variants each module makes when it is its turn, of which there
   are none as long as no rule extends another.
   */
  datatype Passing = Passing(p: Program, sorted: seq<ModuleId>, before: Kept, variants: seq<seq<Extension>>) {
    ghost predicate Valid() {
      && p.Closed() && DownstreamFirst(p, sorted) && |variants| == |sorted|
      && (forall m <- sorted :: m in before && Filed(before[m]))
      && (forall j | 0 <= j < |variants| :: forall v <- variants[j] :: v.Base? && v.media.None?)
    }

    /** The variants are new: no module had them before. */
    predicate Apart() { OwnTokens(before) !! TokensOf(variants) }

    /** What the first `k` modules send to `m` for one rule, in order. */
    function Sent(m: ModuleId, k: nat, t: Simple, c: Compound): seq<Extension>
      requires Valid() && k <= |sorted|
      decreases k, 0
    {
      if k == 0 || t.IsPrivate() then []
      else
        Sent(m, k - 1, t, c)
        + if Entry(k - 1, t, c).None? then []
          else Repeat(Entry(k - 1, t, c).value, p.TimesUsed(sorted[k - 1], m))
    }

    /** What the `j`th module keeps for one rule in the end. */
    function Entry(j: nat, t: Simple, c: Compound): Option<Extension>
      requires Valid() && j < |sorted|
      decreases j, 1
    {
      MeldAll(EntryAt(before[sorted[j]], t, c), Sent(sorted[j], j, t, c) + Of(variants[j], t, c))
    }

    /** Everything that is merged for one rule in the `j`th module. */
    function Gathered(j: nat, t: Simple, c: Compound): seq<Extension>
      requires Valid() && j < |sorted|
    {
      Together(EntryAt(before[sorted[j]], t, c), Sent(sorted[j], j, t, c) + Of(variants[j], t, c))
    }

    /** What one more module adds to what is sent. */
    lemma SentByOne(m: ModuleId, k: nat, t: Simple, c: Compound)
      requires Valid() && k < |sorted|
      ensures Sent(m, k + 1, t, c)
              == Sent(m, k, t, c)
                 + if t.IsPrivate() || Entry(k, t, c).None? then []
                   else Repeat(Entry(k, t, c).value, p.TimesUsed(sorted[k], m))
    {
      hide Entry, Valid;
    }

    lemma SentByNone(m: ModuleId, t: Simple, c: Compound)
      requires Valid()
      ensures Sent(m, 0, t, c) == []
    {}

    lemma SentForRuleByOne(m: ModuleId, k: nat, t: Simple, c: Compound)
      requires Valid() && k < |sorted| && AllForRule(Sent(m, k, t, c), t, c)
      requires Entry(k, t, c).Some? ==> ForRule(Entry(k, t, c).value, t, c)
      ensures AllForRule(Sent(m, k + 1, t, c), t, c)
    {
      assert p.Closed();
      hide *;
      SentByOne(m, k, t, c);
      MoreForRule(Sent(m, k, t, c), Entry(k, t, c), p.TimesUsed(sorted[k], m), t, c);
    }

    lemma {:induction false} SentAreForRule(m: ModuleId, k: nat, t: Simple, c: Compound)
      requires Valid() && k <= |sorted|
      ensures AllForRule(Sent(m, k, t, c), t, c)
      decreases k, 0
    {
      hide *;
      if k == 0 {
        SentByNone(m, t, c);
        NoneForRule(t, c);
      } else {
        SentAreForRule(m, k - 1, t, c);
        EntryUses(k - 1, t, c);
        SentForRuleByOne(m, k - 1, t, c);
      }
    }

    /** The mandatory uses kept in the end are those that survive the merging. */
    lemma {:induction false} EntryUses(j: nat, t: Simple, c: Compound)
      requires Valid() && j < |sorted|
      ensures AllForRule(Gathered(j, t, c), t, c)
      ensures UsesOf(Entry(j, t, c)) == Surviving(Gathered(j, t, c))
      ensures Entry(j, t, c).Some? ==> ForRule(Entry(j, t, c).value, t, c)
      decreases j, 1
    {
      hide Surviving, UsesOf, MeldAll;
      SentAreForRule(sorted[j], j, t, c);
      OfMembers(variants[j], t, c);
      assert before[sorted[j]] == before[sorted[j]] && sorted[j] in sorted;
      EntryIsForRule(before[sorted[j]], t, c);
      var sent, made := Sent(sorted[j], j, t, c), Of(variants[j], t, c);
      forall x | x in made ensures ForRule(x, t, c) {
        assert x in variants[j];
      }
      MeldedUses(EntryAt(before[sorted[j]], t, c), sent + made, t, c);
    }

    /** `after` is what the stores keep in the end. */
    ghost predicate EndsIn(after: Kept)
      requires Valid()
    {
      forall j | 0 <= j < |sorted| :: sorted[j] in after &&
        forall t, c :: EntryAt(after[sorted[j]], t, c) == Entry(j, t, c)
    }

    /** The `j`th module knows the target of `x`, and keeps it in the end. */
    predicate Placed(known: map<ModuleId, set<Simple>>, x: Extension, j: nat)
      requires Valid() && j < |sorted| && sorted[j] in known
    {
      x.target in known[sorted[j]] && x in UsesOf(Entry(j, x.target, x.extender.simples))
    }

    predicate PlacedFrom(known: map<ModuleId, set<Simple>>, x: Extension, i: nat)
      requires Valid() && forall m <- sorted :: m in known
    {
      exists j | i <= j < |sorted| :: sorted[j] in known && Placed(known, x, j)
    }

    /**
     The mandatory uses some module cannot place when it is its turn, and that neither
     it nor a later one both knows the target of and keeps in the end.
     */
    function Unplaced(known: map<ModuleId, set<Simple>>): set<Extension>
      requires Valid() && forall m <- sorted :: m in known
    {
      set i, x |
        && 0 <= i < |sorted| && x in MandatoryAt(before[sorted[i]], known[sorted[i]], false)
        && !PlacedFrom(known, x, i) :: x
    }

    /** The first `k` modules have taken in what was sent to them. */
    ghost predicate PassedOn(k: nat, held: Kept)
      requires p.Closed() && k <= |sorted| && k <= |variants|
    {
      forall j | 0 <= j < k ::
        && sorted[j] in held && sorted[j] in before
        && TakesIn(before[sorted[j]], held[sorted[j]], MapsOf(held, Users(p, sorted[..j], held, sorted[j])), variants[j])
    }

    /** Once all have taken in what was sent to them, they keep what they keep in the end. */
    lemma PassedOnEnds(held: Kept)
      requires Valid() && PassedOn(|sorted|, held)
      ensures EndsIn(held)
    {
      forall j, t, c | 0 <= j < |sorted|
        ensures EntryAt(held[sorted[j]], t, c) == Entry(j, t, c)
      {
        EntryPassedOn(held, j, t, c);
      }
    }

    lemma {:induction false} EntryPassedOn(held: Kept, j: nat, t: Simple, c: Compound)
      requires Valid() && PassedOn(|sorted|, held) && j < |sorted|
      ensures sorted[j] in held && EntryAt(held[sorted[j]], t, c) == Entry(j, t, c)
      decreases j, 1
    {
      hide MeldAll, EntryAt, Users, Of;
      ArrivingIsSent(held, sorted[j], j, t, c);
    }

    lemma {:induction false} ArrivingIsSent(held: Kept, m: ModuleId, k: nat, t: Simple, c: Compound)
      requires Valid() && PassedOn(|sorted|, held) && k <= |sorted|
      ensures Arriving(MapsOf(held, Users(p, sorted[..k], held, m)), t, c) == Sent(m, k, t, c)
      decreases k, 0
    {
      assert p.Closed();
      hide *;
      if k == 0 {
        NobodySends(p, sorted, held, m, t, c);
        SentByNone(m, t, c);
      } else {
        var n := k - 1;
        ArrivingIsSent(held, m, n, t, c);
        EntryPassedOn(held, n, t, c);
        UsersMore(p, sorted, n, held, m);
        SentByOne(m, n, t, c);
        ArrivingFromOne(held, Users(p, sorted[..n], held, m), sorted[n], p.TimesUsed(sorted[n], m), t, c);
      }
    }
  }

  predicate AllForRule(xs: seq<Extension>, t: Simple, c: Compound) { forall x <- xs :: ForRule(x, t, c) }

  lemma NoneForRule(t: Simple, c: Compound)
    ensures AllForRule([], t, c)
  {}

  lemma MoreForRule(xs: seq<Extension>, entry: Option<Extension>, n: nat, t: Simple, c: Compound)
    requires AllForRule(xs, t, c) && (entry.Some? ==> ForRule(entry.value, t, c))
    ensures AllForRule(xs + (if t.IsPrivate() || entry.None? then [] else Repeat(entry.value, n)), t, c)
  {
    hide ForRule;
  }

  lemma UsersMore(p: Program, sorted: seq<ModuleId>, k: nat, held: Kept, m: ModuleId)
    requires p.Closed() && k < |sorted| && sorted[k] in held
    ensures Users(p, sorted[..k + 1], held, m)
            == Users(p, sorted[..k], held, m)
               + if held[sorted[k]].Keys != {} then Repeat(sorted[k], p.TimesUsed(sorted[k], m)) else []
  {
    assert sorted[..k + 1][..k] == sorted[..k];
  }

  lemma NobodySends(p: Program, sorted: seq<ModuleId>, held: Kept, m: ModuleId, t: Simple, c: Compound)
    requires p.Closed()
    ensures Arriving(MapsOf(held, Users(p, sorted[..0], held, m)), t, c) == []
  {
    assert sorted[..0] == [] && MapsOf(held, []) == [];
  }

  lemma RepeatMore<T>(x: T, n: nat)
    ensures Repeat(x, 0) == [] && Repeat(x, n + 1) == Repeat(x, n) + [x]
  {}

  lemma ArrivingMore(maps: seq<ExtensionMap>, exts: ExtensionMap, t: Simple, c: Compound)
    ensures Arriving(maps + [exts], t, c) == Arriving(maps, t, c) + PublicEntry(exts, t, c)
  {
    assert (maps + [exts])[..|maps|] == maps;
  }

  lemma {:induction false} ArrivingRepeated(maps: seq<ExtensionMap>, exts: ExtensionMap, n: nat, t: Simple, c: Compound)
    ensures Arriving(maps + Repeat(exts, n), t, c)
            == Arriving(maps, t, c)
               + if t.IsPrivate() || EntryAt(exts, t, c).None? then [] else Repeat(EntryAt(exts, t, c).value, n)
  {
    hide EntryAt, Arriving, Repeat;
    if n == 0 {
      RepeatMore(exts, 0);
      assert maps + [] == maps;
      if EntryAt(exts, t, c).Some? {
        RepeatMore(EntryAt(exts, t, c).value, 0);
      }
    } else {
      ArrivingRepeated(maps, exts, n - 1, t, c);
      RepeatMore(exts, n - 1);
      assert maps + (Repeat(exts, n - 1) + [exts]) == maps + Repeat(exts, n - 1) + [exts];
      ArrivingMore(maps + Repeat(exts, n - 1), exts, t, c);
      if EntryAt(exts, t, c).Some? {
        RepeatMore(EntryAt(exts, t, c).value, n - 1);
      }
    }
  }

  /** What arrives when one more module has sent what it keeps `n` times, if it keeps anything. */
  lemma ArrivingFromOne(held: Kept, ids: seq<ModuleId>, d: ModuleId, n: nat, t: Simple, c: Compound)
    requires d in held
    ensures Arriving(MapsOf(held, ids + if held[d].Keys != {} then Repeat(d, n) else []), t, c)
            == Arriving(MapsOf(held, ids), t, c)
               + if t.IsPrivate() || EntryAt(held[d], t, c).None? then [] else Repeat(EntryAt(held[d], t, c).value, n)
  {
    hide Arriving, EntryIn;
    if held[d].Keys != {} {
      assert MapsOf(held, ids + Repeat(d, n)) == MapsOf(held, ids) + Repeat(held[d], n);
      ArrivingRepeated(MapsOf(held, ids), held[d], n, t, c);
    } else {
      assert ids + [] == ids;
      NoEntry([], c);
    }
  }

  // ---- Mandatory uses and where they are kept ----

  /** The mandatory uses of rules whose target is known, or those whose target is not. */
  function MandatoryAt(exts: ExtensionMap, known: set<Simple>, found: bool): set<Extension> {
    set t, i, x | t in exts && (t in known) == found && 0 <= i < |exts[t]| && x in MandatoryLeaves(exts[t][i]) :: x
  }

  /** All mandatory uses a store keeps. */
  function MandatoryIn(exts: ExtensionMap): set<Extension> { MandatoryAt(exts, {}, false) }

  /** What tells the mandatory uses in all stores apart. */
  function OwnTokens(kept: Kept): set<Token> {
    set m, x | m in kept && x in MandatoryIn(kept[m]) && x.Base? :: x.token
  }

  /** And the same for variants. */
  function TokensOf(variants: seq<seq<Extension>>): set<Token> {
    set j, v | 0 <= j < |variants| && v in variants[j] && v.Base? :: v.token
  }

  /** No module has made a variant. */
  predicate NoneMade(variants: seq<seq<Extension>>) { forall j | 0 <= j < |variants| :: variants[j] == [] }

  /** A mandatory use that an entry stands for. */
  predicate Keeps(exts: ExtensionMap, x: Extension) { x in UsesOf(EntryAt(exts, x.target, x.extender.simples)) }

  /** The mandatory uses a stored extension stands for are all for its own rule. */
  lemma LeavesAreForRule(e: Extension, t: Simple, c: Compound)
    requires ForRule(e, t, c)
    ensures forall x <- MandatoryLeaves(e) :: Single(x) && ForRule(x, t, c)
  {
    StoredHoldsAtMostTwo(e);
    if e.Base? {
      MandatoryLeavesOfBase(e);
    } else {
      assert MandatoryLeaves(e)[0] == e.left && MandatoryLeaves(e)[1] == e.right;
      LeavesAreMandatory(e);
    }
  }

  lemma LeavesAreMandatory(e: Extension)
    requires Formed(e) && e.Merged? && e.media.None?
    ensures Single(e.left) && Single(e.right)
  {}

  lemma {:induction false} EntryOfSource(sources: seq<Extension>, i: nat)
    requires OneEach(sources) && i < |sources|
    ensures EntryIn(sources, sources[i].extender.simples) == Some(sources[i])
  {
    if i > 0 {
      EntryOfSource(sources[1..], i - 1);
    }
  }

  lemma MandatoryIsKept(exts: ExtensionMap, known: set<Simple>, found: bool, x: Extension)
    requires Filed(exts)
    ensures x in MandatoryAt(exts, known, found) <==> (x.target in known) == found && Keeps(exts, x)
  {
    hide MandatoryLeaves;
    var t, c := x.target, x.extender.simples;
    if x in MandatoryAt(exts, known, found) {
      var u, i :| u in exts && (u in known) == found && 0 <= i < |exts[u]| && x in MandatoryLeaves(exts[u][i]);
      assert exts[u][i] in exts[u] && FiledUnder(exts[u], u);
      LeavesAreForRule(exts[u][i], u, exts[u][i].extender.simples);
      EntryOfSource(exts[u], i);
    }
    if (t in known) == found && Keeps(exts, x) {
      EntryInMember(SourcesFor(exts, t), c);
      var i :| 0 <= i < |SourcesFor(exts, t)| && SourcesFor(exts, t)[i] == EntryAt(exts, t, c).value;
      assert t in exts && x in MandatoryLeaves(exts[t][i]);
    }
  }
}
