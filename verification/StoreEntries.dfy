/** What a store keeps for one rule, and how it changes as extensions are filed. */
module StoreEntries {
  import opened Wrappers
  import opened Selectors
  import opened Extensions
  import opened MandatoryUses
  import opened ExtendEngine
  import opened StoreFacts

  function EntryIn(sources: seq<Extension>, c: Compound): Option<Extension> {
    if sources == [] then None
    else if sources[0].extender.simples == c then Some(sources[0])
    else EntryIn(sources[1..], c)
  }

  /** The extension filed for the rule `c {@extend t}`, if there is one. */
  function EntryAt(exts: ExtensionMap, t: Simple, c: Compound): Option<Extension> { EntryIn(SourcesFor(exts, t), c) }

  /** Of the given extensions those for one rule, in order. */
  function Of(xs: seq<Extension>, t: Simple, c: Compound): seq<Extension> {
    if xs == [] then []
    else
      Of(xs[..|xs| - 1], t, c)
      + if xs[|xs| - 1].target == t && xs[|xs| - 1].extender.simples == c then [xs[|xs| - 1]] else []
  }

  /** Every entry has been merged with the given extensions for its rule, in order. */
  ghost predicate Melded(before: ExtensionMap, after: ExtensionMap, xs: seq<Extension>) {
    forall t, c :: EntryAt(after, t, c) == MeldAll(EntryAt(before, t, c), Of(xs, t, c))
  }

  lemma {:induction false} OfConcat(xs: seq<Extension>, ys: seq<Extension>, t: Simple, c: Compound)
    ensures Of(xs + ys, t, c) == Of(xs, t, c) + Of(ys, t, c)
  {
    if ys == [] {
      assert xs + ys == xs;
    } else {
      var n := |ys| - 1;
      assert (xs + ys)[..|xs| + n] == xs + ys[..n];
      OfConcat(xs, ys[..n], t, c);
    }
  }

  lemma OfOne(x: Extension, t: Simple, c: Compound)
    ensures Of([x], t, c) == if x.target == t && x.extender.simples == c then [x] else []
  {
    assert [x][..0] == [];
  }

  lemma {:induction false} OfMembers(xs: seq<Extension>, t: Simple, c: Compound)
    ensures forall x <- Of(xs, t, c) :: x in xs && x.target == t && x.extender.simples == c
  {
    if xs != [] {
      var n := |xs| - 1;
      assert xs == xs[..n] + [xs[n]];
      OfMembers(xs[..n], t, c);
    }
  }

  lemma MeldedConcat(a: ExtensionMap, b: ExtensionMap, c: ExtensionMap, xs: seq<Extension>, ys: seq<Extension>)
    requires Melded(a, b, xs) && Melded(b, c, ys)
    ensures Melded(a, c, xs + ys)
  {
    hide MeldAll, Of, EntryAt;
    forall t, s ensures EntryAt(c, t, s) == MeldAll(EntryAt(a, t, s), Of(xs + ys, t, s)) {
      OfConcat(xs, ys, t, s);
      MeldAllConcat(EntryAt(a, t, s), Of(xs, t, s), Of(ys, t, s));
      assert EntryAt(b, t, s) == MeldAll(EntryAt(a, t, s), Of(xs, t, s));
    }
  }

  lemma NothingMelds(exts: ExtensionMap)
    ensures Melded(exts, exts, [])
  {}

  /** An entry without extensions changes nothing. */
  lemma EmptySourcesMeld(exts: ExtensionMap, t: Simple)
    requires t !in exts
    ensures Melded(exts, exts[t := []], [])
  {
    hide MeldAll;
    forall s, c ensures EntryAt(exts[t := []], s, c) == EntryAt(exts, s, c) {}
    forall s, c ensures MeldAll(EntryAt(exts, s, c), Of([], s, c)) == EntryAt(exts, s, c) {
      MeldNone(EntryAt(exts, s, c));
    }
  }

  lemma MeldNone(entry: Option<Extension>)
    ensures MeldAll(entry, []) == entry
  {}

  lemma MeldOne(entry: Option<Extension>, x: Extension)
    ensures MeldAll(entry, [x]) == Meld(entry, x)
  {
    assert [x][..0] == [];
  }

  lemma {:induction false} PutEntry(sources: seq<Extension>, ext: Extension, c: Compound)
    ensures EntryIn(PutExtension(sources, ext), c)
            == if c == ext.extender.simples then Some(ext) else EntryIn(sources, c)
  {
    if sources != [] && !sources[0].extender.Equals(ext.extender) {
      PutEntry(sources[1..], ext, c);
      assert PutExtension(sources, ext) == [sources[0]] + PutExtension(sources[1..], ext);
    } else if sources != [] {
      assert PutExtension(sources, ext)[1..] == sources[1..];
    } else {
      assert PutExtension(sources, ext) == [ext];
    }
  }

  lemma {:induction false} IndexFindsEntry(sources: seq<Extension>, complex: ComplexSelector)
    ensures EntryIn(sources, complex.simples)
            == var i := IndexOfExtender(sources, complex); if i < |sources| then Some(sources[i]) else None
  {
    if sources != [] && !sources[0].extender.Equals(complex) {
      IndexFindsEntry(sources[1..], complex);
    }
  }

  /** Filing one extension the way every method of a store does. */
  lemma FilingMelds(exts: ExtensionMap, t: Simple, ext: Extension, put: Extension)
    requires t in exts && ext.target == t && put.extender.simples == ext.extender.simples
    requires var i := IndexOfExtender(exts[t], ext.extender);
             if i < |exts[t]| then MergeExtensions(exts[t][i], ext) == Merge(put) else put == ext
    ensures Melded(exts, exts[t := PutExtension(exts[t], put)], [ext])
  {
    hide MeldAll, MergeExtensions, PutExtension;
    var after := exts[t := PutExtension(exts[t], put)];
    IndexFindsEntry(exts[t], ext.extender);
    forall s, c ensures EntryAt(after, s, c) == MeldAll(EntryAt(exts, s, c), Of([ext], s, c)) {
      OfOne(ext, s, c);
      MeldOne(EntryAt(exts, s, c), ext);
      MeldNone(EntryAt(exts, s, c));
      PutEntry(exts[t], put, c);
    }
  }

  // ---- Where the extensions of other stores are taken in ----

  /** What a store sends to others for one rule. */
  function PublicEntry(exts: ExtensionMap, t: Simple, c: Compound): seq<Extension> {
    if t.IsPrivate() || EntryAt(exts, t, c).None? then [] else [EntryAt(exts, t, c).value]
  }

  /** What the given stores send for one rule, in order. */
  function Arriving(maps: seq<ExtensionMap>, t: Simple, c: Compound): seq<Extension> {
    if maps == [] then [] else Arriving(maps[..|maps| - 1], t, c) + PublicEntry(maps[|maps| - 1], t, c)
  }

  /** Every entry has been merged with what other stores send for its rule, and then with variants made here. */
  ghost predicate TakesIn(before: ExtensionMap, after: ExtensionMap, maps: seq<ExtensionMap>, variants: seq<Extension>) {
    forall t, c ::
      EntryAt(after, t, c) == MeldAll(EntryAt(before, t, c), Arriving(maps, t, c) + Of(variants, t, c))
  }

  lemma TakesNothing(exts: ExtensionMap)
    ensures TakesIn(exts, exts, [], [])
  {}

  lemma TakesInVariants(a: ExtensionMap, b: ExtensionMap, c: ExtensionMap, maps: seq<ExtensionMap>,
                        variants: seq<Extension>)
    requires TakesIn(a, b, maps, []) && Melded(b, c, variants)
    ensures TakesIn(a, c, maps, variants)
  {
    hide MeldAll, Of, EntryAt, Arriving;
    forall t, s ensures EntryAt(c, t, s) == MeldAll(EntryAt(a, t, s), Arriving(maps, t, s) + Of(variants, t, s)) {
      OfNone(t, s);
      assert Arriving(maps, t, s) + [] == Arriving(maps, t, s);
      MeldAllConcat(EntryAt(a, t, s), Arriving(maps, t, s), Of(variants, t, s));
      assert EntryAt(b, t, s) == MeldAll(EntryAt(a, t, s), Arriving(maps, t, s));
    }
  }

  lemma OfNone(t: Simple, c: Compound)
    ensures Of([], t, c) == []
  {}

  /** The public targets among `done` of one other store have been taken in. */
  ghost predicate TakesInAt(before: ExtensionMap, after: ExtensionMap, exts: ExtensionMap, done: set<Simple>) {
    forall t, c ::
      EntryAt(after, t, c) == MeldAll(EntryAt(before, t, c), if t in done then PublicEntry(exts, t, c) else [])
  }

  /** The sources of one target, in order, hold at most one for each extender. */
  lemma {:induction false} OfSources(sources: seq<Extension>, t: Simple, c: Compound)
    requires FiledUnder(sources, t)
    ensures Of(sources, t, c) == if EntryIn(sources, c).None? then [] else [EntryIn(sources, c).value]
  {
    if sources != [] {
      var rest := sources[1..];
      forall x | x in rest ensures x.target == t && Stored(x) {
        assert x in sources;
      }
      OfSources(rest, t, c);
      assert sources == [sources[0]] + rest && sources[0] in sources;
      OfConcat([sources[0]], rest, t, c);
      OfOne(sources[0], t, c);
      if sources[0].extender.simples == c {
        NoEntry(rest, c);
      }
    }
  }

  lemma {:induction false} NoEntry(sources: seq<Extension>, c: Compound)
    requires forall x <- sources :: x.extender.simples != c
    ensures EntryIn(sources, c) == None
  {
    if sources != [] {
      assert sources[0] in sources && forall x <- sources[1..] :: x in sources;
      NoEntry(sources[1..], c);
    }
  }

  lemma {:induction false} OfOtherTarget(xs: seq<Extension>, target: Simple, t: Simple, c: Compound)
    requires t != target && forall x <- xs :: x.target == target
    ensures Of(xs, t, c) == []
  {
    if xs != [] {
      var n := |xs| - 1;
      assert xs == xs[..n] + [xs[n]];
      OfOtherTarget(xs[..n], target, t, c);
    }
  }

  /** One more target of another store. */
  lemma TakesInTarget(before: ExtensionMap, now: ExtensionMap, after: ExtensionMap, exts: ExtensionMap,
                      done: set<Simple>, target: Simple)
    requires TakesInAt(before, now, exts, done) && target !in done && target in exts && FiledUnder(exts[target], target)
    requires if target.IsPrivate() then after == now else Melded(now, after, exts[target])
    ensures TakesInAt(before, after, exts, done + {target})
  {
    hide MeldAll, Of, FiledUnder, EntryIn;
    forall t, c
      ensures EntryAt(after, t, c)
              == MeldAll(EntryAt(before, t, c), if t in done + {target} then PublicEntry(exts, t, c) else [])
    {
      MeldNone(EntryAt(before, t, c));
      MeldNone(EntryAt(now, t, c));
      if t == target {
        OfSources(exts[target], t, c);
      } else {
        FiledTargets(exts[target], target);
        OfOtherTarget(exts[target], target, t, c);
      }
    }
  }

  lemma FiledTargets(sources: seq<Extension>, target: Simple)
    requires FiledUnder(sources, target)
    ensures forall x <- sources :: x.target == target
  {}

  lemma TakesInNoTarget(before: ExtensionMap, exts: ExtensionMap)
    ensures TakesInAt(before, before, exts, {})
  {}

  /** One more store. */
  lemma TakesInStore(a: ExtensionMap, b: ExtensionMap, c: ExtensionMap, maps: seq<ExtensionMap>, i: nat)
    requires i < |maps| && TakesIn(a, b, maps[..i], []) && TakesInAt(b, c, maps[i], maps[i].Keys)
    ensures TakesIn(a, c, maps[..i + 1], [])
  {
    hide MeldAll, Of, EntryIn;
    forall t, s
      ensures EntryAt(c, t, s) == MeldAll(EntryAt(a, t, s), Arriving(maps[..i + 1], t, s) + Of([], t, s))
    {
      OfNone(t, s);
      assert maps[..i + 1][..i] == maps[..i];
      var first, last := Arriving(maps[..i], t, s), PublicEntry(maps[i], t, s);
      assert first + [] == first && first + last + [] == first + last;
      MeldAllConcat(EntryAt(a, t, s), first, last);
      if t !in maps[i] {
        NoEntry([], s);
        assert last == [];
      }
    }
  }

  /** A copy of a list of sources, put one by one, is the list. */
  lemma {:induction false} PutAllEntry(sources: seq<Extension>, t: Simple, c: Compound)
    requires FiledUnder(sources, t)
    ensures EntryIn(PutAll([], sources), c) == EntryIn(sources, c)
  {
    if sources != [] {
      hide PutExtension;
      var n := |sources| - 1;
      var before, last := sources[..n], sources[n];
      assert sources == before + [last] && last in sources;
      forall x | x in before ensures x.target == t && Stored(x) {
        assert x in sources;
      }
      PutAllEntry(before, t, c);
      PutEntry(PutAll([], before), last, c);
      EntryInAppended(before, last, c);
    }
  }

  lemma {:induction false} EntryInAppended(sources: seq<Extension>, last: Extension, c: Compound)
    requires OneEach(sources + [last])
    ensures EntryIn(sources + [last], c) == if c == last.extender.simples then Some(last) else EntryIn(sources, c)
  {
    if sources == [] {
      assert [] + [last] == [last] && [last][1..] == [];
    } else {
      assert (sources + [last])[1..] == sources[1..] + [last] && (sources + [last])[|sources|] == last;
      assert (sources + [last])[0] == sources[0];
      EntryInAppended(sources[1..], last, c);
    }
  }

  /** Copying the sources of a target that had no entry. */
  lemma CopyMelds(exts: ExtensionMap, t: Simple, sources: seq<Extension>)
    requires t !in exts && FiledUnder(sources, t)
    ensures Melded(exts, exts[t := PutAll([], sources)], sources)
  {
    hide MeldAll, Of, PutAll, FiledUnder;
    var after := exts[t := PutAll([], sources)];
    forall s, c ensures EntryAt(after, s, c) == MeldAll(EntryAt(exts, s, c), Of(sources, s, c)) {
      MeldNone(EntryAt(exts, s, c));
      if s == t {
        PutAllEntry(sources, t, c);
        OfSources(sources, t, c);
        if EntryIn(sources, c).Some? {
          MeldOne(None, EntryIn(sources, c).value);
        }
      } else {
        FiledTargets(sources, t);
        OfOtherTarget(sources, t, s, c);
      }
    }
  }
}
