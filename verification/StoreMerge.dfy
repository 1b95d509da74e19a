/** Folding the extensions of other modules' stores into one store. */
module StoreMerge {
  import opened Collections
  import opened Wrappers
  import opened Selectors
  import opened Extensions
  import opened ExtendEngine
  import opened ExtendStrict
  import opened ExtendRuns
  import opened Trim
  import opened Expansion
  import opened StoreFacts
  import opened StoreEntries
  import opened ExtensionStores

  /** The rules that may leave the module they were registered in. */
  function PublicRules(exts: ExtensionMap): set<Rule> {
    set r | r in RulesOf(exts) && !r.target.IsPrivate()
  }

  function SourceRules(sources: seq<Extension>, target: Simple): set<Rule> {
    set x | x in sources :: Rule(x.extender.simples, target)
  }

  lemma {:induction false} PutAllKeepsFiled(sources: seq<Extension>, exts: seq<Extension>, target: Simple)
    requires FiledUnder(sources, target) && FiledUnder(exts, target)
    ensures FiledUnder(PutAll(sources, exts), target)
  {
    if exts != [] {
      var n := |exts| - 1;
      hide PutExtension;
      assert forall x <- exts[..n] :: x in exts;
      PutAllKeepsFiled(sources, exts[..n], target);
      assert exts[n] in exts;
      PutKeepsFiled(PutAll(sources, exts[..n]), exts[n], target);
    }
  }

  /** Filing a copy of `exts` under a target that had no entry. */
  lemma CopiedSources(exts: ExtensionMap, byExtender: ExtensionMap, target: Simple, sources: seq<Extension>)
    requires RulesShape(exts, byExtender) && target !in exts && FiledUnder(sources, target)
    ensures var after := exts[target := PutAll([], sources)];
            RulesShape(after, byExtender) && RulesOf(after) == RulesOf(exts) + SourceRules(sources, target)
  {
    var after := exts[target := PutAll([], sources)];
    CopiedRules(exts, target, sources);
    PutAllKeepsFiled([], sources, target);
    forall s, x | s in byExtender && x in byExtender[s] ensures Entry(x, after) {
      assert Entry(x, exts);
    }
    forall s | s in byExtender ensures Occurs(s, RulesOf(after)) {
      assert Occurs(s, RulesOf(exts));
    }
  }

  lemma CopiedRules(exts: ExtensionMap, target: Simple, sources: seq<Extension>)
    requires target !in exts
    ensures RulesOf(exts[target := PutAll([], sources)]) == RulesOf(exts) + SourceRules(sources, target)
  {
    var after := exts[target := PutAll([], sources)];
    forall r ensures r in RulesOf(after) <==> r in RulesOf(exts) + SourceRules(sources, target) {
      RulesOfMember(after, r);
      RulesOfMember(exts, r);
      PutAllMembers([], sources, r.extender);
      assert HasExtender(sources, r.extender) <==> Rule(r.extender, target) in SourceRules(sources, target);
    }
  }

  lemma OneMoreSource(sources: seq<Extension>, target: Simple, i: nat)
    requires i < |sources| && FiledUnder(sources, target)
    ensures SourceRules(sources[..i + 1], target) == SourceRules(sources[..i], target) + {RuleFor(sources[i])}
    ensures sources[i].target == target && Stored(sources[i])
  {
    assert sources[..i + 1] == sources[..i] + [sources[i]];
  }

  /** Files one incoming extension, merged with an equal one if there is one. */
  method AddSource(store: ExtensionStore, target: Simple, extension: Extension, wanted: bool,
                   newExtensions: ExtensionMap) returns (more: ExtensionMap)
    requires RulesShape(store.extensions, store.extensionsByExtender)
    requires extension.target == target && Stored(extension) && target in store.extensions
    modifies store`extensions
    ensures RulesShape(store.extensions, store.extensionsByExtender)
    ensures store.extensions.Keys == old(store.extensions.Keys)
    ensures Melded(old(store.extensions), store.extensions, [extension])
    ensures RulesOf(store.extensions) == old(RulesOf(store.extensions)) + {RuleFor(extension)}
    ensures wanted ==> RulesOf(more) == RulesOf(newExtensions) + {RuleFor(extension)}
    ensures !wanted ==> more == newExtensions
    ensures more.Keys <= newExtensions.Keys + {target}
  {
    hide RulesShape, RulesOf, Melded;
    more := newExtensions;
    var sources := store.extensions[target];
    var k := IndexOfExtender(sources, extension.extender);
    var merged := extension;
    if k < |sources| {
      SourceIsEntry(store.extensions, store.extensionsByExtender, target, sources[k]);
      MergeInStore(sources[k], extension);
      merged := MergeExtensions(sources[k], extension).extension;
    }
    PutKeepsShape(store.extensions, store.extensionsByExtender, merged);
    FilingMelds(store.extensions, target, extension, merged);
    store.extensions := store.extensions[target := PutExtension(sources, merged)];
    if wanted {
      PutRules(more, target, merged);
      more := more[target := PutExtension(SourcesFor(more, target), merged)];
    }
  }

  /** Files every incoming extension of one target; `more` gets them too if something here may need them. */
  method AddSources(store: ExtensionStore, target: Simple, newSources: seq<Extension>, wanted: bool,
                    newExtensions: ExtensionMap) returns (more: ExtensionMap)
    requires RulesShape(store.extensions, store.extensionsByExtender) && FiledUnder(newSources, target)
    requires newExtensions.Keys <= store.extensions.Keys
    modifies store`extensions
    ensures RulesShape(store.extensions, store.extensionsByExtender)
    ensures store.extensions.Keys == old(store.extensions.Keys) + {target}
    ensures Melded(old(store.extensions), store.extensions, newSources)
    ensures RulesOf(store.extensions) == old(RulesOf(store.extensions)) + SourceRules(newSources, target)
    ensures wanted ==> RulesOf(more) == RulesOf(newExtensions) + SourceRules(newSources, target)
    ensures !wanted ==> more == newExtensions
    ensures more.Keys <= newExtensions.Keys + {target}
  {
    hide RulesShape, RulesOf, FiledUnder, SourceRules, Melded;
    more := newExtensions;
    if target in store.extensions {
      NoSources(target);
      NothingMelds(store.extensions);
      assert newSources[..0] == [];
      for i := 0 to |newSources|
        invariant RulesShape(store.extensions, store.extensionsByExtender)
        invariant store.extensions.Keys == old(store.extensions.Keys)
        invariant Melded(old(store.extensions), store.extensions, newSources[..i])
        invariant RulesOf(store.extensions) == old(RulesOf(store.extensions)) + SourceRules(newSources[..i], target)
        invariant wanted ==> RulesOf(more) == RulesOf(newExtensions) + SourceRules(newSources[..i], target)
        invariant !wanted ==> more == newExtensions
        invariant more.Keys <= newExtensions.Keys + {target}
      {
        OneMoreSource(newSources, target, i);
        ghost var exts := store.extensions;
        more := AddSource(store, target, newSources[i], wanted, more);
        MeldedConcat(old(store.extensions), exts, store.extensions, newSources[..i], [newSources[i]]);
        assert newSources[..i + 1] == newSources[..i] + [newSources[i]];
      }
      assert newSources[..|newSources|] == newSources;
    } else {
      CopiedSources(store.extensions, store.extensionsByExtender, target, newSources);
      CopyMelds(store.extensions, target, newSources);
      store.extensions := store.extensions[target := PutAll([], newSources)];
      if wanted {
        CopiedRules(more, target, newSources);
        more := more[target := PutAll([], newSources)];
      }
    }
  }

  lemma NoSources(target: Simple)
    ensures SourceRules([], target) == {}
  {}

  // ---- What may need the incoming extensions ----

  predicate Wanted(index: map<Simple, seq<ModifiableBox>>, byExtender: ExtensionMap, t: Simple) {
    t in index || SourcesFor(byExtender, t) != []
  }

  /** `boxes` and `toExtend` are what mentions an imported target, and `newExts` the imported rules they need. */
  predicate Gathered(index: map<Simple, seq<ModifiableBox>>, byExtender: ExtensionMap, imported: set<Rule>,
                     newExts: ExtensionMap, boxes: seq<ModifiableBox>, toExtend: seq<Extension>)
  {
    && RulesOf(newExts) <= imported
    && (forall r <- imported :: Wanted(index, byExtender, r.target) ==> r in RulesOf(newExts))
    && (forall r <- imported :: Members(BoxesFor(index, r.target)) <= Members(boxes))
    && (forall r <- imported :: Members(SourcesFor(byExtender, r.target)) <= Members(toExtend))
    && (forall x <- toExtend :: FromTarget(byExtender, imported, x))
  }

  /**
   What was gathered: every imported rule whose target is mentioned by a selector or an
   extender, every box listed under one, and exactly the extensions whose extenders
   mention one.
   */
  lemma GatheredMeans(index: map<Simple, seq<ModifiableBox>>, byExtender: ExtensionMap, imported: set<Rule>,
                      newExts: ExtensionMap, boxes: seq<ModifiableBox>, toExtend: seq<Extension>)
    requires Gathered(index, byExtender, imported, newExts, boxes, toExtend)
    ensures forall r <- imported ::
              r.target in index || (r.target in byExtender && byExtender[r.target] != []) ==> r in RulesOf(newExts)
    ensures forall r <- imported :: r.target in index ==> forall b <- index[r.target] :: b in boxes
    ensures forall x :: x in toExtend <==> exists r <- imported :: r.target in byExtender && x in byExtender[r.target]
  {
    hide RulesOf;
    forall r | r in imported && r.target in index ensures forall b <- index[r.target] :: b in boxes {
      assert Members(BoxesFor(index, r.target)) <= Members(boxes);
      forall b | b in index[r.target] ensures b in boxes {
        assert b in Members(BoxesFor(index, r.target));
      }
    }
    forall r, x | r in imported && r.target in byExtender && x in byExtender[r.target] ensures x in toExtend {
      assert x in Members(SourcesFor(byExtender, r.target)) && Members(SourcesFor(byExtender, r.target)) <= Members(toExtend);
    }
    assert forall x <- toExtend :: FromTarget(byExtender, imported, x);
  }

  predicate FromTarget(byExtender: ExtensionMap, imported: set<Rule>, x: Extension) {
    exists r <- imported :: x in SourcesFor(byExtender, r.target)
  }

  function AddBoxes(boxes: seq<ModifiableBox>, more: seq<ModifiableBox>): seq<ModifiableBox> {
    if more == [] then boxes else AddBox(AddBoxes(boxes, more[..|more| - 1]), more[|more| - 1])
  }

  lemma {:induction false} AddBoxesMembers(boxes: seq<ModifiableBox>, more: seq<ModifiableBox>, known: set<ModifiableBox>)
    requires DistinctIDs(known) && Members(boxes) <= known && Members(more) <= known && NoRepeats(boxes)
    ensures Members(AddBoxes(boxes, more)) == Members(boxes) + Members(more) && NoRepeats(AddBoxes(boxes, more))
  {
    if more != [] {
      var n := |more| - 1;
      assert more == more[..n] + [more[n]] && more[n] in Members(more);
      assert Members(more) == Members(more[..n]) + {more[n]};
      AddBoxesMembers(boxes, more[..n], known);
      AddBoxMembers(AddBoxes(boxes, more[..n]), more[n], known);
    }
  }

  lemma AddBoxMembers(boxes: seq<ModifiableBox>, box: ModifiableBox, known: set<ModifiableBox>)
    requires DistinctIDs(known) && Members(boxes) <= known && box in known && NoRepeats(boxes)
    ensures Members(AddBox(boxes, box)) == Members(boxes) + {box} && NoRepeats(AddBox(boxes, box))
  {
    if HasID(boxes, box.id) {
      var i :| 0 <= i < |boxes| && boxes[i].id == box.id;
      assert boxes[i] in Members(boxes);
    } else {
      assert box !in boxes;
    }
  }

  /** Taking in one more target with all its sources. */
  lemma GatheredMore(index: map<Simple, seq<ModifiableBox>>, byExtender: ExtensionMap, imported: set<Rule>,
                     newExts: ExtensionMap, boxes: seq<ModifiableBox>, toExtend: seq<Extension>,
                     target: Simple, rules: set<Rule>, more: ExtensionMap,
                     allBoxes: seq<ModifiableBox>, allToExtend: seq<Extension>)
    requires Gathered(index, byExtender, imported, newExts, boxes, toExtend)
    requires IsTarget(target, rules) && forall r <- rules :: r.target == target
    requires RulesOf(more) == RulesOf(newExts) + if Wanted(index, byExtender, target) then rules else {}
    requires Members(allBoxes) == Members(boxes) + Members(BoxesFor(index, target))
    requires allToExtend == toExtend + SourcesFor(byExtender, target)
    ensures Gathered(index, byExtender, imported + rules, more, allBoxes, allToExtend)
  {
    hide RulesOf, BoxesFor, SourcesFor;
    forall x | x in allToExtend ensures FromTarget(byExtender, imported + rules, x) {
      if x in toExtend {
        assert FromTarget(byExtender, imported, x);
      }
    }
    assert Members(toExtend) <= Members(allToExtend) && Members(SourcesFor(byExtender, target)) <= Members(allToExtend);
  }

  /** Registers the sources of one target of another module, and gathers what mentions it. */
  method AddTarget(store: ExtensionStore, target: Simple, newSources: seq<Extension>, newExtensions: ExtensionMap,
                   boxes: seq<ModifiableBox>, toExtend: seq<Extension>, ghost imported: set<Rule>)
    returns (more: ExtensionMap, allBoxes: seq<ModifiableBox>, allToExtend: seq<Extension>)
    requires store.IndexShape() && RulesShape(store.extensions, store.extensionsByExtender)
    requires Populated(store.extensions)
    requires FiledUnder(newSources, target) && newSources != []
    requires newExtensions.Keys <= store.extensions.Keys
    requires Gathered(store.selectors, store.extensionsByExtender, imported, newExtensions, boxes, toExtend)
    requires Members(boxes) <= store.originalOf.Keys && NoRepeats(boxes)
    modifies store`extensions
    ensures RulesShape(store.extensions, store.extensionsByExtender)
    ensures Populated(store.extensions) && more.Keys <= store.extensions.Keys
    ensures Melded(old(store.extensions), store.extensions, newSources)
    ensures RulesOf(store.extensions) == old(RulesOf(store.extensions)) + SourceRules(newSources, target)
    ensures Gathered(store.selectors, store.extensionsByExtender, imported + SourceRules(newSources, target),
                     more, allBoxes, allToExtend)
    ensures Members(allBoxes) <= store.originalOf.Keys && NoRepeats(allBoxes)
  {
    hide RulesShape, Populated, IsTarget, RulesOf, FiledUnder, SourceRules, Gathered, AddBoxes;
    hide IndexOver, DistinctIDs, Members, Melded;
    var extensionsForTarget := SourcesFor(store.extensionsByExtender, target);
    allToExtend := toExtend + extensionsForTarget;
    var selectorsOk := target in store.selectors;
    allBoxes := boxes;
    ListedBoxes(store.selectors, store.originalOf.Keys, target);
    AddBoxesMembers(boxes, BoxesFor(store.selectors, target), store.originalOf.Keys);
    if selectorsOk {
      allBoxes := AddBoxes(boxes, store.selectors[target]);
    } else {
      NothingAdded(boxes);
    }
    more := AddSources(store, target, newSources, extensionsForTarget != [] || selectorsOk, newExtensions);
    SourcesMakeTarget(newSources, target);
    TargetOfMore(target, SourceRules(newSources, target), RulesOf(store.extensions));
    PopulatedMore(old(store.extensions), store.extensions, target);
    GatheredMore(store.selectors, store.extensionsByExtender, imported, newExtensions, boxes, toExtend,
                 target, SourceRules(newSources, target), more, allBoxes, allToExtend);
  }

  lemma NothingAdded(boxes: seq<ModifiableBox>)
    ensures AddBoxes(boxes, []) == boxes && Members<ModifiableBox>([]) == {}
  {}

  lemma ListedBoxes(index: map<Simple, seq<ModifiableBox>>, known: set<ModifiableBox>, t: Simple)
    requires IndexOver(index, known)
    ensures Members(BoxesFor(index, t)) <= known
  {}

  lemma SourcesMakeTarget(sources: seq<Extension>, target: Simple)
    requires sources != []
    ensures IsTarget(target, SourceRules(sources, target))
    ensures forall r <- SourceRules(sources, target) :: r.target == target
  {
    assert sources[0] in sources && Rule(sources[0].extender.simples, target) in SourceRules(sources, target);
  }

  /** The public rules of `exts` whose target is among `done`. */
  function PublicRulesAt(exts: ExtensionMap, done: set<Simple>): set<Rule> {
    set r | r in PublicRules(exts) && r.target in done
  }

  lemma OneMoreTarget(exts: ExtensionMap, done: set<Simple>, t: Simple)
    requires t in exts
    ensures PublicRulesAt(exts, done + {t})
            == PublicRulesAt(exts, done) + if t.IsPrivate() then {} else SourceRules(exts[t], t)
  {
    forall r
      ensures r in PublicRulesAt(exts, done + {t})
        <==> r in PublicRulesAt(exts, done) + if t.IsPrivate() then {} else SourceRules(exts[t], t)
    {
      RulesOfMember(exts, r);
      assert HasExtender(exts[t], r.extender) <==> Rule(r.extender, t) in SourceRules(exts[t], t);
    }
  }

  lemma EntryFacts(exts: ExtensionMap, byExtender: ExtensionMap, t: Simple)
    requires RulesShape(exts, byExtender) && Populated(exts) && t in exts
    ensures FiledUnder(exts[t], t) && exts[t] != []
  {
    assert IsTarget(t, RulesOf(exts));
  }

  /** Registers every public extension of one other store, and gathers what mentions its targets. */
  method AddTargets(store: ExtensionStore, exts: ExtensionMap, ghost byExtender: ExtensionMap,
                    newExtensions: ExtensionMap, boxes: seq<ModifiableBox>, toExtend: seq<Extension>,
                    ghost imported: set<Rule>)
    returns (more: ExtensionMap, allBoxes: seq<ModifiableBox>, allToExtend: seq<Extension>)
    requires RulesShape(exts, byExtender) && Populated(exts)
    requires store.IndexShape() && RulesShape(store.extensions, store.extensionsByExtender)
    requires Populated(store.extensions)
    requires newExtensions.Keys <= store.extensions.Keys
    requires Gathered(store.selectors, store.extensionsByExtender, imported, newExtensions, boxes, toExtend)
    requires Members(boxes) <= store.originalOf.Keys && NoRepeats(boxes)
    modifies store`extensions
    ensures RulesShape(store.extensions, store.extensionsByExtender)
    ensures Populated(store.extensions) && more.Keys <= store.extensions.Keys
    ensures TakesInAt(old(store.extensions), store.extensions, exts, exts.Keys)
    ensures RulesOf(store.extensions) == old(RulesOf(store.extensions)) + PublicRules(exts)
    ensures Gathered(store.selectors, store.extensionsByExtender, imported + PublicRules(exts),
                     more, allBoxes, allToExtend)
    ensures Members(allBoxes) <= store.originalOf.Keys && NoRepeats(allBoxes)
  {
    hide RulesShape, Populated, RulesOf, FiledUnder, SourceRules, Gathered, Members, PublicRulesAt, PublicRules;
    hide NoRepeats, ExtensionStore.IndexShape, Melded, TakesInAt;
    TakesInNoTarget(store.extensions, exts);
    more, allBoxes, allToExtend := newExtensions, boxes, toExtend;
    var pending := exts.Keys;
    ghost var before := RulesOf(store.extensions);
    ghost var done: set<Simple> := {};
    NoTargets(exts);
    AllTargets(exts);
    while pending != {}
      invariant done == exts.Keys - pending && pending <= exts.Keys
      invariant RulesShape(store.extensions, store.extensionsByExtender)
      invariant Populated(store.extensions) && more.Keys <= store.extensions.Keys
      invariant TakesInAt(old(store.extensions), store.extensions, exts, done)
      invariant RulesOf(store.extensions) == before + PublicRulesAt(exts, done)
      invariant Gathered(store.selectors, store.extensionsByExtender, imported + PublicRulesAt(exts, done),
                         more, allBoxes, allToExtend)
      invariant Members(allBoxes) <= store.originalOf.Keys && NoRepeats(allBoxes)
      decreases |pending|
    {
      var target :| target in pending;
      OneMoreTarget(exts, done, target);
      EntryFacts(exts, byExtender, target);
      UnionAssociates(imported, PublicRulesAt(exts, done), SourceRules(exts[target], target));
      UnionAssociates(before, PublicRulesAt(exts, done), SourceRules(exts[target], target));
      ghost var now := store.extensions;
      if !target.IsPrivate() {
        more, allBoxes, allToExtend := AddTarget(store, target, exts[target], more, allBoxes, allToExtend,
                                                 imported + PublicRulesAt(exts, done));
      }
      TakesInTarget(old(store.extensions), now, store.extensions, exts, done, target);
      pending := pending - {target};
      done := done + {target};
    }
    assert done == exts.Keys;
  }

  lemma UnionAssociates<T>(a: set<T>, b: set<T>, c: set<T>)
    ensures a + b + c == a + (b + c) && b + {} == b
  {}

  lemma NoTargets(exts: ExtensionMap)
    ensures PublicRulesAt(exts, {}) == {}
  {}

  lemma AllTargets(exts: ExtensionMap)
    ensures PublicRulesAt(exts, exts.Keys) == PublicRules(exts)
  {
    forall r | r in RulesOf(exts) ensures r.target in exts {}
  }

  // ---- Applying them ----

  lemma ExtendsIgnoring(before: seq<Compound>, after: seq<Compound>, rules: set<Rule>, more: set<Rule>)
    requires Extends(before, after, rules) && rules <= more
    requires forall r, i | r in more && 0 <= i < |before| :: r in rules || r.target !in before[i]
    ensures Extends(before, after, more)
  {
    forall e
      ensures AnyMatches(before, Augment(e, more)) <==> AnyMatches(before, Augment(e, rules))
      ensures AnyMatches(before, AugmentAlone(e, more)) <==> AnyMatches(before, AugmentAlone(e, rules))
    {
      SameWithMore(before, rules, more, e, false);
      SameWithMore(before, rules, more, e, true);
    }
    hide AnyMatches, Augment, AugmentAlone, AllHeadTyped;
    if AllHeadTyped(before) && Written(more) {
      forall e | Tame(e, more) ensures Tame(e, rules) {
        TameForFewer(e, more, rules);
      }
    }
  }

  lemma SameWithMore(before: seq<Compound>, rules: set<Rule>, more: set<Rule>, e: Element, alone: bool)
    requires rules <= more && forall r, i | r in more && 0 <= i < |before| :: r in rules || r.target !in before[i]
    ensures AnyMatches(before, Stands(e, more, alone)) <==> AnyMatches(before, Stands(e, rules, alone))
  {
    forall i | 0 <= i < |before|
      ensures Matches(before[i], Stands(e, more, alone)) <==> Matches(before[i], Stands(e, rules, alone))
    {}
  }

  /** A target no compound of an indexed value leads to occurs in none of them. */
  lemma NotIndexedNotIn(index: map<Simple, seq<ModifiableBox>>, value: SelectorList, box: ModifiableBox, t: Simple, i: nat)
    requires IndexedIn(index, value, box) && box !in BoxesFor(index, t) && i < |value.components|
    ensures t !in value.Simples()[i]
  {
    assert value.Simples()[i] in value.Simples();
    assert forall s <- value.Simples()[i] :: s in SimplesIn(value.Simples());
  }

  /** Rewriting what was gathered extends every box by all imported rules. */
  lemma GatheredBoxesExtend(index: map<Simple, seq<ModifiableBox>>, byExtender: ExtensionMap, imported: set<Rule>,
                            newExts: ExtensionMap, boxes: seq<ModifiableBox>, toExtend: seq<Extension>,
                            before: map<ModifiableBox, SelectorList>, after: map<ModifiableBox, SelectorList>)
    requires AllIndexed(index, before) && before.Keys == after.Keys
    requires Gathered(index, byExtender, imported, newExts, boxes, toExtend)
    requires forall b <- after :: if b in boxes
               then IsExpansion(after[b].components, ListCandidates(before[b].Simples(), newExts))
               else after[b] == before[b]
    ensures AllExtended(before, after, imported)
  {
    hide Extends, IndexedIn, IsExpansion, ListCandidates, RulesOf;
    forall b | b in after ensures Extends(before[b].Simples(), after[b].Simples(), imported) {
      if b in boxes {
        TrimmedExtends(before[b].Simples(), newExts, after[b]);
      } else {
        UntouchedExtends(before[b].Simples(), {});
      }
      var rules := if b in boxes then RulesOf(newExts) else {};
      forall r, i | r in imported && r !in rules && 0 <= i < |before[b].Simples()|
        ensures r.target !in before[b].Simples()[i]
      {
        assert Members(BoxesFor(index, r.target)) <= Members(boxes);
        assert b in BoxesFor(index, r.target) ==> b in Members(BoxesFor(index, r.target));
        if b in boxes {
          assert !Wanted(index, byExtender, r.target);
        } else {
          assert b !in Members(boxes);
        }
        NotIndexedNotIn(index, before[b], b, r.target, i);
      }
      ExtendsIgnoring(before[b].Simples(), after[b].Simples(), rules, imported);
    }
  }

  /** What importing does to the registered rules. */
  lemma ImportedRules(declared: set<Rule>, registered: set<Rule>, imported: set<Rule>)
    requires declared <= registered && Follows(declared, registered)
    requires ChainFree(declared) ==> registered == declared
    ensures declared + imported <= registered + imported && Follows(declared + imported, registered + imported)
    ensures ChainFree(declared + imported) ==> registered == declared
  {
    FollowsMore(declared, declared + imported, registered);
    assert registered + (declared + imported) == registered + imported;
    ChainFreeSubset(declared, declared + imported);
  }

  /** An extender that mentions an imported target makes a chain. */
  lemma GatheredIsChained(exts: ExtensionMap, byExtender: ExtensionMap, declared: set<Rule>, imported: set<Rule>,
                          toExtend: seq<Extension>)
    requires RulesShape(exts, byExtender) && toExtend != []
    requires forall x <- toExtend :: FromTarget(byExtender, imported, x)
    requires ChainFree(declared) ==> RulesOf(exts) == declared
    ensures !ChainFree(declared + imported)
  {
    assert FromTarget(byExtender, imported, toExtend[0]);
    var r :| r in imported && toExtend[0] in SourcesFor(byExtender, r.target);
    ChainFreeSubset(declared, declared + imported);
    if ChainFree(declared) {
      assert r in declared + imported;
      ChainFreeMeansNoExtender(r.target, RulesOf(exts), declared, declared + imported);
    }
  }

  function Maps(stores: seq<ExtensionStore>): seq<ExtensionMap>
    reads stores
  {
    seq(|stores|, i requires 0 <= i < |stores| reads stores => stores[i].extensions)
  }

  /** Every public rule of the given stores. */
  function Imported(maps: seq<ExtensionMap>): set<Rule> {
    if maps == [] then {} else Imported(maps[..|maps| - 1]) + PublicRules(maps[|maps| - 1])
  }

  /** A store whose extensions can be read: filed under their targets. */
  predicate Readable(store: ExtensionStore)
    reads store
  {
    RulesShape(store.extensions, store.extensionsByExtender) && Populated(store.extensions)
  }

  /** What each store records extenders to be worth. */
  function Worths(stores: seq<ExtensionStore>): seq<map<Simple, nat>>
    reads stores
  {
    seq(|stores|, i requires 0 <= i < |stores| reads stores => stores[i].sourceSpecificity)
  }

  /** What `s` is worth: the last store that has extensions and knows it decides, or else what was known before. */
  function WorthAfter(before: map<Simple, nat>, maps: seq<ExtensionMap>, worths: seq<map<Simple, nat>>, s: Simple)
    : Option<nat>
    requires |maps| == |worths|
  {
    if maps == [] then if s in before then Some(before[s]) else None
    else
      var last := |maps| - 1;
      if maps[last].Keys != {} && s in worths[last] then Some(worths[last][s])
      else WorthAfter(before, maps[..last], worths[..last], s)
  }

  ghost predicate WorthsTaken(before: map<Simple, nat>, after: map<Simple, nat>, maps: seq<ExtensionMap>,
                              worths: seq<map<Simple, nat>>)
    requires |maps| == |worths|
  {
    forall s: Simple :: WorthAfter(before, maps, worths, s) == if s in after then Some(after[s]) else None
  }

  lemma NoWorths(before: map<Simple, nat>)
    ensures WorthsTaken(before, before, [], [])
  {}

  lemma OneMoreWorth(before: map<Simple, nat>, now: map<Simple, nat>, maps: seq<ExtensionMap>,
                     worths: seq<map<Simple, nat>>, i: nat)
    requires i < |maps| == |worths| && WorthsTaken(before, now, maps[..i], worths[..i])
    ensures WorthsTaken(before, if maps[i].Keys != {} then now + worths[i] else now, maps[..i + 1], worths[..i + 1])
  {
    assert maps[..i + 1][..i] == maps[..i] && worths[..i + 1][..i] == worths[..i];
  }

  /** Takes in the extensions of every store, and gathers what mentions their targets. */
  method GatherStores(store: ExtensionStore, stores: seq<ExtensionStore>)
    returns (newExtensions: ExtensionMap, boxes: seq<ModifiableBox>, toExtend: seq<Extension>)
    requires store !in stores && (forall i | 0 <= i < |stores| :: Readable(stores[i]))
    requires store.IndexShape() && Readable(store)
    modifies store`extensions, store`sourceSpecificity
    ensures Readable(store)
    ensures RulesOf(store.extensions) == old(RulesOf(store.extensions)) + Imported(Maps(stores))
    ensures TakesIn(old(store.extensions), store.extensions, Maps(stores), [])
    ensures Gathered(store.selectors, store.extensionsByExtender, Imported(Maps(stores)), newExtensions, boxes, toExtend)
    ensures Members(boxes) <= store.originalOf.Keys && NoRepeats(boxes)
    ensures WorthsTaken(old(store.sourceSpecificity), store.sourceSpecificity, Maps(stores), Worths(stores))
  {
    hide RulesShape, Populated, RulesOf, Gathered, Members, PublicRules, WorthsTaken;
    hide ExtensionStore.IndexShape, TakesIn, TakesInAt;
    newExtensions, boxes, toExtend := map[], [], [];
    TakesNothing(store.extensions);
    ghost var maps, before := Maps(stores), RulesOf(store.extensions);
    NothingGathered(store.selectors, store.extensionsByExtender);
    NoWorths(store.sourceSpecificity);
    ghost var worths := Worths(stores);
    assert maps[..0] == [] && worths[..0] == [];
    for i := 0 to |stores|
      invariant Readable(store)
      invariant RulesOf(store.extensions) == before + Imported(maps[..i])
      invariant TakesIn(old(store.extensions), store.extensions, maps[..i], [])
      invariant Gathered(store.selectors, store.extensionsByExtender, Imported(maps[..i]), newExtensions, boxes, toExtend)
      invariant Members(boxes) <= store.originalOf.Keys && NoRepeats(boxes)
      invariant newExtensions.Keys <= store.extensions.Keys
      invariant WorthsTaken(old(store.sourceSpecificity), store.sourceSpecificity, maps[..i], worths[..i])
    {
      var other := stores[i];
      OneMoreWorth(old(store.sourceSpecificity), store.sourceSpecificity, maps, worths, i);
      assert other in stores && Readable(other) && maps[i] == other.extensions;
      ImportedMore(maps, i);
      UnionAssociates(before, Imported(maps[..i]), PublicRules(maps[i]));
      ghost var now := store.extensions;
      if other.extensions.Keys != {} {
        store.sourceSpecificity := store.sourceSpecificity + other.sourceSpecificity;
        newExtensions, boxes, toExtend := AddTargets(store, other.extensions, other.extensionsByExtender,
                                                     newExtensions, boxes, toExtend, Imported(maps[..i]));
      } else {
        NoKeysNoRules(other.extensions);
        TakesInNoTarget(now, other.extensions);
      }
      TakesInStore(old(store.extensions), now, store.extensions, maps, i);
    }
    assert maps[..|stores|] == maps && worths[..|stores|] == worths;
  }

  lemma NothingGathered(index: map<Simple, seq<ModifiableBox>>, byExtender: ExtensionMap)
    ensures Gathered(index, byExtender, {}, map[], [], []) && Members<ModifiableBox>([]) == {}
  {}

  lemma ImportedMore(maps: seq<ExtensionMap>, i: nat)
    requires i < |maps|
    ensures Imported(maps[..i + 1]) == Imported(maps[..i]) + PublicRules(maps[i])
  {
    assert maps[..i + 1][..i] == maps[..i];
  }

  lemma NoKeysNoRules(exts: ExtensionMap)
    requires exts.Keys == {}
    ensures PublicRules(exts) == {}
  {}

  /** The given boxes are trimmed from their candidates, the others left alone. */
  predicate RewritesOnly(boxes: seq<ModifiableBox>, before: map<ModifiableBox, SelectorList>,
                         after: map<ModifiableBox, SelectorList>, specificity: map<Simple, nat>, exts: ExtensionMap)
  {
    before.Keys == after.Keys &&
    forall b <- after ::
      if b in boxes && exts.Keys != {} then
        && IsExpansion(after[b].components, ListCandidates(before[b].Simples(), exts))
        && TrimmedValue(specificity, before[b], after[b], exts)
      else after[b] == before[b]
  }

  /** Applies what was gathered: extenders first, then boxes. */
  method ApplyGathered(store: ExtensionStore, newExtensions: ExtensionMap, boxes: seq<ModifiableBox>,
                       toExtend: seq<Extension>, ghost imported: set<Rule>)
    returns (ghost variants: seq<Extension>)
    requires store.IndexValid() && Readable(store)
    requires Gathered(store.selectors, store.extensionsByExtender, imported, newExtensions, boxes, toExtend)
    requires Members(boxes) <= store.originalOf.Keys && NoRepeats(boxes)
    requires imported <= RulesOf(store.extensions)
    modifies store`originals, store`extensions, store`extensionsByExtender, store`selectors, store.originalOf.Keys
    ensures store.IndexValid() && Readable(store)
    ensures old(RulesOf(store.extensions)) <= RulesOf(store.extensions)
    ensures Follows(old(RulesOf(store.extensions)), RulesOf(store.extensions))
    ensures toExtend == [] ==> store.extensions == old(store.extensions)
    ensures Melded(old(store.extensions), store.extensions, variants)
    ensures AreVariants(variants, toExtend, newExtensions) && forall v <- variants :: v.Base? && fresh(v.token)
    ensures AllPropagated(toExtend, newExtensions, RulesOf(store.extensions))
    ensures AllExtended(old(store.Values()), store.Values(), imported)
    ensures RewritesOnly(boxes, old(store.Values()), store.Values(), store.sourceSpecificity, newExtensions)
  {
    hide RulesShape, RulesOf, Gathered, Follows, AllIndexed, AllExtended, IndexOver, DistinctIDs, Propagated, Touches;
    hide IsExpansion, ListCandidates, Populated, Melded, AreVariants, TrimmedValue;
    variants := [];
    NothingMelds(store.extensions);
    NoVariants(toExtend, newExtensions);
    ghost var index, byExtender, values := store.selectors, store.extensionsByExtender, store.Values();
    GatheredEntries(store.extensions, byExtender, index, imported, newExtensions, boxes, toExtend);
    NothingFollows(RulesOf(store.extensions), {});
    if newExtensions.Keys != {} {
      if toExtend != [] {
        var additional;
        additional, variants := store.ExtendExistingExtensions(toExtend, newExtensions);
        PopulatedAgain(old(store.extensions), store.extensions);
      }
      if boxes != [] {
        forall b | b in boxes ensures b in store.originalOf {
          assert b in Members(boxes);
        }
        store.ExtendExistingSelectors(boxes, newExtensions);
      }
    } else {
      NoKeysExpand(values, newExtensions);
      NoKeysPropagate(toExtend, newExtensions, RulesOf(store.extensions));
    }
    GatheredBoxesExtend(index, byExtender, imported, newExtensions, boxes, toExtend, values, store.Values());
  }

  lemma NoKeysPropagate(exts: seq<Extension>, newExts: ExtensionMap, rules: set<Rule>)
    requires newExts.Keys == {}
    ensures AllPropagated(exts, newExts, rules)
  {}

  lemma NoKeysExpand(values: map<ModifiableBox, SelectorList>, exts: ExtensionMap)
    requires exts.Keys == {}
    ensures AllExpanded(values, values, exts)
  {
    assert exts == map[];
    NothingExpands(values);
  }

  lemma PopulatedAgain(before: ExtensionMap, after: ExtensionMap)
    requires Populated(before) && before.Keys == after.Keys && RulesOf(before) <= RulesOf(after)
    ensures Populated(after)
  {
    forall t | t in after ensures IsTarget(t, RulesOf(after)) {
      assert IsTarget(t, RulesOf(before));
    }
  }

  lemma GatheredEntries(exts: ExtensionMap, byExtender: ExtensionMap, index: map<Simple, seq<ModifiableBox>>,
                        imported: set<Rule>, newExts: ExtensionMap, boxes: seq<ModifiableBox>, toExtend: seq<Extension>)
    requires RulesShape(exts, byExtender) && Gathered(index, byExtender, imported, newExts, boxes, toExtend)
    ensures forall x <- toExtend :: Entry(x, exts)
    ensures RulesOf(newExts) <= imported
  {
    hide RulesOf;
    forall x | x in toExtend ensures Entry(x, exts) {
      assert FromTarget(byExtender, imported, x);
    }
  }

  /**
   Folds the public extensions of other stores into this one. They reach boxes
   and extenders already here, and count as declared here; every box matches all
   the imported rules let it match, and every extender that mentions an imported
   target gets its variants. The extension kept for a rule is the one kept before,
   merged with those the stores keep for it, in order, and then with variants.
   */
  method AddExtensions(store: ExtensionStore, stores: seq<ExtensionStore>)
    returns (ghost newExtensions: ExtensionMap, ghost boxes: seq<ModifiableBox>, ghost toExtend: seq<Extension>,
             ghost variants: seq<Extension>)
    requires store.Valid() && store !in stores && forall i | 0 <= i < |stores| :: Readable(stores[i])
    modifies store, store.originalOf.Keys
    ensures store.Valid()
    ensures store.declared == old(store.declared) + Imported(old(Maps(stores)))
    ensures store.arrivals == Arrived(old(store.arrivals), Imported(old(Maps(stores))))
    ensures old(RulesOf(store.extensions)) + Imported(old(Maps(stores))) <= RulesOf(store.extensions)
    ensures TakesIn(old(store.extensions), store.extensions, old(Maps(stores)), variants)
    ensures AreVariants(variants, toExtend, newExtensions) && forall v <- variants :: v.Base? && fresh(v.token)
    ensures ChainFree(store.declared) ==> variants == []
    ensures AllComplete(old(store.Values()), store.Values(), Imported(old(Maps(stores))))
    ensures Gathered(old(store.selectors), old(store.extensionsByExtender), Imported(old(Maps(stores))),
                     newExtensions, boxes, toExtend)
    ensures AllPropagated(toExtend, newExtensions, RulesOf(store.extensions))
    ensures WorthsTaken(old(store.sourceSpecificity), store.sourceSpecificity, old(Maps(stores)), old(Worths(stores)))
    ensures RewritesOnly(boxes, old(store.Values()), store.Values(), store.sourceSpecificity, newExtensions)
    ensures store.originalOf == old(store.originalOf) && store.nextBoxID == old(store.nextBoxID)
  {
    hide RulesShape, RulesOf, Gathered, Follows, ChainFree, Populated, Imported, Maps, AllMean, AllExtended, AllComplete;
    hide Arrived;
    hide ExtensionStore.IndexValid, ExtensionStore.IndexShape, ExtensionStore.Values, AllPropagated, PublicRules;
    hide TakesIn, Melded, AreVariants, WorthsTaken, RewritesOnly;
    ghost var imported, registered := Imported(Maps(stores)), RulesOf(store.extensions);
    ghost var declared, values := store.declared, store.Values();
    ImportedRules(declared, registered, imported);
    IndexIsShaped(store);
    var newExts, toRewrite, extenders := GatherStores(store, stores);
    newExtensions, boxes, toExtend := newExts, toRewrite, extenders;
    ghost var recorded := RulesOf(store.extensions);
    store.declared := declared + imported;
    ChainedImport(store.extensions, store.extensionsByExtender, old(store.extensions), declared, imported, store.selectors,
                  newExtensions, boxes, toExtend);
    ghost var taken := store.extensions;
    variants := ApplyGathered(store, newExts, toRewrite, extenders, imported);
    TakesInVariants(old(store.extensions), taken, store.extensions, old(Maps(stores)), variants);
    NoneToVary(variants, toExtend, newExtensions);
    FollowsTransitive(store.declared, recorded, RulesOf(store.extensions));
    MeaningStep(store.originalOf, values, store.Values(), declared, store.declared, imported, imported,
                RulesOf(store.extensions), store.arrivals, imported);
    store.arrivals := Arrived(store.arrivals, imported);
  }

  lemma NoneToVary(variants: seq<Extension>, toExtend: seq<Extension>, newExtensions: ExtensionMap)
    requires AreVariants(variants, toExtend, newExtensions)
    ensures toExtend == [] ==> variants == []
  {
    if variants != [] {
      assert variants[0] in variants;
      var x :| x in toExtend && VariantOf(variants[0], x, newExtensions);
    }
  }

  lemma IndexIsShaped(store: ExtensionStore)
    requires store.IndexValid()
    ensures store.IndexShape()
  {}

  lemma ChainedImport(exts: ExtensionMap, byExtender: ExtensionMap, before: ExtensionMap, declared: set<Rule>,
                      imported: set<Rule>, index: map<Simple, seq<ModifiableBox>>, newExts: ExtensionMap,
                      boxes: seq<ModifiableBox>, toExtend: seq<Extension>)
    requires RulesShape(before, byExtender)
    requires Gathered(index, byExtender, imported, newExts, boxes, toExtend)
    requires ChainFree(declared) ==> RulesOf(before) == declared
    ensures toExtend != [] ==> !ChainFree(declared + imported)
  {
    if toExtend != [] {
      GatheredIsChained(before, byExtender, declared, imported, toExtend);
    }
  }
}
