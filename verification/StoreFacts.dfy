/** Facts about the values an extension store holds, independent of the heap. */
module StoreFacts {
  import opened Wrappers
  import opened Selectors
  import opened Extensions
  import opened ExtendEngine
  import opened ExtendStrict
  import opened ExtendRuns
  import opened Trim
  import opened Expansion

  function SourcesFor(exts: ExtensionMap, target: Simple): seq<Extension> {
    if target in exts then exts[target] else []
  }

  /** The position of the extension whose extender equals `complex`, or the length if there is none. */
  function IndexOfExtender(sources: seq<Extension>, complex: ComplexSelector): (i: nat)
    ensures i <= |sources|
    ensures i < |sources| ==> sources[i].extender.simples == complex.simples
    ensures forall k | 0 <= k < i :: sources[k].extender.simples != complex.simples
  {
    if sources == [] || sources[0].extender.Equals(complex) then 0
    else 1 + IndexOfExtender(sources[1..], complex)
  }

  /** Replaces the entry with an equal extender in place, or appends. */
  function PutExtension(sources: seq<Extension>, ext: Extension): seq<Extension> {
    var i := IndexOfExtender(sources, ext.extender);
    if i < |sources| then sources[i := ext] else sources + [ext]
  }

  function PutAll(sources: seq<Extension>, exts: seq<Extension>): seq<Extension> {
    if exts == [] then sources
    else PutExtension(PutAll(sources, exts[..|exts| - 1]), exts[|exts| - 1])
  }

  /** `a` with every entry of `b` put into it. */
  function MergeMaps(a: ExtensionMap, b: ExtensionMap): ExtensionMap {
    map t | t in a.Keys + b.Keys :: PutAll(SourcesFor(a, t), SourcesFor(b, t))
  }

  function AppendTo(index: ExtensionMap, key: Simple, ext: Extension): ExtensionMap {
    index[key := SourcesFor(index, key) + [ext]]
  }

  /** Indexes `ext` under every simple selector of its extender, in order. */
  function IndexByExtender(index: ExtensionMap, simples: Compound, ext: Extension): ExtensionMap {
    if simples == [] then index
    else AppendTo(IndexByExtender(index, simples[..|simples| - 1], ext), simples[|simples| - 1], ext)
  }

  function RecordSpecificity(specificity: map<Simple, nat>, simples: Compound, value: nat): map<Simple, nat> {
    map s | s in specificity.Keys + (set x | x in simples) :: RecordedFor(specificity, simples, value, s)
  }

  function RecordedFor(specificity: map<Simple, nat>, simples: Compound, value: nat, s: Simple): nat
    requires s in specificity || s in simples
  {
    if s in specificity then specificity[s] else value
  }

  function RuleFor(ext: Extension): Rule { Rule(ext.extender.simples, ext.target) }

  lemma RuleOfSource(exts: ExtensionMap, t: Simple, i: nat)
    requires t in exts && i < |exts[t]|
    ensures Rule(exts[t][i].extender.simples, t) in RulesOf(exts)
  {}

  ghost predicate HasExtender(sources: seq<Extension>, c: Compound) {
    exists i | 0 <= i < |sources| :: sources[i].extender.simples == c
  }

  lemma PutKeepsOthers(sources: seq<Extension>, ext: Extension, c: Compound)
    ensures HasExtender(PutExtension(sources, ext), c) <==> c == ext.extender.simples || HasExtender(sources, c)
  {
    var after := PutExtension(sources, ext);
    var n := IndexOfExtender(sources, ext.extender);
    assert after[n] == ext;
    forall i | 0 <= i < |sources| ensures after[i].extender.simples == sources[i].extender.simples {}
    assert forall i | 0 <= i < |after| && i != n :: after[i] == sources[i];
  }

  lemma RulesOfMember(exts: ExtensionMap, r: Rule)
    ensures r in RulesOf(exts) <==> r.target in exts && HasExtender(exts[r.target], r.extender)
  {
    if r.target in exts && HasExtender(exts[r.target], r.extender) {
      var i :| 0 <= i < |exts[r.target]| && exts[r.target][i].extender.simples == r.extender;
      RuleOfSource(exts, r.target, i);
    }
  }

  /** Registering an extension adds exactly its rule, whether or not it was there before. */
  lemma PutRules(exts: ExtensionMap, t: Simple, ext: Extension)
    ensures RulesOf(exts[t := PutExtension(SourcesFor(exts, t), ext)])
            == RulesOf(exts) + {Rule(ext.extender.simples, t)}
  {
    var after := exts[t := PutExtension(SourcesFor(exts, t), ext)];
    forall r ensures r in RulesOf(after) <==> r in RulesOf(exts) + {Rule(ext.extender.simples, t)} {
      PutKeepsOthers(SourcesFor(exts, t), ext, r.extender);
      RulesOfMember(after, r);
      RulesOfMember(exts, r);
    }
  }

  lemma EmptySourcesAddNoRules(exts: ExtensionMap, t: Simple)
    requires t !in exts
    ensures RulesOf(exts[t := []]) == RulesOf(exts)
  {
    forall r ensures r in RulesOf(exts[t := []]) <==> r in RulesOf(exts) {
      RulesOfMember(exts[t := []], r);
      RulesOfMember(exts, r);
    }
  }

  lemma {:induction false} PutAllMembers(sources: seq<Extension>, exts: seq<Extension>, c: Compound)
    ensures HasExtender(PutAll(sources, exts), c) <==> HasExtender(sources, c) || HasExtender(exts, c)
  {
    if exts != [] {
      var n := |exts| - 1;
      PutAllMembers(sources, exts[..n], c);
      PutKeepsOthers(PutAll(sources, exts[..n]), exts[n], c);
      assert exts == exts[..n] + [exts[n]];
      assert forall i | 0 <= i < n :: exts[..n][i] == exts[i];
      assert HasExtender(exts, c) <==> HasExtender(exts[..n], c) || exts[n].extender.simples == c;
    }
  }

  lemma MergeMapsRules(a: ExtensionMap, b: ExtensionMap)
    ensures RulesOf(MergeMaps(a, b)) == RulesOf(a) + RulesOf(b)
  {
    forall r ensures r in RulesOf(MergeMaps(a, b)) <==> r in RulesOf(a) + RulesOf(b) {
      RulesOfMember(MergeMaps(a, b), r);
      RulesOfMember(a, r);
      RulesOfMember(b, r);
      PutAllMembers(SourcesFor(a, r.target), SourcesFor(b, r.target), r.extender);
    }
  }

  lemma {:induction false} IndexByExtenderKeys(index: ExtensionMap, simples: Compound, ext: Extension)
    ensures IndexByExtender(index, simples, ext).Keys == index.Keys + set s | s in simples
    ensures forall s, x | s in IndexByExtender(index, simples, ext) && x in IndexByExtender(index, simples, ext)[s] ::
              x == ext || (s in index && x in index[s])
    ensures forall s, x | s in index && x in index[s] :: x in IndexByExtender(index, simples, ext)[s]
  {
    if simples != [] {
      var n := |simples| - 1;
      IndexByExtenderKeys(index, simples[..n], ext);
      assert simples == simples[..n] + [simples[n]];
    }
  }

  // ---- What a box means ----

  /**
   A box holding `now` whose original list was `original`, after the declared
   rules: it keeps matching what it matched; on elements closed under the rules
   it matches nothing more; and without chains it matches only what the rules
   allow, and exactly what the original means as they arrived.
   */
  ghost predicate BoxMeaning(original: seq<Compound>, now: seq<Compound>, declared: set<Rule>, arrivals: Arrivals) {
    && Keeps(original, now)
    && ClosedSound(original, now, declared)
    && (ChainFree(declared) ==> Sound(original, now, declared) && AtLeast(original, now, arrivals))
    && (ChainFree(declared) && AllHeadTyped(original) && Written(declared) ==> AtMost(original, now, arrivals, declared))
  }

  lemma ChainFreeSubset(small: set<Rule>, large: set<Rule>)
    requires small <= large
    ensures ChainFree(large) ==> ChainFree(small)
  {}

  lemma BoxStep(original: seq<Compound>, before: seq<Compound>, after: seq<Compound>,
                declared: set<Rule>, applied: set<Rule>, declaredAfter: set<Rule>, arrivals: Arrivals, last: set<Rule>)
    requires BoxMeaning(original, before, declared, arrivals)
    requires Extends(before, after, applied)
    requires declared <= declaredAfter
    requires forall e | Closed(e, declaredAfter) :: Closed(e, applied)
    requires ChainFree(declaredAfter) ==> declaredAfter == declared + applied && last == applied
    ensures BoxMeaning(original, after, declaredAfter, arrivals + [last])
  {
    hide Keeps, Sound, Complete, Strict, ClosedSound, AtLeast, AtMost, ChainFree, AllHeadTyped;
    KeepsTransitive(original, before, after);
    ClosedStep(original, before, after, declared, declaredAfter, applied);
    ChainFreeSubset(declared, declaredAfter);
    if ChainFree(declaredAfter) {
      SoundStep(original, before, after, declared, applied);
      AtLeastStep(original, before, after, arrivals, applied);
      if AllHeadTyped(original) && Written(declaredAfter) {
        AtMostIsHeadTyped(original, before, arrivals, declared);
        AtMostStep(original, before, after, arrivals, declared, applied);
      }
    }
  }

  lemma AtMostIsHeadTyped(original: seq<Compound>, now: seq<Compound>, arrivals: Arrivals, declared: set<Rule>)
    requires AtMost(original, now, arrivals, declared)
    ensures AllHeadTyped(now)
  {}

  /** An entry of an index of extensions: registered under its target. */
  predicate Entry(ext: Extension, exts: ExtensionMap) {
    Stored(ext) && ext.target in exts && RuleFor(ext) in RulesOf(exts)
  }

  /** At most one extension for each extender. */
  predicate OneEach(sources: seq<Extension>) {
    forall i, j | 0 <= i < j < |sources| :: sources[i].extender.simples != sources[j].extender.simples
  }

  predicate FiledUnder(sources: seq<Extension>, target: Simple) {
    OneEach(sources) && forall x <- sources :: x.target == target && Stored(x)
  }

  lemma PutKeepsFiled(sources: seq<Extension>, ext: Extension, target: Simple)
    requires FiledUnder(sources, target) && ext.target == target && Stored(ext)
    ensures FiledUnder(PutExtension(sources, ext), target)
  {
    var i, after := IndexOfExtender(sources, ext.extender), PutExtension(sources, ext);
    forall k | 0 <= k < |after| ensures after[k].target == target && Stored(after[k]) {
      assert k == i || after[k] == sources[k];
    }
    forall j, k | 0 <= j < k < |after| ensures after[j].extender.simples != after[k].extender.simples {
      assert j != i ==> after[j] == sources[j];
      assert k != i ==> after[k] == sources[k];
    }
  }

  /** The extensions are filed under their targets; the index by extender lists registered ones only. */
  predicate RulesShape(exts: ExtensionMap, byExtender: ExtensionMap) {
    && (forall t <- exts :: FiledUnder(exts[t], t))
    && (forall s <- byExtender :: forall x <- byExtender[s] :: Entry(x, exts))
    && (forall s <- byExtender :: Occurs(s, RulesOf(exts)))
  }

  /** Every target with an entry has an extension. */
  predicate Populated(exts: ExtensionMap) { forall t <- exts :: IsTarget(t, RulesOf(exts)) }

  predicate IsTarget(t: Simple, rules: set<Rule>) { exists r <- rules :: r.target == t }

  lemma TargetOfMore(t: Simple, rules: set<Rule>, more: set<Rule>)
    requires IsTarget(t, rules) && rules <= more
    ensures IsTarget(t, more)
  {}

  lemma PopulatedMore(before: ExtensionMap, after: ExtensionMap, t: Simple)
    requires Populated(before) && RulesOf(before) <= RulesOf(after)
    requires after.Keys == before.Keys + {t} && IsTarget(t, RulesOf(after))
    ensures Populated(after)
  {
    hide RulesOf;
    forall s | s in after ensures IsTarget(s, RulesOf(after)) {
      if s in before {
        assert IsTarget(s, RulesOf(before));
      }
    }
  }

  predicate Occurs(s: Simple, rules: set<Rule>) { exists r <- rules :: s in r.extender }

  /** Elements closed under `rules` are closed under `more`. */
  ghost predicate Follows(rules: set<Rule>, more: set<Rule>) {
    forall e | Closed(e, rules) :: Closed(e, more)
  }

  ghost predicate CoveredByRule(c: Compound, target: Simple, rules: set<Rule>) {
    exists r <- rules :: r.target == target && IsSuperselector(r.extender, c)
  }

  /** Every candidate of the extended extender is covered by a rule for the same target. */
  ghost predicate Propagated(ext: Extension, newExts: ExtensionMap, rules: set<Rule>) {
    var candidates := OwnCandidates(ext.extender.simples, newExts);
    forall i | 0 <= i < |candidates| :: CoveredByRule(candidates[i], ext.target, rules)
  }

  lemma PropagatedMore(ext: Extension, newExts: ExtensionMap, rules: set<Rule>, more: set<Rule>)
    requires Propagated(ext, newExts, rules) && rules <= more
    ensures Propagated(ext, newExts, more)
  {
    var candidates := OwnCandidates(ext.extender.simples, newExts);
    forall i | 0 <= i < |candidates| ensures CoveredByRule(candidates[i], ext.target, more) {
      assert CoveredByRule(candidates[i], ext.target, rules);
    }
  }

  function VariantRules(variants: seq<ComplexSelector>, target: Simple): set<Rule> {
    set v | v in variants :: Rule(v.simples, target)
  }

  /** The extension for one variant of the extender of `ext`. */
  predicate VariantOf(v: Extension, ext: Extension, newExts: ExtensionMap) {
    && v.Base? && v.media.None? && v.target == ext.target && v.isOptional == ext.IsOptional()
    && Touches(ext.extender.simples, newExts) && v.extender.simples in OwnCandidates(ext.extender.simples, newExts)
  }

  predicate AreVariants(variants: seq<Extension>, exts: seq<Extension>, newExts: ExtensionMap) {
    forall v <- variants :: exists x <- exts :: VariantOf(v, x, newExts)
  }

  /** New extensions that declare each of the extenders for the target. */
  predicate UsesFor(uses: seq<Extension>, extenders: seq<ComplexSelector>, target: Simple, isOptional: bool) {
    && |uses| == |extenders|
    && (forall i | 0 <= i < |uses| ::
          uses[i].Base? && uses[i] == Base(uses[i].token, extenders[i], target, None, isOptional))
    && forall i, j | 0 <= i < j < |uses| :: uses[i].token != uses[j].token
  }

  lemma VariantsFollow(ext: Extension, newExts: ExtensionMap, variants: seq<ComplexSelector>, rules: set<Rule>)
    requires RuleFor(ext) in rules && RulesOf(newExts) <= rules
    requires Candidates(ext.extender.simples, newExts).Some?
    requires forall v <- variants :: v.simples in OwnCandidates(ext.extender.simples, newExts)
    ensures Follows(rules, VariantRules(variants, ext.target))
  {
    forall e, r | Closed(e, rules) && r in VariantRules(variants, ext.target) && Matches(r.extender, e)
      ensures SimpleMatches(r.target, e)
    {
      VariantFollows(ext.extender.simples, ext.target, newExts, r.extender, rules, e);
    }
  }

  lemma ExpansionPropagates(ext: Extension, newExts: ExtensionMap, extended: seq<ComplexSelector>, rules: set<Rule>)
    requires IsExpansion(extended, OwnCandidates(ext.extender.simples, newExts))
    requires forall v <- extended :: Rule(v.simples, ext.target) in rules
    ensures Propagated(ext, newExts, rules)
  {
    var candidates := OwnCandidates(ext.extender.simples, newExts);
    forall i | 0 <= i < |candidates| ensures CoveredByRule(candidates[i], ext.target, rules) {
      assert CoveredBy(candidates[i], SimplesOf(extended));
      var j :| 0 <= j < |extended| && IsSuperselector(SimplesOf(extended)[j], candidates[i]);
      assert extended[j] in extended;
      assert Rule(extended[j].simples, ext.target) in rules;
    }
  }

  lemma ExpansionMembers(extended: seq<ComplexSelector>, candidates: seq<Compound>)
    requires IsExpansion(extended, candidates)
    ensures forall v <- extended :: v.simples in candidates
  {
    forall v | v in extended ensures v.simples in candidates {
      var i :| 0 <= i < |extended| && extended[i] == v;
      assert SimplesOf(extended)[i] in candidates;
    }
  }

  /** Equal stored extensions always merge into an equal stored one. */
  lemma MergeInStore(existing: Extension, ext: Extension)
    requires existing.extender.simples == ext.extender.simples && existing.target == ext.target
    requires Stored(existing) && Stored(ext)
    ensures MergeExtensions(existing, ext).Merge?
    ensures var merged := MergeExtensions(existing, ext).extension;
            merged.extender.simples == ext.extender.simples && merged.target == ext.target && Stored(merged)
  {
    MergeStaysFormed(existing, ext);
  }

  lemma PutKeepsShape(exts: ExtensionMap, byExtender: ExtensionMap, ext: Extension)
    requires RulesShape(exts, byExtender) && Stored(ext)
    ensures var after := exts[ext.target := PutExtension(SourcesFor(exts, ext.target), ext)];
            RulesShape(after, byExtender) && RulesOf(after) == RulesOf(exts) + {RuleFor(ext)} && Entry(ext, after)
  {
    hide PutExtension;
    PutRules(exts, ext.target, ext);
    PutKeepsFiled(SourcesFor(exts, ext.target), ext, ext.target);
    var after := exts[ext.target := PutExtension(SourcesFor(exts, ext.target), ext)];
    forall t | t in after ensures FiledUnder(after[t], t) {
      assert t != ext.target ==> after[t] == exts[t];
    }
    forall s, x | s in byExtender && x in byExtender[s] ensures Entry(x, after) {
      assert Entry(x, exts);
    }
    forall s | s in byExtender ensures Occurs(s, RulesOf(after)) {
      assert Occurs(s, RulesOf(exts));
    }
  }

  lemma IndexKeepsShape(exts: ExtensionMap, byExtender: ExtensionMap, ext: Extension)
    requires RulesShape(exts, byExtender) && Entry(ext, exts)
    ensures RulesShape(exts, IndexByExtender(byExtender, ext.extender.simples, ext))
  {
    var simples := ext.extender.simples;
    var after := IndexByExtender(byExtender, simples, ext);
    IndexByExtenderKeys(byExtender, simples, ext);
    forall s | s in after ensures Occurs(s, RulesOf(exts)) {
      if s in simples {
        assert RuleFor(ext) in RulesOf(exts) && s in RuleFor(ext).extender;
      }
    }
  }

  /** A list extended at once by all the declared rules is a box with that meaning. */
  lemma NewBoxMeaning(original: seq<Compound>, now: seq<Compound>, declared: set<Rule>, registered: set<Rule>)
    requires Extends(original, now, registered)
    requires forall e | Closed(e, declared) :: Closed(e, registered)
    requires ChainFree(declared) ==> registered == declared
    ensures BoxMeaning(original, now, declared, [declared])
  {
    forall e ensures AnyMatches(original, e) <==> AnyMatches(original, Augment(e, {})) {
      assert Augment(e, {}) == e;
    }
    ClosedStep(original, original, now, {}, declared, registered);
    hide Keeps, Sound, Complete, Strict, ClosedSound, AtLeast, AtMost, ChainFree, AllHeadTyped;
    if ChainFree(declared) {
      assert [] + [declared] == [declared] && {} + declared == declared;
      NothingArrived(original, {});
      AtLeastStep(original, original, now, [], declared);
      if AllHeadTyped(original) && Written(declared) {
        AtMostStep(original, original, now, [], {}, declared);
      }
    }
  }

  /** The rules one `@extend` declares. */
  function DeclaredBy(extenders: seq<ComplexSelector>, target: Simple): set<Rule> { VariantRules(extenders, target) }

  lemma FollowsMore(rules: set<Rule>, larger: set<Rule>, more: set<Rule>)
    requires Follows(rules, more) && rules <= larger
    ensures Follows(larger, more + larger)
  {
    forall e | Closed(e, larger) ensures Closed(e, more + larger) {
      assert Closed(e, rules);
    }
  }

  lemma FollowsSubset(rules: set<Rule>, more: set<Rule>, some: set<Rule>)
    requires Follows(rules, more) && some <= more
    ensures Follows(rules, some)
  {
    forall e | Closed(e, rules) ensures Closed(e, some) {
      assert Closed(e, more);
    }
  }

  lemma FollowsTransitive(a: set<Rule>, b: set<Rule>, c: set<Rule>)
    requires Follows(a, b) && Follows(b, c)
    ensures Follows(a, c)
  {}

  /** A simple selector of some registered extender cannot be a target in a chain-free run. */
  lemma ChainFreeMeansNoExtender(s: Simple, registered: set<Rule>, declared: set<Rule>, declaredAfter: set<Rule>)
    requires Occurs(s, registered) && registered == declared && declared <= declaredAfter
    requires exists r <- declaredAfter :: r.target == s
    ensures !ChainFree(declaredAfter)
  {
    var q :| q in registered && s in q.extender;
    var r :| r in declaredAfter && r.target == s;
    assert q in declaredAfter;
  }

  /** An extended extender stands for nothing a closed element lacks. */
  lemma VariantFollows(extender: Compound, target: Simple, exts: ExtensionMap, variant: Compound, rules: set<Rule>, e: Element)
    requires Rule(extender, target) in rules && RulesOf(exts) <= rules
    requires Candidates(extender, exts).Some? && variant in Candidates(extender, exts).value
    requires Closed(e, rules) && Matches(variant, e)
    ensures SimpleMatches(target, e)
  {
    CandidatesMeaning(extender, exts, e);
    var cs := Candidates(extender, exts).value;
    var i :| 0 <= i < |cs| && cs[i] == variant;
    assert AnyMatches(cs, e);
    assert Matches(extender, Augment(e, RulesOf(exts)));
    assert Matches(extender, e);
  }
}
