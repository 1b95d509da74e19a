/**
 The store behind `@extend` in normal mode, without media contexts: selector
 boxes rewritten in place as extensions arrive.
 */
module ExtensionStores {
  import opened Collections
  import opened Wrappers
  import opened Selectors
  import opened Extensions
  import opened ExtendEngine
  import opened ExtendRuns
  import opened Trim
  import opened Expansion
  import opened StoreFacts
  import opened StoreEntries

  /** A parsed selector list; its identity tells an unchanged list from a rebuilt one. */
  class SelectorList {
    const components: seq<ComplexSelector>

    constructor (components: seq<ComplexSelector>)
      requires components != []
      ensures this.components == components
    {
      this.components := components;
    }

    function Simples(): seq<Compound> { SimplesOf(components) }

    /** Only placeholders are invisible, and only a list of nothing else. */
    predicate IsInvisible() { forall c <- components :: exists s <- c.simples :: s.Placeholder? }
  }

  /** A selector list the store may replace; readers keep seeing the current one. */
  class ModifiableBox {
    const id: nat
    var value: SelectorList

    constructor (value: SelectorList, id: nat)
      ensures this.value == value && this.id == id
    {
      this.value := value;
      this.id := id;
    }
  }

  /** Boxes are told apart by their ID. */
  function AddBox(boxes: seq<ModifiableBox>, box: ModifiableBox): seq<ModifiableBox> {
    if HasID(boxes, box.id) then boxes else boxes + [box]
  }

  predicate HasID(boxes: seq<ModifiableBox>, id: nat) { exists i | 0 <= i < |boxes| :: boxes[i].id == id }

  function BoxesFor(index: map<Simple, seq<ModifiableBox>>, s: Simple): seq<ModifiableBox> {
    if s in index then index[s] else []
  }

  function SimplesIn(list: seq<Compound>): set<Simple> { set c, s | c in list && s in c :: s }

  /** The index with `box` added under each of `simples`. */
  function WithRegistered(index: map<Simple, seq<ModifiableBox>>, simples: set<Simple>, box: ModifiableBox)
    : map<Simple, seq<ModifiableBox>>
  {
    map s | s in index.Keys + simples :: if s in simples then AddBox(BoxesFor(index, s), box) else index[s]
  }

  /** Every simple selector of `value` leads to the box. */
  predicate IndexedIn(index: map<Simple, seq<ModifiableBox>>, value: SelectorList, box: ModifiableBox) {
    forall s <- SimplesIn(value.Simples()) :: s in index && box in index[s]
  }

  predicate DistinctIDs(boxes: set<ModifiableBox>) { forall b, c | b in boxes && c in boxes && b.id == c.id :: b == c }

  /** An index over `boxes`, each listed once per simple selector. */
  predicate IndexOver(index: map<Simple, seq<ModifiableBox>>, boxes: set<ModifiableBox>) {
    && (forall s <- index :: forall b <- index[s] :: b in boxes)
    && (forall s <- index :: NoRepeats(index[s]))
  }

  predicate Grows(before: map<Simple, seq<ModifiableBox>>, after: map<Simple, seq<ModifiableBox>>) {
    forall s <- before :: s in after && before[s] <= after[s]
  }

  lemma GrowsKeepsIndexed(before: map<Simple, seq<ModifiableBox>>, after: map<Simple, seq<ModifiableBox>>,
                          value: SelectorList, box: ModifiableBox)
    requires Grows(before, after) && IndexedIn(before, value, box)
    ensures IndexedIn(after, value, box)
  {
    forall s | s in SimplesIn(value.Simples()) ensures s in after && box in after[s] {
      assert before[s] <= after[s];
    }
  }

  /** Adding a known box to an index keeps its shape and indexes the box. */
  lemma RegisterKeepsShape(index: map<Simple, seq<ModifiableBox>>, value: SelectorList, box: ModifiableBox,
                           boxes: set<ModifiableBox>)
    requires IndexOver(index, boxes) && DistinctIDs(boxes) && box in boxes
    ensures var after := WithRegistered(index, SimplesIn(value.Simples()), box);
            IndexOver(after, boxes) && Grows(index, after) && IndexedIn(after, value, box)
  {
    var simples := SimplesIn(value.Simples());
    var after := WithRegistered(index, simples, box);
    forall s | s in simples
      ensures box in after[s] && NoRepeats(after[s]) && (forall b <- after[s] :: b in boxes)
      ensures BoxesFor(index, s) <= after[s]
    {
      var known := BoxesFor(index, s);
      if HasID(known, box.id) {
        var i :| 0 <= i < |known| && known[i].id == box.id;
        assert known[i] == box;
      } else {
        assert box !in known;
      }
    }
  }

  /** Every simple selector of every box's value leads back to the box. */
  ghost predicate AllIndexed(index: map<Simple, seq<ModifiableBox>>, values: map<ModifiableBox, SelectorList>) {
    forall b <- values :: IndexedIn(index, values[b], b) && values[b].components != []
  }

  lemma NoneIsEmpty(index: map<Simple, seq<ModifiableBox>>, values: map<ModifiableBox, SelectorList>, box: ModifiableBox)
    requires AllIndexed(index, values) && box in values
    ensures values[box].components != []
  {}

  /** Indexing one box keeps every box indexed. */
  lemma RegisterKeepsIndexed(index: map<Simple, seq<ModifiableBox>>, values: map<ModifiableBox, SelectorList>,
                             box: ModifiableBox, value: SelectorList)
    requires IndexOver(index, values.Keys + {box}) && DistinctIDs(values.Keys + {box})
    requires AllIndexed(index, values) && value.components != []
    ensures var after := WithRegistered(index, SimplesIn(value.Simples()), box);
            IndexOver(after, values.Keys + {box}) && AllIndexed(after, values[box := value])
  {
    hide SimplesIn, IndexedIn, IndexOver, DistinctIDs, WithRegistered, Grows;
    var after := WithRegistered(index, SimplesIn(value.Simples()), box);
    RegisterKeepsShape(index, value, box, values.Keys + {box});
    forall b | b in values && b != box ensures IndexedIn(after, values[b], b) {
      GrowsKeepsIndexed(index, after, values[b], b);
    }
  }

  // ---- What the boxes of a store mean ----

  /** Each box means its original list under the declared rules, as far as BoxMeaning says. */
  ghost predicate AllMean(originalOf: map<ModifiableBox, SelectorList>, values: map<ModifiableBox, SelectorList>,
                          declared: set<Rule>, arrivals: map<ModifiableBox, Arrivals>)
  {
    originalOf.Keys == values.Keys == arrivals.Keys &&
    forall b <- values :: BoxMeaning(originalOf[b].Simples(), values[b].Simples(), declared, arrivals[b])
  }

  /** The rules arrive at every box. */
  function Arrived<T>(arrivals: map<T, Arrivals>, rules: set<Rule>): map<T, Arrivals> {
    map b | b in arrivals :: OneMoreArrived(arrivals, b, rules)
  }

  function OneMoreArrived<T>(arrivals: map<T, Arrivals>, b: T, rules: set<Rule>): Arrivals
    requires b in arrivals
  {
    arrivals[b] + [rules]
  }

  /** Each box has been extended by `applied`. */
  ghost predicate AllExtended(before: map<ModifiableBox, SelectorList>, after: map<ModifiableBox, SelectorList>,
                              applied: set<Rule>)
  {
    before.Keys == after.Keys &&
    forall b <- after :: Extends(before[b].Simples(), after[b].Simples(), applied)
  }

  /** Each box holds a trimming of its candidates under `exts`. */
  predicate AllExpanded(before: map<ModifiableBox, SelectorList>, after: map<ModifiableBox, SelectorList>,
                        exts: ExtensionMap)
  {
    before.Keys == after.Keys &&
    forall b <- after :: IsExpansion(after[b].components, ListCandidates(before[b].Simples(), exts))
  }

  /** Each box is as it was or has lost only candidates that had a specific enough replacement. */
  predicate AllTrimmed(specificity: map<Simple, nat>, before: map<ModifiableBox, SelectorList>,
                       after: map<ModifiableBox, SelectorList>, exts: ExtensionMap)
  {
    before.Keys == after.Keys &&
    forall b <- after :: after[b] == before[b] || TrimmedValue(specificity, before[b], after[b], exts)
  }

  predicate TrimmedValue(specificity: map<Simple, nat>, before: SelectorList, after: SelectorList, exts: ExtensionMap) {
    OnlyReplaced(specificity, ListCandidates(before.Simples(), exts), after.Simples())
  }

  /** Each box matches all it matched, and all that `newRules` let it match. */
  ghost predicate AllComplete(before: map<ModifiableBox, SelectorList>, after: map<ModifiableBox, SelectorList>,
                              newRules: set<Rule>)
  {
    before.Keys == after.Keys &&
    forall b <- after ::
      && Keeps(before[b].Simples(), after[b].Simples())
      && Complete(before[b].Simples(), after[b].Simples(), newRules)
  }

  /** Carries the meaning of every box over one application of `applied`. */
  lemma MeaningStep(originalOf: map<ModifiableBox, SelectorList>, before: map<ModifiableBox, SelectorList>,
                    after: map<ModifiableBox, SelectorList>, declared: set<Rule>, declaredAfter: set<Rule>,
                    applied: set<Rule>, newRules: set<Rule>, registered: set<Rule>,
                    arrivals: map<ModifiableBox, Arrivals>, last: set<Rule>)
    requires AllMean(originalOf, before, declared, arrivals) && AllExtended(before, after, applied)
    requires newRules <= applied <= registered
    requires declared <= declaredAfter && Follows(declaredAfter, registered)
    requires ChainFree(declaredAfter) ==> declaredAfter == declared + applied && last == applied
    ensures AllMean(originalOf, after, declaredAfter, Arrived(arrivals, last))
    ensures AllComplete(before, after, newRules)
  {
    hide Keeps, Sound, Complete, Strict, BoxMeaning, ChainFree, RulesOf, Follows;
    FollowsSubset(declaredAfter, registered, applied);
    FollowsMeans(declaredAfter, applied);
    forall b | b in after
      ensures BoxMeaning(originalOf[b].Simples(), after[b].Simples(), declaredAfter, arrivals[b] + [last])
      ensures Complete(before[b].Simples(), after[b].Simples(), newRules)
    {
      BoxStep(originalOf[b].Simples(), before[b].Simples(), after[b].Simples(), declared, applied, declaredAfter,
              arrivals[b], last);
      CompleteForFewer(before[b].Simples(), after[b].Simples(), applied, newRules);
    }
  }

  /** A new box with the extended `sel` joins the index and the boxes that have their meaning. */
  lemma NewBoxJoins(index: map<Simple, seq<ModifiableBox>>, originalOf: map<ModifiableBox, SelectorList>,
                    values: map<ModifiableBox, SelectorList>, sel: SelectorList, value: SelectorList,
                    box: ModifiableBox, declared: set<Rule>, arrivals: map<ModifiableBox, Arrivals>)
    requires IndexOver(index, values.Keys) && DistinctIDs(values.Keys) && AllIndexed(index, values)
    requires AllMean(originalOf, values, declared, arrivals)
    requires box !in values && value.components != [] && forall b <- values :: b.id < box.id
    requires BoxMeaning(sel.Simples(), value.Simples(), declared, [declared])
    ensures var after := WithRegistered(index, SimplesIn(value.Simples()), box);
            IndexOver(after, values.Keys + {box}) && DistinctIDs(values.Keys + {box})
            && AllIndexed(after, values[box := value])
    ensures AllMean(originalOf[box := sel], values[box := value], declared, arrivals[box := [declared]])
  {
    hide SimplesIn, IndexedIn, IndexOver, DistinctIDs, WithRegistered, BoxMeaning;
    NewBoxIsDistinct(values.Keys, box);
    IndexOverMore(index, values.Keys, values.Keys + {box});
    RegisterKeepsIndexed(index, values, box, value);
  }

  /** The rules for one of the targets. */
  function RulesAt(rules: set<Rule>, targets: set<Simple>): set<Rule> { set r | r in rules && r.target in targets }

  /** Registering `more` on top of `now` adds what is new in it to what was new before. */
  lemma NewRulesAt(before: set<Rule>, now: set<Rule>, more: set<Rule>, targets: set<Simple>)
    requires before <= now
    ensures RulesAt(now + more - before, targets) == RulesAt(now - before, targets) + RulesAt(more - now, targets)
  {}

  lemma NoNewRules(rules: set<Rule>, targets: set<Simple>)
    ensures RulesAt(rules - rules, targets) == {}
  {}

  lemma RulesAtAreRules(rules: set<Rule>, before: set<Rule>, targets: set<Simple>)
    ensures RulesAt(rules - before, targets) <= rules && RulesAt(rules - before, targets) !! before
  {}

  /** The new rules of a target are those just declared and the variants made of earlier extenders. */
  lemma NewRulesOfTarget(before: set<Rule>, recorded: set<Rule>, after: set<Rule>, extenders: seq<ComplexSelector>,
                         target: Simple)
    requires recorded == before + DeclaredBy(extenders, target) && recorded <= after
    ensures RulesAt(after - before, {target}) == DeclaredBy(extenders, target) - before + RulesAt(after - recorded, {target})
  {}

  /** Nothing filed is lost. */
  predicate Includes(before: ExtensionMap, after: ExtensionMap) {
    forall s <- before :: s in after && forall x <- before[s] :: x in after[s]
  }

  lemma IncludesTransitive(a: ExtensionMap, b: ExtensionMap, c: ExtensionMap)
    requires Includes(a, b) && Includes(b, c)
    ensures Includes(a, c)
  {}

  lemma IncludesAt(before: ExtensionMap, after: ExtensionMap, s: Simple)
    requires Includes(before, after)
    ensures s in before ==> s in after
  {}

  /** Every extender that mentions one of the new targets has its variants among the rules. */
  ghost predicate AllPropagated(exts: seq<Extension>, newExts: ExtensionMap, rules: set<Rule>) {
    forall x <- exts :: Touches(x.extender.simples, newExts) ==> Propagated(x, newExts, rules)
  }

  lemma PropagatedForFewer(before: ExtensionMap, after: ExtensionMap, s: Simple, newExts: ExtensionMap, rules: set<Rule>)
    requires Includes(before, after)
    ensures s in before && s in after && AllPropagated(after[s], newExts, rules) ==>
              AllPropagated(before[s], newExts, rules)
  {}

  /** When no box holds `target`, every box already is extended by rules for it. */
  lemma NothingToRewrite(index: map<Simple, seq<ModifiableBox>>, values: map<ModifiableBox, SelectorList>,
                         target: Simple, rules: set<Rule>)
    requires AllIndexed(index, values)
    requires rules != {} ==> target !in index
    requires forall r <- rules :: r.target == target
    ensures AllExtended(values, values, rules)
  {
    hide Extends, IndexedIn;
    forall b | b in values ensures Extends(values[b].Simples(), values[b].Simples(), rules) {
      UnindexedExtends(index, values[b], b, target, rules);
    }
  }

  /** Rewriting the boxes listed under the only target extends every box. */
  lemma RewrittenBoxesExtend(index: map<Simple, seq<ModifiableBox>>, before: map<ModifiableBox, SelectorList>,
                             after: map<ModifiableBox, SelectorList>, target: Simple, exts: ExtensionMap)
    requires AllIndexed(index, before) && before.Keys == after.Keys && exts.Keys == {target}
    requires forall b <- after :: if b in BoxesFor(index, target)
               then IsExpansion(after[b].components, ListCandidates(before[b].Simples(), exts))
               else after[b] == before[b]
    ensures AllExpanded(before, after, exts) && AllExtended(before, after, RulesOf(exts))
  {
    hide Extends, IndexedIn, IsExpansion, ListCandidates, RulesOf;
    forall b | b in after
      ensures IsExpansion(after[b].components, ListCandidates(before[b].Simples(), exts))
      ensures Extends(before[b].Simples(), after[b].Simples(), RulesOf(exts))
    {
      if b !in BoxesFor(index, target) {
        UnindexedExpands(index, before[b], b, target, exts);
      }
      TrimmedExtends(before[b].Simples(), exts, after[b]);
    }
  }

  /** With no extensions every box stays as it is. */
  lemma NothingExpands(values: map<ModifiableBox, SelectorList>)
    ensures AllExpanded(values, values, map[])
  {
    forall b | b in values ensures IsExpansion(values[b].components, ListCandidates(values[b].Simples(), map[])) {
      NothingToExtend(values[b]);
    }
  }

  lemma NothingTrimmed(specificity: map<Simple, nat>, values: map<ModifiableBox, SelectorList>)
    ensures AllTrimmed(specificity, values, values, map[])
  {}

  // ---- What extenders are worth ----

  /** Extender `i` is the first one with a new rule that holds `s`. */
  predicate FirstHolder(extenders: seq<ComplexSelector>, target: Simple, rules: set<Rule>, s: Simple, i: nat) {
    && i < |extenders| && s in extenders[i].simples && Rule(extenders[i].simples, target) !in rules
    && forall j | 0 <= j < i && s in extenders[j].simples :: Rule(extenders[j].simples, target) in rules
  }

  /** What was known stays; everything else an extender with a new rule holds is worth the first of these. */
  ghost predicate SpecificityRecorded(before: map<Simple, nat>, after: map<Simple, nat>, extenders: seq<ComplexSelector>,
                                      target: Simple, rules: set<Rule>)
  {
    && (forall s <- before :: s in after && after[s] == before[s])
    && (forall i, s | 0 <= i < |extenders| && s in extenders[i].simples && Rule(extenders[i].simples, target) !in rules ::
          s in after)
    && (forall s <- after :: s in before ||
          exists i: nat :: FirstHolder(extenders, target, rules, s, i) && after[s] == Specificity(extenders[i].simples))
  }

  lemma NoneRecorded(specificity: map<Simple, nat>, target: Simple, rules: set<Rule>)
    ensures SpecificityRecorded(specificity, specificity, [], target, rules)
  {}

  lemma OneMoreRecorded(before: map<Simple, nat>, now: map<Simple, nat>, after: map<Simple, nat>,
                        extenders: seq<ComplexSelector>, complex: ComplexSelector, target: Simple, rules: set<Rule>)
    requires SpecificityRecorded(before, now, extenders, target, rules)
    requires after == if Rule(complex.simples, target) in rules + DeclaredBy(extenders, target) then now
                      else RecordSpecificity(now, complex.simples, Specificity(complex.simples))
    ensures SpecificityRecorded(before, after, extenders + [complex], target, rules)
  {
    hide Selectors.Specificity;
    var more := extenders + [complex];
    forall i, s | 0 <= i < |more| && s in more[i].simples && Rule(more[i].simples, target) !in rules ensures s in after {
      if i == |extenders| && Rule(complex.simples, target) in DeclaredBy(extenders, target) {
        var c :| c in extenders && Rule(c.simples, target) == Rule(complex.simples, target);
        var k :| 0 <= k < |extenders| && extenders[k] == c;
        assert s in extenders[k].simples;
      }
    }
    forall s | s in after && s !in before
      ensures exists i: nat :: FirstHolder(more, target, rules, s, i) && after[s] == Specificity(more[i].simples)
    {
      if s in now {
        var i: nat :| FirstHolder(extenders, target, rules, s, i) && now[s] == Specificity(extenders[i].simples);
        assert FirstHolder(more, target, rules, s, i);
      } else {
        assert FirstHolder(more, target, rules, s, |extenders|);
      }
    }
  }

  class ExtensionStore {
    var nextBoxID: nat
    var selectors: map<Simple, seq<ModifiableBox>>
    var extensions: ExtensionMap
    var extensionsByExtender: ExtensionMap
    var sourceSpecificity: map<Simple, nat>
    var originals: set<ComplexSelector>

    /** Every rule given to AddExtension so far. */
    ghost var declared: set<Rule>
    /** The boxes handed out, with the list each one was created for. */
    ghost var originalOf: map<ModifiableBox, SelectorList>
    /** The rules that arrived at each box: those declared before it, then others in turn. */
    ghost var arrivals: map<ModifiableBox, Arrivals>

    constructor ()
      ensures Valid()
      ensures declared == {} && originalOf == map[] && extensions == map[] && extensionsByExtender == map[]
      ensures selectors == map[]
    {
      nextBoxID := 0;
      selectors := map[];
      extensions := map[];
      extensionsByExtender := map[];
      sourceSpecificity := map[];
      originals := {};
      declared := {};
      originalOf := map[];
      arrivals := map[];
    }

    // ---- Invariants ----

    /** The current value of every box. */
    ghost function Values(): map<ModifiableBox, SelectorList>
      reads this`originalOf, originalOf.Keys
    {
      map b | b in originalOf :: ValueOf(b)
    }

    ghost function ValueOf(box: ModifiableBox): SelectorList
      requires box in originalOf
      reads this`originalOf, originalOf.Keys
    {
      box.value
    }

    ghost predicate IndexShape()
      reads this`nextBoxID, this`selectors, this`originalOf
    {
      && (forall b <- originalOf :: b.id < nextBoxID)
      && DistinctIDs(originalOf.Keys)
      && IndexOver(selectors, originalOf.Keys)
    }

    /** Every simple selector of every box's current value leads back to the box. */
    ghost predicate IndexValid()
      reads this`nextBoxID, this`selectors, this`originalOf, originalOf.Keys
    {
      IndexShape() && AllIndexed(selectors, Values())
    }

    ghost predicate RulesValid()
      reads this`extensions, this`extensionsByExtender, this`declared
    {
      && RulesShape(extensions, extensionsByExtender) && Populated(extensions)
      && declared <= RulesOf(extensions)
      && Follows(declared, RulesOf(extensions))
      && (ChainFree(declared) ==> RulesOf(extensions) == declared)
    }

    ghost predicate MeaningValid()
      reads this`originalOf, this`declared, this`arrivals, originalOf.Keys
    {
      AllMean(originalOf, Values(), declared, arrivals)
    }

    ghost predicate Valid()
      reads this, originalOf.Keys
    {
      IndexValid() && RulesValid() && MeaningValid()
    }

    /** What readers of a valid store may use. */
    lemma BoxFacts(box: ModifiableBox)
      requires Valid() && box in originalOf
      ensures box in Values() && Values()[box] == box.value && box.value.components != []
      ensures forall s <- SimplesIn(box.value.Simples()) :: s in selectors
    {
      NoneIsEmpty(selectors, Values(), box);
    }

    // ---- The engine ----

    /**
     Extends one complex selector; None when nothing in it is a target. The copy
     of an original selector comes first and is an original itself.
     */
    method ExtendComplex(complex: ComplexSelector, exts: ExtensionMap) returns (extended: Option<seq<ComplexSelector>>)
      modifies this`originals
      ensures extended.Some? <==> Touches(complex.simples, exts)
      ensures extended.Some? ==>
                extended.value != [] && IsExpansion(extended.value, OwnCandidates(complex.simples, exts))
      ensures extended.Some? ==>
                var candidates, kept := OwnCandidates(complex.simples, exts), SimplesOf(extended.value);
                && |kept| <= |candidates| && OnlyReplaced(sourceSpecificity, candidates, kept)
                && if OneOption(complex.simples, exts) then kept == candidates
                   else TrimmedDown(sourceSpecificity, candidates, kept,
                                    if complex in old(originals) then {complex.simples} else {})
      ensures if extended.Some? && complex in old(originals)
              then extended.value[0].simples == complex.simples && originals == old(originals) + {extended.value[0]}
              else originals == old(originals)
    {
      hide IsExpansion, OwnCandidates, TrimmedDown, OnlyReplaced, OneOption, Touches;
      var isOriginal := complex in originals;
      extended := ExtendCompound(complex.simples, exts, isOriginal, sourceSpecificity);
      if extended.Some? && isOriginal {
        originals := originals + {extended.value[0]};
      }
    }

    /**
     Extends every complex selector of a list and trims the result. A list with no
     target in it is returned as it is. Every original of the list has an equal
     in the result, and only copies of originals become originals. What is dropped
     was replaced by something specific enough, and unless there are too many
     candidates nothing is left that could be.
     */
    method ExtendList(list: SelectorList, exts: ExtensionMap) returns (result: SelectorList)
      requires list.components != []
      modifies this`originals
      ensures result.components != []
      ensures TouchesAny(list.Simples(), exts) ==> fresh(result)
      ensures !TouchesAny(list.Simples(), exts) ==> result == list && originals == old(originals)
      ensures IsExpansion(result.components, ListCandidates(list.Simples(), exts))
      ensures KeepsOriginals(list.components, old(originals), result.components)
      ensures old(originals) <= originals && NewOriginals(list, old(originals), originals)
      ensures TrimmedValue(sourceSpecificity, list, result, exts)
      ensures TouchesAny(list.Simples(), exts) && |ListCandidates(list.Simples(), exts)| <= TRIM_LIMIT ==>
                Irredundant(sourceSpecificity, originals, result.components)
    {
      hide *;
      ListFacts(list);
      var components := list.components;
      var extended: Option<seq<ComplexSelector>> := None;
      ExpansionStart(components, exts);
      ReplacedStart(sourceSpecificity, components, exts);
      NewOriginalsStart(list, originals);
      for i := 0 to |components|
        invariant ExpandedTo(components, exts, i, extended)
        invariant ReplacedTo(sourceSpecificity, components, exts, i, extended)
        invariant old(originals) <= originals
        invariant NewOriginals(list, old(originals), originals)
        invariant extended.None? ==> originals == old(originals)
        invariant extended.Some? ==> CopiesOriginals(components, old(originals), originals, i, extended.value)
      {
        ghost var before, originalsBefore := extended, originals;
        var complex := components[i];
        var own := ExtendComplex(complex, exts);
        if own.None? {
          if extended.Some? {
            extended := Some(extended.value + [complex]);
          }
        } else {
          if extended.None? {
            extended := Some(components[..i]);
          }
          extended := Some(extended.value + own.value);
        }
        ExpandedStep(components, exts, i, before, own, extended);
        ReplacedStep(sourceSpecificity, components, exts, i, before, own, extended);
        NewOriginalsStep(list, old(originals), originalsBefore, originals, i);
        CopiesStep(components, old(originals), originalsBefore, originals, i, before, own, extended);
      }
      ExpansionDone(components, exts, extended);
      ReplacedDone(sourceSpecificity, components, exts, extended);
      if extended.None? {
        AllKeepThemselves(components, old(originals));
        TrimmedValueOf(sourceSpecificity, list, list, exts);
        return list;
      }
      var trimmed, _ := TrimSelectors(extended.value, originals, sourceSpecificity);
      TrimmedExpansion(trimmed, extended.value, ListCandidates(SimplesOf(components), exts));
      TrimmedKeepsOriginals(components, old(originals), originals, extended.value, trimmed);
      CoveringIsNonempty(trimmed, extended.value);
      ReplacedTwice(sourceSpecificity, components, exts, extended.value, trimmed);
      result := new SelectorList(trimmed);
      TrimmedValueOf(sourceSpecificity, list, result, exts);
    }

    method RegisterCompound(simples: Compound, box: ModifiableBox)
      modifies this`selectors
      ensures selectors == WithRegistered(old(selectors), SimplesIn([simples]), box)
    {
      hide AddBox;
      for j := 0 to |simples|
        invariant selectors == WithRegistered(old(selectors), SimplesIn([simples[..j]]), box)
      {
        RegisterOne(old(selectors), SimplesIn([simples[..j]]), simples[j], box);
        selectors := selectors[simples[j] := AddBox(BoxesFor(selectors, simples[j]), box)];
        assert simples[..j + 1] == simples[..j] + [simples[j]];
        SimplesInAppend(simples[..j], simples[j]);
      }
      assert simples[..|simples|] == simples;
    }

    /** Indexes every simple selector of `list` to `box`. */
    method RegisterSelector(list: SelectorList, box: ModifiableBox)
      modifies this`selectors
      ensures selectors == WithRegistered(old(selectors), SimplesIn(list.Simples()), box)
    {
      hide WithRegistered;
      RegisterNothing(selectors, box);
      for i := 0 to |list.components|
        invariant selectors == WithRegistered(old(selectors), SimplesIn(list.Simples()[..i]), box)
      {
        ghost var before := selectors;
        var simples := list.components[i].simples;
        RegisterCompound(simples, box);
        RegisterMore(old(selectors), SimplesIn(list.Simples()[..i]), SimplesIn([simples]), box);
        assert list.Simples()[..i + 1] == list.Simples()[..i] + [simples];
        assert SimplesIn(list.Simples()[..i + 1]) == SimplesIn(list.Simples()[..i]) + SimplesIn([simples]);
      }
      assert list.Simples()[..|list.components|] == list.Simples();
    }

    /** Rewrites one box with the extensions and indexes what is new in it. */
    method RewriteBox(box: ModifiableBox, exts: ExtensionMap)
      requires IndexValid() && box in originalOf
      modifies this`originals, this`selectors, box`value
      ensures IndexValid()
      ensures IsExpansion(box.value.components, ListCandidates(old(box.value.Simples()), exts))
      ensures TrimmedValue(sourceSpecificity, old(box.value), box.value, exts)
    {
      hide ListCandidates, IsExpansion, SimplesIn, WithRegistered, AllIndexed, IndexOver, DistinctIDs, TouchesAny;
      hide KeepsOriginals, NewOriginals, TrimmedValue, Irredundant;
      ghost var index, values := selectors, Values();
      assert values.Keys == originalOf.Keys && values[box] == box.value;
      NoneIsEmpty(selectors, values, box);
      var oldValue := box.value;
      var newValue := ExtendList(oldValue, exts);
      box.value := newValue;
      assert Values() == values[box := newValue];
      if oldValue != box.value {
        assert values.Keys + {box} == originalOf.Keys;
        RegisterSelector(box.value, box);
        RegisterKeepsIndexed(index, values, box, newValue);
        assert Values() == values[box := newValue];
      } else {
        assert Values() == values;
      }
    }

    /** Rewrites every given box with the extensions and indexes what is new in it. */
    method ExtendExistingSelectors(boxes: seq<ModifiableBox>, exts: ExtensionMap)
      requires IndexValid()
      requires forall b <- boxes :: b in originalOf
      requires NoRepeats(boxes)
      modifies this`originals, this`selectors, originalOf.Keys
      ensures IndexValid()
      ensures forall b <- boxes :: IsExpansion(b.value.components, ListCandidates(old(b.value.Simples()), exts))
      ensures forall b <- boxes :: TrimmedValue(sourceSpecificity, old(b.value), b.value, exts)
      ensures forall b <- originalOf :: b !in boxes ==> b.value == old(b.value)
    {
      hide ListCandidates, IsExpansion, IndexedIn, IndexOver, DistinctIDs, TrimmedValue;
      for k := 0 to |boxes|
        invariant IndexValid()
        invariant forall b <- boxes[..k] :: IsExpansion(b.value.components, ListCandidates(old(b.value.Simples()), exts))
        invariant forall b <- boxes[..k] :: TrimmedValue(sourceSpecificity, old(b.value), b.value, exts)
        invariant forall b <- originalOf :: b !in boxes[..k] ==> b.value == old(b.value)
      {
        assert boxes[k] !in boxes[..k];
        RewriteBox(boxes[k], exts);
        assert boxes[..k + 1] == boxes[..k] + [boxes[k]];
      }
      assert boxes[..|boxes|] == boxes;
    }

    // ---- Selectors and extensions arriving ----

    lemma Installed(values: map<ModifiableBox, SelectorList>, was: map<ModifiableBox, SelectorList>,
                    sel: SelectorList, value: SelectorList, box: ModifiableBox)
      requires originalOf == was[box := sel] && values.Keys == was.Keys
      requires box.value == value && forall b <- values :: values[b] == b.value
      requires box.id < nextBoxID && forall b <- values :: b.id < nextBoxID
      requires IndexOver(selectors, values.Keys + {box}) && DistinctIDs(values.Keys + {box})
      requires AllIndexed(selectors, values[box := value]) && AllMean(originalOf, values[box := value], declared, arrivals)
      ensures IndexValid() && MeaningValid()
    {
      hide AllIndexed, AllMean, IndexOver, DistinctIDs;
      assert Values() == values[box := value];
      assert originalOf.Keys == values.Keys + {box};
    }

    /** Puts `value`, the extended `sel`, into a new indexed box. */
    method Install(sel: SelectorList, value: SelectorList) returns (box: ModifiableBox)
      requires Valid() && value.components != []
      requires IsExpansion(value.components, ListCandidates(sel.Simples(), extensions))
      modifies this`nextBoxID, this`selectors, this`originalOf, this`arrivals
      ensures Valid() && fresh(box) && box.value == value && arrivals == old(arrivals)[box := [declared]]
      ensures originalOf == old(originalOf)[box := sel]
      ensures box.id == old(nextBoxID) && nextBoxID == old(nextBoxID) + 1
      ensures selectors == WithRegistered(old(selectors), SimplesIn(value.Simples()), box)
    {
      hide ListCandidates, IsExpansion, AllIndexed, AllMean, IndexOver, DistinctIDs, SimplesIn, WithRegistered;
      hide RulesShape, Follows, ChainFree, RulesOf, BoxMeaning;
      ghost var index, values := selectors, Values();
      assert values.Keys == originalOf.Keys;
      ExpandedBoxMeaning(sel.Simples(), value, extensions, declared);
      box := new ModifiableBox(value, nextBoxID);
      NewBoxJoins(index, originalOf, values, sel, value, box, declared, arrivals);
      nextBoxID, originalOf, arrivals := nextBoxID + 1, originalOf[box := sel], arrivals[box := [declared]];
      RegisterSelector(value, box);
      Installed(values, old(originalOf), sel, value, box);
    }

    /** The originals once `sel` is known; an invisible list adds none. */
    ghost function OriginalsWith(sel: SelectorList): set<ComplexSelector>
      reads this`originals
    {
      if exists c <- sel.components :: forall s <- c.simples :: !s.Placeholder?
      then originals + set c <- sel.components else originals
    }

    /**
     Registers `sel`, extended with everything registered so far, in a new box. A
     visible list is original: each of its members keeps an equal in the box.
     */
    method AddSelector(sel: SelectorList) returns (box: ModifiableBox)
      requires Valid() && sel.components != []
      modifies this
      ensures Valid() && fresh(box) && arrivals == old(arrivals)[box := [declared]]
      ensures originalOf == old(originalOf)[box := sel] && declared == old(declared)
      ensures box.id == old(nextBoxID) && nextBoxID == old(nextBoxID) + 1
      ensures extensions == old(extensions) && extensionsByExtender == old(extensionsByExtender)
      ensures sourceSpecificity == old(sourceSpecificity)
      ensures selectors == WithRegistered(old(selectors), SimplesIn(box.value.Simples()), box)
      ensures IsExpansion(box.value.components, ListCandidates(sel.Simples(), extensions))
      ensures old(OriginalsWith(sel)) <= originals && NewOriginals(sel, old(OriginalsWith(sel)), originals)
      ensures KeepsOriginals(sel.components, old(OriginalsWith(sel)), box.value.components)
      ensures TrimmedValue(sourceSpecificity, sel, box.value, extensions)
    {
      hide ListCandidates, IsExpansion, IndexValid, RulesValid, MeaningValid, SimplesIn, WithRegistered;
      hide KeepsOriginals, NewOriginals, TrimmedValue, Irredundant;
      if !sel.IsInvisible() {
        originals := originals + set c <- sel.components;
      }
      var value := sel;
      if extensions != map[] {
        value := ExtendList(sel, extensions);
      } else {
        NothingToExtend(sel);
        NothingToTrim(sourceSpecificity, sel);
        AllKeepThemselves(sel.components, originals);
        NewOriginalsStart(sel, originals);
      }
      box := Install(sel, value);
    }

    /**
     Registers one variant of an extender for the extension's target; a variant
     that is new is indexed and, if its target is being extended, returned too.
     */
    method AddVariant(extension: Extension, complex: ComplexSelector, newExts: ExtensionMap, additional: ExtensionMap)
      returns (more: ExtensionMap, ghost variant: Extension)
      requires RulesShape(extensions, extensionsByExtender) && Entry(extension, extensions)
      modifies this`extensions, this`extensionsByExtender
      ensures RulesShape(extensions, extensionsByExtender)
      ensures variant.Base? && fresh(variant.token) && variant == extension.WithExtender(variant.token, complex)
      ensures Melded(old(extensions), extensions, [variant])
      ensures RulesOf(extensions) == old(RulesOf(extensions)) + {Rule(complex.simples, extension.target)}
      ensures extensions.Keys == old(extensions.Keys)
      ensures more.Keys <= additional.Keys + newExts.Keys
      ensures RulesOf(more) == RulesOf(additional)
                + RulesAt({Rule(complex.simples, extension.target)} - old(RulesOf(extensions)), newExts.Keys)
    {
      hide RulesShape, RulesOf, IndexByExtender, Melded;
      var target := extension.target;
      var sources := extensions[target];
      var token := new Token();
      var withExtender := extension.WithExtender(token, complex);
      more, variant := additional, withExtender;
      var i := IndexOfExtender(sources, complex);
      SourceIndexMeansRule(extensions, target, complex);
      if i < |sources| {
        SourceIsEntry(extensions, extensionsByExtender, target, sources[i]);
        MergeInStore(sources[i], withExtender);
        var merged := MergeExtensions(sources[i], withExtender).extension;
        PutKeepsShape(extensions, extensionsByExtender, merged);
        FilingMelds(extensions, target, withExtender, merged);
        extensions := extensions[target := PutExtension(sources, merged)];
      } else {
        PutKeepsShape(extensions, extensionsByExtender, withExtender);
        FilingMelds(extensions, target, withExtender, withExtender);
        extensions := extensions[target := PutExtension(sources, withExtender)];
        IndexKeepsShape(extensions, extensionsByExtender, withExtender);
        extensionsByExtender := IndexByExtender(extensionsByExtender, complex.simples, withExtender);
        if target in newExts {
          PutRules(additional, target, withExtender);
          more := additional[target := PutExtension(SourcesFor(additional, target), withExtender)];
        }
      }
    }

    method AddVariants(extension: Extension, variants: seq<ComplexSelector>, newExts: ExtensionMap, additional: ExtensionMap)
      returns (more: ExtensionMap, ghost made: seq<Extension>)
      requires RulesShape(extensions, extensionsByExtender) && Entry(extension, extensions)
      modifies this`extensions, this`extensionsByExtender
      ensures RulesShape(extensions, extensionsByExtender)
      ensures NewVariants(made, extension, variants) && forall v <- made :: v.Base? && fresh(v.token)
      ensures Melded(old(extensions), extensions, made)
      ensures RulesOf(extensions) == old(RulesOf(extensions)) + VariantRules(variants, extension.target)
      ensures extensions.Keys == old(extensions.Keys)
      ensures more.Keys <= additional.Keys + newExts.Keys
      ensures RulesOf(more) == RulesOf(additional)
                + RulesAt(VariantRules(variants, extension.target) - old(RulesOf(extensions)), newExts.Keys)
    {
      hide RulesShape, RulesOf, RulesAt, Melded;
      more, made := additional, [];
      NothingMelds(extensions);
      ghost var before := RulesOf(extensions);
      NoNewRules(before, newExts.Keys);
      assert VariantRules(variants[..0], extension.target) - before == before - before;
      for j := 0 to |variants|
        invariant RulesShape(extensions, extensionsByExtender)
        invariant NewVariants(made, extension, variants) && forall v <- made :: v.Base? && fresh(v.token)
        invariant Melded(old(extensions), extensions, made)
        invariant RulesOf(extensions) == old(RulesOf(extensions)) + VariantRules(variants[..j], extension.target)
        invariant extensions.Keys == old(extensions.Keys)
        invariant more.Keys <= additional.Keys + newExts.Keys
        invariant RulesOf(more) == RulesOf(additional)
                    + RulesAt(VariantRules(variants[..j], extension.target) - before, newExts.Keys)
      {
        ghost var now, exts, variant := RulesOf(extensions), extensions, extension;
        more, variant := AddVariant(extension, variants[j], newExts, more);
        MeldedConcat(old(extensions), exts, extensions, made, [variant]);
        made := made + [variant];
        NewRulesAt(before, now, {Rule(variants[j].simples, extension.target)}, newExts.Keys);
        assert now - before == VariantRules(variants[..j], extension.target) - before;
        assert now + {Rule(variants[j].simples, extension.target)} - before
               == VariantRules(variants[..j + 1], extension.target) - before;
        assert variants[..j + 1] == variants[..j] + [variants[j]];
      }
      assert variants[..|variants|] == variants;
    }

    /**
     Extends each existing extender with the new extensions and registers the
     variants. Variants of a target that is itself being extended are returned.
     */
    method ExtendExistingExtensions(exts: seq<Extension>, newExts: ExtensionMap)
      returns (additional: ExtensionMap, ghost variants: seq<Extension>)
      requires RulesShape(extensions, extensionsByExtender)
      requires forall x <- exts :: Entry(x, extensions)
      requires RulesOf(newExts) <= RulesOf(extensions)
      modifies this`originals, this`extensions, this`extensionsByExtender
      ensures RulesShape(extensions, extensionsByExtender)
      ensures old(RulesOf(extensions)) <= RulesOf(extensions)
      ensures Follows(old(RulesOf(extensions)), RulesOf(extensions))
      ensures extensions.Keys == old(extensions.Keys)
      ensures Melded(old(extensions), extensions, variants)
      ensures AreVariants(variants, exts, newExts) && forall v <- variants :: v.Base? && fresh(v.token)
      ensures additional.Keys <= newExts.Keys
      ensures RulesOf(additional) == RulesAt(RulesOf(extensions) - old(RulesOf(extensions)), newExts.Keys)
      ensures forall x <- exts :: Touches(x.extender.simples, newExts) ==> Propagated(x, newExts, RulesOf(extensions))
    {
      hide RulesShape, RulesOf, VariantRules, Follows, Propagated, IsExpansion, OwnCandidates, Candidates, Touches, RulesAt;
      hide Melded, AreVariants, NewVariants;
      additional, variants := map[], [];
      NothingMelds(extensions);
      NoVariants(exts, newExts);
      ghost var before := RulesOf(extensions);
      NothingFollows(before, RulesOf(additional));
      NoNewRules(before, newExts.Keys);
      for i := 0 to |exts|
        invariant RulesShape(extensions, extensionsByExtender)
        invariant before <= RulesOf(extensions) && Follows(before, RulesOf(extensions))
        invariant extensions.Keys == old(extensions.Keys)
        invariant Melded(old(extensions), extensions, variants)
        invariant AreVariants(variants, exts, newExts) && forall v <- variants :: v.Base? && fresh(v.token)
        invariant additional.Keys <= newExts.Keys
        invariant RulesOf(additional) == RulesAt(RulesOf(extensions) - before, newExts.Keys)
        invariant forall x <- exts[..i] :: Touches(x.extender.simples, newExts) ==> Propagated(x, newExts, RulesOf(extensions))
      {
        assert exts[..i + 1] == exts[..i] + [exts[i]];
        var extension := exts[i];
        assert extension in exts && Entry(extension, old(extensions));
        ghost var rules := RulesOf(extensions);
        var extended := ExtendComplex(extension.extender, newExts);
        if extended.None? {
          continue;
        }
        var selectors := extended.value;
        if selectors[0].Equals(extension.extender) {
          selectors := selectors[1..];
        }
        ghost var now, made := extensions, [];
        additional, made := AddVariants(extension, selectors, newExts, additional);
        MeldedConcat(old(extensions), now, extensions, variants, made);
        MoreVariants(variants, made, exts, newExts, extension, extended.value, selectors);
        variants := variants + made;
        NewRulesAt(before, rules, VariantRules(selectors, extension.target), newExts.Keys);
        VariantsRegistered(extension, newExts, extended.value, selectors, before);
        FollowsUnion(before, rules, VariantRules(selectors, extension.target));
        RegisteredAll(extension, newExts, extended.value, selectors, RulesOf(extensions));
        forall x | x in exts[..i] && Touches(x.extender.simples, newExts)
          ensures Propagated(x, newExts, RulesOf(extensions))
        {
          PropagatedMore(x, newExts, rules, RulesOf(extensions));
        }
      }
      assert exts[..|exts|] == exts;
    }

    /**
     Files one extender under its target: merged into an equal one if there is one,
     otherwise added, indexed and returned.
     */
    method RecordExtension(complex: ComplexSelector, target: Simple, isOptional: bool)
      returns (added: Option<Extension>, ghost use: Extension)
      requires RulesShape(extensions, extensionsByExtender) && target in extensions
      modifies this`extensions, this`extensionsByExtender, this`sourceSpecificity
      ensures RulesShape(extensions, extensionsByExtender)
      ensures extensions.Keys == old(extensions.Keys)
      ensures RulesOf(extensions) == old(RulesOf(extensions)) + {Rule(complex.simples, target)}
      ensures added.None? <==> Rule(complex.simples, target) in old(RulesOf(extensions))
      ensures added.Some? ==> added.value == use
      ensures use.Base? && fresh(use.token) && use == Base(use.token, complex, target, Option.None, isOptional)
      ensures Melded(old(extensions), extensions, [use])
      ensures extensionsByExtender == if added.Some?
                then IndexByExtender(old(extensionsByExtender), complex.simples, added.value)
                else old(extensionsByExtender)
      ensures sourceSpecificity == if added.Some?
                then RecordSpecificity(old(sourceSpecificity), complex.simples, Specificity(complex.simples))
                else old(sourceSpecificity)
    {
      hide RulesShape, RulesOf, IndexByExtender, RecordSpecificity, Specificity, Melded;
      var token := new Token();
      var extension := Base(token, complex, target, Option.None, isOptional);
      use := extension;
      var sources := extensions[target];
      var i := IndexOfExtender(sources, complex);
      SourceIndexMeansRule(extensions, target, complex);
      if i < |sources| {
        SourceIsEntry(extensions, extensionsByExtender, target, sources[i]);
        MergeInStore(sources[i], extension);
        var merged := MergeExtensions(sources[i], extension).extension;
        PutKeepsShape(extensions, extensionsByExtender, merged);
        FilingMelds(extensions, target, extension, merged);
        extensions := extensions[target := PutExtension(sources, merged)];
        return Option.None, use;
      }
      PutKeepsShape(extensions, extensionsByExtender, extension);
      FilingMelds(extensions, target, extension, extension);
      extensions := extensions[target := PutExtension(sources, extension)];
      IndexKeepsShape(extensions, extensionsByExtender, extension);
      extensionsByExtender := IndexByExtender(extensionsByExtender, complex.simples, extension);
      sourceSpecificity := RecordSpecificity(sourceSpecificity, complex.simples, Specificity(complex.simples));
      return Some(extension), use;
    }

    /** Files every extender of a list; the new ones are returned if anything may need them. */
    method RecordExtensions(extender: SelectorList, target: Simple, isOptional: bool, wanted: bool)
      returns (newExtensions: seq<Extension>, ghost uses: seq<Extension>)
      requires RulesShape(extensions, extensionsByExtender)
      modifies this`extensions, this`extensionsByExtender, this`sourceSpecificity
      ensures RulesShape(extensions, extensionsByExtender) && extensions.Keys == old(extensions.Keys) + {target}
      ensures RulesOf(extensions) == old(RulesOf(extensions)) + DeclaredBy(extender.components, target)
      ensures UsesFor(uses, extender.components, target, isOptional) && forall u <- uses :: fresh(u.token)
      ensures Melded(old(extensions), extensions, uses)
      ensures Includes(old(extensionsByExtender), extensionsByExtender)
      ensures RulesOf(map[target := newExtensions])
              == if wanted then DeclaredBy(extender.components, target) - old(RulesOf(extensions)) else {}
      ensures !wanted ==> newExtensions == []
      ensures SpecificityRecorded(old(sourceSpecificity), sourceSpecificity, extender.components, target,
                                  old(RulesOf(extensions)))
    {
      hide RulesShape, RulesOf, IndexByExtender, RecordSpecificity, Melded, UsesFor, DeclaredBy, SpecificityRecorded;
      hide Selectors.Specificity;
      newExtensions, uses := [], [];
      ghost var before := RulesOf(extensions);
      NoneRecorded(sourceSpecificity, target, before);
      NoneDeclared(target);
      NothingMelds(extensions);
      NoUses(target, isOptional);
      if target !in extensions {
        EmptySourcesAddNoRules(extensions, target);
        EmptySourcesMeld(extensions, target);
        EmptySourcesKeepShape(extensions, extensionsByExtender, target);
        extensions := extensions[target := []];
      }
      NoExtensionsNoRules(target);
      for i := 0 to |extender.components|
        invariant RulesShape(extensions, extensionsByExtender) && extensions.Keys == old(extensions.Keys) + {target}
        invariant RulesOf(extensions) == before + DeclaredBy(extender.components[..i], target)
        invariant UsesFor(uses, extender.components[..i], target, isOptional)
        invariant forall u <- uses :: u.Base? && fresh(u.token)
        invariant Melded(old(extensions), extensions, uses)
        invariant Includes(old(extensionsByExtender), extensionsByExtender)
        invariant RulesOf(map[target := newExtensions])
                  == if wanted then DeclaredBy(extender.components[..i], target) - before else {}
        invariant !wanted ==> newExtensions == []
        invariant SpecificityRecorded(old(sourceSpecificity), sourceSpecificity, extender.components[..i], target, before)
      {
        var complex := extender.components[i];
        assert extender.components[..i + 1] == extender.components[..i] + [complex];
        ghost var byExtender, exts, worth := extensionsByExtender, extensions, sourceSpecificity;
        OneMoreDeclared(extender.components[..i], complex, target);
        var added;
        ghost var use;
        assert forall u <- uses :: u.Base? && allocated(u.token);
        added, use := RecordExtension(complex, target, isOptional);
        MeldedConcat(old(extensions), exts, extensions, uses, [use]);
        OneMoreRecorded(old(sourceSpecificity), worth, sourceSpecificity, extender.components[..i], complex, target, before);
        OneMoreUse(uses, use, extender.components[..i], complex, target, isOptional);
        uses := uses + [use];
        if added.Some? {
          IndexByExtenderKeys(byExtender, complex.simples, added.value);
          IncludesTransitive(old(extensionsByExtender), byExtender, extensionsByExtender);
          if wanted {
            AppendedRule(target, newExtensions, added.value);
            newExtensions := newExtensions + [added.value];
          }
        }
      }
      assert extender.components[..|extender.components|] == extender.components;
    }

    /** The new extensions of `target`, and the variants they make of extenders mentioning it. */
    method WithChained(target: Simple, newExtensions: seq<Extension>, existingExtOk: bool)
      returns (newByTarget: ExtensionMap, ghost variants: seq<Extension>)
      requires RulesShape(extensions, extensionsByExtender)
      requires existingExtOk ==> target in extensionsByExtender
      requires RulesOf(map[target := newExtensions]) <= RulesOf(extensions)
      modifies this`originals, this`extensions, this`extensionsByExtender
      ensures RulesShape(extensions, extensionsByExtender)
      ensures old(RulesOf(extensions)) <= RulesOf(extensions) && Follows(old(RulesOf(extensions)), RulesOf(extensions))
      ensures extensions.Keys == old(extensions.Keys)
      ensures Melded(old(extensions), extensions, variants) && forall v <- variants :: v.Base? && fresh(v.token)
      ensures newByTarget.Keys == {target} && RulesOf(newByTarget) <= RulesOf(extensions)
      ensures RulesOf(newByTarget)
              == RulesOf(map[target := newExtensions]) + RulesAt(RulesOf(extensions) - old(RulesOf(extensions)), {target})
      ensures existingExtOk ==>
                AllPropagated(old(extensionsByExtender[target]), map[target := newExtensions], RulesOf(extensions))
      ensures !existingExtOk ==>
                newByTarget == map[target := newExtensions] && extensions == old(extensions) && variants == []
                && extensionsByExtender == old(extensionsByExtender) && originals == old(originals)
    {
      hide RulesShape, RulesOf, Follows, MergeMaps, Propagated, Touches, RulesAt, Melded;
      newByTarget, variants := map[target := newExtensions], [];
      NothingMelds(extensions);
      NothingFollows(RulesOf(extensions), {});
      NoNewRules(RulesOf(extensions), {target});
      if existingExtOk {
        EntriesOf(extensions, extensionsByExtender, target);
        var additional;
        additional, variants := ExtendExistingExtensions(extensionsByExtender[target], newByTarget);
        assert newByTarget.Keys == {target};
        RulesAtAreRules(RulesOf(extensions), old(RulesOf(extensions)), {target});
        MergeMapsRules(newByTarget, additional);
        MergeMapsKeys(newByTarget, additional);
        newByTarget := MergeMaps(newByTarget, additional);
      }
    }

    /** Extends the boxes listed under `target`; no other box holds it. */
    method ExtendBoxesOf(target: Simple, newByTarget: ExtensionMap)
      requires IndexValid() && newByTarget.Keys == {target}
      modifies this`originals, this`selectors, originalOf.Keys
      ensures IndexValid() && (target !in old(selectors) ==> selectors == old(selectors))
      ensures AllExpanded(old(Values()), Values(), newByTarget)
      ensures AllExtended(old(Values()), Values(), RulesOf(newByTarget))
      ensures AllTrimmed(sourceSpecificity, old(Values()), Values(), newByTarget)
    {
      hide TrimmedValue, RulesOf, AllIndexed, AllExpanded, AllExtended, IndexOver, DistinctIDs, IsExpansion, ListCandidates;
      ghost var index, values := selectors, Values();
      assert values.Keys == originalOf.Keys;
      var boxes := BoxesFor(selectors, target);
      if target in selectors {
        BoxesOfIndex(index, originalOf.Keys, target);
        ExtendExistingSelectors(boxes, newByTarget);
      }
      RewrittenBoxesExtend(index, values, Values(), target, newByTarget);
    }

    /**
     Applies the new extensions of `target` to extenders and boxes. The boxes are
     rewritten with `exts`, and extended by `applied`.
     */
    method ApplyNew(target: Simple, newExtensions: seq<Extension>, existingExtOk: bool, ghost newRules: set<Rule>)
      returns (ghost exts: ExtensionMap, ghost applied: set<Rule>, ghost variants: seq<Extension>)
      requires IndexValid() && RulesShape(extensions, extensionsByExtender)
      requires newExtensions != [] ==> RulesOf(map[target := newExtensions]) == newRules
      requires newExtensions == [] && newRules != {} ==> target !in selectors
      requires newRules <= RulesOf(extensions) && forall r <- newRules :: r.target == target
      requires existingExtOk ==> target in extensionsByExtender
      modifies this`originals, this`extensions, this`extensionsByExtender, this`selectors, originalOf.Keys
      ensures IndexValid() && RulesShape(extensions, extensionsByExtender)
      ensures target !in old(selectors) ==> selectors == old(selectors)
      ensures old(RulesOf(extensions)) <= RulesOf(extensions) && Follows(old(RulesOf(extensions)), RulesOf(extensions))
      ensures newRules <= applied <= RulesOf(extensions) && extensions.Keys == old(extensions.Keys)
      ensures AllExpanded(old(Values()), Values(), exts) && AllExtended(old(Values()), Values(), applied)
      ensures AllTrimmed(sourceSpecificity, old(Values()), Values(), exts)
      ensures exts.Keys <= {target} && (newExtensions != [] || newRules == {} ==> RulesOf(exts) == applied)
      ensures applied == newRules + RulesAt(RulesOf(extensions) - old(RulesOf(extensions)), {target})
      ensures newExtensions == [] || !existingExtOk ==> extensions == old(extensions) && variants == []
      ensures Melded(old(extensions), extensions, variants) && forall v <- variants :: v.Base? && fresh(v.token)
      ensures newExtensions != [] && existingExtOk ==>
                AllPropagated(old(extensionsByExtender[target]), map[target := newExtensions], RulesOf(extensions))
    {
      hide RulesShape, RulesOf, Follows, AllIndexed, IndexOver, DistinctIDs, AllExpanded, AllExtended, AllPropagated, Values, RulesAt;
      hide Melded, AllTrimmed;
      NoNewRules(RulesOf(extensions), {target});
      if newExtensions == [] {
        NothingFollows(RulesOf(extensions), {});
        NothingToRewrite(selectors, Values(), target, newRules);
        NothingExpands(Values());
        NothingTrimmed(sourceSpecificity, Values());
        NothingMelds(extensions);
        return map[], newRules, [];
      }
      var newByTarget;
      newByTarget, variants := WithChained(target, newExtensions, existingExtOk);
      ExtendBoxesOf(target, newByTarget);
      return newByTarget, RulesOf(newByTarget), variants;
    }

    /**
     Registers `extender {@extend target}` and applies what is new to the extenders
     and selectors that mention the target: every extender that does gets its
     variants, and every box is rewritten with `exts`, and so extended by `applied`.
     */
    method DeclareAndApply(extender: SelectorList, target: Simple, isOptional: bool)
      returns (ghost added: seq<Extension>, ghost exts: ExtensionMap, ghost applied: set<Rule>,
               ghost uses: seq<Extension>, ghost variants: seq<Extension>)
      requires IndexValid() && RulesValid() && extender.components != []
      modifies this`extensions, this`extensionsByExtender, this`sourceSpecificity, this`originals, this`selectors
      modifies this`declared, originalOf.Keys
      ensures IndexValid() && RulesValid() && (target !in old(selectors) ==> selectors == old(selectors))
      ensures declared == old(declared) + DeclaredBy(extender.components, target)
      ensures Melded(old(extensions), extensions, uses + variants)
      ensures UsesFor(uses, extender.components, target, isOptional) && forall u <- uses :: fresh(u.token)
      ensures forall v <- variants :: v.Base? && fresh(v.token)
      ensures target !in old(extensionsByExtender) ==> variants == []
      ensures applied == RulesAt(RulesOf(extensions) - old(RulesOf(extensions)), {target})
      ensures ChainFree(declared) ==> declared == old(declared) + applied
      ensures AllExtended(old(Values()), Values(), applied)
      ensures AllExpanded(old(Values()), Values(), exts) && exts.Keys <= {target}
      ensures AllTrimmed(sourceSpecificity, old(Values()), Values(), exts)
      ensures SpecificityRecorded(old(sourceSpecificity), sourceSpecificity, extender.components, target, old(RulesOf(extensions)))
      ensures target in old(selectors) || target in old(extensionsByExtender) ==>
                && RulesOf(exts) == applied
                && RulesOf(map[target := added]) == DeclaredBy(extender.components, target) - old(RulesOf(extensions))
      ensures target !in old(extensionsByExtender) ==>
                RulesOf(extensions) == old(RulesOf(extensions)) + DeclaredBy(extender.components, target)
      ensures target in old(extensionsByExtender) ==>
                added == [] || AllPropagated(old(extensionsByExtender[target]), map[target := added], RulesOf(extensions))
    {
      hide *;
      RulesParts();
      var existingExtOk := target in extensionsByExtender;
      ghost var rulesBefore := RulesOf(extensions);
      ghost var newRules := DeclaredBy(extender.components, target) - rulesBefore;
      var newExtensions;
      newExtensions, uses := RecordExtensions(extender, target, isOptional, target in selectors || existingExtOk);
      ghost var filed := extensions;
      declared := declared + DeclaredBy(extender.components, target);
      ghost var recorded := RulesOf(extensions);
      ChainedIsNotChainFree(old(extensions), old(extensionsByExtender), old(declared), extender.components, target);
      NoExtensionsNoRules(target);
      DeclaredTargets(extender.components, target);
      IncludesAt(old(extensionsByExtender), extensionsByExtender, target);
      added := newExtensions;
      assert added == [] ==> RulesOf(map[target := added]) == {};
      ghost var byExtender := extensionsByExtender;
      exts, applied, variants := ApplyNew(target, newExtensions, existingExtOk, newRules);
      MeldedConcat(old(extensions), filed, extensions, uses, variants);
      PropagatedForFewer(old(extensionsByExtender), byExtender, target, map[target := added], RulesOf(extensions));
      PopulatedWith(old(extensions), extensions, target, DeclaredBy(extender.components, target));
      DeclaredAndApplied(old(declared), rulesBefore, extender.components, target, recorded, RulesOf(extensions),
                         newExtensions != [] && existingExtOk);
      RulesWhole();
    }

    lemma RulesParts()
      requires RulesValid()
      ensures RulesShape(extensions, extensionsByExtender) && Populated(extensions)
      ensures declared <= RulesOf(extensions) && Follows(declared, RulesOf(extensions))
      ensures ChainFree(declared) ==> RulesOf(extensions) == declared
    {}

    lemma RulesWhole()
      requires RulesShape(extensions, extensionsByExtender) && Populated(extensions)
      requires declared <= RulesOf(extensions) && Follows(declared, RulesOf(extensions))
      requires ChainFree(declared) ==> RulesOf(extensions) == declared
      ensures RulesValid()
    {}

    /**
     Adds `extender {@extend target}`. Every box keeps its meaning and matches all
     that the new rules for the target let it match; they have arrived at every box.
     */
    method AddExtension(extender: SelectorList, target: Simple, isOptional: bool)
      returns (ghost added: seq<Extension>, ghost exts: ExtensionMap, ghost uses: seq<Extension>,
               ghost variants: seq<Extension>)
      requires Valid() && extender.components != []
      modifies this, originalOf.Keys
      ensures Valid()
      ensures declared == old(declared) + DeclaredBy(extender.components, target)
      ensures Melded(old(extensions), extensions, uses + variants)
      ensures UsesFor(uses, extender.components, target, isOptional) && forall u <- uses :: fresh(u.token)
      ensures forall v <- variants :: v.Base? && fresh(v.token)
      ensures target !in old(extensionsByExtender) ==> variants == []
      ensures arrivals == Arrived(old(arrivals), declared - old(declared))
      ensures AllComplete(old(Values()), Values(), RulesAt(RulesOf(extensions) - old(RulesOf(extensions)), {target}))
      ensures AllExpanded(old(Values()), Values(), exts) && exts.Keys <= {target}
      ensures AllTrimmed(sourceSpecificity, old(Values()), Values(), exts)
      ensures SpecificityRecorded(old(sourceSpecificity), sourceSpecificity, extender.components, target, old(RulesOf(extensions)))
      ensures target in old(selectors) || target in old(extensionsByExtender) ==>
                && RulesOf(exts) == RulesAt(RulesOf(extensions) - old(RulesOf(extensions)), {target})
                && RulesOf(map[target := added]) == DeclaredBy(extender.components, target) - old(RulesOf(extensions))
      ensures target !in old(extensionsByExtender) ==>
                RulesOf(extensions) == old(RulesOf(extensions)) + DeclaredBy(extender.components, target)
      ensures target in old(extensionsByExtender) ==>
                added == [] || AllPropagated(old(extensionsByExtender[target]), map[target := added], RulesOf(extensions))
      ensures originalOf == old(originalOf) && nextBoxID == old(nextBoxID)
      ensures target !in old(selectors) ==> selectors == old(selectors)
    {
      hide RulesShape, Populated, RulesOf, Follows, ChainFree, DeclaredBy, IndexValid, Values, RulesAt;
      hide AllMean, AllExpanded, AllExtended, AllComplete, AllTrimmed, AllPropagated, Arrived, Melded, UsesFor;
      hide SpecificityRecorded;
      ghost var applied;
      added, exts, applied, uses, variants := DeclareAndApply(extender, target, isOptional);
      RulesAtAreRules(RulesOf(extensions), old(RulesOf(extensions)), {target});
      LastArrived(old(declared), old(RulesOf(extensions)), declared, applied);
      MeaningStep(originalOf, old(Values()), Values(), old(declared), declared, applied, applied, RulesOf(extensions),
                  arrivals, declared - old(declared));
      arrivals := Arrived(arrivals, declared - old(declared));
    }
  }

  /** The extensions made for the given variants of an extender. */
  predicate NewVariants(made: seq<Extension>, ext: Extension, variants: seq<ComplexSelector>) {
    forall v <- made :: v.Base? && v.extender in variants && v == ext.WithExtender(v.token, v.extender)
  }

  lemma NoVariants(exts: seq<Extension>, newExts: ExtensionMap)
    ensures AreVariants([], exts, newExts)
  {}

  lemma MoreVariants(variants: seq<Extension>, made: seq<Extension>, exts: seq<Extension>, newExts: ExtensionMap,
                     ext: Extension, extended: seq<ComplexSelector>, selectors: seq<ComplexSelector>)
    requires AreVariants(variants, exts, newExts) && NewVariants(made, ext, selectors) && ext in exts && Stored(ext)
    requires Touches(ext.extender.simples, newExts) && forall c <- selectors :: c in extended
    requires IsExpansion(extended, OwnCandidates(ext.extender.simples, newExts))
    ensures AreVariants(variants + made, exts, newExts)
  {
    hide Touches, OwnCandidates, IsExpansion;
    ExpansionMembers(extended, OwnCandidates(ext.extender.simples, newExts));
    forall v | v in made ensures VariantOf(v, ext, newExts) {}
  }

  lemma NoneDeclared(target: Simple)
    ensures DeclaredBy([], target) == {}
  {}

  lemma OneMoreDeclared(extenders: seq<ComplexSelector>, complex: ComplexSelector, target: Simple)
    ensures DeclaredBy(extenders + [complex], target) == DeclaredBy(extenders, target) + {Rule(complex.simples, target)}
  {}

  lemma NoUses(target: Simple, isOptional: bool)
    ensures UsesFor([], [], target, isOptional)
  {}

  lemma OneMoreUse(uses: seq<Extension>, use: Extension, extenders: seq<ComplexSelector>, complex: ComplexSelector,
                   target: Simple, isOptional: bool)
    requires UsesFor(uses, extenders, target, isOptional)
    requires use.Base? && use == Base(use.token, complex, target, None, isOptional)
    requires forall u <- uses :: u.Base? && u.token != use.token
    ensures UsesFor(uses + [use], extenders + [complex], target, isOptional)
  {}

  lemma LastArrived(before: set<Rule>, registered: set<Rule>, declared: set<Rule>, applied: set<Rule>)
    requires before <= declared && applied !! registered && (ChainFree(before) ==> registered == before)
    requires ChainFree(declared) ==> declared == before + applied
    ensures ChainFree(declared) ==> declared - before == applied
  {
    ChainFreeSubset(before, declared);
  }

  lemma PopulatedWith(before: ExtensionMap, after: ExtensionMap, target: Simple, declared: set<Rule>)
    requires Populated(before) && after.Keys == before.Keys + {target}
    requires RulesOf(before) + declared <= RulesOf(after) && IsTarget(target, declared)
    ensures Populated(after)
  {
    hide RulesOf, Populated, IsTarget;
    TargetOfMore(target, declared, RulesOf(after));
    PopulatedMore(before, after, target);
  }

  lemma FollowsMeans(rules: set<Rule>, more: set<Rule>)
    requires Follows(rules, more)
    ensures forall e | Closed(e, rules) :: Closed(e, more)
  {}

  lemma TrimmedExtends(before: seq<Compound>, exts: ExtensionMap, after: SelectorList)
    requires IsExpansion(after.components, ListCandidates(before, exts))
    ensures Extends(before, after.Simples(), RulesOf(exts))
  {
    TrimmedCandidatesExtend(before, exts, after.Simples());
  }

  lemma MergeMapsKeys(a: ExtensionMap, b: ExtensionMap)
    ensures MergeMaps(a, b).Keys == a.Keys + b.Keys
  {}

  lemma DeclaredTargets(extenders: seq<ComplexSelector>, target: Simple)
    ensures forall r <- DeclaredBy(extenders, target) :: r.target == target
    ensures extenders != [] ==> IsTarget(target, DeclaredBy(extenders, target))
  {
    if extenders != [] {
      assert extenders[0] in extenders && Rule(extenders[0].simples, target) in DeclaredBy(extenders, target);
    }
  }

  lemma BoxesOfIndex(index: map<Simple, seq<ModifiableBox>>, boxes: set<ModifiableBox>, s: Simple)
    requires IndexOver(index, boxes) && s in index
    ensures NoRepeats(index[s]) && forall b <- index[s] :: b in boxes
  {}

  /** An extension whose target occurs in a registered extender makes a chain. */
  lemma ChainedIsNotChainFree(exts: ExtensionMap, byExtender: ExtensionMap, declared: set<Rule>,
                              extenders: seq<ComplexSelector>, target: Simple)
    requires RulesShape(exts, byExtender) && extenders != []
    requires ChainFree(declared) ==> RulesOf(exts) == declared
    ensures target in byExtender ==> !ChainFree(declared + DeclaredBy(extenders, target))
  {
    var after := declared + DeclaredBy(extenders, target);
    assert Rule(extenders[0].simples, target) in after;
    ChainFreeSubset(declared, after);
    if target in byExtender && ChainFree(declared) {
      ChainFreeMeansNoExtender(target, RulesOf(exts), declared, after);
    }
  }

  /** A box not indexed under a target holds nothing that rules for it could change. */
  lemma UnindexedExtends(index: map<Simple, seq<ModifiableBox>>, value: SelectorList, box: ModifiableBox,
                         target: Simple, rules: set<Rule>)
    requires IndexedIn(index, value, box)
    requires rules != {} ==> box !in BoxesFor(index, target)
    requires forall r <- rules :: r.target == target
    ensures Extends(value.Simples(), value.Simples(), rules)
  {
    assert rules != {} ==> target !in SimplesIn(value.Simples());
    assert forall c <- value.Simples(), s <- c :: s in SimplesIn(value.Simples());
    UntouchedExtends(value.Simples(), rules);
  }

  /** A box not indexed under the only target is its own expansion. */
  lemma UnindexedExpands(index: map<Simple, seq<ModifiableBox>>, value: SelectorList, box: ModifiableBox,
                         target: Simple, exts: ExtensionMap)
    requires IndexedIn(index, value, box) && box !in BoxesFor(index, target) && exts.Keys == {target}
    ensures IsExpansion(value.components, ListCandidates(value.Simples(), exts))
  {
    forall c | c in value.Simples() ensures !Touches(c, exts) {
      assert forall s <- c :: s in SimplesIn(value.Simples());
    }
    UntouchedCandidates(value.Simples(), exts);
    ExactIsExpansion(value.components);
  }

  lemma SourceIndexMeansRule(exts: ExtensionMap, target: Simple, complex: ComplexSelector)
    requires target in exts
    ensures IndexOfExtender(exts[target], complex) < |exts[target]| <==> Rule(complex.simples, target) in RulesOf(exts)
  {
    RulesOfMember(exts, Rule(complex.simples, target));
  }

  lemma EmptySourcesKeepShape(exts: ExtensionMap, byExtender: ExtensionMap, target: Simple)
    requires RulesShape(exts, byExtender) && target !in exts
    ensures RulesShape(exts[target := []], byExtender)
  {
    EmptySourcesAddNoRules(exts, target);
    forall s, x | s in byExtender && x in byExtender[s] ensures Entry(x, exts[target := []]) {
      assert Entry(x, exts);
    }
  }

  lemma NoExtensionsNoRules(target: Simple)
    ensures RulesOf(map[target := []]) == {}
  {}

  lemma AppendedRule(target: Simple, exts: seq<Extension>, ext: Extension)
    ensures RulesOf(map[target := exts + [ext]]) == RulesOf(map[target := exts]) + {Rule(ext.extender.simples, target)}
  {
    forall r
      ensures r in RulesOf(map[target := exts + [ext]])
        <==> r in RulesOf(map[target := exts]) + {Rule(ext.extender.simples, target)}
    {
      RulesOfMember(map[target := exts + [ext]], r);
      RulesOfMember(map[target := exts], r);
      assert (exts + [ext])[|exts|] == ext;
      assert forall i | 0 <= i < |exts| :: (exts + [ext])[i] == exts[i];
    }
  }

  lemma EntriesOf(exts: ExtensionMap, byExtender: ExtensionMap, s: Simple)
    requires RulesShape(exts, byExtender) && s in byExtender
    ensures forall x <- byExtender[s] :: Entry(x, exts)
  {}

  /** What declaring rules and applying them makes of the registered ones; `chained` if there were extenders to extend. */
  lemma DeclaredAndApplied(declared: set<Rule>, before: set<Rule>, extenders: seq<ComplexSelector>, target: Simple,
                           recorded: set<Rule>, registered: set<Rule>, chained: bool)
    requires declared <= before && Follows(declared, before) && (ChainFree(declared) ==> before == declared)
    requires recorded == before + DeclaredBy(extenders, target) && recorded <= registered
    requires Follows(recorded, registered) && (!chained ==> registered == recorded)
    requires chained ==> !ChainFree(declared + DeclaredBy(extenders, target))
    ensures var now, applied := declared + DeclaredBy(extenders, target), RulesAt(registered - before, {target});
            && now <= registered && Follows(now, registered)
            && applied == DeclaredBy(extenders, target) - before + RulesAt(registered - recorded, {target})
            && (ChainFree(now) ==> registered == now && now == declared + applied)
  {
    hide Follows, ChainFree, RulesAt, DeclaredBy;
    var now := declared + DeclaredBy(extenders, target);
    RecordedRules(declared, before, now, recorded, extenders, target);
    FollowsTransitive(now, recorded, registered);
    NewRulesOfTarget(before, recorded, registered, extenders, target);
    if ChainFree(now) {
      NoNewRules(registered, {target});
      assert registered - recorded == {};
    }
  }

  lemma RecordedRules(declared: set<Rule>, registered: set<Rule>, declaredAfter: set<Rule>, registeredAfter: set<Rule>,
                      extenders: seq<ComplexSelector>, target: Simple)
    requires declared <= registered && Follows(declared, registered)
    requires ChainFree(declared) ==> registered == declared
    requires declaredAfter == declared + DeclaredBy(extenders, target)
    requires registeredAfter == registered + DeclaredBy(extenders, target)
    ensures declaredAfter <= registeredAfter && Follows(declaredAfter, registeredAfter)
    ensures ChainFree(declaredAfter) ==> registered == declared && registeredAfter == declaredAfter
  {
    FollowsMore(declared, declaredAfter, registered);
    assert registered + declaredAfter == registeredAfter;
    ChainFreeSubset(declared, declaredAfter);
  }

  lemma NothingFollows(rules: set<Rule>, none: set<Rule>)
    ensures Follows(rules, rules)
    ensures RulesOf(map[]) == {}
  {}

  lemma FollowsUnion(rules: set<Rule>, a: set<Rule>, b: set<Rule>)
    requires Follows(rules, a) && Follows(rules, b)
    ensures Follows(rules, a + b)
  {}

  lemma VariantsRegistered(ext: Extension, newExts: ExtensionMap, extended: seq<ComplexSelector>,
                           variants: seq<ComplexSelector>, rules: set<Rule>)
    requires RuleFor(ext) in rules && RulesOf(newExts) <= rules
    requires Touches(ext.extender.simples, newExts)
    requires IsExpansion(extended, OwnCandidates(ext.extender.simples, newExts))
    requires forall v <- variants :: v in extended
    ensures Follows(rules, VariantRules(variants, ext.target))
  {
    ExpansionMembers(extended, OwnCandidates(ext.extender.simples, newExts));
    CandidatesMeaning(ext.extender.simples, newExts, {});
    VariantsFollow(ext, newExts, variants, rules);
  }

  lemma RegisteredAll(ext: Extension, newExts: ExtensionMap, extended: seq<ComplexSelector>,
                      variants: seq<ComplexSelector>, rules: set<Rule>)
    requires IsExpansion(extended, OwnCandidates(ext.extender.simples, newExts))
    requires RuleFor(ext) in rules && VariantRules(variants, ext.target) <= rules
    requires variants == extended || (extended != [] && extended[0].Equals(ext.extender) && variants == extended[1..])
    ensures Propagated(ext, newExts, rules)
  {
    forall v | v in extended ensures Rule(v.simples, ext.target) in rules {
      if v in variants {
        assert Rule(v.simples, ext.target) in VariantRules(variants, ext.target);
      } else {
        assert extended == [extended[0]] + extended[1..];
        assert v == extended[0];
      }
    }
    ExpansionPropagates(ext, newExts, extended, rules);
  }

  lemma SourceIsEntry(exts: ExtensionMap, byExtender: ExtensionMap, target: Simple, source: Extension)
    requires RulesShape(exts, byExtender) && target in exts && source in exts[target]
    ensures source.target == target && Stored(source)
  {}

  lemma NothingToExtend(list: SelectorList)
    ensures IsExpansion(list.components, ListCandidates(list.Simples(), map[]))
  {
    UntouchedCandidates(list.Simples(), map[]);
    ExactIsExpansion(list.components);
  }

  lemma NothingToTrim(specificity: map<Simple, nat>, list: SelectorList)
    ensures TrimmedValue(specificity, list, list, map[])
  {
    UntouchedCandidates(list.Simples(), map[]);
  }

  lemma UntouchedOwn(c: Compound, exts: ExtensionMap)
    requires !Touches(c, exts)
    ensures OwnCandidates(c, exts) == [c]
  {
    CandidatesMeaning(c, exts, {});
  }

  lemma {:induction false} UntouchedCandidates(list: seq<Compound>, exts: ExtensionMap)
    requires !TouchesAny(list, exts)
    ensures ListCandidates(list, exts) == list
  {
    hide Touches, OwnCandidates;
    if list != [] {
      var before, last := list[..|list| - 1], list[|list| - 1];
      assert list == before + [last];
      assert last in list && forall c <- before :: c in list;
      UntouchedCandidates(before, exts);
      UntouchedOwn(last, exts);
    }
  }

  lemma NewBoxIsDistinct(boxes: set<ModifiableBox>, box: ModifiableBox)
    requires DistinctIDs(boxes) && forall b <- boxes :: b.id < box.id
    ensures DistinctIDs(boxes + {box})
  {}

  lemma IndexOverMore(index: map<Simple, seq<ModifiableBox>>, boxes: set<ModifiableBox>, more: set<ModifiableBox>)
    requires IndexOver(index, boxes) && boxes <= more
    ensures IndexOver(index, more)
  {}

  lemma ExpandedBoxMeaning(original: seq<Compound>, now: SelectorList, exts: ExtensionMap, declared: set<Rule>)
    requires IsExpansion(now.components, ListCandidates(original, exts))
    requires Follows(declared, RulesOf(exts)) && (ChainFree(declared) ==> RulesOf(exts) == declared)
    ensures BoxMeaning(original, now.Simples(), declared, [declared])
  {
    TrimmedCandidatesExtend(original, exts, now.Simples());
    NewBoxMeaning(original, now.Simples(), declared, RulesOf(exts));
  }

  lemma SimplesInAppend(c: Compound, s: Simple)
    ensures SimplesIn([c + [s]]) == SimplesIn([c]) + {s}
  {
    assert [c][0] == c && [c + [s]][0] == c + [s];
    assert forall x :: x in SimplesIn([c]) <==> x in c;
    assert forall x :: x in SimplesIn([c + [s]]) <==> x in c + [s];
  }

  lemma AddBoxTwice(known: seq<ModifiableBox>, box: ModifiableBox)
    ensures AddBox(AddBox(known, box), box) == AddBox(known, box)
  {
    var added := AddBox(known, box);
    assert HasID(known, box.id) || added[|known|] == box;
  }

  lemma RegisterNothing(index: map<Simple, seq<ModifiableBox>>, box: ModifiableBox)
    ensures WithRegistered(index, {}, box) == index
    ensures SimplesIn([]) == {}
  {}

  lemma RegisterMore(index: map<Simple, seq<ModifiableBox>>, a: set<Simple>, b: set<Simple>, box: ModifiableBox)
    ensures WithRegistered(WithRegistered(index, a, box), b, box) == WithRegistered(index, a + b, box)
  {
    forall s | s in a && s in b
      ensures WithRegistered(WithRegistered(index, a, box), b, box)[s] == WithRegistered(index, a + b, box)[s]
    {
      AddBoxTwice(BoxesFor(index, s), box);
    }
  }

  lemma RegisterOne(index: map<Simple, seq<ModifiableBox>>, seen: set<Simple>, s: Simple, box: ModifiableBox)
    ensures var before := WithRegistered(index, seen, box);
            WithRegistered(index, seen + {s}, box) == before[s := AddBox(BoxesFor(before, s), box)]
  {
    AddBoxTwice(BoxesFor(index, s), box);
  }

  // ---- The loop of ExtendList ----

  lemma TrimmedValueOf(specificity: map<Simple, nat>, before: SelectorList, after: SelectorList, exts: ExtensionMap)
    ensures TrimmedValue(specificity, before, after, exts) <==>
              OnlyReplaced(specificity, ListCandidates(SimplesOf(before.components), exts), SimplesOf(after.components))
  {
    ListFacts(before);
    ListFacts(after);
  }

  lemma ListFacts(list: SelectorList)
    ensures list.Simples() == SimplesOf(list.components)
  {}

  predicate EqualsOriginal(list: SelectorList, originals: set<ComplexSelector>, o: ComplexSelector) {
    exists c <- list.components :: c in originals && c.simples == o.simples
  }

  predicate NewOriginals(list: SelectorList, before: set<ComplexSelector>, after: set<ComplexSelector>) {
    forall o | o in after && o !in before :: EqualsOriginal(list, before, o)
  }

  /** What has been accumulated for the first `i` complex selectors. */
  predicate ExpandedTo(components: seq<ComplexSelector>, exts: ExtensionMap, i: nat,
                       extended: Option<seq<ComplexSelector>>)
  {
    && i <= |components|
    && extended.Some? == TouchesAny(SimplesOf(components[..i]), exts)
    && IsExpansion(if extended.Some? then extended.value else components[..i],
                   ListCandidates(SimplesOf(components[..i]), exts))
  }

  /** Every original among the first `i` complex selectors has an equal original in `acc`. */
  predicate CopiesOriginals(components: seq<ComplexSelector>, before: set<ComplexSelector>, now: set<ComplexSelector>,
                            i: nat, acc: seq<ComplexSelector>)
  {
    forall j | 0 <= j < i && j < |components| && components[j] in before :: HasCopy(acc, now, components[j])
  }

  predicate HasCopy(acc: seq<ComplexSelector>, now: set<ComplexSelector>, c: ComplexSelector) {
    exists k | 0 <= k < |acc| :: acc[k] in now && acc[k].simples == c.simples
  }

  lemma ExpansionStart(components: seq<ComplexSelector>, exts: ExtensionMap)
    ensures ExpandedTo(components, exts, 0, None)
  {
    assert components[..0] == [] && SimplesOf([]) == [];
  }

  lemma SimplesOfConcat(a: seq<ComplexSelector>, b: seq<ComplexSelector>)
    ensures SimplesOf(a + b) == SimplesOf(a) + SimplesOf(b)
  {}

  lemma CoveredByMore(c: Compound, a: seq<Compound>, before: seq<Compound>, after: seq<Compound>)
    requires CoveredBy(c, a)
    ensures CoveredBy(c, before + a + after)
  {
    hide IsSuperselector;
    var j :| 0 <= j < |a| && IsSuperselector(a[j], c);
    assert (before + a + after)[|before| + j] == a[j];
  }

  lemma CoversConcat(a: seq<Compound>, ca: seq<Compound>, b: seq<Compound>, cb: seq<Compound>)
    requires Covers(a, ca) && Covers(b, cb)
    ensures Covers(a + b, ca + cb)
  {
    hide CoveredBy;
    forall i | 0 <= i < |ca + cb| ensures CoveredBy((ca + cb)[i], a + b) {
      if i < |ca| {
        CoveredByMore(ca[i], a, [], b);
        assert [] + a + b == a + b;
      } else {
        CoveredByMore(cb[i - |ca|], b, a, []);
        assert a + b + [] == a + b;
      }
    }
  }

  lemma ExpansionConcat(a: seq<ComplexSelector>, ca: seq<Compound>, b: seq<ComplexSelector>, cb: seq<Compound>)
    requires IsExpansion(a, ca) && IsExpansion(b, cb)
    ensures IsExpansion(a + b, ca + cb)
  {
    hide Covers, SimplesOf;
    SimplesOfConcat(a, b);
    CoversConcat(SimplesOf(a), ca, SimplesOf(b), cb);
  }

  lemma ExpandedStep(components: seq<ComplexSelector>, exts: ExtensionMap, i: nat,
                     before: Option<seq<ComplexSelector>>, own: Option<seq<ComplexSelector>>,
                     after: Option<seq<ComplexSelector>>)
    requires i < |components| && ExpandedTo(components, exts, i, before)
    requires own.Some? <==> Touches(components[i].simples, exts)
    requires own.Some? ==> IsExpansion(own.value, OwnCandidates(components[i].simples, exts))
    requires after == if own.None? && before.None? then None
                      else Some((if before.Some? then before.value else components[..i])
                                + (if own.Some? then own.value else [components[i]]))
    ensures ExpandedTo(components, exts, i + 1, after)
  {
    hide IsExpansion, Touches, Candidates;
    var c := components[i];
    var prefix, longer := SimplesOf(components[..i]), SimplesOf(components[..i + 1]);
    assert longer == prefix + [c.simples];
    assert components[..i + 1] == components[..i] + [c];
    var acc := if before.Some? then before.value else components[..i];
    var next := if own.Some? then own.value else [c];
    if own.None? {
      ExactIsExpansion([c]);
      assert SimplesOf([c]) == [c.simples];
      CandidatesMeaning(c.simples, exts, {});
    }
    ExpansionConcat(acc, ListCandidates(prefix, exts), next, OwnCandidates(c.simples, exts));
    assert longer[..|longer| - 1] == prefix;
  }

  lemma ExpansionDone(components: seq<ComplexSelector>, exts: ExtensionMap, extended: Option<seq<ComplexSelector>>)
    requires ExpandedTo(components, exts, |components|, extended)
    ensures extended.Some? == TouchesAny(SimplesOf(components), exts)
    ensures IsExpansion(if extended.Some? then extended.value else components,
                        ListCandidates(SimplesOf(components), exts))
    ensures extended.Some? && components != [] ==> extended.value != []
  {
    assert components[..|components|] == components;
    if extended.Some? && components != [] {
      var n := |components| - 1;
      var own := OwnCandidates(components[n].simples, exts);
      assert SimplesOf(components)[n] == components[n].simples;
      CandidatesMeaning(components[n].simples, exts, {});
      assert own != [];
      assert ListCandidates(SimplesOf(components), exts) != [];
      assert CoveredBy(ListCandidates(SimplesOf(components), exts)[0], SimplesOf(extended.value));
    }
  }

  // ---- What trimming may drop, along the loop ----

  predicate ReplacedTo(specificity: map<Simple, nat>, components: seq<ComplexSelector>, exts: ExtensionMap, i: nat,
                       extended: Option<seq<ComplexSelector>>)
    requires i <= |components|
  {
    var acc := if extended.Some? then extended.value else components[..i];
    var candidates := ListCandidates(SimplesOf(components[..i]), exts);
    |acc| <= |candidates| && OnlyReplaced(specificity, candidates, SimplesOf(acc))
  }

  lemma ReplacedStart(specificity: map<Simple, nat>, components: seq<ComplexSelector>, exts: ExtensionMap)
    ensures ReplacedTo(specificity, components, exts, 0, None)
  {
    assert components[..0] == [] && SimplesOf([]) == [];
  }

  lemma ReplacedConcat(specificity: map<Simple, nat>, a: seq<Compound>, ca: seq<Compound>, b: seq<Compound>,
                       cb: seq<Compound>)
    requires OnlyReplaced(specificity, ca, a) && OnlyReplaced(specificity, cb, b)
    ensures OnlyReplaced(specificity, ca + cb, a + b)
  {
    hide SourceSpecificity, Selectors.Specificity, Selectors.IsSuperselector;
    forall c | c in ca + cb && c !in a + b ensures ReplacedAmong(specificity, ca + cb, c) {
      if c in ca {
        var d :| d in ca && d != c && Specificity(d) >= SourceSpecificity(specificity, c) && IsSuperselector(d, c);
        assert d in ca + cb;
      } else {
        var d :| d in cb && d != c && Specificity(d) >= SourceSpecificity(specificity, c) && IsSuperselector(d, c);
        assert d in ca + cb;
      }
    }
  }

  lemma ReplacedStep(specificity: map<Simple, nat>, components: seq<ComplexSelector>, exts: ExtensionMap, i: nat,
                     before: Option<seq<ComplexSelector>>, own: Option<seq<ComplexSelector>>,
                     after: Option<seq<ComplexSelector>>)
    requires i < |components| && ReplacedTo(specificity, components, exts, i, before)
    requires own.Some? <==> Touches(components[i].simples, exts)
    requires own.Some? ==>
               var candidates := OwnCandidates(components[i].simples, exts);
               |SimplesOf(own.value)| <= |candidates| && OnlyReplaced(specificity, candidates, SimplesOf(own.value))
    requires after == if own.None? && before.None? then None
                      else Some((if before.Some? then before.value else components[..i])
                                + (if own.Some? then own.value else [components[i]]))
    ensures ReplacedTo(specificity, components, exts, i + 1, after)
  {
    hide OnlyReplaced, Touches, Candidates;
    var c := components[i];
    var prefix, longer := SimplesOf(components[..i]), SimplesOf(components[..i + 1]);
    assert longer == prefix + [c.simples];
    assert components[..i + 1] == components[..i] + [c];
    var acc := if before.Some? then before.value else components[..i];
    var next := if own.Some? then own.value else [c];
    if own.None? {
      NothingDropped(specificity, [c]);
      assert SimplesOf([c]) == [c.simples];
      CandidatesMeaning(c.simples, exts, {});
    }
    ReplacedConcat(specificity, SimplesOf(acc), ListCandidates(prefix, exts), SimplesOf(next), OwnCandidates(c.simples, exts));
    SimplesOfConcat(acc, next);
    assert longer[..|longer| - 1] == prefix;
  }

  lemma ReplacedDone(specificity: map<Simple, nat>, components: seq<ComplexSelector>, exts: ExtensionMap,
                     extended: Option<seq<ComplexSelector>>)
    requires ReplacedTo(specificity, components, exts, |components|, extended)
    ensures var candidates := ListCandidates(SimplesOf(components), exts);
            var acc := if extended.Some? then extended.value else components;
            |acc| <= |candidates| && OnlyReplaced(specificity, candidates, SimplesOf(acc))
  {
    hide OnlyReplaced;
    assert components[..|components|] == components;
  }

  /** What replaces something in the trimmed list comes from the candidates too. */
  lemma ReplacedTwice(specificity: map<Simple, nat>, components: seq<ComplexSelector>, exts: ExtensionMap,
                      acc: seq<ComplexSelector>, trimmed: seq<ComplexSelector>)
    requires OnlyReplaced(specificity, ListCandidates(SimplesOf(components), exts), SimplesOf(acc))
    requires OnlyReplaced(specificity, SimplesOf(acc), SimplesOf(trimmed))
    requires IsExpansion(acc, ListCandidates(SimplesOf(components), exts))
    ensures OnlyReplaced(specificity, ListCandidates(SimplesOf(components), exts), SimplesOf(trimmed))
  {
    hide SourceSpecificity, Selectors.Specificity, Selectors.IsSuperselector, ListCandidates, SimplesOf, Covers;
    var candidates, all := ListCandidates(SimplesOf(components), exts), SimplesOf(acc);
    forall c | c in candidates && c !in SimplesOf(trimmed) ensures ReplacedAmong(specificity, candidates, c) {
      if c in all {
        assert ReplacedAmong(specificity, all, c);
        var d :| d in all && d != c && Specificity(d) >= SourceSpecificity(specificity, c) && IsSuperselector(d, c);
        assert d in candidates;
      }
    }
  }

  lemma NewOriginalsStart(list: SelectorList, originals: set<ComplexSelector>)
    ensures NewOriginals(list, originals, originals)
  {}

  lemma NewOriginalsStep(list: SelectorList, before: set<ComplexSelector>, now: set<ComplexSelector>,
                         after: set<ComplexSelector>, i: nat)
    requires i < |list.components| && NewOriginals(list, before, now)
    requires after == now || (list.components[i] in now &&
               exists o: ComplexSelector :: o.simples == list.components[i].simples && after == now + {o})
    ensures NewOriginals(list, before, after)
  {
    var c := list.components[i];
    forall o | o in after && o !in before ensures EqualsOriginal(list, before, o) {
      if o !in now {
        assert o.simples == c.simples;
        if c !in before {
          assert EqualsOriginal(list, before, c);
        }
      }
    }
  }

  lemma CopiesStep(components: seq<ComplexSelector>, before: set<ComplexSelector>, now: set<ComplexSelector>,
                   after: set<ComplexSelector>, i: nat, acc: Option<seq<ComplexSelector>>,
                   own: Option<seq<ComplexSelector>>, next: Option<seq<ComplexSelector>>)
    requires i < |components| && before <= now <= after
    requires acc.Some? ==> CopiesOriginals(components, before, now, i, acc.value)
    requires own.Some? && components[i] in before ==>
               own.value != [] && own.value[0] in after && own.value[0].simples == components[i].simples
    requires next == if own.None? && acc.None? then None
                     else Some((if acc.Some? then acc.value else components[..i])
                               + (if own.Some? then own.value else [components[i]]))
    ensures next.Some? ==> CopiesOriginals(components, before, after, i + 1, next.value)
  {
    if next.Some? {
      var lead := if acc.Some? then acc.value else components[..i];
      forall j | 0 <= j < i + 1 && components[j] in before ensures HasCopy(next.value, after, components[j]) {
        if j == i {
          assert next.value[|lead|] in after;
        } else if acc.Some? {
          assert HasCopy(acc.value, now, components[j]);
          var k :| 0 <= k < |acc.value| && acc.value[k] in now && acc.value[k].simples == components[j].simples;
          assert next.value[k] == acc.value[k];
        } else {
          assert next.value[j] == components[j];
        }
      }
    }
  }

  lemma AllKeepThemselves(components: seq<ComplexSelector>, originals: set<ComplexSelector>)
    ensures KeepsOriginals(components, originals, components)
  {
    forall j | 0 <= j < |components| ensures HasEqual(components, components[j]) {
      assert components[j].Equals(components[j]);
    }
  }

  lemma TrimmedExpansion(trimmed: seq<ComplexSelector>, all: seq<ComplexSelector>, candidates: seq<Compound>)
    requires forall r <- trimmed :: r in all
    requires Covers(SimplesOf(trimmed), SimplesOf(all)) && IsExpansion(all, candidates)
    ensures IsExpansion(trimmed, candidates)
  {
    CoversTransitive(SimplesOf(trimmed), SimplesOf(all), candidates);
    forall i | 0 <= i < |trimmed| ensures SimplesOf(trimmed)[i] in candidates {
      assert trimmed[i] in all;
      var j :| 0 <= j < |all| && all[j] == trimmed[i];
      assert SimplesOf(all)[j] in candidates;
    }
  }

  lemma TrimmedKeepsOriginals(components: seq<ComplexSelector>, before: set<ComplexSelector>,
                              now: set<ComplexSelector>, acc: seq<ComplexSelector>, trimmed: seq<ComplexSelector>)
    requires CopiesOriginals(components, before, now, |components|, acc)
    requires KeepsOriginals(acc, now, trimmed)
    ensures KeepsOriginals(components, before, trimmed)
  {
    forall j | 0 <= j < |components| && components[j] in before ensures HasEqual(trimmed, components[j]) {
      assert HasCopy(acc, now, components[j]);
      var k :| 0 <= k < |acc| && acc[k] in now && acc[k].simples == components[j].simples;
      assert HasEqual(trimmed, acc[k]);
      var l :| 0 <= l < |trimmed| && trimmed[l].Equals(acc[k]);
      assert trimmed[l].Equals(components[j]);
    }
  }
}
