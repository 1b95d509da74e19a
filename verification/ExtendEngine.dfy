/**
 The values `extendList` computes with: extender choices per simple selector,
 their cross product, and the unification of every path. The meaning theorem
 says which elements the candidates match together.
 */
module ExtendEngine {
  import opened Wrappers
  import opened Selectors
  import opened Extensions

  /** Extensions by target, in insertion order per target. */
  type ExtensionMap = map<Simple, seq<Extension>>

  /** `extender {@extend target}` with everything but its meaning forgotten. */
  datatype Rule = Rule(extender: Compound, target: Simple)

  function RulesOf(exts: ExtensionMap): set<Rule> {
    set t, i | t in exts && 0 <= i < |exts[t]| :: Rule(exts[t][i].extender.simples, t)
  }

  /** `e` together with every target some rule lets it stand in for. */
  function Augment(e: Element, rules: set<Rule>): Element {
    e + set r | r in rules && Matches(r.extender, e) :: r.target
  }

  datatype Extender = Original(compound: Compound) | Registered(selector: ComplexSelector) {
    function Simples(): Compound {
      match this
      case Original(compound) => compound
      case Registered(selector) => selector.simples
    }
  }

  /** The same, but only by rules whose extenders are alone with their IDs and types. */
  function AugmentAlone(e: Element, rules: set<Rule>): Element {
    e + set r | r in rules && Matches(r.extender, e) && Alone(r.extender, e) :: r.target
  }

  function Stands(e: Element, rules: set<Rule>, alone: bool): Element {
    if alone then AugmentAlone(e, rules) else Augment(e, rules)
  }

  lemma ConsistentStandsAlone(e: Element, rules: set<Rule>)
    requires Consistent(e)
    ensures AugmentAlone(e, rules) == Augment(e, rules)
  {
    forall r | r in rules && Matches(r.extender, e) ensures Alone(r.extender, e) {
      ConsistentIsAlone(r.extender, e);
    }
  }

  /** The choices for one extended simple selector: itself, then its extenders. */
  function ChoicesFor(s: Simple, exts: ExtensionMap): seq<Extender>
    requires s in exts
  {
    [Original([s])] + seq(|exts[s]|, i requires 0 <= i < |exts[s]| => Registered(exts[s][i].extender))
  }

  /**
   The option lists of a compound, None when no simple selector is a target.
   The simple selectors before the first target share one option.
   */
  function Options(simples: Compound, exts: ExtensionMap): Option<seq<seq<Extender>>> {
    if simples == [] then None
    else
      var n := |simples| - 1;
      var before := Options(simples[..n], exts);
      if simples[n] !in exts then
        if before.None? then None else Some(before.value + [[Original([simples[n]])]])
      else
        Some(Lead(simples[..n], before) + [ChoicesFor(simples[n], exts)])
  }

  /** The options before a target: those so far, or the untouched prefix as one original. */
  function Lead(prefix: Compound, before: Option<seq<seq<Extender>>>): seq<seq<Extender>> {
    if before.Some? then before.value else if prefix == [] then [] else [[Original(prefix)]]
  }

  function AppendToAll<T>(paths: seq<seq<T>>, option: T): seq<seq<T>> {
    seq(|paths|, i requires 0 <= i < |paths| => paths[i] + [option])
  }

  function AppendEach<T>(paths: seq<seq<T>>, choice: seq<T>): seq<seq<T>> {
    if choice == [] then []
    else AppendEach(paths, choice[..|choice| - 1]) + AppendToAll(paths, choice[|choice| - 1])
  }

  /** Every way to pick one option per position; the first picks the first option everywhere. */
  function Paths<T>(choices: seq<seq<T>>): seq<seq<T>> {
    if choices == [] then [[]]
    else AppendEach(Paths(choices[..|choices| - 1]), choices[|choices| - 1])
  }

  function OriginalSimples(path: seq<Extender>): Compound {
    if path == [] then []
    else OriginalSimples(path[..|path| - 1])
         + (if path[|path| - 1].Original? then path[|path| - 1].compound else [])
  }

  function RegisteredCompounds(path: seq<Extender>): seq<Compound> {
    if path == [] then []
    else RegisteredCompounds(path[..|path| - 1])
         + (if path[|path| - 1].Registered? then [path[|path| - 1].selector.simples] else [])
  }

  /** One compound matching what every extender of the path matches, if there is one. */
  function UnifyExtenders(path: seq<Extender>): Option<Compound> {
    var originals := OriginalSimples(path);
    var toUnify := (if originals != [] then [originals] else []) + RegisteredCompounds(path);
    if toUnify == [] then None else UnifyComplex(toUnify)
  }

  function UnifyAll(paths: seq<seq<Extender>>): seq<Compound> {
    if paths == [] then []
    else
      var last := UnifyExtenders(paths[|paths| - 1]);
      UnifyAll(paths[..|paths| - 1]) + (if last.Some? then [last.value] else [])
  }

  /** The untrimmed replacement of one compound, None when nothing in it is a target. */
  function Candidates(simples: Compound, exts: ExtensionMap): Option<seq<Compound>> {
    var options := Options(simples, exts);
    if options.None? then None
    else
      var paths := Paths(options.value);
      if paths == [] then Some([])
      else Some([OriginalSimples(paths[0])] + UnifyAll(paths[1..]))
  }

  /** The untrimmed replacement of a whole list; untouched compounds stay in place. */
  function ListCandidates(list: seq<Compound>, exts: ExtensionMap): seq<Compound> {
    if list == [] then []
    else
      ListCandidates(list[..|list| - 1], exts) + OwnCandidates(list[|list| - 1], exts)
  }

  predicate Touches(simples: Compound, exts: ExtensionMap) { exists s <- simples :: s in exts }

  predicate TouchesAny(list: seq<Compound>, exts: ExtensionMap) { exists c <- list :: Touches(c, exts) }

  /** Every member of `result` is one of `candidates`. */
  predicate DrawnFrom(result: seq<Compound>, candidates: seq<Compound>) {
    forall i | 0 <= i < |result| :: result[i] in candidates
  }

  predicate CoveredBy(c: Compound, result: seq<Compound>) {
    exists j | 0 <= j < |result| :: IsSuperselector(result[j], c)
  }

  /** Every candidate is covered by a member of `result`. */
  predicate Covers(result: seq<Compound>, candidates: seq<Compound>) {
    forall i | 0 <= i < |candidates| :: CoveredBy(candidates[i], result)
  }

  // ---- Paths are the Cartesian product ----

  ghost predicate IsSelection<T>(p: seq<T>, choices: seq<seq<T>>) {
    |p| == |choices| && forall i | 0 <= i < |p| :: p[i] in choices[i]
  }

  lemma {:induction false} AppendEachMembers<T>(paths: seq<seq<T>>, choice: seq<T>, p: seq<T>)
    ensures p in AppendEach(paths, choice) <==> p != [] && p[..|p| - 1] in paths && p[|p| - 1] in choice
  {
    if choice == [] {
    } else {
      var n := |choice| - 1;
      AppendEachMembers(paths, choice[..n], p);
      assert choice == choice[..n] + [choice[n]];
      var last := AppendToAll(paths, choice[n]);
      if p in last {
        var i :| 0 <= i < |last| && last[i] == p;
        assert p[..|p| - 1] == paths[i];
      }
      if p != [] && p[..|p| - 1] in paths && p[|p| - 1] == choice[n] {
        var i :| 0 <= i < |paths| && paths[i] == p[..|p| - 1];
        assert last[i] == p;
      }
    }
  }

  /** `Paths` yields exactly the selections of one option per position. */
  lemma {:induction false} PathsAreProduct<T>(choices: seq<seq<T>>, p: seq<T>)
    ensures p in Paths(choices) <==> IsSelection(p, choices)
  {
    if choices == [] {
      assert |p| == 0 ==> p == [];
    } else {
      var n := |choices| - 1;
      AppendEachMembers(Paths(choices[..n]), choices[n], p);
      if |p| == n + 1 {
        PathsAreProduct(choices[..n], p[..n]);
        assert forall i | 0 <= i < n :: p[..n][i] == p[i] && choices[..n][i] == choices[i];
        assert IsSelection(p, choices) <==> IsSelection(p[..n], choices[..n]) && p[n] in choices[n];
      } else if p != [] {
        PathsAreProduct(choices[..n], p[..|p| - 1]);
      }
    }
  }

  /** Appending one option after another: the paths so far come round once for each. */
  lemma {:induction false} AppendEachAt<T>(paths: seq<seq<T>>, choice: seq<T>, k: nat, j: nat)
    requires k < |choice| && j < |paths|
    ensures |AppendEach(paths, choice)| == |choice| * |paths| && k * |paths| + j < |choice| * |paths|
    ensures AppendEach(paths, choice)[k * |paths| + j] == paths[j] + [choice[k]]
  {
    var n, size := |choice| - 1, |paths|;
    var before := AppendEach(paths, choice[..n]);
    AppendEachSize(paths, choice);
    AppendEachSize(paths, choice[..n]);
    OneMoreTime(n, size);
    if k < n {
      AppendEachAt(paths, choice[..n], k, j);
      assert AppendEach(paths, choice)[k * size + j] == before[k * size + j];
    } else {
      assert AppendEach(paths, choice)[n * size + j] == AppendToAll(paths, choice[n])[j];
    }
  }

  lemma {:induction false} AppendEachSize<T>(paths: seq<seq<T>>, choice: seq<T>)
    ensures |AppendEach(paths, choice)| == |choice| * |paths|
  {
    if choice != [] {
      var n := |choice| - 1;
      AppendEachSize(paths, choice[..n]);
      OneMoreTime(n, |paths|);
      assert |AppendEach(paths, choice)| == |AppendEach(paths, choice[..n])| + |paths|;
    }
  }

  lemma OneMoreTime(n: nat, size: nat)
    ensures n * size + size == (n + 1) * size
  {}

  /** The options of the last position change slowest. */
  lemma LastChangesSlowest<T>(choices: seq<seq<T>>, k: nat, j: nat)
    requires choices != [] && k < |choices[|choices| - 1]| && j < |Paths(choices[..|choices| - 1])|
    ensures var before, last := Paths(choices[..|choices| - 1]), choices[|choices| - 1];
            && |Paths(choices)| == |last| * |before| && k * |before| + j < |last| * |before|
            && Paths(choices)[k * |before| + j] == before[j] + [last[k]]
  {
    AppendEachAt(Paths(choices[..|choices| - 1]), choices[|choices| - 1], k, j);
  }

  predicate AllNonempty<T>(choices: seq<seq<T>>) { forall i | 0 <= i < |choices| :: choices[i] != [] }

  function Firsts<T>(choices: seq<seq<T>>): seq<T>
    requires AllNonempty(choices)
  {
    seq(|choices|, i requires 0 <= i < |choices| => choices[i][0])
  }

  lemma {:induction false} FirstAppended<T>(paths: seq<seq<T>>, choice: seq<T>)
    requires paths != [] && choice != []
    ensures AppendEach(paths, choice) != []
    ensures AppendEach(paths, choice)[0] == paths[0] + [choice[0]]
  {
    if |choice| > 1 {
      FirstAppended(paths, choice[..|choice| - 1]);
    } else {
      assert AppendEach(paths, choice[..0]) == [];
      assert AppendEach(paths, choice) == AppendToAll(paths, choice[0]);
    }
  }

  /** The first path picks the first option everywhere. */
  lemma {:induction false} FirstPath<T>(choices: seq<seq<T>>)
    requires AllNonempty(choices)
    ensures Paths(choices) != []
    ensures Paths(choices)[0] == Firsts(choices)
  {
    if choices != [] {
      var n := |choices| - 1;
      FirstPath(choices[..n]);
      FirstAppended(Paths(choices[..n]), choices[n]);
      assert Firsts(choices) == Firsts(choices[..n]) + [choices[n][0]];
    }
  }

  // ---- Meaning of options, paths and candidates ----

  /** The element matches the extender, which, if registered, may have to be alone in it. */
  predicate Usable(x: Extender, e: Element, alone: bool) {
    Matches(x.Simples(), e) && (alone && x.Registered? ==> Alone(x.Simples(), e))
  }

  predicate PathMatches(path: seq<Extender>, e: Element, alone: bool) {
    forall k | 0 <= k < |path| :: Usable(path[k], e, alone)
  }

  predicate SomePathMatches(paths: seq<seq<Extender>>, e: Element, alone: bool) {
    exists i | 0 <= i < |paths| :: PathMatches(paths[i], e, alone)
  }

  predicate OptionMatches(option: seq<Extender>, e: Element, alone: bool) {
    exists k | 0 <= k < |option| :: Usable(option[k], e, alone)
  }

  predicate OptionsMatch(options: seq<seq<Extender>>, e: Element, alone: bool) {
    forall k | 0 <= k < |options| :: OptionMatches(options[k], e, alone)
  }

  lemma ChoicesMeaning(s: Simple, exts: ExtensionMap, e: Element, alone: bool)
    requires s in exts
    ensures OptionMatches(ChoicesFor(s, exts), e, alone) <==> SimpleMatches(s, Stands(e, RulesOf(exts), alone))
  {
    hide Alone;
    var choices := ChoicesFor(s, exts);
    assert choices[0].Simples() == [s];
    if OptionMatches(choices, e, alone) {
      var k :| 0 <= k < |choices| && Usable(choices[k], e, alone);
      if k == 0 {
        assert SimpleMatches(s, e);
      } else {
        var r := Rule(exts[s][k - 1].extender.simples, s);
        assert r in RulesOf(exts) && Matches(r.extender, e);
      }
    }
    if SimpleMatches(s, Stands(e, RulesOf(exts), alone)) {
      if SimpleMatches(s, e) {
        assert Usable(choices[0], e, alone);
      } else {
        var r :| r in RulesOf(exts) && Matches(r.extender, e) && r.target == s && (alone ==> Alone(r.extender, e));
        var i :| 0 <= i < |exts[s]| && r.extender == exts[s][i].extender.simples;
        assert choices[i + 1].Simples() == r.extender;
      }
    }
  }

  lemma UntouchedMeaning(simples: Compound, exts: ExtensionMap, e: Element, alone: bool)
    requires !Touches(simples, exts)
    ensures Matches(simples, e) <==> Matches(simples, Stands(e, RulesOf(exts), alone))
  {}

  lemma OptionsMatchAppend(options: seq<seq<Extender>>, option: seq<Extender>, e: Element, alone: bool)
    ensures OptionsMatch(options + [option], e, alone) <==>
            OptionsMatch(options, e, alone) && OptionMatches(option, e, alone)
  {
    var all := options + [option];
    if OptionsMatch(all, e, alone) {
      assert all[|options|] == option;
      forall k | 0 <= k < |options| ensures OptionMatches(options[k], e, alone) {
        assert all[k] == options[k];
      }
    }
  }

  lemma OriginalOptionMeaning(c: Compound, e: Element, alone: bool)
    ensures OptionMatches([Original(c)], e, alone) <==> Matches(c, e)
  {
    assert [Original(c)][0].Simples() == c;
  }

  lemma MatchesLast(simples: Compound, e: Element)
    requires simples != []
    ensures var n := |simples| - 1;
            Matches(simples, e) <==> Matches(simples[..n], e) && SimpleMatches(simples[n], e)
  {
    assert simples == simples[..|simples| - 1] + [simples[|simples| - 1]];
  }

  lemma LeadMeaning(prefix: Compound, before: Option<seq<seq<Extender>>>, e: Element, augmented: Element, alone: bool)
    requires before.Some? ==> (OptionsMatch(before.value, e, alone) <==> Matches(prefix, augmented))
    requires before.None? ==> (Matches(prefix, e) <==> Matches(prefix, augmented))
    ensures OptionsMatch(Lead(prefix, before), e, alone) <==> Matches(prefix, augmented)
  {
    if before.None? && prefix != [] {
      OriginalOptionMeaning(prefix, e, alone);
      var lead := Lead(prefix, before);
      assert OptionsMatch(lead, e, alone) <==> OptionMatches(lead[0], e, alone);
    }
  }

  /** A compound has options exactly when it contains a target. */
  lemma {:induction false} OptionsExist(simples: Compound, exts: ExtensionMap)
    ensures Options(simples, exts).Some? <==> Touches(simples, exts)
    ensures Options(simples, exts).Some? ==> Options(simples, exts).value != []
  {
    if simples != [] {
      var n := |simples| - 1;
      OptionsExist(simples[..n], exts);
      assert simples == simples[..n] + [simples[n]];
    }
  }

  /**
   The options of a compound can all be met by `e` exactly when the augmented `e`
   matches it, whether or not extenders have to be alone.
   */
  lemma {:induction false} OptionsMeaning(simples: Compound, exts: ExtensionMap, e: Element, alone: bool)
    requires Options(simples, exts).Some?
    ensures OptionsMatch(Options(simples, exts).value, e, alone) <==> Matches(simples, Stands(e, RulesOf(exts), alone))
  {
    var n := |simples| - 1;
    var s := simples[n];
    var before := Options(simples[..n], exts);
    var augmented := Stands(e, RulesOf(exts), alone);
    MatchesLast(simples, augmented);
    if before.Some? {
      OptionsMeaning(simples[..n], exts, e, alone);
    } else {
      OptionsExist(simples[..n], exts);
      UntouchedMeaning(simples[..n], exts, e, alone);
    }
    if s !in exts {
      OptionsMatchAppend(before.value, [Original([s])], e, alone);
      OriginalOptionMeaning([s], e, alone);
      assert Matches([s], e) <==> SimpleMatches(s, e);
    } else {
      LeadMeaning(simples[..n], before, e, augmented, alone);
      OptionsMatchAppend(Lead(simples[..n], before), ChoicesFor(s, exts), e, alone);
      ChoicesMeaning(s, exts, e, alone);
    }
  }

  predicate NonemptyOptions(options: seq<seq<Extender>>) {
    forall i | 0 <= i < |options| :: forall k | 0 <= k < |options[i]| :: options[i][k].Simples() != []
  }

  lemma {:induction false} OptionsWellFormed(simples: Compound, exts: ExtensionMap)
    requires Options(simples, exts).Some?
    ensures NonemptyOptions(Options(simples, exts).value)
  {
    var n := |simples| - 1;
    if Options(simples[..n], exts).Some? {
      OptionsWellFormed(simples[..n], exts);
    }
  }

  predicate StartOriginal(options: seq<seq<Extender>>) {
    AllNonempty(options) && forall i | 0 <= i < |options| :: options[i][0].Original?
  }

  lemma StartOriginalAppend(options: seq<seq<Extender>>, option: seq<Extender>, c: Compound)
    requires StartOriginal(options) && option != [] && option[0] == Original(c)
    ensures StartOriginal(options + [option])
    ensures OriginalSimples(Firsts(options + [option])) == OriginalSimples(Firsts(options)) + c
  {
    assert Firsts(options + [option]) == Firsts(options) + [Original(c)];
  }

  /** Every option list starts with an original; read off in order these are the compound itself. */
  lemma {:induction false} OptionsStartOriginal(simples: Compound, exts: ExtensionMap)
    requires Options(simples, exts).Some?
    ensures StartOriginal(Options(simples, exts).value)
    ensures OriginalSimples(Firsts(Options(simples, exts).value)) == simples
  {
    var n := |simples| - 1;
    var before := Options(simples[..n], exts);
    var lead := Lead(simples[..n], before);
    assert simples == simples[..n] + [simples[n]];
    if before.Some? {
      OptionsStartOriginal(simples[..n], exts);
    } else if n > 0 {
      StartOriginalAppend([], lead[0], simples[..n]);
      assert [] + [lead[0]] == lead;
    }
    if simples[n] in exts {
      StartOriginalAppend(lead, ChoicesFor(simples[n], exts), [simples[n]]);
    } else {
      StartOriginalAppend(before.value, [Original([simples[n]])], [simples[n]]);
    }
  }

  predicate AllMatch(cs: seq<Compound>, e: Element) { forall i | 0 <= i < |cs| :: Matches(cs[i], e) }

  lemma MatchesConcat(a: Compound, b: Compound, e: Element)
    ensures Matches(a + b, e) <==> Matches(a, e) && Matches(b, e)
  {
    assert forall s :: s in a + b <==> s in a || s in b;
  }

  lemma AllMatchAppend(cs: seq<Compound>, c: Compound, e: Element)
    ensures AllMatch(cs + [c], e) <==> AllMatch(cs, e) && Matches(c, e)
  {
    var all := cs + [c];
    assert all[|cs|] == c && forall i | 0 <= i < |cs| :: all[i] == cs[i];
  }

  lemma PathMatchesAppend(path: seq<Extender>, x: Extender, e: Element, alone: bool)
    ensures PathMatches(path + [x], e, alone) <==> PathMatches(path, e, alone) && Usable(x, e, alone)
  {
    var all := path + [x];
    assert all[|path|] == x && forall k | 0 <= k < |path| :: all[k] == path[k];
  }

  predicate AllUsable(cs: seq<Compound>, e: Element, alone: bool) {
    AllMatch(cs, e) && (alone ==> forall c <- cs :: Alone(c, e))
  }

  lemma AllUsableAppend(cs: seq<Compound>, c: Compound, e: Element, alone: bool)
    ensures AllUsable(cs + [c], e, alone) <==> AllUsable(cs, e, alone) && Matches(c, e) && (alone ==> Alone(c, e))
  {
    AllMatchAppend(cs, c, e);
    assert forall x :: x in cs + [c] <==> x in cs || x == c;
  }

  lemma {:induction false} PathParts(path: seq<Extender>, e: Element, alone: bool)
    ensures PathMatches(path, e, alone) <==>
            Matches(OriginalSimples(path), e) && AllUsable(RegisteredCompounds(path), e, alone)
  {
    hide Matches, Alone, AllUsable, PathMatches;
    if path != [] {
      var before, last := path[..|path| - 1], path[|path| - 1];
      PathParts(before, e, alone);
      assert path == before + [last];
      PathMatchesAppend(before, last, e, alone);
      if last.Original? {
        MatchesConcat(OriginalSimples(before), last.compound, e);
        assert RegisteredCompounds(path) == RegisteredCompounds(before);
      } else {
        AllUsableAppend(RegisteredCompounds(before), last.selector.simples, e, alone);
        assert OriginalSimples(path) == OriginalSimples(before);
      }
    } else {
      EmptyPathMatches(e, alone);
    }
  }

  lemma EmptyPathMatches(e: Element, alone: bool)
    ensures PathMatches([], e, alone) && Matches([], e) && AllUsable([], e, alone)
  {}

  lemma {:induction false} PathYieldsSomething(path: seq<Extender>)
    requires path != [] && forall k | 0 <= k < |path| :: path[k].Simples() != []
    ensures OriginalSimples(path) != [] || RegisteredCompounds(path) != []
  {}

  function ToUnify(path: seq<Extender>): seq<Compound> {
    var originals := OriginalSimples(path);
    (if originals != [] then [originals] else []) + RegisteredCompounds(path)
  }

  lemma ToUnifyMeaning(path: seq<Extender>, e: Element)
    requires path != [] && forall k | 0 <= k < |path| :: path[k].Simples() != []
    ensures ToUnify(path) != [] && (AllMatch(ToUnify(path), e) <==> PathMatches(path, e, false))
    ensures PathMatches(path, e, true) ==> AllMatch(ToUnify(path), e) && forall c <- ToUnify(path)[1..] :: Alone(c, e)
  {
    hide Matches, Alone, PathMatches;
    PathParts(path, e, false);
    PathParts(path, e, true);
    PathYieldsSomething(path);
    var originals, registered := OriginalSimples(path), RegisteredCompounds(path);
    hide OriginalSimples, RegisteredCompounds;
    if originals == [] {
      assert ToUnify(path) == registered && forall c <- registered[1..] :: c in registered;
      NothingToMatch(e);
    } else {
      AllMatchPrepend(originals, registered, e);
      assert ToUnify(path)[1..] == registered;
    }
  }

  lemma NothingToMatch(e: Element)
    ensures Matches([], e)
  {}

  /**
   The unification of one path matches exactly what every extender on it matches, and
   there is one if some element matches them all with the registered ones alone in it.
   */
  lemma UnifyExtendersMeaning(path: seq<Extender>, e: Element)
    requires path != [] && forall k | 0 <= k < |path| :: path[k].Simples() != []
    ensures UnifyExtenders(path).Some? ==> (Matches(UnifyExtenders(path).value, e) <==> PathMatches(path, e, false))
    ensures UnifyExtenders(path).None? ==> !PathMatches(path, e, true)
  {
    hide Matches, Alone, PathMatches, OriginalSimples, RegisteredCompounds, UnifyComplex;
    ToUnifyMeaning(path, e);
    UnifyToMeaning(ToUnify(path), e);
    if PathMatches(path, e, true) {
      AllMatchMembers(ToUnify(path), e);
      UnifyComplexAlone(ToUnify(path), e);
    }
  }

  lemma AllMatchMembers(cs: seq<Compound>, e: Element)
    requires AllMatch(cs, e)
    ensures forall c <- cs :: Matches(c, e)
  {}

  lemma AllMatchPrepend(c: Compound, cs: seq<Compound>, e: Element)
    ensures AllMatch([c] + cs, e) <==> Matches(c, e) && AllMatch(cs, e)
  {
    var all := [c] + cs;
    assert all[0] == c && forall i | 0 <= i < |cs| :: all[i + 1] == cs[i];
  }

  lemma UnifyToMeaning(cs: seq<Compound>, e: Element)
    requires cs != []
    ensures UnifyComplex(cs).Some? ==> (Matches(UnifyComplex(cs).value, e) <==> AllMatch(cs, e))
  {
    UnifyComplexMeaning(cs, e);
  }

  predicate NonemptyPaths(paths: seq<seq<Extender>>) {
    forall i | 0 <= i < |paths| :: paths[i] != [] && forall k | 0 <= k < |paths[i]| :: paths[i][k].Simples() != []
  }

  lemma {:induction false} UnifyAllMeaning(paths: seq<seq<Extender>>, e: Element)
    requires NonemptyPaths(paths)
    ensures AnyMatches(UnifyAll(paths), e) ==> SomePathMatches(paths, e, false)
    ensures SomePathMatches(paths, e, true) ==> AnyMatches(UnifyAll(paths), e)
  {
    hide Matches, PathMatches, UnifyExtenders, AnyMatches;
    if paths == [] {
      NoneMatch(e);
    } else {
      var n := |paths| - 1;
      UnifyAllMeaning(paths[..n], e);
      SomePathMatchesLast(paths, e, false);
      SomePathMatchesLast(paths, e, true);
      UsableAlone(paths[n], e);
      UnifyExtendersMeaning(paths[n], e);
      var last := UnifyExtenders(paths[n]);
      if last.Some? {
        AnyMatchesConcat(UnifyAll(paths[..n]), [last.value], e);
        AnyMatchesSingle(last.value, e);
      } else {
        assert UnifyAll(paths) == UnifyAll(paths[..n]);
      }
    }
  }

  lemma NoneMatch(e: Element)
    ensures !AnyMatches([], e)
  {}

  lemma UsableAlone(path: seq<Extender>, e: Element)
    ensures PathMatches(path, e, true) ==> PathMatches(path, e, false)
  {}

  lemma SomePathMatchesLast(paths: seq<seq<Extender>>, e: Element, alone: bool)
    requires paths != []
    ensures var n := |paths| - 1;
            SomePathMatches(paths, e, alone) <==>
            SomePathMatches(paths[..n], e, alone) || PathMatches(paths[n], e, alone)
  {
    hide PathMatches;
    assert forall i | 0 <= i < |paths| - 1 :: paths[..|paths| - 1][i] == paths[i];
  }

  ghost function Pick(option: seq<Extender>, e: Element, alone: bool): (x: Extender)
    requires OptionMatches(option, e, alone)
    ensures x in option && Usable(x, e, alone)
  {
    var k :| 0 <= k < |option| && Usable(option[k], e, alone); option[k]
  }

  /** Some path matches exactly when every option list does. */
  lemma PathsMeaning(options: seq<seq<Extender>>, e: Element, alone: bool)
    ensures SomePathMatches(Paths(options), e, alone) <==> OptionsMatch(options, e, alone)
  {
    hide Usable;
    if SomePathMatches(Paths(options), e, alone) {
      var i :| 0 <= i < |Paths(options)| && PathMatches(Paths(options)[i], e, alone);
      SelectionMeetsOptions(options, Paths(options)[i], e, alone);
    }
    if OptionsMatch(options, e, alone) {
      var p := seq(|options|, i requires 0 <= i < |options| => Pick(options[i], e, alone));
      PathsAreProduct(options, p);
      var i :| 0 <= i < |Paths(options)| && Paths(options)[i] == p;
      assert PathMatches(Paths(options)[i], e, alone);
    }
  }

  lemma SelectionMeetsOptions(options: seq<seq<Extender>>, p: seq<Extender>, e: Element, alone: bool)
    requires p in Paths(options) && PathMatches(p, e, alone)
    ensures OptionsMatch(options, e, alone)
  {
    hide Usable;
    PathsAreProduct(options, p);
    forall k | 0 <= k < |options| ensures OptionMatches(options[k], e, alone) {
      var j :| 0 <= j < |options[k]| && options[k][j] == p[k];
      assert Usable(options[k][j], e, alone);
    }
  }

  lemma PathsNonempty(options: seq<seq<Extender>>)
    requires options != [] && NonemptyOptions(options)
    ensures NonemptyPaths(Paths(options))
  {
    forall i | 0 <= i < |Paths(options)|
      ensures Paths(options)[i] != []
      ensures forall k | 0 <= k < |Paths(options)[i]| :: Paths(options)[i][k].Simples() != []
    {
      var p := Paths(options)[i];
      PathsAreProduct(options, p);
      assert IsSelection(p, options);
    }
  }

  lemma {:induction false} AllOriginal(path: seq<Extender>)
    requires forall k | 0 <= k < |path| :: path[k].Original?
    ensures RegisteredCompounds(path) == []
  {
    if path != [] {
      AllOriginal(path[..|path| - 1]);
    }
  }

  /**
   Extending one compound: an element matches a candidate only if the augmented
   element matches the compound, and does so whenever extenders alone in it are
   enough for that. The compound itself is the first candidate.
   */
  lemma CandidatesMeaning(simples: Compound, exts: ExtensionMap, e: Element)
    ensures Candidates(simples, exts).Some? <==> Touches(simples, exts)
    ensures Candidates(simples, exts).Some? ==>
              var cs := Candidates(simples, exts).value;
              && cs != [] && cs[0] == simples
              && (AnyMatches(cs, e) ==> Matches(simples, Augment(e, RulesOf(exts))))
              && (Matches(simples, AugmentAlone(e, RulesOf(exts))) ==> AnyMatches(cs, e))
  {
    OptionsExist(simples, exts);
    if Options(simples, exts).Some? {
      OptionsMeaning(simples, exts, e, false);
      OptionsMeaning(simples, exts, e, true);
      var options := Options(simples, exts).value;
      OptionsStartOriginal(simples, exts);
      OptionsWellFormed(simples, exts);
      FirstPath(options);
      PathsMeaning(options, e, false);
      PathsMeaning(options, e, true);
      PathsNonempty(options);
      PathsCandidates(Paths(options), simples, e);
    }
  }

  /** Splits the paths of one compound into the first, all original, and the rest. */
  lemma PathsCandidates(paths: seq<seq<Extender>>, simples: Compound, e: Element)
    requires paths != [] && NonemptyPaths(paths)
    requires forall k | 0 <= k < |paths[0]| :: paths[0][k].Original?
    requires OriginalSimples(paths[0]) == simples
    ensures var cs := [simples] + UnifyAll(paths[1..]);
            && (AnyMatches(cs, e) ==> SomePathMatches(paths, e, false))
            && (SomePathMatches(paths, e, true) ==> AnyMatches(cs, e))
  {
    hide PathMatches, SomePathMatches, AnyMatches, Matches, UnifyAll, UnifyExtenders, RegisteredCompounds;
    UnifyAllMeaning(paths[1..], e);
    AnyMatchesConcat([simples], UnifyAll(paths[1..]), e);
    AnyMatchesSingle(simples, e);
    AllOriginal(paths[0]);
    assert AllMatch([], e);
    forall alone
      ensures PathMatches(paths[0], e, alone) <==> Matches(simples, e)
      ensures SomePathMatches(paths, e, alone) <==> PathMatches(paths[0], e, alone) || SomePathMatches(paths[1..], e, alone)
    {
      PathParts(paths[0], e, alone);
      SomePathMatchesSplit(paths, e, alone);
    }
  }

  lemma SomePathMatchesSplit(paths: seq<seq<Extender>>, e: Element, alone: bool)
    requires paths != []
    ensures SomePathMatches(paths, e, alone) <==> PathMatches(paths[0], e, alone) || SomePathMatches(paths[1..], e, alone)
  {
    hide PathMatches;
    if SomePathMatches(paths, e, alone) {
      var i :| 0 <= i < |paths| && PathMatches(paths[i], e, alone);
      assert i > 0 ==> paths[1..][i - 1] == paths[i];
    }
    if SomePathMatches(paths[1..], e, alone) {
      var i :| 0 <= i < |paths[1..]| && PathMatches(paths[1..][i], e, alone);
      assert paths[i + 1] == paths[1..][i];
    }
  }

  function OwnCandidates(c: Compound, exts: ExtensionMap): seq<Compound> {
    if Candidates(c, exts).Some? then Candidates(c, exts).value else [c]
  }

  lemma OwnCandidatesMeaning(c: Compound, exts: ExtensionMap, e: Element)
    ensures AnyMatches(OwnCandidates(c, exts), e) ==> Matches(c, Augment(e, RulesOf(exts)))
    ensures Matches(c, AugmentAlone(e, RulesOf(exts))) ==> AnyMatches(OwnCandidates(c, exts), e)
    ensures Matches(c, e) ==> AnyMatches(OwnCandidates(c, exts), e)
  {
    CandidatesMeaning(c, exts, e);
    AnyMatchesSingle(c, e);
    if Candidates(c, exts).None? {
      UntouchedMeaning(c, exts, e, false);
      UntouchedMeaning(c, exts, e, true);
    } else {
      assert OwnCandidates(c, exts)[0] == c;
    }
  }

  /**
   Extending a list preserves meaning: sound for every element, complete for every
   rule whose extender is alone in it, and never less than the list matched before.
   */
  lemma {:induction false} ListCandidatesMeaning(list: seq<Compound>, exts: ExtensionMap, e: Element)
    ensures AnyMatches(ListCandidates(list, exts), e) ==> AnyMatches(list, Augment(e, RulesOf(exts)))
    ensures AnyMatches(list, AugmentAlone(e, RulesOf(exts))) ==> AnyMatches(ListCandidates(list, exts), e)
    ensures AnyMatches(list, e) ==> AnyMatches(ListCandidates(list, exts), e)
  {
    if list == [] {
    } else {
      var n := |list| - 1;
      ListCandidatesMeaning(list[..n], exts, e);
      OwnCandidatesMeaning(list[n], exts, e);
      AnyMatchesConcat(ListCandidates(list[..n], exts), OwnCandidates(list[n], exts), e);
      AnyMatchesLast(list, e);
      AnyMatchesLast(list, Augment(e, RulesOf(exts)));
      AnyMatchesLast(list, AugmentAlone(e, RulesOf(exts)));
    }
  }

  lemma AnyMatchesLast(list: seq<Compound>, e: Element)
    requires list != []
    ensures AnyMatches(list, e) <==> AnyMatches(list[..|list| - 1], e) || Matches(list[|list| - 1], e)
  {
    var n := |list| - 1;
    assert list == list[..n] + [list[n]];
    AnyMatchesConcat(list[..n], [list[n]], e);
    AnyMatchesSingle(list[n], e);
  }

  lemma CoversMeaning(result: seq<Compound>, candidates: seq<Compound>, e: Element)
    requires Covers(result, candidates) && AnyMatches(candidates, e)
    ensures AnyMatches(result, e)
  {
    var i :| 0 <= i < |candidates| && Matches(candidates[i], e);
    assert CoveredBy(candidates[i], result);
    var j :| 0 <= j < |result| && IsSuperselector(result[j], candidates[i]);
    SuperselectorMatches(result[j], candidates[i], e);
  }

  lemma DrawnMeaning(result: seq<Compound>, candidates: seq<Compound>, e: Element)
    requires DrawnFrom(result, candidates) && AnyMatches(result, e)
    ensures AnyMatches(candidates, e)
  {
    var i :| 0 <= i < |result| && Matches(result[i], e);
    var j :| 0 <= j < |candidates| && candidates[j] == result[i];
  }

  lemma CoversTransitive(a: seq<Compound>, b: seq<Compound>, c: seq<Compound>)
    requires Covers(a, b) && Covers(b, c)
    ensures Covers(a, c)
  {
    forall i | 0 <= i < |c| ensures CoveredBy(c[i], a) {
      assert CoveredBy(c[i], b);
      var j :| 0 <= j < |b| && IsSuperselector(b[j], c[i]);
      assert CoveredBy(b[j], a);
      var k :| 0 <= k < |a| && IsSuperselector(a[k], b[j]);
      SuperselectorTransitive(a[k], b[j], c[i]);
    }
  }
}
