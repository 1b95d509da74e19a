/** The loops that build the candidates of one compound, and their trimming. */
module Expansion {
  import opened Wrappers
  import opened Selectors
  import opened Extensions
  import opened ExtendEngine
  import opened Trim

  /** `result` is what trimming may leave of `candidates`. */
  predicate IsExpansion(result: seq<ComplexSelector>, candidates: seq<Compound>) {
    DrawnFrom(SimplesOf(result), candidates) && Covers(SimplesOf(result), candidates)
  }

  /** No compound that is left, the spared ones aside, could be replaced by another one that is left. */
  predicate NoneReplaceable(specificity: map<Simple, nat>, result: seq<Compound>, spared: set<Compound>) {
    forall k, l | 0 <= k < |result| && 0 <= l < |result| && k != l && result[k] !in spared ::
      Specificity(result[l]) < SourceSpecificity(specificity, result[k]) || !IsSuperselector(result[l], result[k])
  }

  /**
   All that can be replaced was dropped and nothing else; what is left is in order
   when nothing is spared. Too many candidates are left alone.
   */
  ghost predicate TrimmedDown(specificity: map<Simple, nat>, candidates: seq<Compound>, result: seq<Compound>,
                              spared: set<Compound>)
  {
    && OnlyReplaced(specificity, candidates, result)
    && (if |candidates| > TRIM_LIMIT then result == candidates else NoneReplaceable(specificity, result, spared))
    && (spared == {} ==> exists sources :: PickedInOrder(candidates, result, sources))
  }

  method PathsOf<T>(choices: seq<seq<T>>) returns (paths: seq<seq<T>>)
    ensures paths == Paths(choices)
  {
    paths := [[]];
    for i := 0 to |choices|
      invariant paths == Paths(choices[..i])
    {
      var choice := choices[i];
      var next := [];
      for k := 0 to |choice|
        invariant next == AppendEach(paths, choice[..k])
      {
        ghost var before := next;
        for j := 0 to |paths|
          invariant next == before + AppendToAll(paths[..j], choice[k])
        {
          next := next + [paths[j] + [choice[k]]];
          assert AppendToAll(paths[..j + 1], choice[k])
            == AppendToAll(paths[..j], choice[k]) + [paths[j] + [choice[k]]];
        }
        assert paths[..|paths|] == paths;
        assert choice[..k + 1][..k] == choice[..k];
      }
      assert choice[..|choice|] == choice;
      assert choices[..i + 1][..i] == choices[..i];
      paths := next;
    }
    assert choices[..|choices|] == choices;
  }

  /** The choices that replace one simple selector, None when it is no target. */
  method ExtendSimple(simple: Simple, exts: ExtensionMap) returns (choices: Option<seq<Extender>>)
    ensures choices == if simple in exts then Some(ChoicesFor(simple, exts)) else None
  {
    if simple !in exts {
      return None;
    }
    var result := [Original([simple])];
    for i := 0 to |exts[simple]|
      invariant result == ChoicesFor(simple, exts)[..i + 1]
    {
      result := result + [Registered(exts[simple][i].extender)];
    }
    assert ChoicesFor(simple, exts)[..|exts[simple]| + 1] == ChoicesFor(simple, exts);
    return Some(result);
  }

  method OptionsOf(simples: Compound, exts: ExtensionMap) returns (options: Option<seq<seq<Extender>>>)
    ensures options == Options(simples, exts)
  {
    options := None;
    for i := 0 to |simples|
      invariant options == Options(simples[..i], exts)
    {
      assert simples[..i + 1][..i] == simples[..i];
      var extended := ExtendSimple(simples[i], exts);
      if extended.None? {
        if options.Some? {
          options := Some(options.value + [[Original([simples[i]])]]);
        }
      } else {
        if options.None? {
          options := Some(if i != 0 then [[Original(simples[..i])]] else []);
        }
        options := Some(options.value + [extended.value]);
      }
    }
    assert simples[..|simples|] == simples;
  }

  method Unify(path: seq<Extender>) returns (unified: Option<Compound>)
    ensures unified == UnifyExtenders(path)
  {
    var toUnify: seq<Compound> := [];
    var originals: Compound := [];
    for i := 0 to |path|
      invariant originals == OriginalSimples(path[..i])
      invariant toUnify == RegisteredCompounds(path[..i])
    {
      assert path[..i + 1][..i] == path[..i];
      match path[i]
      case Original(compound) => originals := originals + compound;
      case Registered(selector) => toUnify := toUnify + [selector.simples];
    }
    assert path[..|path|] == path;
    if originals != [] {
      toUnify := [originals] + toUnify;
    } else {
      assert [] + toUnify == toUnify;
    }
    if toUnify == [] {
      return None;
    }
    return UnifyComplex(toUnify);
  }

  // ---- A single option list skips unification ----

  function Singles(option: seq<Extender>): seq<Compound> {
    seq(|option|, i requires 0 <= i < |option| => option[i].Simples())
  }

  lemma {:induction false} SinglePaths(option: seq<Extender>)
    ensures AppendEach([[]], option) == seq(|option|, i requires 0 <= i < |option| => [option[i]])
  {
    if option != [] {
      SinglePaths(option[..|option| - 1]);
      var x := option[|option| - 1];
      assert AppendToAll([[]], x)[0] == [x];
      assert AppendToAll([[]], x) == [[x]];
    }
  }

  lemma UnifySingle(x: Extender)
    requires x.Simples() != []
    ensures UnifyExtenders([x]) == Some(x.Simples())
  {
    assert [x][..0] == [];
    if x.Original? {
      assert OriginalSimples([x]) == x.compound;
      assert RegisteredCompounds([x]) == [];
    } else {
      assert OriginalSimples([x]) == [];
      assert RegisteredCompounds([x]) == [x.selector.simples];
    }
  }

  lemma {:induction false} UnifyAllSingles(option: seq<Extender>)
    requires forall k | 0 <= k < |option| :: option[k].Simples() != []
    ensures UnifyAll(seq(|option|, i requires 0 <= i < |option| => [option[i]])) == Singles(option)
  {
    if option != [] {
      var n := |option| - 1;
      var paths := seq(|option|, i requires 0 <= i < |option| => [option[i]]);
      assert paths[..n] == seq(n, i requires 0 <= i < n => [option[..n][i]]);
      UnifyAllSingles(option[..n]);
      UnifySingle(option[n]);
      assert Singles(option) == Singles(option[..n]) + [option[n].Simples()];
    }
  }

  /** The paths of one option list are its options, one each. */
  function OnePaths(option: seq<Extender>): seq<seq<Extender>> {
    seq(|option|, i requires 0 <= i < |option| => [option[i]])
  }

  lemma PathsOfOne(option: seq<Extender>)
    requires option != []
    ensures Paths([option]) == OnePaths(option)
    ensures Paths([option]) != [] && Paths([option])[0] == [option[0]] && Paths([option])[1..] == OnePaths(option[1..])
  {
    SinglePaths(option);
    assert [option][..0] == [] && Paths([option][..0]) == [[]];
  }

  /** With one option list the candidates are that list read off in order. */
  lemma SingleOptionCandidates(simples: Compound, exts: ExtensionMap)
    requires Options(simples, exts).Some? && |Options(simples, exts).value| == 1
    ensures Candidates(simples, exts) == Some(Singles(Options(simples, exts).value[0]))
  {
    hide Options, Paths, UnifyAll, UnifyExtenders, OnePaths;
    var options := Options(simples, exts).value;
    var option := options[0];
    assert options == [option];
    OptionsStartOriginal(simples, exts);
    OptionsWellFormed(simples, exts);
    PathsOfOne(option);
    OneOriginal(option[0]);
    UnifyRest(option);
  }

  lemma OneOriginal(x: Extender)
    requires x.Original?
    ensures OriginalSimples([x]) == x.Simples()
  {
    assert [x][..0] == [];
  }

  lemma UnifyRest(option: seq<Extender>)
    requires option != [] && forall k | 0 <= k < |option| :: option[k].Simples() != []
    ensures [option[0].Simples()] + UnifyAll(OnePaths(option[1..])) == Singles(option)
  {
    UnifyAllSingles(option[1..]);
    assert Singles(option) == [option[0].Simples()] + Singles(option[1..]);
  }

  lemma ExactIsExpansion(result: seq<ComplexSelector>)
    ensures IsExpansion(result, SimplesOf(result))
  {
    AllCoverThemselves(result);
  }

  lemma TrimmedIsExpansion(all: seq<ComplexSelector>, trimmed: seq<ComplexSelector>)
    requires (forall r <- trimmed :: r in all) && Covers(SimplesOf(trimmed), SimplesOf(all))
    ensures IsExpansion(trimmed, SimplesOf(all))
  {
    forall i | 0 <= i < |trimmed| ensures SimplesOf(trimmed)[i] in SimplesOf(all) {
      assert trimmed[i] in all;
      var j :| 0 <= j < |all| && all[j] == trimmed[i];
      assert SimplesOf(all)[j] == SimplesOf(trimmed)[i];
    }
  }

  /** Reattaches every choice of the only option list. */
  method Rehang(option: seq<Extender>) returns (result: seq<ComplexSelector>)
    requires forall k | 0 <= k < |option| :: option[k].Simples() != []
    ensures SimplesOf(result) == Singles(option)
  {
    result := [];
    for i := 0 to |option|
      invariant SimplesOf(result) == Singles(option)[..i]
    {
      match option[i]
      case Original(compound) =>
        var complex := new ComplexSelector(compound);
        result := result + [complex];
      case Registered(selector) =>
        result := result + [selector];
    }
  }

  method OriginalsOf(path: seq<Extender>) returns (simples: Compound)
    ensures simples == OriginalSimples(path)
  {
    simples := [];
    for i := 0 to |path|
      invariant simples == OriginalSimples(path[..i])
    {
      assert path[..i + 1][..i] == path[..i];
      if path[i].Original? {
        simples := simples + path[i].compound;
      }
    }
    assert path[..|path|] == path;
  }

  lemma SimplesOfAppend(cs: seq<ComplexSelector>, c: ComplexSelector)
    ensures SimplesOf(cs + [c]) == SimplesOf(cs) + [c.simples]
  {}

  /** The first path rebuilt as it stands, every other path unified. */
  method UnifyPaths(paths: seq<seq<Extender>>) returns (result: seq<ComplexSelector>)
    requires paths != [] && NonemptyPaths(paths) && OriginalSimples(paths[0]) != []
    ensures SimplesOf(result) == [OriginalSimples(paths[0])] + UnifyAll(paths[1..])
  {
    hide SimplesOf, OriginalSimples, UnifyExtenders;
    var firstComps := OriginalsOf(paths[0]);
    var first := new ComplexSelector(firstComps);
    result := [first];
    SimplesOfAppend([], first);
    assert [] + [first] == [first] && SimplesOf([]) == [] by {
      SimplesOfEmpty();
    }
    ghost var rest := paths[1..];
    for i := 1 to |paths|
      invariant SimplesOf(result) == [OriginalSimples(paths[0])] + UnifyAll(rest[..i - 1])
    {
      assert rest[..i][..i - 1] == rest[..i - 1] && rest[..i][i - 1] == paths[i];
      var unified := Unify(paths[i]);
      if unified.Some? {
        UnifyNonempty(paths[i]);
        var complex := new ComplexSelector(unified.value);
        SimplesOfAppend(result, complex);
        result := result + [complex];
      }
    }
    assert rest[..|paths| - 1] == rest;
  }

  lemma SimplesOfEmpty()
    ensures SimplesOf([]) == []
  {}

  lemma UnifyNonempty(path: seq<Extender>)
    requires path != [] && forall k | 0 <= k < |path| :: path[k].Simples() != []
    requires UnifyExtenders(path).Some?
    ensures UnifyExtenders(path).value != []
  {
    var originals := OriginalSimples(path);
    var registered := RegisteredCompounds(path);
    RegisteredNonempty(path);
    UnifyComplexMeaning((if originals != [] then [originals] else []) + registered, {});
  }

  lemma {:induction false} RegisteredNonempty(path: seq<Extender>)
    ensures forall i | 0 <= i < |RegisteredCompounds(path)| :: RegisteredCompounds(path)[i] != []
  {
    if path != [] {
      RegisteredNonempty(path[..|path| - 1]);
    }
  }

  /**
   The replacement of one compound, None when nothing in it is a target. In an
   original selector the compound itself stays first.
   */
  method ExtendCompound(simples: NonemptyCompound, exts: ExtensionMap, inOriginal: bool, specificity: map<Simple, nat>)
    returns (extended: Option<seq<ComplexSelector>>)
    ensures extended.Some? <==> Touches(simples, exts)
    ensures extended.Some? ==> extended.value != [] && IsExpansion(extended.value, OwnCandidates(simples, exts))
    ensures extended.Some? && inOriginal ==> extended.value[0].simples == simples
    ensures extended.Some? ==>
              var candidates, result := OwnCandidates(simples, exts), SimplesOf(extended.value);
              && |result| <= |candidates| && OnlyReplaced(specificity, candidates, result)
              && if OneOption(simples, exts) then result == candidates
                 else TrimmedDown(specificity, candidates, result, if inOriginal then {simples} else {})
  {
    hide *;
    var options := OptionsOf(simples, exts);
    OptionsExist(simples, exts);
    if options.None? {
      return None;
    }
    ExpansionFacts(simples, exts);
    if |options.value| == 1 {
      SingleOptionCandidates(simples, exts);
      var result := Rehang(options.value[0]);
      ExactIsExpansion(result);
      NothingDropped(specificity, result);
      OneOptionOnly(simples, exts);
      FirstOfExpansion(result, OwnCandidates(simples, exts));
      return Some(result);
    }
    OneOptionOnly(simples, exts);
    var paths := PathsOf(options.value);
    var result := UnifyPaths(paths);
    FirstOfExpansion(result, OwnCandidates(simples, exts));
    ghost var originals := if inOriginal then {result[0]} else {};
    var trimmed, sources := TrimSelectors(result, if inOriginal then {result[0]} else {}, specificity);
    TrimmedIsExpansion(result, trimmed);
    TrimmedToSimples(specificity, result, originals, trimmed, sources, if inOriginal then {simples} else {});
    CoveringIsNonempty(trimmed, result);
    return Some(trimmed);
  }

  /** Only one list of options: the target, and what it is extended with. */
  predicate OneOption(simples: Compound, exts: ExtensionMap) {
    Options(simples, exts).Some? && |Options(simples, exts).value| == 1
  }

  lemma OneOptionOnly(simples: Compound, exts: ExtensionMap)
    ensures OneOption(simples, exts) <==> Options(simples, exts).Some? && |Options(simples, exts).value| == 1
  {}

  lemma NothingDropped(specificity: map<Simple, nat>, result: seq<ComplexSelector>)
    ensures OnlyReplaced(specificity, SimplesOf(result), SimplesOf(result)) && |SimplesOf(result)| == |result|
  {}

  /** The trimming of selectors, told from what they hold. */
  lemma TrimmedToSimples(specificity: map<Simple, nat>, all: seq<ComplexSelector>, originals: set<ComplexSelector>,
                         trimmed: seq<ComplexSelector>, sources: seq<nat>, spared: set<Compound>)
    requires all != [] && originals <= {all[0]} && spared == set c <- originals :: c.simples
    requires |trimmed| <= |all| && OnlyReplaced(specificity, SimplesOf(all), SimplesOf(trimmed))
    requires |all| <= TRIM_LIMIT ==> Irredundant(specificity, originals, trimmed)
    requires |all| > TRIM_LIMIT ==> trimmed == all
    requires NoRepeatedOriginal(all, originals) ==> PickedInOrder(all, trimmed, sources)
    ensures |SimplesOf(trimmed)| <= |SimplesOf(all)|
    ensures TrimmedDown(specificity, SimplesOf(all), SimplesOf(trimmed), spared)
  {
    hide OnlyReplaced, SourceSpecificity, Selectors.Specificity, Selectors.IsSuperselector;
    var candidates, result := SimplesOf(all), SimplesOf(trimmed);
    forall k, l | 0 <= k < |result| && 0 <= l < |result| && k != l && result[k] !in spared && |all| <= TRIM_LIMIT
      ensures Specificity(result[l]) < SourceSpecificity(specificity, result[k]) || !IsSuperselector(result[l], result[k])
    {
      assert trimmed[k] !in originals;
      assert !Replaces(specificity, trimmed[l], trimmed[k]);
    }
    assert forall c <- originals :: c.simples in spared;
    if spared == {} {
      assert PickedInOrder(candidates, result, sources);
    }
  }

  lemma ExpansionFacts(simples: NonemptyCompound, exts: ExtensionMap)
    requires Options(simples, exts).Some?
    ensures var options := Options(simples, exts).value;
            && options != [] && NonemptyOptions(options)
            && (forall k | 0 <= k < |options[0]| :: options[0][k].Simples() != [])
            && Paths(options) != [] && NonemptyPaths(Paths(options))
            && OriginalSimples(Paths(options)[0]) == simples
            && Candidates(simples, exts) == Some(OwnCandidates(simples, exts))
            && OwnCandidates(simples, exts) == [simples] + UnifyAll(Paths(options)[1..])
  {
    var options := Options(simples, exts).value;
    OptionsExist(simples, exts);
    OptionsStartOriginal(simples, exts);
    OptionsWellFormed(simples, exts);
    FirstPath(options);
    PathsNonempty(options);
  }

  lemma FirstOfExpansion(result: seq<ComplexSelector>, candidates: seq<Compound>)
    requires candidates != [] && SimplesOf(result) == candidates
    ensures result != [] && result[0].simples == candidates[0]
  {
    assert SimplesOf(result)[0] == candidates[0];
  }

  lemma CoveringIsNonempty(trimmed: seq<ComplexSelector>, all: seq<ComplexSelector>)
    requires all != [] && Covers(SimplesOf(trimmed), SimplesOf(all))
    ensures trimmed != []
  {
    assert CoveredBy(SimplesOf(all)[0], SimplesOf(trimmed));
  }
}
