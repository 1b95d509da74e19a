/**
 The other half of what extending means: a candidate matches an element only if
 extenders that are alone with their IDs and types make the compound match part of it.
 */
module ExtendStrict {
  import opened Wrappers
  import opened Selectors
  import opened Extensions
  import opened ExtendEngine

  /** Every extender the element matches is one that some real element can match. */
  predicate Tame(e: Element, rules: set<Rule>) {
    forall r | r in rules && Matches(r.extender, e) :: Sensible(r.extender)
  }

  predicate AllHeadTyped(list: seq<Compound>) { forall i | 0 <= i < |list| :: HeadTyped(list[i]) }

  predicate Written(rules: set<Rule>) { forall r <- rules :: r.extender != [] && HeadTyped(r.extender) }

  /** The parts of a path that an element has to have. */
  ghost function Needed(cs: seq<Compound>): Element {
    set i, s | 0 <= i < |cs| && s in cs[i] && !s.Universal? :: s
  }

  lemma NeededMatches(cs: seq<Compound>, e: Element)
    requires AllMatch(cs, e)
    ensures Needed(cs) <= e && AllMatch(cs, Needed(cs))
  {
    forall i | 0 <= i < |cs| ensures Matches(cs[i], Needed(cs)) {}
  }

  lemma AloneAmong(cs: seq<Compound>, i: nat)
    requires i < |cs| && forall j | 0 <= j < |cs| :: NoClash(cs[i], cs[j])
    ensures Alone(cs[i], Needed(cs))
  {
    hide NoClash;
    forall s, t | s in cs[i] && t in Needed(cs) ensures !Clash(s, t) {
      var j :| 0 <= j < |cs| && t in cs[j];
      NoClashAt(cs[i], cs[j], s, t);
    }
  }

  lemma NoClashAt(a: Compound, b: Compound, s: Simple, t: Simple)
    requires NoClash(a, b) && s in a && t in b
    ensures !Clash(s, t)
  {}

  lemma NoClashBothWays(a: Compound, b: Compound)
    ensures NoClash(a, b) <==> NoClash(b, a)
    ensures Sensible(a) <==> NoClash(a, a)
  {
    assert forall s, t :: Clash(s, t) <==> Clash(t, s);
  }

  /** What unifies needs no ID or type beside those of its parts. */
  lemma UnifiedAlone(cs: seq<Compound>)
    requires cs != [] && HeadTyped(cs[0]) && UnifyComplex(cs).Some?
    ensures forall i | 0 < i < |cs| :: Alone(cs[i], Needed(cs))
    ensures Sensible(cs[0]) ==> Alone(cs[0], Needed(cs))
    ensures HeadTyped(UnifyComplex(cs).value)
  {
    hide UnifyComplex, Alone, NoClash, Sensible, Needed, HeadTyped;
    UnifyComplexApart(cs);
    forall i | 0 < i < |cs| ensures Alone(cs[i], Needed(cs)) {
      AloneAmong(cs, i);
    }
    if Sensible(cs[0]) {
      forall j | 0 <= j < |cs| ensures NoClash(cs[0], cs[j]) {
        NoClashBothWays(cs[0], cs[j]);
      }
      AloneAmong(cs, 0);
    }
  }

  /** Paths are made of pieces of the compound and of written, sensible extenders. */
  predicate SensiblePath(path: seq<Extender>, e: Element) {
    && HeadTyped(OriginalSimples(path))
    && forall k | 0 <= k < |path| && path[k].Registered? ::
         HeadTyped(path[k].Simples()) && (Matches(path[k].Simples(), e) ==> Sensible(path[k].Simples()))
  }

  lemma {:induction false} RegisteredMembers(path: seq<Extender>, i: nat) returns (k: nat)
    requires i < |RegisteredCompounds(path)|
    ensures k < |path| && path[k].Registered? && path[k].Simples() == RegisteredCompounds(path)[i]
  {
    var n := |path| - 1;
    if i < |RegisteredCompounds(path[..n])| {
      k := RegisteredMembers(path[..n], i);
    } else {
      k := n;
    }
  }

  lemma ToUnifyHeadTyped(path: seq<Extender>, e: Element)
    requires path != [] && (forall k | 0 <= k < |path| :: path[k].Simples() != []) && SensiblePath(path, e)
    ensures ToUnify(path) != [] && HeadTyped(ToUnify(path)[0])
  {
    hide OriginalSimples, RegisteredCompounds, HeadTyped;
    PathYieldsSomething(path);
    if OriginalSimples(path) == [] {
      var k := RegisteredMembers(path, 0);
      assert ToUnify(path) == RegisteredCompounds(path);
    }
  }

  /** Whatever matches the unification of a path contains an element that uses the path with extenders alone in it. */
  lemma PathStrict(path: seq<Extender>, e: Element)
    requires path != [] && (forall k | 0 <= k < |path| :: path[k].Simples() != []) && SensiblePath(path, e)
    requires UnifyExtenders(path).Some? && Matches(UnifyExtenders(path).value, e)
    ensures exists g :: g <= e && PathMatches(path, g, true)
  {
    hide Matches, Alone, PathMatches, UnifyComplex, OriginalSimples, RegisteredCompounds, HeadTyped, Needed, Sensible;
    var cs := ToUnify(path);
    ToUnifyMeaning(path, e);
    UnifyToMeaning(cs, e);
    var g := Needed(cs);
    NeededMatches(cs, e);
    var originals, registered := OriginalSimples(path), RegisteredCompounds(path);
    forall i | 0 <= i < |registered| ensures HeadTyped(registered[i]) && Sensible(registered[i]) && registered[i] in cs {
      var k := RegisteredMembers(path, i);
      assert cs[|cs| - |registered| + i] == registered[i];
    }
    if originals == [] {
      assert cs == registered;
    } else {
      assert cs[0] == originals && cs[1..] == registered;
    }
    UnifiedAlone(cs);
    ToUnifyMeaning(path, g);
    PathParts(path, g, false);
    PathParts(path, g, true);
    forall c | c in registered ensures Alone(c, g) {
      var i :| 0 <= i < |registered| && registered[i] == c;
      assert cs[|cs| - |registered| + i] == c;
    }
  }

  lemma {:induction false} UnifyAllMember(paths: seq<seq<Extender>>, c: Compound) returns (i: nat)
    requires c in UnifyAll(paths)
    ensures i < |paths| && UnifyExtenders(paths[i]) == Some(c)
  {
    hide UnifyExtenders;
    var n := |paths| - 1;
    if c in UnifyAll(paths[..n]) {
      i := UnifyAllMember(paths[..n], c);
    } else {
      i := n;
    }
  }

  lemma OriginalsAppend(path: seq<Extender>, x: Extender)
    ensures OriginalSimples(path + [x]) == OriginalSimples(path) + if x.Original? then x.compound else []
  {
    assert (path + [x])[..|path|] == path;
  }

  /** What a path picks for the last simple selector, and what it picks for those before. */
  lemma SelectionSplits(simples: Compound, exts: ExtensionMap, p: seq<Extender>)
    requires Options(simples, exts).Some? && IsSelection(p, Options(simples, exts).value)
    ensures p != [] && simples != []
    ensures var n, before := |simples| - 1, p[..|p| - 1];
            match Options(simples[..n], exts)
            case Some(options) => IsSelection(before, options)
            case None => before == if n == 0 then [] else [Original(simples[..n])]
    ensures var s, last := simples[|simples| - 1], p[|p| - 1];
            if last.Original? then last.compound == [s] else Rule(last.Simples(), s) in RulesOf(exts)
  {
    var n, m := |simples| - 1, |p| - 1;
    var s, before := simples[n], Options(simples[..n], exts);
    var lead := if s in exts then Lead(simples[..n], before) else before.value;
    var choices := if s in exts then ChoicesFor(s, exts) else [Original([s])];
    assert Options(simples, exts).value == lead + [choices];
    assert (lead + [choices])[m] == choices && p[m] in choices;
    forall i | 0 <= i < m ensures p[..m][i] in lead[i] {
      assert (lead + [choices])[i] == lead[i];
    }
    var j :| 0 <= j < |choices| && choices[j] == p[m];
    if before.None? && n > 0 {
      assert p[..m][0] in lead[0];
    }
  }

  lemma HeadTypedPrefix(prefix: Compound, s: Simple)
    requires HeadTyped(prefix + [s])
    ensures HeadTyped(prefix)
    ensures forall rest :: HeadTyped(rest) && |rest| <= |prefix| ==> HeadTyped(rest + [s])
  {
    assert (prefix + [s])[|prefix|] == s;
    assert forall i | 0 <= i < |prefix| :: (prefix + [s])[i] == prefix[i];
  }

  /** The originals of a path are what is left of the compound, in order. */
  lemma {:induction false} OriginalsHeadTyped(simples: Compound, exts: ExtensionMap, p: seq<Extender>)
    requires Options(simples, exts).Some? && IsSelection(p, Options(simples, exts).value) && HeadTyped(simples)
    ensures HeadTyped(OriginalSimples(p)) && |OriginalSimples(p)| <= |simples|
  {
    hide Options, OriginalSimples, IsSelection, RulesOf, HeadTyped;
    SelectionSplits(simples, exts, p);
    var n, m := |simples| - 1, |p| - 1;
    assert p == p[..m] + [p[m]] && simples == simples[..n] + [simples[n]];
    HeadTypedPrefix(simples[..n], simples[n]);
    if Options(simples[..n], exts).Some? {
      OriginalsHeadTyped(simples[..n], exts, p[..m]);
    } else {
      OriginalsOfOne(simples[..n]);
      NothingIsHeadTyped();
    }
    OriginalsAppend(p[..m], p[m]);
    var before := OriginalSimples(p[..m]);
    assert OriginalSimples(p) == before || OriginalSimples(p) == before + [simples[n]];
  }

  lemma NothingIsHeadTyped()
    ensures HeadTyped([])
  {}

  lemma OriginalsOfOne(c: Compound)
    ensures OriginalSimples([]) == [] && OriginalSimples([Original(c)]) == c
  {
    OriginalsAppend([], Original(c));
    assert [] + [Original(c)] == [Original(c)] && [] + c == c;
  }

  lemma {:induction false} RegisteredIsRule(simples: Compound, exts: ExtensionMap, p: seq<Extender>, k: nat)
    returns (r: Rule)
    requires Options(simples, exts).Some? && IsSelection(p, Options(simples, exts).value)
    requires k < |p| && p[k].Registered?
    ensures r in RulesOf(exts) && r.extender == p[k].Simples()
  {
    hide Options, IsSelection, RulesOf;
    SelectionSplits(simples, exts, p);
    var n, m := |simples| - 1, |p| - 1;
    if k == m {
      r := Rule(p[m].Simples(), simples[n]);
    } else {
      assert p[..m][k] == p[k];
      r := RegisteredIsRule(simples[..n], exts, p[..m], k);
    }
  }

  /** A candidate matches no more than the compound under extenders that are alone in what they are used for. */
  lemma CandidatesStrict(simples: Compound, exts: ExtensionMap, e: Element, c: Compound)
    requires HeadTyped(simples) && Written(RulesOf(exts)) && Tame(e, RulesOf(exts))
    requires c in OwnCandidates(simples, exts) && Matches(c, e)
    ensures exists g :: g <= e && Matches(simples, AugmentAlone(g, RulesOf(exts)))
  {
    hide RulesOf, Paths, Options, UnifyExtenders;
    OptionsExist(simples, exts);
    CandidatesMeaning(simples, exts, e);
    if c == simples {
      assert Matches(simples, AugmentAlone(e, RulesOf(exts)));
    } else {
      var options := Options(simples, exts).value;
      var p := PathOfCandidate(simples, exts, e, c);
      PathStrict(p, e);
      var g :| g <= e && PathMatches(p, g, true);
      SelectionMeetsOptions(options, p, g, true);
      OptionsMeaning(simples, exts, g, true);
    }
  }

  /** Where a candidate other than the compound itself comes from. */
  lemma PathOfCandidate(simples: Compound, exts: ExtensionMap, e: Element, c: Compound) returns (p: seq<Extender>)
    requires HeadTyped(simples) && Written(RulesOf(exts)) && Tame(e, RulesOf(exts))
    requires c in OwnCandidates(simples, exts) && c != simples
    ensures Options(simples, exts).Some? && p in Paths(Options(simples, exts).value)
    ensures p != [] && (forall k | 0 <= k < |p| :: p[k].Simples() != []) && SensiblePath(p, e)
    ensures UnifyExtenders(p) == Some(c)
  {
    hide RulesOf, UnifyExtenders, OriginalSimples, Sensible, HeadTyped, Matches;
    var options := Options(simples, exts).value;
    var paths := Paths(options);
    CandidatesMeaning(simples, exts, e);
    var i := UnifyAllMember(paths[1..], c);
    p := paths[i + 1];
    OptionsExist(simples, exts);
    OptionsWellFormed(simples, exts);
    PathsNonempty(options);
    PathsAreProduct(options, p);
    OriginalsHeadTyped(simples, exts, p);
    forall k | 0 <= k < |p| && p[k].Registered?
      ensures HeadTyped(p[k].Simples()) && (Matches(p[k].Simples(), e) ==> Sensible(p[k].Simples()))
    {
      var r := RegisteredIsRule(simples, exts, p, k);
    }
  }

  /** Candidates of written compounds by written extenders are written. */
  lemma CandidatesHeadTyped(simples: Compound, exts: ExtensionMap, c: Compound)
    requires HeadTyped(simples) && Written(RulesOf(exts)) && c in OwnCandidates(simples, exts)
    ensures HeadTyped(c)
  {
    hide RulesOf, Paths, Options, UnifyComplex, HeadTyped;
    if c != simples {
      EmptyIsTame(RulesOf(exts));
      var p := PathOfCandidate(simples, exts, {}, c);
      ToUnifyHeadTyped(p, {});
      UnifyComplexApart(ToUnify(p));
    }
  }

  lemma EmptyIsTame(rules: set<Rule>)
    ensures Tame({}, rules)
  {}

  /** The same for a list. */
  lemma {:induction false} ListCandidatesStrict(list: seq<Compound>, exts: ExtensionMap, e: Element)
    requires AllHeadTyped(list) && Written(RulesOf(exts)) && Tame(e, RulesOf(exts))
    requires AnyMatches(ListCandidates(list, exts), e)
    ensures exists g :: g <= e && AnyMatches(list, AugmentAlone(g, RulesOf(exts)))
  {
    hide RulesOf, HeadTyped, Tame, OwnCandidates, AugmentAlone, AnyMatches;
    if list == [] {
      NoneMatch(e);
    } else {
      var n := |list| - 1;
      AnyMatchesConcat(ListCandidates(list[..n], exts), OwnCandidates(list[n], exts), e);
      if AnyMatches(ListCandidates(list[..n], exts), e) {
        ListCandidatesStrict(list[..n], exts, e);
        var g :| g <= e && AnyMatches(list[..n], AugmentAlone(g, RulesOf(exts)));
        AnyMatchesLast(list, AugmentAlone(g, RulesOf(exts)));
      } else {
        var c := MatchingMember(OwnCandidates(list[n], exts), e);
        CandidatesStrict(list[n], exts, e, c);
        var g :| g <= e && Matches(list[n], AugmentAlone(g, RulesOf(exts)));
        AnyMatchesLast(list, AugmentAlone(g, RulesOf(exts)));
      }
    }
  }

  lemma MatchingMember(cs: seq<Compound>, e: Element) returns (c: Compound)
    requires AnyMatches(cs, e)
    ensures c in cs && Matches(c, e)
  {
    var i :| 0 <= i < |cs| && Matches(cs[i], e);
    c := cs[i];
  }

  lemma {:induction false} ListCandidatesHeadTyped(list: seq<Compound>, exts: ExtensionMap)
    requires AllHeadTyped(list) && Written(RulesOf(exts))
    ensures forall c <- ListCandidates(list, exts) :: HeadTyped(c)
  {
    hide RulesOf, HeadTyped, OwnCandidates;
    if list != [] {
      var n := |list| - 1;
      ListCandidatesHeadTyped(list[..n], exts);
      forall c | c in OwnCandidates(list[n], exts) ensures HeadTyped(c) {
        CandidatesHeadTyped(list[n], exts, c);
      }
    }
  }
}
