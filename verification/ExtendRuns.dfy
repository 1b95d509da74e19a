/**
 What a selector list means after a run of extensions, independent of how the
 store works: one extension step composed with the steps before it.
 */
module ExtendRuns {
  import opened Selectors
  import opened ExtendEngine
  import opened ExtendStrict

  /** No target occurs in an extender, so no rule can extend another. */
  predicate ChainFree(rules: set<Rule>) {
    forall r, q | r in rules && q in rules :: r.target !in q.extender
  }

  predicate Closed(e: Element, rules: set<Rule>) {
    forall r | r in rules && Matches(r.extender, e) :: SimpleMatches(r.target, e)
  }

  /** `after` matches everything `before` matches. */
  ghost predicate Keeps(before: seq<Compound>, after: seq<Compound>) {
    forall e | AnyMatches(before, e) :: AnyMatches(after, e)
  }

  /** `after` matches only what `before` matches under the rules. */
  ghost predicate Sound(before: seq<Compound>, after: seq<Compound>, rules: set<Rule>) {
    forall e | AnyMatches(after, e) :: AnyMatches(before, Augment(e, rules))
  }

  /** `after` matches every element `before` matches under those rules whose extenders are alone in it. */
  ghost predicate Complete(before: seq<Compound>, after: seq<Compound>, rules: set<Rule>) {
    forall e | AnyMatches(before, AugmentAlone(e, rules)) :: AnyMatches(after, e)
  }

  /** And no element without a part for which that is so. */
  ghost predicate Strict(before: seq<Compound>, after: seq<Compound>, rules: set<Rule>) {
    && AllHeadTyped(after)
    && forall e | Tame(e, rules) && AnyMatches(after, e) :: exists g | g <= e :: AnyMatches(before, AugmentAlone(g, rules))
  }

  /** On elements closed under the rules `after` matches only what `before` matches. */
  ghost predicate ClosedSound(before: seq<Compound>, after: seq<Compound>, rules: set<Rule>) {
    forall e | Closed(e, rules) && AnyMatches(after, e) :: AnyMatches(before, e)
  }

  /** `after` is `before` extended by the rules. */
  ghost predicate Extends(before: seq<Compound>, after: seq<Compound>, rules: set<Rule>) {
    && Keeps(before, after) && Sound(before, after, rules) && Complete(before, after, rules)
    && (AllHeadTyped(before) && Written(rules) ==> Strict(before, after, rules))
  }

  /** `after` means exactly what `before` means under the rules, for every consistent element. */
  ghost predicate Exact(before: seq<Compound>, after: seq<Compound>, rules: set<Rule>) {
    forall e | Consistent(e) :: AnyMatches(after, e) <==> AnyMatches(before, Augment(e, rules))
  }

  /** Any trimming of the candidates of a list is that list extended. */
  lemma TrimmedCandidatesExtend(list: seq<Compound>, exts: ExtensionMap, result: seq<Compound>)
    requires DrawnFrom(result, ListCandidates(list, exts)) && Covers(result, ListCandidates(list, exts))
    ensures Extends(list, result, RulesOf(exts))
  {
    hide RulesOf, AllHeadTyped, Written;
    var candidates := ListCandidates(list, exts);
    forall e ensures AnyMatches(result, e) <==> AnyMatches(candidates, e) {
      if AnyMatches(result, e) {
        DrawnMeaning(result, candidates, e);
      }
      if AnyMatches(candidates, e) {
        CoversMeaning(result, candidates, e);
      }
    }
    forall e
      ensures AnyMatches(list, e) ==> AnyMatches(result, e)
      ensures AnyMatches(result, e) ==> AnyMatches(list, Augment(e, RulesOf(exts)))
      ensures AnyMatches(list, AugmentAlone(e, RulesOf(exts))) ==> AnyMatches(result, e)
    {
      ListCandidatesMeaning(list, exts, e);
    }
    if AllHeadTyped(list) && Written(RulesOf(exts)) {
      TrimmedCandidatesStrict(list, exts, result);
    }
  }

  lemma TrimmedCandidatesStrict(list: seq<Compound>, exts: ExtensionMap, result: seq<Compound>)
    requires DrawnFrom(result, ListCandidates(list, exts)) && AllHeadTyped(list) && Written(RulesOf(exts))
    ensures Strict(list, result, RulesOf(exts))
  {
    hide RulesOf, Written, Tame, AnyMatches, HeadTyped;
    ListCandidatesHeadTyped(list, exts);
    forall e | Tame(e, RulesOf(exts)) && AnyMatches(result, e)
      ensures exists g | g <= e :: AnyMatches(list, AugmentAlone(g, RulesOf(exts)))
    {
      DrawnMeaning(result, ListCandidates(list, exts), e);
      ListCandidatesStrict(list, exts, e);
    }
  }

  lemma UntouchedExtends(list: seq<Compound>, rules: set<Rule>)
    requires forall i, r | 0 <= i < |list| && r in rules :: r.target !in list[i]
    ensures Extends(list, list, rules)
  {
    forall e
      ensures AnyMatches(list, e) <==> AnyMatches(list, Augment(e, rules))
      ensures AnyMatches(list, e) <==> AnyMatches(list, AugmentAlone(e, rules))
    {
      forall i | 0 <= i < |list|
        ensures Matches(list[i], e) <==> Matches(list[i], Augment(e, rules))
        ensures Matches(list[i], e) <==> Matches(list[i], AugmentAlone(e, rules))
      {}
    }
  }

  lemma AugmentGrows(list: seq<Compound>, e: Element, f: Element)
    requires e <= f && AnyMatches(list, e)
    ensures AnyMatches(list, f)
  {
    var i :| 0 <= i < |list| && Matches(list[i], e);
    assert Matches(list[i], f);
  }

  lemma CompleteForFewer(before: seq<Compound>, after: seq<Compound>, rules: set<Rule>, fewer: set<Rule>)
    requires Complete(before, after, rules) && fewer <= rules
    ensures Complete(before, after, fewer)
  {
    forall e | AnyMatches(before, AugmentAlone(e, fewer)) ensures AnyMatches(after, e) {
      AugmentGrows(before, AugmentAlone(e, fewer), AugmentAlone(e, rules));
    }
  }

  /** Without chains, augmenting by new rules and then by old ones is augmenting by all of them. */
  lemma AugmentTwice(e: Element, old_: set<Rule>, new_: set<Rule>)
    requires ChainFree(old_ + new_)
    ensures Augment(Augment(e, new_), old_) == Augment(e, old_ + new_)
  {
    var f := Augment(e, new_);
    forall r | r in old_ ensures Matches(r.extender, f) <==> Matches(r.extender, e) {
      assert r in old_ + new_;
      assert forall q | q in new_ :: q in old_ + new_ && q.target !in r.extender;
    }
    forall s ensures s in Augment(f, old_) <==> s in Augment(e, old_ + new_) {
      if s in Augment(f, old_) && s !in f {
        var r :| r in old_ && Matches(r.extender, f) && r.target == s;
        assert r in old_ + new_ && Matches(r.extender, e);
      }
      if s in Augment(e, old_ + new_) && s !in e {
        var r :| r in old_ + new_ && Matches(r.extender, e) && r.target == s;
        if r in old_ {
          assert Matches(r.extender, f);
        }
      }
    }
  }

  lemma SoundStep(o: seq<Compound>, v: seq<Compound>, w: seq<Compound>, old_: set<Rule>, new_: set<Rule>)
    requires ChainFree(old_ + new_)
    requires Sound(o, v, old_) && Sound(v, w, new_)
    ensures Sound(o, w, old_ + new_)
  {
    forall e | AnyMatches(w, e) ensures AnyMatches(o, Augment(e, old_ + new_)) {
      AugmentTwice(e, old_, new_);
      assert AnyMatches(v, Augment(e, new_));
    }
  }

  // ---- Rules in the order they arrive ----

  /** Sets of rules, each applied after the ones before it. */
  type Arrivals = seq<set<Rule>>

  /** What a list matches that was extended by one set of rules after another. */
  ghost predicate Means(list: seq<Compound>, arrivals: Arrivals, e: Element)
    decreases |arrivals|
  {
    if arrivals == [] then AnyMatches(list, e)
    else
      var n := |arrivals| - 1;
      exists g | g <= e :: Means(list, arrivals[..n], AugmentAlone(g, arrivals[n]))
  }

  /** `now` matches all that `original` means under the arrivals. */
  ghost predicate AtLeast(original: seq<Compound>, now: seq<Compound>, arrivals: Arrivals) {
    forall e | Means(original, arrivals, e) :: AnyMatches(now, e)
  }

  /** And no more, on elements that can match the extenders they do. */
  ghost predicate AtMost(original: seq<Compound>, now: seq<Compound>, arrivals: Arrivals, declared: set<Rule>) {
    && AllHeadTyped(now)
    && forall e | Tame(e, declared) && AnyMatches(now, e) :: Means(original, arrivals, e)
  }

  lemma MeansAppend(list: seq<Compound>, arrivals: Arrivals, rules: set<Rule>, e: Element)
    ensures Means(list, arrivals + [rules], e) <==> exists g | g <= e :: Means(list, arrivals, AugmentAlone(g, rules))
  {
    assert (arrivals + [rules])[..|arrivals|] == arrivals;
  }

  lemma AtLeastStep(o: seq<Compound>, v: seq<Compound>, w: seq<Compound>, arrivals: Arrivals, rules: set<Rule>)
    requires AtLeast(o, v, arrivals) && Complete(v, w, rules)
    ensures AtLeast(o, w, arrivals + [rules])
  {
    hide Means, AnyMatches;
    forall e | Means(o, arrivals + [rules], e) ensures AnyMatches(w, e) {
      MeansAppend(o, arrivals, rules, e);
      var g :| g <= e && Means(o, arrivals, AugmentAlone(g, rules));
      AugmentGrows(w, g, e);
    }
  }

  /** Without chains the extenders an element matches do not depend on what it stands in for. */
  lemma StaysTame(e: Element, g: Element, old_: set<Rule>, new_: set<Rule>)
    requires ChainFree(old_ + new_) && Tame(e, old_ + new_) && g <= e
    ensures Tame(AugmentAlone(g, new_), old_)
  {
    forall r | r in old_ && Matches(r.extender, AugmentAlone(g, new_)) ensures Sensible(r.extender) {
      assert r in old_ + new_ && forall q | q in new_ :: q in old_ + new_ && q.target !in r.extender;
      assert Matches(r.extender, e);
    }
  }

  lemma AtMostStep(o: seq<Compound>, v: seq<Compound>, w: seq<Compound>, arrivals: Arrivals,
                   old_: set<Rule>, new_: set<Rule>)
    requires ChainFree(old_ + new_)
    requires AtMost(o, v, arrivals, old_) && Strict(v, w, new_)
    ensures AtMost(o, w, arrivals + [new_], old_ + new_)
  {
    hide Means, AnyMatches, ChainFree, AllHeadTyped;
    forall e | Tame(e, old_ + new_) && AnyMatches(w, e) ensures Means(o, arrivals + [new_], e) {
      TameForFewer(e, old_ + new_, new_);
      var g :| g <= e && AnyMatches(v, AugmentAlone(g, new_));
      StaysTame(e, g, old_, new_);
      MeansAppend(o, arrivals, new_, e);
    }
  }

  lemma TameForFewer(e: Element, rules: set<Rule>, fewer: set<Rule>)
    requires Tame(e, rules) && fewer <= rules
    ensures Tame(e, fewer)
  {}

  lemma NothingArrived(list: seq<Compound>, declared: set<Rule>)
    ensures AtLeast(list, list, []) && (AllHeadTyped(list) ==> AtMost(list, list, [], declared))
  {}

  /** Chained or not: rules that follow from the declared ones never add meaning to a closed element. */
  lemma ClosedStep(o: seq<Compound>, v: seq<Compound>, w: seq<Compound>,
                   before: set<Rule>, declared: set<Rule>, applied: set<Rule>)
    requires before <= declared
    requires forall e | Closed(e, declared) :: Closed(e, applied)
    requires ClosedSound(o, v, before) && Sound(v, w, applied)
    ensures ClosedSound(o, w, declared)
  {
    forall e | Closed(e, declared) && AnyMatches(w, e) ensures AnyMatches(o, e) {
      var f := Augment(e, applied);
      assert AnyMatches(v, f);
      var i :| 0 <= i < |v| && Matches(v[i], f);
      assert Matches(v[i], e);
      assert AnyMatches(v, e);
      assert Closed(e, before);
    }
  }

  lemma KeepsTransitive(o: seq<Compound>, v: seq<Compound>, w: seq<Compound>)
    requires Keeps(o, v) && Keeps(v, w)
    ensures Keeps(o, w)
  {}
}
