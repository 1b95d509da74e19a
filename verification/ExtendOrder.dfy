/**
 What a list matches after rules that arrive one after another, said without them:
 which simple selectors an element lacks, and which rules can supply them.
 */
module ExtendOrder {
  import opened Selectors
  import opened ExtendEngine
  import opened ExtendStrict
  import opened ExtendRuns

  /** A rule that supplies its target, and the arrival it belongs to. */
  datatype Supply = Supply(rule: Rule, when: nat)

  type Supplies = map<Simple, Supply>

  function AllRules(arrivals: Arrivals): set<Rule> { set i, r | 0 <= i < |arrivals| && r in arrivals[i] :: r }

  /** Every simple selector is the target of a rule of that arrival whose extender the element matches. */
  predicate ComeFrom(supplies: Supplies, arrivals: Arrivals, e: Element) {
    forall s <- supplies ::
      var supply := supplies[s];
      && supply.when < |arrivals| && supply.rule in arrivals[supply.when]
      && supply.rule.target == s && Matches(supply.rule.extender, e)
  }

  /** No extender has another ID or type than what a later rule supplies. */
  predicate Undisturbed(supplies: Supplies) {
    forall s <- supplies, t <- supplies | supplies[s].when < supplies[t].when ::
      forall x <- supplies[s].rule.extender :: !Clash(x, t)
  }

  /** The element matches a member of the list once the rules supply what it lacks. */
  ghost predicate Suppliable(list: seq<Compound>, arrivals: Arrivals, e: Element) {
    exists supplies :: ComeFrom(supplies, arrivals, e) && Undisturbed(supplies) && AnyMatches(list, e + supplies.Keys)
  }

  // ---- Means is Suppliable ----

  lemma {:induction false} MeansGrows(list: seq<Compound>, arrivals: Arrivals, e: Element, f: Element)
    requires e <= f && Means(list, arrivals, e)
    ensures Means(list, arrivals, f)
  {
    if arrivals == [] {
      AugmentGrows(list, e, f);
    }
  }

  /** What arrival `k` and later ones supply. */
  function Since(supplies: Supplies, k: nat): Element { set s | s in supplies && supplies[s].when >= k }

  lemma SuppliedAt(arrivals: Arrivals, e: Element, supplies: Supplies, k: nat)
    requires Consistent(e) && ComeFrom(supplies, arrivals, e) && Undisturbed(supplies) && k < |arrivals|
    ensures e + Since(supplies, k) <= AugmentAlone(e + Since(supplies, k + 1), arrivals[k])
  {
    var f := e + Since(supplies, k + 1);
    forall s | s in Since(supplies, k) ensures s in AugmentAlone(f, arrivals[k]) {
      var r := supplies[s].rule;
      if s !in f {
        ConsistentIsAlone(r.extender, e);
        assert r in arrivals[k] && Matches(r.extender, f) && Alone(r.extender, f);
      }
    }
  }

  lemma {:induction false} SuppliedMeans(list: seq<Compound>, arrivals: Arrivals, e: Element, supplies: Supplies, k: nat)
    requires Consistent(e) && ComeFrom(supplies, arrivals, e) && Undisturbed(supplies) && k <= |arrivals|
    requires AnyMatches(list, e + supplies.Keys)
    ensures Means(list, arrivals[..k], e + Since(supplies, k))
  {
    hide ComeFrom, Undisturbed, AnyMatches, AugmentAlone, Consistent;
    if k == 0 {
      assert Since(supplies, 0) == supplies.Keys;
    } else {
      hide Since, Means;
      SuppliedMeans(list, arrivals, e, supplies, k - 1);
      SuppliedAt(arrivals, e, supplies, k - 1);
      var f := e + Since(supplies, k);
      MeansGrows(list, arrivals[..k - 1], e + Since(supplies, k - 1), AugmentAlone(f, arrivals[k - 1]));
      assert arrivals[..k] == arrivals[..k - 1] + [arrivals[k - 1]];
      MeansAppend(list, arrivals[..k - 1], arrivals[k - 1], f);
    }
  }

  ghost function Lender(s: Simple, g: Element, rules: set<Rule>): (r: Rule)
    requires s in AugmentAlone(g, rules) - g
    ensures r in rules && r.target == s && Matches(r.extender, g) && Alone(r.extender, g)
  {
    var r :| r in rules && r.target == s && Matches(r.extender, g) && Alone(r.extender, g); r
  }

  ghost function Lent(s: Simple, g: Element, rules: set<Rule>, k: nat): Supply
    requires s in AugmentAlone(g, rules) - g
  {
    Supply(Lender(s, g, rules), k)
  }

  /** What arrival `k` lends to `g`, on top of what later ones supply of it. */
  ghost function MoreSupplies(supplies: Supplies, g: Element, rules: set<Rule>, k: nat): Supplies {
    (map s | s in supplies && s in g :: supplies[s])
    + map s | s in AugmentAlone(g, rules) - g :: Lent(s, g, rules, k)
  }

  /** Supplies of arrival `k` are lent to `g`; the others are earlier ones that are part of it. */
  lemma SupplyKinds(supplies: Supplies, g: Element, rules: set<Rule>, k: nat, s: Simple)
    requires s in MoreSupplies(supplies, g, rules, k)
    ensures var supply := MoreSupplies(supplies, g, rules, k)[s];
            || (s in supplies && s in g && supply == supplies[s])
            || (s !in g && supply.when == k && supply.rule in rules && supply.rule.target == s
                && Matches(supply.rule.extender, g) && Alone(supply.rule.extender, g))
  {}

  lemma MoreComeFrom(arrivals: Arrivals, e: Element, supplies: Supplies, g: Element, k: nat)
    requires ChainFree(AllRules(arrivals)) && ComeFrom(supplies, arrivals, e)
    requires k < |arrivals| && g <= e + supplies.Keys
    ensures ComeFrom(MoreSupplies(supplies, g, arrivals[k], k), arrivals, e)
  {
    hide ChainFree, AllRules, MoreSupplies, Matches, Alone;
    var more := MoreSupplies(supplies, g, arrivals[k], k);
    forall s | s in more
      ensures more[s].when < |arrivals| && more[s].rule in arrivals[more[s].when]
      ensures more[s].rule.target == s && Matches(more[s].rule.extender, e)
    {
      SupplyKinds(supplies, g, arrivals[k], k, s);
      if s !in g {
        LentToElement(arrivals, e, supplies, g, k, more[s].rule);
      }
    }
  }

  lemma MoreUndisturbed(supplies: Supplies, g: Element, rules: set<Rule>, k: nat)
    requires Undisturbed(supplies) && forall s <- supplies :: supplies[s].when > k
    ensures Undisturbed(MoreSupplies(supplies, g, rules, k))
    ensures forall s <- MoreSupplies(supplies, g, rules, k) :: MoreSupplies(supplies, g, rules, k)[s].when >= k
  {
    hide MoreSupplies, Matches, Alone;
    var more := MoreSupplies(supplies, g, rules, k);
    forall s | s in more ensures more[s].when >= k {
      SupplyKinds(supplies, g, rules, k, s);
    }
    forall s, t | s in more && t in more && more[s].when < more[t].when
      ensures forall x <- more[s].rule.extender :: !Clash(x, t)
    {
      SupplyKinds(supplies, g, rules, k, s);
      SupplyKinds(supplies, g, rules, k, t);
      if s !in g {
        AloneInIt(more[s].rule.extender, g, t);
      }
    }
  }

  lemma MoreSuffice(supplies: Supplies, e: Element, g: Element, rules: set<Rule>, k: nat)
    requires g <= e + supplies.Keys
    ensures AugmentAlone(g, rules) <= e + MoreSupplies(supplies, g, rules, k).Keys
  {
    hide AugmentAlone;
  }

  lemma AloneInIt(c: Compound, e: Element, t: Simple)
    requires Alone(c, e) && t in e
    ensures forall x <- c :: !Clash(x, t)
  {}

  /** What extends part of an element and its supplies extends the element, as no extender needs a supply. */
  lemma LentToElement(arrivals: Arrivals, e: Element, supplies: Supplies, g: Element, k: nat, r: Rule)
    requires ChainFree(AllRules(arrivals)) && ComeFrom(supplies, arrivals, e)
    requires k < |arrivals| && r in arrivals[k] && g <= e + supplies.Keys && Matches(r.extender, g)
    ensures Matches(r.extender, e)
  {
    assert r in AllRules(arrivals);
    forall s | s in supplies ensures s !in r.extender {
      assert supplies[s].rule in AllRules(arrivals);
    }
  }

  lemma {:induction false} MeansSupplied(list: seq<Compound>, arrivals: Arrivals, e: Element, g: Element,
                                         supplies: Supplies, k: nat)
    requires ChainFree(AllRules(arrivals)) && ComeFrom(supplies, arrivals, e) && Undisturbed(supplies)
    requires k <= |arrivals| && (forall s <- supplies :: supplies[s].when >= k) && g <= e + supplies.Keys
    requires Means(list, arrivals[..k], g)
    ensures Suppliable(list, arrivals, e)
    decreases k
  {
    hide ComeFrom, Undisturbed, AnyMatches, AugmentAlone, ChainFree, AllRules, MoreSupplies;
    if k == 0 {
      AugmentGrows(list, g, e + supplies.Keys);
    } else {
      assert arrivals[..k] == arrivals[..k - 1] + [arrivals[k - 1]];
      MeansAppend(list, arrivals[..k - 1], arrivals[k - 1], g);
      var h :| h <= g && Means(list, arrivals[..k - 1], AugmentAlone(h, arrivals[k - 1]));
      MoreComeFrom(arrivals, e, supplies, h, k - 1);
      MoreUndisturbed(supplies, h, arrivals[k - 1], k - 1);
      MoreSuffice(supplies, e, h, arrivals[k - 1], k - 1);
      MeansSupplied(list, arrivals, e, AugmentAlone(h, arrivals[k - 1]), MoreSupplies(supplies, h, arrivals[k - 1], k - 1), k - 1);
    }
  }

  /**
   Without chains, extending by one arrival after another means exactly that the
   arrivals can supply what an element lacks, none spoiled by a later one.
   */
  lemma MeansIsSuppliable(list: seq<Compound>, arrivals: Arrivals, e: Element)
    requires Consistent(e) && ChainFree(AllRules(arrivals))
    ensures Means(list, arrivals, e) <==> Suppliable(list, arrivals, e)
  {
    hide Means, ChainFree, Consistent, AnyMatches;
    assert arrivals[..|arrivals|] == arrivals;
    if Means(list, arrivals, e) {
      MeansSupplied(list, arrivals, e, e, map[], |arrivals|);
    }
    if Suppliable(list, arrivals, e) {
      var supplies :| ComeFrom(supplies, arrivals, e) && Undisturbed(supplies) && AnyMatches(list, e + supplies.Keys);
      SuppliedMeans(list, arrivals, e, supplies, |arrivals|);
      assert e + Since(supplies, |arrivals|) == e;
    }
  }

  // ---- When everything is supplied ----

  lemma SuppliableIsAugmented(list: seq<Compound>, arrivals: Arrivals, e: Element)
    ensures Suppliable(list, arrivals, e) ==> AnyMatches(list, Augment(e, AllRules(arrivals)))
  {
    var all := Augment(e, AllRules(arrivals));
    forall supplies | ComeFrom(supplies, arrivals, e) && AnyMatches(list, e + supplies.Keys) ensures AnyMatches(list, all) {
      forall s | s in supplies ensures s in all {
        var r := supplies[s].rule;
        assert r in AllRules(arrivals) && Matches(r.extender, e);
      }
      AugmentGrows(list, e + supplies.Keys, all);
    }
  }

  ghost function SomeSupply(s: Simple, arrivals: Arrivals, e: Element): (supply: Supply)
    requires s in Augment(e, AllRules(arrivals)) - e
    ensures supply.when < |arrivals| && supply.rule in arrivals[supply.when]
    ensures supply.rule.target == s && Matches(supply.rule.extender, e)
  {
    var r :| r in AllRules(arrivals) && r.target == s && Matches(r.extender, e);
    var i :| 0 <= i < |arrivals| && r in arrivals[i];
    Supply(r, i)
  }

  function Extenders(rules: seq<Rule>): Compound {
    if rules == [] then [] else Extenders(rules[..|rules| - 1]) + rules[|rules| - 1].extender
  }

  function TargetsOf(rules: seq<Rule>): Compound {
    if rules == [] then [] else TargetsOf(rules[..|rules| - 1]) + [rules[|rules| - 1].target]
  }

  /** The least element that matches the compound. */
  function Least(c: Compound): Element { set s | s in c && !s.Universal? }

  lemma LeastMatches(c: Compound)
    requires Sensible(c)
    ensures Consistent(Least(c)) && Matches(c, Least(c))
  {}

  lemma {:induction false} InExtenders(rules: seq<Rule>, r: Rule)
    requires r in rules
    ensures r.target in TargetsOf(rules) && forall s <- r.extender :: s in Extenders(rules)
  {
    var n := |rules| - 1;
    if r in rules[..n] {
      InExtenders(rules[..n], r);
    } else {
      assert rules == rules[..n] + [rules[n]];
    }
  }

  lemma {:induction false} TargetIsOfRule(rules: seq<Rule>, t: Simple) returns (r: Rule)
    requires t in TargetsOf(rules)
    ensures r in rules && r.target == t
  {
    var n := |rules| - 1;
    if t in TargetsOf(rules[..n]) {
      r := TargetIsOfRule(rules[..n], t);
    } else {
      r := rules[n];
    }
  }

  /** A rule for every simple selector of the compound that the element lacks, in order. */
  ghost function PicksFor(c: Compound, arrivals: Arrivals, e: Element): seq<Rule>
    requires Matches(c, Augment(e, AllRules(arrivals)))
  {
    if c == [] then []
    else
      var n := |c| - 1;
      assert c[n] in c && forall s <- c[..n] :: s in c;
      PicksFor(c[..n], arrivals, e)
      + if SimpleMatches(c[n], e) then [] else [SomeSupply(c[n], arrivals, e).rule]
  }

  lemma LastPick(c: Compound, arrivals: Arrivals, e: Element) returns (r: Rule)
    requires c != [] && Matches(c, Augment(e, AllRules(arrivals)))
    ensures var n := |c| - 1;
            && Matches(c[..n], Augment(e, AllRules(arrivals)))
            && PicksFor(c, arrivals, e) == PicksFor(c[..n], arrivals, e) + (if SimpleMatches(c[n], e) then [] else [r])
            && (!SimpleMatches(c[n], e) ==> r in AllRules(arrivals) && r.target == c[n] && Matches(r.extender, e))
  {
    var n := |c| - 1;
    assert c[n] in c && forall s <- c[..n] :: s in c;
    r := if SimpleMatches(c[n], e) then Rule([], Universal) else SomeSupply(c[n], arrivals, e).rule;
  }

  lemma PickAppended(picks: seq<Rule>, r: Rule)
    ensures Extenders(picks + [r]) == Extenders(picks) + r.extender
    ensures TargetsOf(picks + [r]) == TargetsOf(picks) + [r.target]
  {
    assert (picks + [r])[..|picks|] == picks;
  }

  lemma {:induction false} PicksAreRules(c: Compound, arrivals: Arrivals, e: Element)
    requires Matches(c, Augment(e, AllRules(arrivals)))
    ensures forall r <- PicksFor(c, arrivals, e) ::
              r in AllRules(arrivals) && r.target in c && !SimpleMatches(r.target, e) && Matches(r.extender, e)
  {
    hide Matches, SimpleMatches, Augment, AllRules;
    if c != [] {
      var n := |c| - 1;
      var last := LastPick(c, arrivals, e);
      PicksAreRules(c[..n], arrivals, e);
      hide PicksFor;
      var before := PicksFor(c[..n], arrivals, e);
      assert c == c[..n] + [c[n]];
      forall r | r in PicksFor(c, arrivals, e)
        ensures r in AllRules(arrivals) && r.target in c && !SimpleMatches(r.target, e) && Matches(r.extender, e)
      {
        assert r in before || (r == last && !SimpleMatches(c[n], e));
      }
    }
  }

  lemma {:induction false} ExtendersMatch(rules: seq<Rule>, e: Element)
    requires forall r <- rules :: Matches(r.extender, e)
    ensures Matches(Extenders(rules), e)
  {
    hide Matches;
    if rules == [] {
      NothingToMatch(e);
    } else {
      var n := |rules| - 1;
      assert rules == rules[..n] + [rules[n]];
      ExtendersMatch(rules[..n], e);
      MatchesConcat(Extenders(rules[..n]), rules[n].extender, e);
    }
  }

  lemma {:induction false} PicksAreLacking(c: Compound, arrivals: Arrivals, e: Element)
    requires Matches(c, Augment(e, AllRules(arrivals)))
    ensures var targets := TargetsOf(PicksFor(c, arrivals, e));
            && (forall s <- c :: SimpleMatches(s, e) || s in targets)
            && |targets| <= |c| && (HeadTyped(c) ==> HeadTyped(targets))
  {
    hide Matches, SimpleMatches, Augment, AllRules, HeadTyped;
    if c == [] {
      NothingIsHeadTyped();
    } else {
      var n := |c| - 1;
      var r := LastPick(c, arrivals, e);
      assert c == c[..n] + [c[n]];
      if HeadTyped(c) {
        HeadTypedPrefix(c[..n], c[n]);
      }
      PicksAreLacking(c[..n], arrivals, e);
      hide PicksFor, TargetsOf;
      if !SimpleMatches(c[n], e) {
        PickAppended(PicksFor(c[..n], arrivals, e), r);
      } else {
        assert PicksFor(c, arrivals, e) == PicksFor(c[..n], arrivals, e);
      }
    }
  }

  /** Some rules, extending one element together, with targets that one compound can mention. */
  predicate Together(picks: seq<Rule>, rules: set<Rule>) {
    (forall r <- picks :: r in rules) && Sensible(Extenders(picks)) && HeadTyped(TargetsOf(picks))
  }

  /** Whatever rules extend one element together are supplied together. */
  ghost predicate AllSupplied(arrivals: Arrivals) {
    forall picks | Together(picks, AllRules(arrivals)) ::
      Suppliable([TargetsOf(picks)], arrivals, Least(Extenders(picks)))
  }

  lemma SuppliedEverywhere(list: seq<Compound>, arrivals: Arrivals, e: Element)
    requires AllSupplied(arrivals) && AllHeadTyped(list) && Consistent(e)
    requires AnyMatches(list, Augment(e, AllRules(arrivals)))
    ensures Suppliable(list, arrivals, e)
  {
    hide HeadTyped, Consistent, Undisturbed, AllRules, Sensible;
    var i :| 0 <= i < |list| && Matches(list[i], Augment(e, AllRules(arrivals)));
    var c := list[i];
    PicksAreRules(c, arrivals, e);
    PicksAreLacking(c, arrivals, e);
    var picks := PicksFor(c, arrivals, e);
    ExtendersMatch(picks, e);
    ConsistentIsAlone(Extenders(picks), e);
    var least := Least(Extenders(picks));
    assert Suppliable([TargetsOf(picks)], arrivals, least);
    var supplies :| ComeFrom(supplies, arrivals, least) && Undisturbed(supplies)
                    && AnyMatches([TargetsOf(picks)], least + supplies.Keys);
    AnyMatchesSingle(TargetsOf(picks), least + supplies.Keys);
    assert least <= e;
    assert ComeFrom(supplies, arrivals, e);
    assert Matches(c, e + supplies.Keys);
  }

  /**
   Rules that arrive like this lose nothing of any written list exactly when none is
   lost of the lists made of their own targets, on the elements made of their extenders.
   */
  lemma EveryListWhenSupplied(arrivals: Arrivals)
    ensures AllSupplied(arrivals) <==>
            forall list, e |
              AllHeadTyped(list) && Consistent(e) && AnyMatches(list, Augment(e, AllRules(arrivals))) ::
              Suppliable(list, arrivals, e)
  {
    hide HeadTyped, Consistent, Suppliable, AllRules, Sensible, AnyMatches, Augment;
    if AllSupplied(arrivals) {
      forall list, e | AllHeadTyped(list) && Consistent(e) && AnyMatches(list, Augment(e, AllRules(arrivals)))
        ensures Suppliable(list, arrivals, e)
      {
        SuppliedEverywhere(list, arrivals, e);
      }
    }
    forall picks | Together(picks, AllRules(arrivals))
      ensures AllHeadTyped([TargetsOf(picks)]) && Consistent(Least(Extenders(picks)))
      ensures AnyMatches([TargetsOf(picks)], Augment(Least(Extenders(picks)), AllRules(arrivals)))
    {
      LeastMatches(Extenders(picks));
      PicksMatchTargets(picks, AllRules(arrivals));
    }
  }

  lemma PicksMatchTargets(picks: seq<Rule>, rules: set<Rule>)
    requires forall r <- picks :: r in rules
    ensures AnyMatches([TargetsOf(picks)], Augment(Least(Extenders(picks)), rules))
  {
    var all := Augment(Least(Extenders(picks)), rules);
    forall t | t in TargetsOf(picks) ensures SimpleMatches(t, all) {
      var r := TargetIsOfRule(picks, t);
      InExtenders(picks, r);
      assert Matches(r.extender, Least(Extenders(picks)));
    }
    AnyMatchesSingle(TargetsOf(picks), all);
  }
}
