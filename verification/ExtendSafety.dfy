/**
 When nothing is lost: which rules spoil which, and which sets of rules may arrive in
 any order.
 */
module ExtendSafety {
  import opened Selectors
  import opened ExtendEngine
  import opened ExtendStrict
  import opened ExtendRuns
  import opened ExtendOrder

  // ---- Two rules ----

  /**
   An earlier rule that a later one spoils: the later target is an ID or a type of the
   kind that the earlier extender has another one of, some element matches both
   extenders, and a selector can mention both targets.
   */
  predicate Spoils(early: Rule, late: Rule) {
    && (exists s <- early.extender :: Clash(s, late.target))
    && Sensible(early.extender + late.extender)
    && early.target != late.target && !early.target.Universal? && !(early.target.Type? && late.target.Type?)
  }

  /** No arrival spoils a rule of an earlier one. */
  predicate Timely(arrivals: Arrivals) {
    forall i, j, q, r | 0 <= i < j < |arrivals| && q in arrivals[i] && r in arrivals[j] :: !Spoils(q, r)
  }

  lemma TimelyIsUndisturbed(c: Compound, arrivals: Arrivals, e: Element, supplies: Supplies)
    requires HeadTyped(c) && Timely(arrivals) && Consistent(e) && ComeFrom(supplies, arrivals, e)
    requires forall s <- supplies :: s in c && !s.Universal?
    ensures Undisturbed(supplies)
  {
    forall s, t, x | s in supplies && t in supplies && supplies[s].when < supplies[t].when && x in supplies[s].rule.extender
      ensures !Clash(x, t)
    {
      var q, r := supplies[s].rule, supplies[t].rule;
      ConsistentIsAlone(q.extender + r.extender, e);
      assert !Spoils(q, r);
    }
  }

  /** Rules that arrive in time supply everything they could supply together. */
  lemma TimelySupplies(list: seq<Compound>, arrivals: Arrivals, e: Element)
    requires AllHeadTyped(list) && Timely(arrivals) && Consistent(e)
    ensures Suppliable(list, arrivals, e) <==> AnyMatches(list, Augment(e, AllRules(arrivals)))
  {
    hide Timely, HeadTyped, Consistent, Undisturbed, AllRules;
    var all := Augment(e, AllRules(arrivals));
    if AnyMatches(list, all) {
      var i :| 0 <= i < |list| && Matches(list[i], all);
      var supplies := map s | s in list[i] && !s.Universal? && s !in e :: SomeSupply(s, arrivals, e);
      TimelyIsUndisturbed(list[i], arrivals, e, supplies);
      assert Matches(list[i], e + supplies.Keys);
    }
    SuppliableIsAugmented(list, arrivals, e);
  }

  /** The least element that matches both extenders. */
  function BothExtenders(q: Rule, r: Rule): Element { Least(q.extender + r.extender) }

  /** The compound mentions both targets and nothing else, as it would be written. */
  function BothTargets(q: Rule, r: Rule): (c: Compound)
    ensures !(q.target.Type? && r.target.Type?) ==> HeadTyped(c)
  {
    if q.target.Type? then [q.target, r.target] else [r.target, q.target]
  }

  lemma BothMatch(q: Rule, r: Rule)
    requires Spoils(q, r)
    ensures Consistent(BothExtenders(q, r))
    ensures AnyMatches([BothTargets(q, r)], Augment(BothExtenders(q, r), {q, r}))
  {
    var e := BothExtenders(q, r);
    var all := Augment(e, {q, r});
    assert q in {q, r} && r in {q, r} && Matches(q.extender, e) && Matches(r.extender, e);
    AnyMatchesSingle(BothTargets(q, r), all);
  }

  /** A rule that another one spoils is lost on the two extenders together, if the other arrives later. */
  lemma SpoiltIsLost(q: Rule, r: Rule, arrivals: Arrivals)
    requires Spoils(q, r) && ChainFree({q, r}) && AllRules(arrivals) <= {q, r}
    requires forall i, j | 0 <= i < |arrivals| && 0 <= j < |arrivals| && q in arrivals[i] && r in arrivals[j] :: i < j
    ensures !Suppliable([BothTargets(q, r)], arrivals, BothExtenders(q, r))
  {
    var c, e := BothTargets(q, r), BothExtenders(q, r);
    assert q in {q, r} && r in {q, r};
    forall supplies | ComeFrom(supplies, arrivals, e) && Undisturbed(supplies) ensures !AnyMatches([c], e + supplies.Keys) {
      AnyMatchesSingle(c, e + supplies.Keys);
      forall s | s in supplies ensures supplies[s].rule in {q, r} {
        assert supplies[s].rule in AllRules(arrivals);
      }
      assert q.target in c && r.target in c && q.target !in e && r.target !in e;
      if q.target in supplies && r.target in supplies {
        assert false;
      }
    }
  }

  // ---- Any order ----

  /** At most one type selector. */
  predicate OneType(c: Compound) { forall s <- c, t <- c | s.Type? && t.Type? :: s == t }

  /** Another rule for the target of `q` has no ID or type of a kind that the others have for targets. */
  predicate MadeUpFor(q: Rule, others: seq<Rule>, rules: set<Rule>) {
    exists p <- rules ::
      && p.target == q.target && Matches(p.extender, Least(q.extender + Extenders(others)))
      && forall r <- others, s <- p.extender :: !Clash(s, r.target)
  }

  /** All of these rules extend one element, and a written compound can mention all their targets. */
  predicate Contested(q: Rule, others: seq<Rule>, rules: set<Rule>) {
    && q in rules && (forall r <- others :: r in rules) && Sensible(q.extender + Extenders(others))
    && OneType([q.target] + TargetsOf(others)) && !q.target.Universal? && q.target !in TargetsOf(others)
  }

  /** Whatever comes later, some rule for each target is not spoiled by it. */
  ghost predicate OrderSafe(rules: set<Rule>) {
    forall q, others | Contested(q, others, rules) :: MadeUpFor(q, others, rules)
  }

  lemma NoneSpoiledIsOrderSafe(rules: set<Rule>)
    requires forall q <- rules, r <- rules :: !Spoils(q, r)
    ensures OrderSafe(rules)
  {
    forall q, others | Contested(q, others, rules) ensures MadeUpFor(q, others, rules) {
      forall r: Rule, s: Simple | r in others && s in q.extender ensures !Clash(s, r.target) {
        InExtenders(others, r);
        assert !Spoils(q, r);
        assert q.target in [q.target] + TargetsOf(others) && r.target in [q.target] + TargetsOf(others);
        assert Sensible(q.extender + r.extender);
      }
    }
  }

  function Without(c: Compound, s: Simple): Compound {
    if c == [] then []
    else Without(c[..|c| - 1], s) + if c[|c| - 1] == s then [] else [c[|c| - 1]]
  }

  lemma {:induction false} WithoutMembers(c: Compound, s: Simple)
    ensures forall x :: x in Without(c, s) <==> x in c && x != s
  {
    if c != [] {
      WithoutMembers(c[..|c| - 1], s);
      assert c == c[..|c| - 1] + [c[|c| - 1]];
    }
  }

  /** A rule that supplies `s` whatever the order in which the others supply the rest of `c`. */
  lemma SafeSupply(c: Compound, s: Simple, arrivals: Arrivals, e: Element) returns (supply: Supply)
    requires OrderSafe(AllRules(arrivals)) && HeadTyped(c) && Consistent(e)
    requires Matches(c, Augment(e, AllRules(arrivals))) && s in c && !SimpleMatches(s, e)
    ensures supply.when < |arrivals| && supply.rule in arrivals[supply.when]
    ensures supply.rule.target == s && Matches(supply.rule.extender, e)
    ensures forall t <- c, x <- supply.rule.extender | t != s && !SimpleMatches(t, e) :: !Clash(x, t)
  {
    hide AllRules, Consistent, OrderSafe;
    WithoutMembers(c, s);
    var rest := Without(c, s);
    PicksAreRules(rest, arrivals, e);
    PicksAreLacking(rest, arrivals, e);
    var others, q := PicksFor(rest, arrivals, e), SomeSupply(s, arrivals, e).rule;
    InAllRules(q, arrivals, SomeSupply(s, arrivals, e).when);
    ExtendersMatch(others, e);
    MatchesConcat(q.extender, Extenders(others), e);
    ConsistentIsAlone(q.extender + Extenders(others), e);
    PicksAreContested(c, s, arrivals, e, q, others);
    assert MadeUpFor(q, others, AllRules(arrivals)) by { SafeMakesUp(AllRules(arrivals), q, others); }
    var p :| p in AllRules(arrivals) && p.target == q.target && Matches(p.extender, Least(q.extender + Extenders(others)))
             && forall r <- others, x <- p.extender :: !Clash(x, r.target);
    supply := Supply(p, ArrivalOf(p, arrivals));
    forall t, x | t in c && x in p.extender && t != s && !SimpleMatches(t, e) ensures !Clash(x, t) {
      var r := TargetIsOfRule(others, t);
    }
  }

  lemma SafeMakesUp(rules: set<Rule>, q: Rule, others: seq<Rule>)
    requires OrderSafe(rules) && Contested(q, others, rules)
    ensures MadeUpFor(q, others, rules)
  {}

  lemma InAllRules(r: Rule, arrivals: Arrivals, i: nat)
    requires i < |arrivals| && r in arrivals[i]
    ensures r in AllRules(arrivals)
  {}

  ghost function ArrivalOf(r: Rule, arrivals: Arrivals): (i: nat)
    requires r in AllRules(arrivals)
    ensures i < |arrivals| && r in arrivals[i]
  {
    var i :| 0 <= i < |arrivals| && r in arrivals[i]; i
  }

  lemma PicksAreContested(c: Compound, s: Simple, arrivals: Arrivals, e: Element, q: Rule, others: seq<Rule>)
    requires HeadTyped(c) && s in c && !SimpleMatches(s, e) && q in AllRules(arrivals) && q.target == s
    requires forall r <- others :: r in AllRules(arrivals) && r.target in c && r.target != s
    requires Sensible(q.extender + Extenders(others))
    ensures Contested(q, others, AllRules(arrivals))
  {
    forall t | t in TargetsOf(others) ensures t in c && t != s {
      var r := TargetIsOfRule(others, t);
    }
  }

  /** With order-safe rules nothing is lost, however they arrive. */
  lemma OrderSafeSupplies(list: seq<Compound>, arrivals: Arrivals, e: Element)
    requires OrderSafe(AllRules(arrivals)) && AllHeadTyped(list) && Consistent(e)
    ensures Suppliable(list, arrivals, e) <==> AnyMatches(list, Augment(e, AllRules(arrivals)))
  {
    hide OrderSafe, HeadTyped, Consistent, AllRules;
    SuppliableIsAugmented(list, arrivals, e);
    if AnyMatches(list, Augment(e, AllRules(arrivals))) {
      var i :| 0 <= i < |list| && Matches(list[i], Augment(e, AllRules(arrivals)));
      var c := list[i];
      ghost var lacking := set s | s in c && !SimpleMatches(s, e);
      ghost var supplies := SafeSupplies(c, lacking, arrivals, e);
      assert Matches(c, e + supplies.Keys);
    }
  }

  lemma {:induction false} SafeSupplies(c: Compound, lacking: set<Simple>, arrivals: Arrivals, e: Element)
    returns (supplies: Supplies)
    requires OrderSafe(AllRules(arrivals)) && HeadTyped(c) && Consistent(e)
    requires Matches(c, Augment(e, AllRules(arrivals))) && forall s <- lacking :: s in c && !SimpleMatches(s, e)
    ensures supplies.Keys == lacking && ComeFrom(supplies, arrivals, e) && Undisturbed(supplies)
    ensures forall s <- supplies, t <- c, x <- supplies[s].rule.extender | t != s && !SimpleMatches(t, e) :: !Clash(x, t)
    decreases lacking
  {
    hide OrderSafe, HeadTyped, Consistent, AllRules, Augment;
    if lacking == {} {
      supplies := map[];
    } else {
      var s :| s in lacking;
      var fewer := SafeSupplies(c, lacking - {s}, arrivals, e);
      var supply := SafeSupply(c, s, arrivals, e);
      supplies := fewer[s := supply];
    }
  }

  function NonTypes(c: Compound): Compound {
    if c == [] then [] else NonTypes(c[..|c| - 1]) + if c[|c| - 1].Type? then [] else [c[|c| - 1]]
  }

  function FirstType(c: Compound): Compound {
    if c == [] then [] else if c[0].Type? then [c[0]] else FirstType(c[1..])
  }

  /** The compound as it would be written. */
  function AsWritten(c: Compound): Compound { FirstType(c) + NonTypes(c) }

  lemma {:induction false} NonTypesMembers(c: Compound)
    ensures forall x :: x in NonTypes(c) <==> x in c && !x.Type?
  {
    if c != [] {
      NonTypesMembers(c[..|c| - 1]);
      assert c == c[..|c| - 1] + [c[|c| - 1]];
    }
  }

  lemma {:induction false} FirstTypeMembers(c: Compound)
    ensures |FirstType(c)| <= 1 && forall x <- FirstType(c) :: x in c && x.Type?
    ensures (exists x <- c :: x.Type?) ==> FirstType(c) != []
  {
    if c != [] && !c[0].Type? {
      FirstTypeMembers(c[1..]);
      assert c == [c[0]] + c[1..];
    }
  }

  lemma WrittenMembers(c: Compound)
    requires OneType(c)
    ensures HeadTyped(AsWritten(c)) && forall x :: x in AsWritten(c) <==> x in c
  {
    NonTypesMembers(c);
    FirstTypeMembers(c);
    forall x | x in c ensures x in AsWritten(c) {
      if x.Type? {
        assert FirstType(c)[0] in FirstType(c);
      }
    }
  }

  /** A compound of all the targets, and the least element that matches all the extenders. */
  function ContestedTargets(q: Rule, others: seq<Rule>): Compound { AsWritten([q.target] + TargetsOf(others)) }

  function ContestedElement(q: Rule, others: seq<Rule>): Element { Least(q.extender + Extenders(others)) }

  lemma ContestedMatches(q: Rule, others: seq<Rule>, rules: set<Rule>)
    requires Contested(q, others, rules)
    ensures HeadTyped(ContestedTargets(q, others)) && Consistent(ContestedElement(q, others))
    ensures AnyMatches([ContestedTargets(q, others)], Augment(ContestedElement(q, others), rules))
  {
    var c, e := ContestedTargets(q, others), ContestedElement(q, others);
    WrittenMembers([q.target] + TargetsOf(others));
    LeastMatches(q.extender + Extenders(others));
    forall t | t in c ensures SimpleMatches(t, Augment(e, rules)) {
      if t == q.target {
        assert Matches(q.extender, e);
      } else {
        var r := TargetIsOfRule(others, t);
        InExtenders(others, r);
        assert Matches(r.extender, e);
      }
    }
    AnyMatchesSingle(c, Augment(e, rules));
  }

  /** If nothing makes up for `q`, its target is lost when all rules for it come before all others. */
  lemma NotMadeUpForIsLost(q: Rule, others: seq<Rule>, arrivals: Arrivals)
    requires Contested(q, others, AllRules(arrivals)) && !MadeUpFor(q, others, AllRules(arrivals))
    requires ChainFree(AllRules(arrivals))
    requires forall i, p | 0 <= i < |arrivals| && p in arrivals[i] :: i == 0 <==> p.target == q.target
    ensures !Suppliable([ContestedTargets(q, others)], arrivals, ContestedElement(q, others))
  {
    hide ChainFree, MadeUpFor, OneType, Sensible, Undisturbed, AllRules;
    var c, e := ContestedTargets(q, others), ContestedElement(q, others);
    WrittenMembers([q.target] + TargetsOf(others));
    forall supplies | ComeFrom(supplies, arrivals, e) && Undisturbed(supplies) ensures !AnyMatches([c], e + supplies.Keys) {
      AnyMatchesSingle(c, e + supplies.Keys);
      TargetsAreLacking(q, others, AllRules(arrivals));
      assert q.target in [q.target] + TargetsOf(others);
      if q.target in supplies {
        var p := supplies[q.target].rule;
        InAllRules(p, arrivals, supplies[q.target].when);
        var r, s := NotMadeUpForBy(q, others, AllRules(arrivals), p);
        InExtenders(others, r);
        NotBothSupplied(supplies, arrivals, e, q.target, r.target, s);
        assert r.target in [q.target] + TargetsOf(others) && !SimpleMatches(r.target, e + supplies.Keys);
      }
    }
  }

  lemma NotMadeUpForBy(q: Rule, others: seq<Rule>, rules: set<Rule>, p: Rule) returns (r: Rule, s: Simple)
    requires !MadeUpFor(q, others, rules) && p in rules && p.target == q.target
    requires Matches(p.extender, ContestedElement(q, others))
    ensures r in others && s in p.extender && Clash(s, r.target)
  {
    r, s :| r in others && s in p.extender && Clash(s, r.target);
  }

  lemma TargetsAreLacking(q: Rule, others: seq<Rule>, rules: set<Rule>)
    requires Contested(q, others, rules) && ChainFree(rules)
    ensures q.target !in ContestedElement(q, others)
    ensures forall r <- others :: r.target !in ContestedElement(q, others)
  {
    hide Sensible, OneType;
    forall t: Rule, s: Simple | (t == q || t in others) && s in q.extender + Extenders(others) ensures t.target != s {
      if s !in q.extender {
        var p := InSomeExtender(others, s);
        assert p in rules;
      }
    }
  }

  lemma {:induction false} InSomeExtender(rules: seq<Rule>, s: Simple) returns (r: Rule)
    requires s in Extenders(rules)
    ensures r in rules && s in r.extender
  {
    var n := |rules| - 1;
    if s in Extenders(rules[..n]) {
      r := InSomeExtender(rules[..n], s);
    } else {
      r := rules[n];
    }
  }

  lemma NotBothSupplied(supplies: Supplies, arrivals: Arrivals, e: Element, t: Simple, u: Simple, s: Simple)
    requires ComeFrom(supplies, arrivals, e) && Undisturbed(supplies)
    requires forall i, p | 0 <= i < |arrivals| && p in arrivals[i] :: i == 0 <==> p.target == t
    requires t in supplies && s in supplies[t].rule.extender && Clash(s, u) && u != t
    ensures u !in supplies
  {}
}
