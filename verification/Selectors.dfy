/**
 Simple and compound selectors, restricted to what a single compound without
 selector arguments, pseudo-elements, namespaces or `&` can hold.

 An element is the set of simple selectors it satisfies. `*` is satisfied by
 every element; a real element has at most one ID and one type.
 */
module Selectors {
  import opened Collections
  import opened Wrappers

  /** A selector name. `*` is never a type name, and host pseudo-classes are not modelled. */
  type Name = s: string | s != "*" && s != "host" && s != "host-context" witness "a"

  datatype Simple =
    | Universal
    | Type(name: Name)
    | Id(name: Name)
    | Class(name: Name)
    | Placeholder(name: Name)
    | Attribute(text: string)
    | Pseudo(name: Name)
  {
    function Specificity(): nat {
      match this
      case Universal => 0
      case Type(_) => 1
      case Id(_) => 1000 * 1000
      case _ => 1000
    }

    predicate IsSuperselector(other: Simple) { Universal? || this == other }

    /** Placeholders starting with `-` or `_` are private to their module. */
    predicate IsPrivate() {
      Placeholder? && name != "" && (name[0] == '-' || name[0] == '_')
    }

    /** Merges this selector into the compound `comps`; None when they conflict. */
    function Unify(comps: seq<Simple>): Option<seq<Simple>> {
      match this
      case Universal =>
        if comps != [] && (comps[0].Universal? || comps[0].Type?) then UnifyHead(this, comps)
        else if comps == [] then Some([this])
        else Some(comps)
      case Type(_) =>
        if comps != [] && (comps[0].Universal? || comps[0].Type?) then UnifyHead(this, comps)
        else Some([this] + comps)
      case Id(_) =>
        if exists other <- comps :: other.Id? && other != this then None
        else BaseUnify(this, comps)
      case Pseudo(_) =>
        if |comps| == 1 && comps[0].Universal? then Some([this])
        else if this in comps then Some(comps)
        else Some(comps + [this])
      case _ => BaseUnify(this, comps)
    }
  }

  lemma PrivateNames(s: Simple)
    ensures s.IsPrivate() <==> s.Placeholder? && (HasPrefix(s.name, "-") || HasPrefix(s.name, "_"))
  {}

  /** Merges a universal or type selector with the one that opens `comps`. */
  function UnifyHead(s: Simple, comps: seq<Simple>): Option<seq<Simple>>
    requires s.Universal? || s.Type?
    requires comps != [] && (comps[0].Universal? || comps[0].Type?)
  {
    if s == comps[0] || comps[0].Universal? then Some([s] + comps[1..])
    else if s.Universal? then Some(comps)
    else None
  }

  function BaseUnify(s: Simple, comps: seq<Simple>): Option<seq<Simple>> {
    if |comps| == 1 && comps[0].Universal? then Some([s])
    else if s in comps then Some(comps)
    else Some(InsertBeforePseudo(s, comps))
  }

  function InsertBeforePseudo(s: Simple, comps: seq<Simple>): seq<Simple> {
    if comps == [] then [s]
    else if comps[0].Pseudo? then [s] + comps
    else [comps[0]] + InsertBeforePseudo(s, comps[1..])
  }

  type Compound = seq<Simple>

  /** What a compound selector object holds: never empty. */
  type NonemptyCompound = c: Compound | c != [] witness [Universal]

  function UnifyCompound(c1: Compound, c2: Compound): Option<Compound>
    decreases |c2|
  {
    if c2 == [] then Some(c1)
    else
      match c2[0].Unify(c1)
      case None => None
      case Some(merged) => UnifyCompound(merged, c2[1..])
  }

  /** Folds the bases of a non-empty list of single-compound selectors. */
  function UnifyComplex(cs: seq<Compound>): Option<Compound>
    requires cs != []
    decreases |cs|
  {
    if |cs| == 1 then Some(cs[0])
    else
      match UnifyCompound(cs[0], cs[1])
      case None => None
      case Some(merged) => UnifyComplex([merged] + cs[2..])
  }

  function Specificity(c: Compound): nat {
    if c == [] then 0 else c[0].Specificity() + Specificity(c[1..])
  }

  predicate IsSuperselector(a: Compound, b: Compound) {
    |a| <= |b| && forall sa <- a :: exists sb <- b :: sa.IsSuperselector(sb)
  }

  // ---- Meaning ----

  type Element = set<Simple>

  predicate Consistent(e: Element) {
    && (forall s, t | s in e && t in e && s.Id? && t.Id? :: s == t)
    && (forall s, t | s in e && t in e && s.Type? && t.Type? :: s == t)
  }

  /** Two IDs or two types: no element has both. */
  predicate Clash(s: Simple, t: Simple) { s != t && ((s.Id? && t.Id?) || (s.Type? && t.Type?)) }

  /** The element has no other ID or type than the compound. */
  predicate Alone(c: Compound, e: Element) { forall s <- c, t <- e :: !Clash(s, t) }

  /** As a compound is written: a type selector comes first. */
  predicate HeadTyped(c: Compound) { forall i | 0 < i < |c| :: !c[i].Type? }

  /** Some element matches the compound. */
  predicate Sensible(c: Compound) { forall s <- c, t <- c :: !Clash(s, t) }

  predicate SimpleMatches(s: Simple, e: Element) { s.Universal? || s in e }

  predicate Matches(c: Compound, e: Element) { forall s <- c :: SimpleMatches(s, e) }

  /** A selector list matches what any of its members matches. */
  predicate AnyMatches(cs: seq<Compound>, e: Element) { exists i | 0 <= i < |cs| :: Matches(cs[i], e) }

  lemma AnyMatchesConcat(a: seq<Compound>, b: seq<Compound>, e: Element)
    ensures AnyMatches(a + b, e) <==> AnyMatches(a, e) || AnyMatches(b, e)
  {
    if AnyMatches(a, e) {
      var i :| 0 <= i < |a| && Matches(a[i], e);
      assert (a + b)[i] == a[i];
    }
    if AnyMatches(b, e) {
      var i :| 0 <= i < |b| && Matches(b[i], e);
      assert (a + b)[|a| + i] == b[i];
    }
  }

  lemma AnyMatchesSingle(c: Compound, e: Element)
    ensures AnyMatches([c], e) <==> Matches(c, e)
  {
    assert [c][0] == c;
  }

  lemma SuperselectorMatches(a: Compound, b: Compound, e: Element)
    requires IsSuperselector(a, b) && Matches(b, e)
    ensures Matches(a, e)
  {}

  lemma SuperselectorReflexive(a: Compound)
    ensures IsSuperselector(a, a)
  {
    forall s | s in a ensures exists sb <- a :: s.IsSuperselector(sb) {
      assert s.IsSuperselector(s);
    }
  }

  lemma SuperselectorTransitive(a: Compound, b: Compound, c: Compound)
    requires IsSuperselector(a, b) && IsSuperselector(b, c)
    ensures IsSuperselector(a, c)
  {
    forall sa | sa in a ensures exists sc <- c :: sa.IsSuperselector(sc) {
      var sb :| sb in b && sa.IsSuperselector(sb);
      var sc :| sc in c && sb.IsSuperselector(sc);
      assert sa.IsSuperselector(sc);
    }
  }

  /** A compound covers another exactly if it is no longer and matches all that the other one does. */
  lemma SuperselectorExactly(a: Compound, b: Compound)
    requires b != []
    ensures IsSuperselector(a, b) <==> |a| <= |b| && forall e | Matches(b, e) :: Matches(a, e)
  {
    if |a| <= |b| && forall e | Matches(b, e) :: Matches(a, e) {
      var e: Element := set s | s in b;
      assert Matches(b, e);
      forall sa | sa in a ensures exists sb <- b :: sa.IsSuperselector(sb) {
        if sa.Universal? {
          assert b[0] in b && sa.IsSuperselector(b[0]);
        } else {
          assert SimpleMatches(sa, e) && sa.IsSuperselector(sa);
        }
      }
    }
  }

  lemma {:induction false} InsertBeforePseudoMembers(s: Simple, comps: seq<Simple>)
    ensures forall x :: x in InsertBeforePseudo(s, comps) <==> x == s || x in comps
  {
    if comps == [] {
    } else if comps[0].Pseudo? {
    } else {
      InsertBeforePseudoMembers(s, comps[1..]);
      assert comps == [comps[0]] + comps[1..];
    }
  }

  /** Unification is intersection: it fails only on compounds no element satisfies together. */
  lemma UnifySimpleMeaning(s: Simple, comps: Compound, e: Element)
    ensures s.Unify(comps).Some? ==>
              (Matches(s.Unify(comps).value, e) <==> SimpleMatches(s, e) && Matches(comps, e))
    ensures s.Unify(comps).None? && Consistent(e) ==> !(SimpleMatches(s, e) && Matches(comps, e))
    ensures s.Unify(comps).Some? ==> s.Unify(comps).value != []
  {
    InsertBeforePseudoMembers(s, comps);
    if comps != [] {
      assert comps == [comps[0]] + comps[1..];
      assert comps[0] in comps;
    }
    if s.Unify(comps).None? && s.Id? {
      var other :| other in comps && other.Id? && other != s;
      assert Consistent(e) && other in e ==> s !in e;
    }
  }

  lemma {:induction false} UnifyCompoundMeaning(c1: Compound, c2: Compound, e: Element)
    ensures UnifyCompound(c1, c2).Some? ==>
              (Matches(UnifyCompound(c1, c2).value, e) <==> Matches(c1, e) && Matches(c2, e))
    ensures UnifyCompound(c1, c2).None? && Consistent(e) ==> !(Matches(c1, e) && Matches(c2, e))
    ensures UnifyCompound(c1, c2).Some? && c1 != [] ==> UnifyCompound(c1, c2).value != []
    decreases |c2|
  {
    if c2 == [] {
    } else {
      assert c2 == [c2[0]] + c2[1..];
      UnifySimpleMeaning(c2[0], c1, e);
      if c2[0].Unify(c1).Some? {
        UnifyCompoundMeaning(c2[0].Unify(c1).value, c2[1..], e);
      }
    }
  }

  /** Unifying a list of compounds gives exactly the elements all of them match. */
  lemma {:induction false} UnifyComplexMeaning(cs: seq<Compound>, e: Element)
    requires cs != []
    ensures UnifyComplex(cs).Some? ==>
              (Matches(UnifyComplex(cs).value, e) <==> forall c <- cs :: Matches(c, e))
    ensures UnifyComplex(cs).None? && Consistent(e) ==> exists c <- cs :: !Matches(c, e)
    ensures UnifyComplex(cs).Some? && cs[0] != [] ==> UnifyComplex(cs).value != []
    decreases |cs|
  {
    if |cs| == 1 {
      assert cs == [cs[0]];
    } else {
      assert cs == [cs[0], cs[1]] + cs[2..];
      UnifyCompoundMeaning(cs[0], cs[1], e);
      if UnifyCompound(cs[0], cs[1]).Some? {
        var rest := [UnifyCompound(cs[0], cs[1]).value] + cs[2..];
        UnifyComplexMeaning(rest, e);
        assert (forall c <- rest :: Matches(c, e)) <==>
               Matches(rest[0], e) && forall c <- cs[2..] :: Matches(c, e);
      }
    }
  }

  // ---- The order of what is unified ----

  /** What is left of a compound, in its order, without `*` and the given simple selectors. */
  function Without(c: Compound, dropped: set<Simple>): Compound {
    if c == [] then []
    else if c[0].Universal? || c[0] in dropped then Without(c[1..], dropped)
    else [c[0]] + Without(c[1..], dropped)
  }

  /** No pseudo-class stands before anything else. */
  predicate PseudosLast(c: Compound) { forall i, j | 0 <= i < j < |c| && c[i].Pseudo? :: c[j].Pseudo? }

  /** The new simple selector stands right before the first pseudo-class, everything else as it was. */
  lemma {:induction false} InsertedBeforePseudos(s: Simple, comps: Compound) returns (k: nat)
    ensures k <= |comps| && InsertBeforePseudo(s, comps) == comps[..k] + [s] + comps[k..]
    ensures forall i | 0 <= i < k :: !comps[i].Pseudo?
    ensures k < |comps| ==> comps[k].Pseudo?
  {
    if comps == [] || comps[0].Pseudo? {
      k := 0;
    } else {
      var rest := InsertedBeforePseudos(s, comps[1..]);
      k := rest + 1;
      assert comps[..k] == [comps[0]] + comps[1..][..rest] && comps[1..][rest..] == comps[k..];
    }
  }

  lemma {:induction false} InsertOrder(s: Simple, comps: Compound, dropped: set<Simple>)
    requires s in dropped
    ensures Without(InsertBeforePseudo(s, comps), dropped) == Without(comps, dropped)
    ensures PseudosLast(comps) && !s.Pseudo? ==> PseudosLast(InsertBeforePseudo(s, comps))
  {
    if comps == [] {
    } else if comps[0].Pseudo? {
      assert ([s] + comps)[1..] == comps;
    } else {
      InsertOrder(s, comps[1..], dropped);
      var inserted := InsertBeforePseudo(s, comps[1..]);
      assert ([comps[0]] + inserted)[1..] == inserted;
    }
  }

  lemma {:induction false} AppendOrder(s: Simple, comps: Compound, dropped: set<Simple>)
    requires s in dropped
    ensures Without(comps + [s], dropped) == Without(comps, dropped)
  {
    if comps == [] {
    } else {
      AppendOrder(s, comps[1..], dropped);
      assert (comps + [s])[1..] == comps[1..] + [s];
    }
  }

  /** Adding one simple selector keeps the order of the others and leaves pseudo-classes last. */
  lemma {:induction false} UnifySimpleOrder(s: Simple, comps: Compound, dropped: set<Simple>)
    requires s.Unify(comps).Some? && s in dropped
    ensures Without(s.Unify(comps).value, dropped) == Without(comps, dropped)
    ensures PseudosLast(comps) ==> PseudosLast(s.Unify(comps).value)
  {
    hide InsertBeforePseudo;
    InsertOrder(s, comps, dropped);
    AppendOrder(s, comps, dropped);
    assert ([s] + comps)[1..] == comps;
    if comps != [] {
      assert ([s] + comps[1..])[1..] == comps[1..];
    }
  }

  /**
   Unifying keeps the first compound in its order, up to `*` and what the second one
   has too, and leaves pseudo-classes last.
   */
  lemma {:induction false} UnifyCompoundOrder(c1: Compound, c2: Compound, dropped: set<Simple>)
    requires UnifyCompound(c1, c2).Some? && forall s <- c2 :: s in dropped
    ensures Without(UnifyCompound(c1, c2).value, dropped) == Without(c1, dropped)
    ensures PseudosLast(c1) ==> PseudosLast(UnifyCompound(c1, c2).value)
    decreases |c2|
  {
    hide Without, PseudosLast, Simple.Unify;
    if c2 != [] {
      assert c2 == [c2[0]] + c2[1..];
      UnifySimpleOrder(c2[0], c1, dropped);
      UnifyCompoundOrder(c2[0].Unify(c1).value, c2[1..], dropped);
    }
  }

  /** How many simple selectors of each weight a compound has: IDs, classes and the like, types. */
  function Weights(c: Compound): (nat, nat, nat) {
    if c == [] then (0, 0, 0)
    else
      var (ids, classes, types) := Weights(c[1..]);
      if c[0].Id? then (ids + 1, classes, types)
      else if c[0].Type? then (ids, classes, types + 1)
      else if c[0].Universal? then (ids, classes, types)
      else (ids, classes + 1, types)
  }

  /** An ID counts a thousand classes and a class a thousand types. */
  lemma {:induction false} SpecificityWeighs(c: Compound)
    ensures var (ids, classes, types) := Weights(c); Specificity(c) == 1000000 * ids + 1000 * classes + types
  {
    if c != [] {
      SpecificityWeighs(c[1..]);
    }
  }

  // ---- When unification fails ----

  lemma ConsistentIsAlone(c: Compound, e: Element)
    requires Consistent(e) && Matches(c, e)
    ensures Alone(c, e) && Sensible(c)
  {}

  lemma UnifySimpleMembers(s: Simple, comps: Compound)
    requires s.Unify(comps).Some?
    ensures forall x <- s.Unify(comps).value :: x == s || x in comps
    ensures forall x <- comps :: x.Universal? || x in s.Unify(comps).value
    ensures s.Universal? || s in s.Unify(comps).value
  {
    InsertBeforePseudoMembers(s, comps);
    if comps != [] {
      assert comps == [comps[0]] + comps[1..];
    }
  }

  lemma {:induction false} InsertKeepsHead(s: Simple, comps: seq<Simple>)
    requires HeadTyped(comps) && !s.Type?
    ensures HeadTyped(InsertBeforePseudo(s, comps))
    ensures (forall x <- comps :: !x.Type?) ==> forall x <- InsertBeforePseudo(s, comps) :: !x.Type?
  {
    if comps != [] && !comps[0].Pseudo? {
      InsertKeepsHead(s, comps[1..]);
      assert forall x <- comps[1..] :: !x.Type?;
    } else {
      assert forall x <- comps :: comps[0].Pseudo? ==> !x.Type?;
    }
  }

  /** Unifying one simple selector fails exactly when the compound has another ID or type. */
  lemma UnifySimpleFails(s: Simple, comps: Compound)
    requires HeadTyped(comps)
    ensures s.Unify(comps).None? <==> exists t <- comps :: Clash(s, t)
    ensures s.Unify(comps).Some? ==> HeadTyped(s.Unify(comps).value)
  {
    if comps != [] {
      assert comps[0] in comps;
    }
    if !s.Type? {
      InsertKeepsHead(s, comps);
    }
  }

  /** What is alone in an element unifies with whatever else the element matches. */
  lemma {:induction false} UnifyCompoundAlone(c1: Compound, c2: Compound, e: Element)
    requires Matches(c1, e) && Matches(c2, e) && Alone(c2, e)
    ensures UnifyCompound(c1, c2).Some?
    decreases |c2|
  {
    if c2 != [] {
      assert c2 == [c2[0]] + c2[1..];
      UnifySimpleMeaning(c2[0], c1, e);
      if c2[0].Unify(c1).None? {
        ClashIsFound(c2[0], c1);
      } else {
        UnifyCompoundAlone(c2[0].Unify(c1).value, c2[1..], e);
      }
    }
  }

  lemma ClashIsFound(s: Simple, comps: Compound)
    requires s.Unify(comps).None?
    ensures exists t <- comps :: Clash(s, t)
  {
    assert comps != [] ==> comps[0] in comps;
  }

  lemma {:induction false} UnifyComplexAlone(cs: seq<Compound>, e: Element)
    requires cs != [] && (forall c <- cs :: Matches(c, e)) && forall c <- cs[1..] :: Alone(c, e)
    ensures UnifyComplex(cs).Some?
    decreases |cs|
  {
    if |cs| > 1 {
      assert cs[1] == cs[1..][0] && cs[1..][1..] == cs[2..];
      UnifyCompoundAlone(cs[0], cs[1], e);
      UnifyCompoundMeaning(cs[0], cs[1], e);
      var rest := [UnifyCompound(cs[0], cs[1]).value] + cs[2..];
      assert rest[1..] == cs[2..];
      forall c | c in rest ensures Matches(c, e) {
        assert c == rest[0] || c in cs[2..];
      }
      UnifyComplexAlone(rest, e);
    }
  }

  /** No simple selector of `a` clashes with one of `b`. */
  predicate NoClash(a: Compound, b: Compound) { forall s <- a, t <- b :: !Clash(s, t) }

  /** Compounds that unify do not clash, nor does the second with itself. */
  lemma {:induction false} UnifyCompoundApart(c1: Compound, c2: Compound)
    requires HeadTyped(c1) && UnifyCompound(c1, c2).Some?
    ensures NoClash(c2, c1) && NoClash(c2, c2) && HeadTyped(UnifyCompound(c1, c2).value)
    ensures forall x <- c1 + c2 :: x.Universal? || x in UnifyCompound(c1, c2).value
    decreases |c2|
  {
    if c2 != [] {
      var s, rest := c2[0], c2[1..];
      assert c2 == [s] + rest;
      UnifySimpleFails(s, c1);
      UnifySimpleMembers(s, c1);
      var merged := s.Unify(c1).value;
      UnifyCompoundApart(merged, rest);
      forall x, y | x in c2 && (y in c1 || y in c2) ensures !Clash(x, y) {
        assert Clash(x, y) ==> Clash(y, x) && !x.Universal? && !y.Universal?;
      }
      forall x | x in c1 + c2 ensures x.Universal? || x in UnifyCompound(c1, c2).value {
        assert x.Universal? || x in merged + rest;
      }
    }
  }

  lemma {:induction false} UnifyComplexApart(cs: seq<Compound>)
    requires cs != [] && HeadTyped(cs[0]) && UnifyComplex(cs).Some?
    ensures HeadTyped(UnifyComplex(cs).value)
    ensures forall i, j | 0 < i < |cs| && 0 <= j < |cs| :: NoClash(cs[i], cs[j])
    decreases |cs|
  {
    if |cs| > 1 {
      UnifyCompoundApart(cs[0], cs[1]);
      var merged := UnifyCompound(cs[0], cs[1]).value;
      var rest := [merged] + cs[2..];
      UnifyComplexApart(rest);
      forall i, j | 0 < i < |cs| && 0 <= j < |cs| ensures NoClash(cs[i], cs[j]) {
        if i > 1 {
          assert cs[i] == rest[i - 1];
          ApartFromParts(cs[i], merged, cs[0], cs[1]);
        }
        if j > 1 {
          assert cs[j] == rest[j - 1];
          ApartFromParts(cs[j], merged, cs[0], cs[1]);
        }
      }
    }
  }

  lemma ApartFromParts(c: Compound, merged: Compound, a: Compound, b: Compound)
    requires forall x <- a + b :: x.Universal? || x in merged
    ensures NoClash(c, merged) ==> NoClash(c, a) && NoClash(c, b) && NoClash(a, c) && NoClash(b, c)
  {
    if NoClash(c, merged) {
      forall s, t | s in c && (t in a || t in b) ensures !Clash(s, t) && !Clash(t, s) {
        assert t in a + b;
        assert t.Universal? || !Clash(s, t);
      }
    }
  }
}
