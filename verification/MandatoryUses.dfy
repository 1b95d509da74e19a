/**
 What is left of the mandatory uses of one rule when extensions for it are merged one
 after another, as the entry of a store is.
 */
module MandatoryUses {
  import opened Wrappers
  import opened Selectors
  import opened Extensions

  /** A stored extension of the given rule. */
  predicate ForRule(x: Extension, t: Simple, c: Compound) { Stored(x) && x.target == t && x.extender.simples == c }

  /** An entry once one more extension for its rule has been filed. */
  function Meld(entry: Option<Extension>, x: Extension): Option<Extension> {
    if entry.None? then Some(x)
    else if MergeExtensions(entry.value, x).Merge? then Some(MergeExtensions(entry.value, x).extension)
    else entry
  }

  function MeldAll(entry: Option<Extension>, xs: seq<Extension>): Option<Extension> {
    if xs == [] then entry else Meld(MeldAll(entry, xs[..|xs| - 1]), xs[|xs| - 1])
  }

  lemma {:induction false} MeldAllConcat(entry: Option<Extension>, xs: seq<Extension>, ys: seq<Extension>)
    ensures MeldAll(entry, xs + ys) == MeldAll(MeldAll(entry, xs), ys)
  {
    if ys == [] {
      assert xs + ys == xs;
    } else {
      var n := |ys| - 1;
      assert (xs + ys)[..|xs| + n] == xs + ys[..n];
      MeldAllConcat(entry, xs, ys[..n]);
    }
  }

  /** One mandatory use that is not part of a merge. */
  predicate Single(x: Extension) { x.Base? && !x.isOptional }

  function Singles(xs: seq<Extension>): seq<Extension> {
    if xs == [] then [] else Singles(xs[..|xs| - 1]) + if Single(xs[|xs| - 1]) then [xs[|xs| - 1]] else []
  }

  /** What single uses merge into: the last of an odd number, the last two of an even one. */
  function OfUses(uses: seq<Extension>): Extension
    requires uses != []
  {
    var n := |uses|;
    if n % 2 == 1 then uses[n - 1] else Merged(uses[n - 2].extender, uses[n - 2].target, None, uses[n - 2], uses[n - 1])
  }

  lemma {:induction false} SinglesAreForRule(xs: seq<Extension>, t: Simple, c: Compound)
    requires forall x <- xs :: ForRule(x, t, c)
    ensures forall x <- Singles(xs) :: x in xs && Single(x) && ForRule(x, t, c)
  {
    if xs != [] {
      var n := |xs| - 1;
      assert xs == xs[..n] + [xs[n]];
      SinglesAreForRule(xs[..n], t, c);
    }
  }

  /** A use after others: it displaces a merge of two, and merges with a single one. */
  lemma MeldUse(uses: seq<Extension>, x: Extension, t: Simple, c: Compound)
    requires uses != [] && forall y <- uses + [x] :: Single(y) && ForRule(y, t, c)
    ensures Meld(Some(OfUses(uses)), x) == Some(OfUses(uses + [x]))
  {
    var n := |uses|;
    assert uses[n - 1] in uses + [x] && x in uses + [x];
    assert (uses + [x])[n - 1] == uses[n - 1] && (uses + [x])[n] == x;
    assert n % 2 == 0 ==> uses[n - 2] in uses + [x];
    if n % 2 == 1 {
      assert (n + 1) % 2 == 0;
    }
  }

  /** What adds nothing leaves an entry as it is. */
  lemma MeldNothing(e: Extension, x: Extension)
    requires x.AddsNothing() && e.extender.simples == x.extender.simples && e.target == x.target
    ensures Meld(Some(e), x) == Some(e)
  {}

  /** The first use displaces what adds nothing. */
  lemma MeldFirst(e: Extension, x: Extension)
    requires e.AddsNothing() && Single(x) && e.extender.simples == x.extender.simples && e.target == x.target
    ensures Meld(Some(e), x) == Some(x)
  {}

  lemma OfUsesIsForRule(uses: seq<Extension>, t: Simple, c: Compound)
    requires uses != [] && forall x <- uses :: Single(x) && ForRule(x, t, c)
    ensures ForRule(OfUses(uses), t, c)
  {
    var n := |uses|;
    assert uses[n - 1] in uses;
    if n % 2 == 0 {
      assert uses[n - 2] in uses;
      MergeStaysFormed(uses[n - 2], uses[n - 1]);
    }
  }

  /**
   Merging extensions for one rule: single uses displace one another in pairs, and
   everything else counts only as long as there is no single use.
   */
  lemma {:induction false} MeldsIntoUses(xs: seq<Extension>, t: Simple, c: Compound)
    requires xs != [] && forall x <- xs :: ForRule(x, t, c)
    ensures MeldAll(None, xs) == Some(if Singles(xs) == [] then xs[0] else OfUses(Singles(xs)))
    ensures ForRule(MeldAll(None, xs).value, t, c)
  {
    hide Meld, ForRule;
    var n := |xs| - 1;
    var x, before := xs[n], xs[..n];
    assert xs == before + [x];
    SinglesAreForRule(before, t, c);
    OneMeld(xs, t, c);
    if n == 0 {
      assert MeldAll(None, before) == None;
    } else {
      MeldsIntoUses(before, t, c);
    }
  }

  /** The last step of merging the extensions for a rule. */
  lemma OneMeld(xs: seq<Extension>, t: Simple, c: Compound)
    requires xs != [] && forall x <- xs :: ForRule(x, t, c)
    ensures var n := |xs| - 1;
            var uses := Singles(xs[..n]);
            var entry := if n == 0 then None else Some(if uses == [] then xs[0] else OfUses(uses));
            && Meld(entry, xs[n]) == Some(if Singles(xs) == [] then xs[0] else OfUses(Singles(xs)))
            && ForRule(Meld(entry, xs[n]).value, t, c)
  {
    var n := |xs| - 1;
    var x, before := xs[n], xs[..n];
    assert x in xs && xs[0] in xs && forall y <- before :: y in xs;
    SinglesAreForRule(before, t, c);
    var uses := Singles(before);
    hide Meld, OfUses, Singles;
    if n == 0 {
      FirstMeld(xs);
    } else if Single(x) {
      assert Singles(xs) == uses + [x] by {
        SinglesOfMore(xs);
      }
      if uses == [] {
        FirstAddsNothing(before);
        MeldFirst(xs[0], x);
        OneUse(x);
      } else {
        MeldUse(uses, x, t, c);
        OfUsesIsForRule(uses + [x], t, c);
      }
    } else {
      assert Singles(xs) == uses by {
        SinglesOfMore(xs);
      }
      if uses != [] {
        OfUsesIsForRule(uses, t, c);
        MeldNothing(OfUses(uses), x);
      } else {
        MeldNothing(xs[0], x);
      }
    }
  }

  lemma SinglesOfMore(xs: seq<Extension>)
    requires xs != []
    ensures Singles(xs) == Singles(xs[..|xs| - 1]) + if Single(xs[|xs| - 1]) then [xs[|xs| - 1]] else []
  {}

  lemma OneUse(x: Extension)
    ensures OfUses([] + [x]) == x
  {}

  lemma FirstMeld(xs: seq<Extension>)
    requires |xs| == 1
    ensures Meld(None, xs[0]) == Some(xs[0])
    ensures Singles(xs) == if Single(xs[0]) then [xs[0]] else []
    ensures OfUses([xs[0]]) == xs[0]
  {
    assert xs[..0] == [] && Singles(xs[..0]) == [];
  }

  lemma {:induction false} FirstAddsNothing(xs: seq<Extension>)
    requires xs != [] && Singles(xs) == [] && xs[0].media.None?
    ensures xs[0].AddsNothing()
  {
    if |xs| > 1 {
      FirstAddsNothing(xs[..|xs| - 1]);
    }
  }

  // ---- Which mandatory uses are left ----

  /** The mandatory uses an entry stands for. */
  function UsesOf(entry: Option<Extension>): seq<Extension> {
    if entry.None? then [] else MandatoryLeaves(entry.value)
  }

  /** The mandatory uses of all the given extensions. */
  function AllUses(xs: seq<Extension>): seq<Extension> {
    if xs == [] then [] else AllUses(xs[..|xs| - 1]) + MandatoryLeaves(xs[|xs| - 1])
  }

  /** The last of an odd number of uses, the last two of an even one. */
  function LastUses(uses: seq<Extension>): seq<Extension>
    requires uses != []
  {
    if |uses| % 2 == 1 then uses[|uses| - 1..] else uses[|uses| - 2..]
  }

  /** What is left of the uses of extensions for one rule that are merged in turn. */
  function Surviving(xs: seq<Extension>): seq<Extension> {
    if xs == [] then []
    else if Singles(xs) == [] then MandatoryLeaves(xs[0])
    else LastUses(Singles(xs))
  }

  lemma UsesOfUses(uses: seq<Extension>, t: Simple, c: Compound)
    requires uses != [] && forall x <- uses :: Single(x) && ForRule(x, t, c)
    ensures MandatoryLeaves(OfUses(uses)) == LastUses(uses)
  {
    hide MandatoryLeaves;
    var n := |uses|;
    assert uses[n - 1] in uses;
    MandatoryLeavesOfBase(uses[n - 1]);
    if n % 2 == 0 {
      assert uses[n - 2] in uses;
      OfUsesIsForRule(uses, t, c);
      MediaFreeMergedHoldsTwoMandatory(OfUses(uses));
    }
  }

  /** The uses an entry stands for once others for its rule have been merged into it. */
  lemma MeldedUses(entry: Option<Extension>, xs: seq<Extension>, t: Simple, c: Compound)
    requires forall x <- Together(entry, xs) :: ForRule(x, t, c)
    ensures UsesOf(MeldAll(entry, xs)) == Surviving(Together(entry, xs))
    ensures MeldAll(entry, xs).Some? ==> ForRule(MeldAll(entry, xs).value, t, c)
  {
    hide MandatoryLeaves, ForRule, OfUses, LastUses;
    var all := Together(entry, xs);
    MeldTogether(entry, xs);
    if all != [] {
      MeldsIntoUses(all, t, c);
      SinglesAreForRule(all, t, c);
      if Singles(all) != [] {
        UsesOfUses(Singles(all), t, c);
      }
    }
  }

  /** The entry and what is filed after it, in order. */
  function Together(entry: Option<Extension>, xs: seq<Extension>): seq<Extension> {
    if entry.Some? then [entry.value] + xs else xs
  }

  lemma {:induction false} MeldTogether(entry: Option<Extension>, xs: seq<Extension>)
    ensures MeldAll(entry, xs) == MeldAll(None, Together(entry, xs))
  {
    if entry.Some? {
      MeldAllConcat(None, [entry.value], xs);
      assert [entry.value][..0] == [];
      assert MeldAll(None, [entry.value]) == Meld(MeldAll(None, []), entry.value);
    }
  }

  /** What survives was among the uses that were merged. */
  lemma {:induction false} AllUsesMember(xs: seq<Extension>, i: nat)
    requires i < |xs|
    ensures forall u <- MandatoryLeaves(xs[i]) :: u in AllUses(xs)
  {
    hide MandatoryLeaves;
    if i < |xs| - 1 {
      AllUsesMember(xs[..|xs| - 1], i);
    }
  }

  lemma SurvivingCameIn(xs: seq<Extension>, t: Simple, c: Compound, u: Extension)
    requires (forall x <- xs :: ForRule(x, t, c)) && u in Surviving(xs)
    ensures exists x <- xs :: u in MandatoryLeaves(x)
  {
    hide MandatoryLeaves;
    if Singles(xs) == [] {
      assert xs[0] in xs;
    } else {
      SinglesAreForRule(xs, t, c);
      assert u in Singles(xs);
      MandatoryLeavesOfBase(u);
    }
  }

  lemma {:induction false} AtLeastOneEach(xs: seq<Extension>)
    requires forall x <- xs :: MandatoryLeaves(x) != []
    ensures |AllUses(xs)| >= |xs|
  {
    hide MandatoryLeaves;
    if xs != [] {
      var n := |xs| - 1;
      forall x | x in xs[..n] ensures MandatoryLeaves(x) != [] {
        assert x in xs;
      }
      AtLeastOneEach(xs[..n]);
      assert xs[n] in xs;
    }
  }

  lemma AllUsesOfOne(x: Extension)
    ensures AllUses([x]) == MandatoryLeaves(x)
  {
    hide MandatoryLeaves;
    assert [x][..0] == [] && AllUses([x][..0]) == [];
  }

  lemma AllUsesOfTwo(x: Extension, y: Extension)
    ensures AllUses([x, y]) == MandatoryLeaves(x) + MandatoryLeaves(y)
  {
    hide MandatoryLeaves;
    AllUsesOfOne(x);
    assert [x, y][..1] == [x];
  }

  lemma NoneSurvive()
    ensures Surviving([]) == [] && AllUses([]) == []
  {}

  lemma OneSurvives(x: Extension, t: Simple, c: Compound)
    requires ForRule(x, t, c) && MandatoryLeaves(x) != []
    ensures Surviving([x]) == MandatoryLeaves(x)
  {
    FirstMeld([x]);
    if x.Base? {
      MandatoryLeavesOfBase(x);
    }
  }

  lemma TwoSurvive(x: Extension, y: Extension)
    requires Single(x) && Single(y)
    ensures Surviving([x, y]) == [x, y]
  {
    hide MandatoryLeaves, Singles, OfUses, MeldAll, Meld;
    FirstMeld([x]);
    assert [x, y][..1] == [x];
    SinglesOfMore([x, y]);
    assert Singles([x, y]) == [x, y];
    LastOfTwo(x, y);
  }

  lemma LastOfTwo(x: Extension, y: Extension)
    ensures LastUses([x, y]) == [x, y]
  {}

  /** At most two mandatory uses, with no optional one between them, all survive. */
  lemma FewSurvive(xs: seq<Extension>, t: Simple, c: Compound)
    requires forall x <- xs :: ForRule(x, t, c) && MandatoryLeaves(x) != []
    requires |AllUses(xs)| <= 2
    ensures Surviving(xs) == AllUses(xs)
  {
    hide MandatoryLeaves, Surviving, ForRule;
    AtLeastOneEach(xs);
    if |xs| == 0 {
      NoneSurvive();
    } else if |xs| == 1 {
      OneSurvives(xs[0], t, c);
      AllUsesOfOne(xs[0]);
      assert xs == [xs[0]];
    } else {
      assert xs == [xs[0], xs[1]];
      AllUsesOfTwo(xs[0], xs[1]);
      forall x | x in xs ensures Single(x) && MandatoryLeaves(x) == [x] {
        HoldsOne(x, t, c);
      }
      TwoSurvive(xs[0], xs[1]);
    }
  }

  lemma HoldsOne(x: Extension, t: Simple, c: Compound)
    requires ForRule(x, t, c) && |MandatoryLeaves(x)| == 1
    ensures Single(x) && MandatoryLeaves(x) == [x]
  {
    StoredHoldsAtMostTwo(x);
    if x.Base? {
      MandatoryLeavesOfBase(x);
    }
  }
}
