/**
 One `@extend` rule and the merging of two rules that share extender and target.

 Merging is promised to keep every mandatory rule visible to the check for
 unsatisfied extensions. It does so unless an operand is itself a merged
 extension without a media context: such a node counts as optional and is
 dropped together with both of its rules.
 */
module Extensions {
  import opened Wrappers
  import opened Selectors

  /** A complex selector of one compound. Two of them may be equal without being the same. */
  class ComplexSelector {
    const simples: NonemptyCompound

    constructor (simples: NonemptyCompound)
      ensures this.simples == simples
    {
      this.simples := simples;
    }

    predicate Equals(that: ComplexSelector) { simples == that.simples }
  }

  type MediaContext = Option<seq<string>>

  datatype MergeError = NotTheSameExtension | DifferentMediaQueries

  datatype MergeResult = Merge(extension: Extension) | Rejected(error: MergeError)

  /** Tells apart extensions that are equal in everything else, as their addresses do. */
  class Token {
    constructor () {}
  }

  datatype Extension =
    | Base(token: Token, extender: ComplexSelector, target: Simple, media: MediaContext, isOptional: bool)
    | Merged(extender: ComplexSelector, target: Simple, media: MediaContext, left: Extension, right: Extension)
  {
    /** A merged node never raises an unsatisfied-extension error on its own. */
    predicate IsOptional() { Merged? || isOptional }

    predicate AddsNothing() { IsOptional() && media.None? }

    function WithExtender(newToken: Token, newExtender: ComplexSelector): Extension {
      Base(newToken, newExtender, target, media, IsOptional())
    }
  }

  function MergeExtensions(left: Extension, right: Extension): MergeResult {
    if !left.extender.Equals(right.extender) || left.target != right.target then
      Rejected(NotTheSameExtension)
    else if left.media.Some? && right.media.Some? && left.media != right.media then
      Rejected(DifferentMediaQueries)
    else if right.AddsNothing() then Merge(left)
    else if left.AddsNothing() then Merge(right)
    else Merge(Merged(left.extender, left.target, if left.media.Some? then left.media else right.media, left, right))
  }

  function UnmergeExtensions(e: Extension): seq<Extension> {
    match e
    case Merged(_, _, _, left, right) => UnmergeExtensions(left) + UnmergeExtensions(right)
    case Base(_, _, _, _, _) => [e]
  }

  function MandatoryOf(es: seq<Extension>): seq<Extension> {
    if es == [] then []
    else (if es[0].IsOptional() then [] else [es[0]]) + MandatoryOf(es[1..])
  }

  /** The mandatory rules `ExtensionsWhereTarget` reports for one entry of the store. */
  function MandatoryLeaves(e: Extension): seq<Extension> { MandatoryOf(UnmergeExtensions(e)) }

  /** Every merged node in `e` was built by MergeExtensions. */
  predicate Formed(e: Extension) {
    e.Merged? ==> Formed(e.left) && Formed(e.right) && MergeExtensions(e.left, e.right) == Merge(e)
  }

  /** An extension as a store keeps it: media-free, and merged by MergeExtensions if at all. */
  predicate Stored(e: Extension) { e.media.None? && Formed(e) }

  /** The operands of one merge for which a mandatory rule is lost. */
  predicate LosesLeaves(left: Extension, right: Extension) {
    || (right.Merged? && right.media.None?)
    || (left.Merged? && left.media.None? && !(right.Base? && right.AddsNothing()))
  }

  lemma {:induction false} MandatoryOfConcat(es: seq<Extension>, fs: seq<Extension>)
    ensures MandatoryOf(es + fs) == MandatoryOf(es) + MandatoryOf(fs)
  {
    hide UnmergeExtensions, Formed, MergeExtensions;
    if es == [] {
      assert es + fs == fs;
    } else {
      assert (es + fs)[1..] == es[1..] + fs;
      MandatoryOfConcat(es[1..], fs);
      assert (es + fs)[0] == es[0];
    }
  }

  lemma MandatoryLeavesOfBase(e: Extension)
    requires e.Base?
    ensures MandatoryLeaves(e) == if e.isOptional then [] else [e]
  {
    assert UnmergeExtensions(e) == [e];
    assert [e][1..] == [];
    assert MandatoryOf([e]) == if e.isOptional then [] else [e];
  }

  lemma MediaFreeMergedHoldsTwoMandatory(e: Extension)
    requires Formed(e) && e.Merged? && e.media.None?
    ensures MandatoryLeaves(e) == [e.left, e.right]
  {
    MandatoryOfConcat([e.left], [e.right]);
    MandatoryLeavesOfBase(e.left);
    MandatoryLeavesOfBase(e.right);
  }

  lemma MergeStaysFormed(left: Extension, right: Extension)
    requires Formed(left) && Formed(right) && MergeExtensions(left, right).Merge?
    ensures Formed(MergeExtensions(left, right).extension)
  {}

  /** However often a rule is repeated, a store keeps at most two of its mandatory uses. */
  lemma StoredHoldsAtMostTwo(e: Extension)
    requires Stored(e)
    ensures |MandatoryLeaves(e)| <= 2
    ensures e.Merged? ==> MandatoryLeaves(e) == [e.left, e.right]
  {
    if e.Base? {
      MandatoryLeavesOfBase(e);
    } else {
      MediaFreeMergedHoldsTwoMandatory(e);
    }
  }

  /**
   Two extensions merge exactly if they are for the same extender and target and not in
   different media contexts; the merge is for these too, in the one context there is.
   */
  lemma MergesTheSame(left: Extension, right: Extension)
    ensures MergeExtensions(left, right) == Rejected(NotTheSameExtension) <==>
              left.extender.simples != right.extender.simples || left.target != right.target
    ensures MergeExtensions(left, right) == Rejected(DifferentMediaQueries) <==>
              && left.extender.simples == right.extender.simples && left.target == right.target
              && left.media.Some? && right.media.Some? && left.media != right.media
    ensures MergeExtensions(left, right).Merge? ==>
              var merged := MergeExtensions(left, right).extension;
              && merged.extender.simples == left.extender.simples && merged.target == left.target
              && merged.media == if left.media.Some? then left.media else right.media
  {}

  /** A merge keeps exactly both operands' mandatory rules if and only if it does not lose leaves. */
  lemma MergeKeepsMandatoryRules(left: Extension, right: Extension)
    requires Formed(left) && Formed(right) && MergeExtensions(left, right).Merge?
    ensures MandatoryLeaves(MergeExtensions(left, right).extension)
            == MandatoryLeaves(left) + MandatoryLeaves(right)
            <==> !LosesLeaves(left, right)
  {
    var merged := MergeExtensions(left, right).extension;
    MandatoryOfConcat(UnmergeExtensions(left), UnmergeExtensions(right));
    if left.Merged? && left.media.None? {
      MediaFreeMergedHoldsTwoMandatory(left);
    }
    if right.Merged? && right.media.None? {
      MediaFreeMergedHoldsTwoMandatory(right);
    }
    if right.AddsNothing() {
      if right.Base? {
        MandatoryLeavesOfBase(right);
      }
      assert |MandatoryLeaves(left) + MandatoryLeaves(right)| == |MandatoryLeaves(left)| + |MandatoryLeaves(right)|;
    } else if left.AddsNothing() {
      if left.Base? {
        MandatoryLeavesOfBase(left);
      }
      assert |MandatoryLeaves(left) + MandatoryLeaves(right)| == |MandatoryLeaves(left)| + |MandatoryLeaves(right)|;
    }
  }

  /** Repeating one mandatory, media-free rule a third time drops the first two. */
  lemma ThirdRepeatDropsTwo(e: Extension)
    requires e.Base? && !e.isOptional && e.media.None?
    ensures MergeExtensions(e, e).Merge?
    ensures MandatoryLeaves(MergeExtensions(e, e).extension) == [e, e]
    ensures MergeExtensions(MergeExtensions(e, e).extension, e) == Merge(e)
    ensures MandatoryLeaves(e) == [e]
  {
    MandatoryLeavesOfBase(e);
    MediaFreeMergedHoldsTwoMandatory(MergeExtensions(e, e).extension);
  }
}
