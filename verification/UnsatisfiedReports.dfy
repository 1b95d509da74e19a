/**
 When a program is rejected for an `@extend` whose target is not found. A use whose
 target is known nowhere it gets to is always reported. The converse holds as long as
 merging loses no use on the way; otherwise a use may be reported although its target
 is right there.
 */
module UnsatisfiedReports {
  import opened Wrappers
  import opened Collections
  import opened Selectors
  import opened Extensions
  import opened MandatoryUses
  import opened ExtendEngine
  import opened StoreFacts
  import opened StoreEntries
  import opened ModuleGraphs
  import opened ModuleEntries
  import opened ExtensionReach

  type Known = map<ModuleId, set<Simple>>

  /** Where a use of the `i`th module gets to: that module, and publicly those it reaches. */
  ghost predicate GetsTo(run: Passing, i: nat, x: Extension, j: nat)
    requires run.Valid() && i < |run.sorted| && j < |run.sorted|
  {
    i == j || (!x.target.IsPrivate() && ReachesModule(run.p, run.sorted, run.sorted[i], run.sorted[j]))
  }

  /** The target of a use of the `i`th module is known somewhere the use gets to. */
  ghost predicate Found(run: Passing, known: Known, i: nat, x: Extension)
    requires run.Valid() && i < |run.sorted| && forall m <- run.sorted :: m in known
  {
    exists j | 0 <= j < |run.sorted| :: GetsTo(run, i, x, j) && x.target in known[run.sorted[j]]
  }

  /** The mandatory uses the `i`th module cannot place by itself. */
  function MissingAt(run: Passing, known: Known, i: nat): set<Extension>
    requires run.Valid() && i < |run.sorted| && forall m <- run.sorted :: m in known
  {
    MandatoryAt(run.before[run.sorted[i]], known[run.sorted[i]], false)
  }

  ghost predicate AllFound(run: Passing, known: Known)
    requires run.Valid() && forall m <- run.sorted :: m in known
  {
    forall i | 0 <= i < |run.sorted| :: forall x <- MissingAt(run, known, i) :: Found(run, known, i, x)
  }

  /** `x` is none of the variants made on the way. */
  predicate NoVariant(run: Passing, x: Extension) { forall j | 0 <= j < |run.variants| :: x !in run.variants[j] }

  // ---- A use that is kept came from somewhere ----

  predicate IsSent(run: Passing, m: ModuleId, k: nat, t: Simple, c: Compound, e: Extension)
    requires run.Valid() && k <= |run.sorted|
  {
    e in run.Sent(m, k, t, c)
  }

  /** `e` is what the `i`th module keeps in the end, and sends to `m`. */
  predicate SentBy(run: Passing, m: ModuleId, i: nat, t: Simple, c: Compound, e: Extension)
    requires run.Valid() && i < |run.sorted|
  {
    run.Entry(i, t, c) == Some(e) && run.p.Feeds(run.sorted[i], m) && !t.IsPrivate()
  }

  /** What is sent was sent before, or comes from the last module. */
  lemma SentBeforeOrJustNow(run: Passing, m: ModuleId, k: nat, t: Simple, c: Compound, e: Extension)
    requires run.Valid() && k <= |run.sorted| && IsSent(run, m, k, t, c, e)
    ensures k > 0 && (IsSent(run, m, k - 1, t, c, e) || SentBy(run, m, k - 1, t, c, e))
  {
    assert run.p.Closed();
    hide Passing.Valid, Passing.Entry, Program.Feeds, Program.TimesUsed;
    UsedIsFed(run.p, run.sorted[k - 1], m);
  }

  lemma {:induction false} SentComesFrom(run: Passing, m: ModuleId, k: nat, t: Simple, c: Compound, e: Extension)
    returns (i: nat)
    requires run.Valid() && k <= |run.sorted| && IsSent(run, m, k, t, c, e)
    ensures i < k && SentBy(run, m, i, t, c, e)
    decreases k
  {
    hide *;
    SentBeforeOrJustNow(run, m, k, t, c, e);
    i := k - 1;
    if IsSent(run, m, k - 1, t, c, e) {
      i := SentComesFrom(run, m, k - 1, t, c, e);
    }
  }

  lemma UsedIsFed(p: Program, d: ModuleId, m: ModuleId)
    requires p.Closed()
    ensures p.TimesUsed(d, m) > 0 <==> p.Feeds(d, m)
  {
    if d in p.g.modules {
      CountMember(p.g.upstream[d], m);
    }
  }

  lemma ReachesOneFurther(run: Passing, i: nat, x: Extension, k: nat, j: nat)
    requires run.Valid() && i < |run.sorted| && k < |run.sorted| && j < |run.sorted| && GetsTo(run, i, x, k)
    requires run.p.Feeds(run.sorted[k], run.sorted[j]) && !x.target.IsPrivate()
    ensures GetsTo(run, i, x, j)
  {
    assert run.sorted[i] in run.sorted && run.sorted[j] in run.sorted;
    ReachesItself(run.p, run.sorted, run.sorted[i]);
    ReachesFurther(run.p, run.sorted, run.sorted[i], run.sorted[k], run.sorted[j]);
  }

  /** A use a module keeps in the end, and that is no variant, got there from a module that had it before. */
  lemma {:induction false} KeptComesFrom(run: Passing, j: nat, x: Extension)
    requires run.Valid() && j < |run.sorted| && NoVariant(run, x)
    requires x in UsesOf(run.Entry(j, x.target, x.extender.simples))
    ensures exists i | 0 <= i < |run.sorted| ::
              run.sorted[i] in run.before && Keeps(run.before[run.sorted[i]], x) && GetsTo(run, i, x, j)
    decreases j
  {
    hide Surviving, MandatoryLeaves, Passing.Valid, Passing.Entry, Passing.Sent, GetsTo;
    var t, c := x.target, x.extender.simples;
    var y := CameIn(run, j, x);
    if EntryAt(run.before[run.sorted[j]], t, c) == Some(y) {
      assert Keeps(run.before[run.sorted[j]], x);
      GetsToItself(run, j, x);
    } else {
      var k := SentComesFrom(run, run.sorted[j], j, t, c, y);
      KeptComesFrom(run, k, x);
      var i :| 0 <= i < |run.sorted| && run.sorted[i] in run.before
               && Keeps(run.before[run.sorted[i]], x) && GetsTo(run, i, x, k);
      ReachesOneFurther(run, i, x, k, j);
    }
  }

  lemma GetsToItself(run: Passing, j: nat, x: Extension)
    requires run.Valid() && j < |run.sorted|
    ensures GetsTo(run, j, x, j)
  {}

  /** What `x` came in with: the entry before, or something sent, unless it is a variant. */
  lemma CameIn(run: Passing, j: nat, x: Extension) returns (y: Extension)
    requires run.Valid() && j < |run.sorted| && NoVariant(run, x)
    requires x in UsesOf(run.Entry(j, x.target, x.extender.simples))
    ensures x in MandatoryLeaves(y)
    ensures run.sorted[j] in run.before && run.p.Closed()
    ensures EntryAt(run.before[run.sorted[j]], x.target, x.extender.simples) == Some(y)
            || y in run.Sent(run.sorted[j], j, x.target, x.extender.simples)
  {
    hide Surviving, MandatoryLeaves, Passing.Entry, Passing.Sent;
    var t, c := x.target, x.extender.simples;
    assert run.sorted[j] in run.sorted;
    run.EntryUses(j, t, c);
    SurvivingCameIn(run.Gathered(j, t, c), t, c, x);
    y :| y in run.Gathered(j, t, c) && x in MandatoryLeaves(y);
    OfMembers(run.variants[j], t, c);
    if y in Of(run.variants[j], t, c) {
      MandatoryLeavesOfBase(y);
    }
  }

  /** The target of a use is known somewhere it gets to from a module that has it. */
  ghost predicate FoundFromAny(run: Passing, known: Known, x: Extension)
    requires run.Valid() && forall m <- run.sorted :: m in known
  {
    exists h | 0 <= h < |run.sorted| ::
      run.sorted[h] in run.before && Keeps(run.before[run.sorted[h]], x) && Found(run, known, h, x)
  }

  lemma PlacedIsFound(run: Passing, known: Known, x: Extension, j: nat)
    requires run.Valid() && j < |run.sorted| && NoVariant(run, x) && forall m <- run.sorted :: m in known
    requires run.sorted[j] in known && run.Placed(known, x, j)
    ensures FoundFromAny(run, known, x)
  {
    hide GetsTo, Passing.Entry;
    KeptComesFrom(run, j, x);
    var h :| 0 <= h < |run.sorted| && run.sorted[h] in run.before
             && Keeps(run.before[run.sorted[h]], x) && GetsTo(run, h, x, j);
    assert Found(run, known, h, x);
  }

  /**
   A use whose target is known nowhere it gets to is reported, however many there are
   and whatever extends what.
   */
  lemma UnknownIsReported(run: Passing, known: Known, i: nat, x: Extension)
    requires run.Valid() && i < |run.sorted| && forall m <- run.sorted :: m in known
    requires x in MissingAt(run, known, i) && NoVariant(run, x)
    ensures !FoundFromAny(run, known, x) ==> x in run.Unplaced(known)
  {
    hide MandatoryAt, Passing.Entry, Found, Keeps, FoundFromAny;
    forall j | 0 <= j < |run.sorted| ensures run.sorted[j] in known {
      assert run.sorted[j] in run.sorted;
    }
    if run.PlacedFrom(known, x, i) {
      var j :| i <= j < |run.sorted| && run.Placed(known, x, j);
      PlacedIsFound(run, known, x, j);
    }
  }

  // ---- When merging loses nothing ----

  /** Every use that comes in survives, in every module and for every rule. */
  ghost predicate NothingLost(run: Passing)
    requires run.Valid()
  {
    forall j, t, c | 0 <= j < |run.sorted| ::
      forall u <- AllUses(run.Gathered(j, t, c)) :: u in Surviving(run.Gathered(j, t, c))
  }

  lemma RepeatedIsThere<T>(x: T, n: nat)
    requires n > 0
    ensures x in Repeat(x, n)
  {
    assert Repeat(x, n)[0] == x;
  }

  lemma SentOnceMore(run: Passing, m: ModuleId, k: nat, t: Simple, c: Compound, e: Extension)
    requires run.Valid() && k < |run.sorted| && !t.IsPrivate()
    requires e in run.Sent(m, k, t, c) || (run.Entry(k, t, c) == Some(e) && run.p.Feeds(run.sorted[k], m))
    ensures e in run.Sent(m, k + 1, t, c)
  {
    assert run.p.Closed();
    hide *;
    run.SentByOne(m, k, t, c);
    if e !in run.Sent(m, k, t, c) {
      UsedIsFed(run.p, run.sorted[k], m);
      RepeatedIsThere(e, run.p.TimesUsed(run.sorted[k], m));
    }
  }

  lemma {:induction false} SentAtLeast(run: Passing, m: ModuleId, k: nat, i: nat, t: Simple, c: Compound)
    requires run.Valid() && i < k <= |run.sorted| && !t.IsPrivate()
    requires run.Entry(i, t, c).Some? && run.p.Feeds(run.sorted[i], m)
    ensures run.Entry(i, t, c).value in run.Sent(m, k, t, c)
    decreases k
  {
    hide *;
    if i < k - 1 {
      SentAtLeast(run, m, k - 1, i, t, c);
    }
    SentOnceMore(run, m, k - 1, t, c, run.Entry(i, t, c).value);
  }

  /** Where nothing is lost, what comes in is kept. */
  lemma GatheredIsKept(run: Passing, j: nat, t: Simple, c: Compound, e: Extension, u: Extension)
    requires run.Valid() && NothingLost(run) && j < |run.sorted|
    requires e in run.Gathered(j, t, c) && u in MandatoryLeaves(e)
    ensures u in UsesOf(run.Entry(j, t, c))
  {
    hide MandatoryLeaves, Surviving, AllUses, Passing.Gathered, Passing.Entry, Passing.Valid;
    run.EntryUses(j, t, c);
    var all := run.Gathered(j, t, c);
    var i :| 0 <= i < |all| && all[i] == e;
    AllUsesMember(all, i);
  }

  lemma KeptAtHome(run: Passing, i: nat, x: Extension)
    requires run.Valid() && NothingLost(run) && i < |run.sorted|
    requires run.sorted[i] in run.before && Keeps(run.before[run.sorted[i]], x)
    ensures x in UsesOf(run.Entry(i, x.target, x.extender.simples))
  {
    hide MandatoryLeaves, Passing.Entry, NothingLost, EntryAt, Passing.Sent, Of;
    var e := EntryAt(run.before[run.sorted[i]], x.target, x.extender.simples).value;
    assert run.Gathered(i, x.target, x.extender.simples)[0] == e;
    GatheredIsKept(run, i, x.target, x.extender.simples, e, x);
  }

  lemma KeptFurther(run: Passing, k: nat, j: nat, x: Extension)
    requires run.Valid() && NothingLost(run) && k < |run.sorted| && j < |run.sorted| && !x.target.IsPrivate()
    requires run.p.Feeds(run.sorted[k], run.sorted[j]) && x in UsesOf(run.Entry(k, x.target, x.extender.simples))
    ensures x in UsesOf(run.Entry(j, x.target, x.extender.simples))
  {
    hide MandatoryLeaves, Passing.Entry, NothingLost, EntryAt, Passing.Sent, Of;
    var t, c := x.target, x.extender.simples;
    assert k < j;
    SentAtLeast(run, run.sorted[j], j, k, t, c);
    GatheredIsKept(run, j, t, c, run.Entry(k, t, c).value, x);
  }

  lemma {:induction false} KeptAlong(run: Passing, path: seq<ModuleId>, i: nat, j: nat, x: Extension)
    requires run.Valid() && NothingLost(run) && UseChain(run.p, run.sorted, path) && !x.target.IsPrivate()
    requires i < |run.sorted| && path[0] == run.sorted[i] && j < |run.sorted| && path[|path| - 1] == run.sorted[j]
    requires x in UsesOf(run.Entry(i, x.target, x.extender.simples))
    ensures x in UsesOf(run.Entry(j, x.target, x.extender.simples)) && i <= j
    decreases |path|
  {
    hide NothingLost, UsesOf, Passing.Entry;
    if |path| == 1 {
      assert i == j;
    } else {
      var shorter := path[..|path| - 1];
      var d := shorter[|shorter| - 1];
      assert d == path[|path| - 2] && d in path && run.p.Feeds(path[|path| - 2], path[|path| - 2 + 1]);
      var k :| 0 <= k < |run.sorted| && run.sorted[k] == d;
      KeptAlong(run, shorter, i, k, x);
      KeptFurther(run, k, j, x);
    }
  }

  /** Where nothing is lost, a use is kept everywhere it gets to. */
  lemma KeptWhereItGets(run: Passing, i: nat, x: Extension, j: nat)
    requires run.Valid() && NothingLost(run) && i < |run.sorted| && j < |run.sorted| && GetsTo(run, i, x, j)
    requires run.sorted[i] in run.before && Keeps(run.before[run.sorted[i]], x)
    ensures x in UsesOf(run.Entry(j, x.target, x.extender.simples)) && i <= j
  {
    assert run.p.Closed();
    hide NothingLost, UsesOf, Passing.Entry, Passing.Valid;
    KeptAtHome(run, i, x);
    if i != j {
      var path :| UseChain(run.p, run.sorted, path) && path[0] == run.sorted[i] && path[|path| - 1] == run.sorted[j];
      KeptAlong(run, path, i, j, x);
    }
  }

  lemma MissingIsKept(run: Passing, known: Known, i: nat, x: Extension)
    requires run.Valid() && i < |run.sorted| && forall m <- run.sorted :: m in known
    requires x in MissingAt(run, known, i)
    ensures run.sorted[i] in run.before && Keeps(run.before[run.sorted[i]], x)
  {
    hide MandatoryAt, Keeps;
    assert run.sorted[i] in run.sorted;
    MandatoryIsKept(run.before[run.sorted[i]], known[run.sorted[i]], false, x);
  }

  /** Where nothing is lost and every target is found, nothing is reported. */
  lemma FoundIsPlaced(run: Passing, known: Known)
    requires run.Valid() && (forall m <- run.sorted :: m in known) && NothingLost(run) && AllFound(run, known)
    ensures run.Unplaced(known) == {}
  {
    hide MandatoryAt, Passing.Entry, Passing.Valid, NothingLost, GetsTo, Keeps;
    forall i, x | 0 <= i < |run.sorted| && x in MissingAt(run, known, i)
      ensures run.PlacedFrom(known, x, i)
    {
      MissingIsKept(run, known, i, x);
      var j :| 0 <= j < |run.sorted| && GetsTo(run, i, x, j) && x.target in known[run.sorted[j]];
      KeptWhereItGets(run, i, x, j);
      assert run.sorted[j] in run.sorted && run.Placed(known, x, j);
    }
  }

  /** No two of the listed modules had the same use before. */
  ghost predicate OneOwner(run: Passing)
    requires run.Valid()
  {
    forall h, i | 0 <= h < i < |run.sorted| && run.sorted[h] in run.before && run.sorted[i] in run.before ::
      MandatoryIn(run.before[run.sorted[h]]) !! MandatoryIn(run.before[run.sorted[i]])
  }

  lemma OwnersAgree(run: Passing, h: nat, i: nat, x: Extension)
    requires run.Valid() && OneOwner(run) && h < |run.sorted| && i < |run.sorted|
    requires run.sorted[h] in run.before && Keeps(run.before[run.sorted[h]], x)
    requires run.sorted[i] in run.before && Keeps(run.before[run.sorted[i]], x)
    ensures h == i
  {
    hide MandatoryAt, Keeps;
    assert run.sorted[h] in run.sorted && run.sorted[i] in run.sorted;
    MandatoryIsKept(run.before[run.sorted[h]], {}, false, x);
    MandatoryIsKept(run.before[run.sorted[i]], {}, false, x);
  }

  lemma MissingIsNoVariant(run: Passing, known: Known, i: nat, x: Extension)
    requires run.Valid() && i < |run.sorted| && (forall m <- run.sorted :: m in known) && run.Apart()
    requires x in MissingAt(run, known, i)
    ensures NoVariant(run, x)
  {
    hide MandatoryAt;
    assert run.sorted[i] in run.sorted;
    var exts := run.before[run.sorted[i]];
    MandatoryIsKept(exts, known[run.sorted[i]], false, x);
    MandatoryIsKept(exts, {}, false, x);
    EntryIsForRule(exts, x.target, x.extender.simples);
    LeavesAreForRule(EntryAt(exts, x.target, x.extender.simples).value, x.target, x.extender.simples);
    assert x.token in OwnTokens(run.before);
    forall j, v | 0 <= j < |run.variants| && v in run.variants[j] && v.Base?
      ensures v.token in TokensOf(run.variants)
    {}
  }

  /** The target of every mandatory use is found from some module that has the use. */
  ghost predicate NoneUnknown(run: Passing, known: Known)
    requires run.Valid() && forall m <- run.sorted :: m in known
  {
    forall i | 0 <= i < |run.sorted| :: forall x <- MissingAt(run, known, i) :: FoundFromAny(run, known, x)
  }

  lemma AcceptedIsFound(run: Passing, known: Known)
    requires run.Valid() && (forall m <- run.sorted :: m in known) && run.Apart() && run.Unplaced(known) == {}
    ensures NoneUnknown(run, known)
  {
    hide MandatoryAt, Passing.Valid, FoundFromAny, Passing.Unplaced, NoVariant, Passing.Apart;
    forall i, x | 0 <= i < |run.sorted| && x in MissingAt(run, known, i) ensures FoundFromAny(run, known, x) {
      MissingIsNoVariant(run, known, i, x);
      UnknownIsReported(run, known, i, x);
    }
  }

  /** Where nothing is lost, something is reported exactly if the target of some use is not found. */
  lemma ReportedExactly(run: Passing, known: Known)
    requires run.Valid() && (forall m <- run.sorted :: m in known) && OneOwner(run)
    requires run.Apart()
    ensures run.Unplaced(known) == {} ==> AllFound(run, known)
    ensures NothingLost(run) ==> (run.Unplaced(known) == {} <==> AllFound(run, known))
  {
    hide MandatoryAt, Passing.Valid, NothingLost, Found, Keeps, Passing.Unplaced, NoVariant, OneOwner, Passing.Apart;
    if run.Unplaced(known) == {} {
      forall i, x | 0 <= i < |run.sorted| && x in MissingAt(run, known, i) ensures Found(run, known, i, x) {
        MissingIsKept(run, known, i, x);
        MissingIsNoVariant(run, known, i, x);
        UnknownIsReported(run, known, i, x);
        var h :| 0 <= h < |run.sorted| && run.sorted[h] in run.before
                 && Keeps(run.before[run.sorted[h]], x) && Found(run, known, h, x);
        OwnersAgree(run, h, i, x);
      }
    }
    if AllFound(run, known) && NothingLost(run) {
      FoundIsPlaced(run, known);
    }
  }

  // ---- When nothing is passed on ----

  /** Alone, a module misses what it cannot place itself. */
  lemma UnplacedAlone(run: Passing, known: Known)
    requires run.Valid() && |run.sorted| == 1 && NoneMade(run.variants) && run.sorted[0] in known
    ensures run.Unplaced(known) == MandatoryAt(run.before[run.sorted[0]], known[run.sorted[0]], false)
    ensures run.EndsIn(run.before)
  {
    hide MandatoryAt, EntryAt;
    forall t, c ensures run.Entry(0, t, c) == EntryAt(run.before[run.sorted[0]], t, c) {
      assert Of([], t, c) == [];
      MeldNone(EntryAt(run.before[run.sorted[0]], t, c));
    }
    forall x | x in MandatoryAt(run.before[run.sorted[0]], known[run.sorted[0]], false)
      ensures !run.PlacedFrom(known, x, 0)
    {
      assert run.sorted[0] in run.sorted;
      MandatoryIsKept(run.before[run.sorted[0]], known[run.sorted[0]], false, x);
    }
  }

  /** Where no module has extensions, none has any in the end. */
  lemma {:induction false} NoneKept(run: Passing, j: nat, t: Simple, c: Compound)
    requires run.Valid() && j < |run.sorted| && NoneMade(run.variants)
    requires forall m <- run.sorted :: m in run.before && run.before[m].Keys == {}
    ensures run.Entry(j, t, c) == None == EntryAt(run.before[run.sorted[j]], t, c)
    decreases j, 1
  {
    NoneSent(run, run.sorted[j], j, t, c);
    assert run.sorted[j] in run.sorted && Of([], t, c) == [];
    MeldNone(None);
  }

  lemma {:induction false} NoneSent(run: Passing, m: ModuleId, k: nat, t: Simple, c: Compound)
    requires run.Valid() && k <= |run.sorted| && NoneMade(run.variants)
    requires forall m <- run.sorted :: m in run.before && run.before[m].Keys == {}
    ensures run.Sent(m, k, t, c) == []
    decreases k, 0
  {
    hide *;
    if k == 0 {
      run.SentByNone(m, t, c);
    } else {
      NoneSent(run, m, k - 1, t, c);
      NoneKept(run, k - 1, t, c);
      run.SentByOne(m, k - 1, t, c);
    }
  }

  lemma NothingUnplaced(run: Passing, known: Known)
    requires run.Valid() && NoneMade(run.variants) && forall m <- run.sorted :: m in known
    requires forall m <- run.sorted :: m in run.before && run.before[m].Keys == {}
    ensures run.EndsIn(run.before) && run.Unplaced(known) == {}
  {
    hide Passing.Entry, Passing.PlacedFrom;
    forall j, t, c | 0 <= j < |run.sorted| ensures run.Entry(j, t, c) == EntryAt(run.before[run.sorted[j]], t, c) {
      NoneKept(run, j, t, c);
    }
    forall i | 0 <= i < |run.sorted|
      ensures run.sorted[i] in run.before && run.sorted[i] in known
      ensures MandatoryAt(run.before[run.sorted[i]], known[run.sorted[i]], false) == {}
    {
      assert run.sorted[i] in run.sorted;
    }
  }
}
