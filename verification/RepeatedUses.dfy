/**
 How often a rule may be repeated before a program is rejected although every target is
 found: two mandatory uses for each rule and module, counted along all paths, are safe,
 and a third one is not.
 */
module RepeatedUses {
  import opened Wrappers
  import opened Collections
  import opened Selectors
  import opened Extensions
  import opened MandatoryUses
  import opened ExtendEngine
  import opened StoreFacts
  import opened StoreEntries
  import opened ModuleGraphs
  import opened ModuleEntries
  import opened ExtensionReach
  import opened UnsatisfiedReports

  // ---- Two are safe ----

  /** As many uses along each of as many paths. */
  function ForEach(paths: nat, uses: nat): (all: nat)
    ensures paths == 0 || uses == 0 ==> all == 0
  {
    paths * uses
  }

  /** The mandatory uses of one rule that come to `m` from the first `k` modules, one for each path. */
  function PathsInto(run: Passing, m: ModuleId, k: nat, t: Simple, c: Compound): nat
    requires run.Valid() && k <= |run.sorted|
    decreases k, 0
  {
    if k == 0 || t.IsPrivate() then 0
    else
      PathsInto(run, m, k - 1, t, c)
      + ForEach(run.p.TimesUsed(run.sorted[k - 1], m), UsesAlongPaths(run, k - 1, t, c))
  }

  /** The mandatory uses of one rule in the `j`th module, its own and one for each path from where there are others. */
  function UsesAlongPaths(run: Passing, j: nat, t: Simple, c: Compound): nat
    requires run.Valid() && j < |run.sorted|
    decreases j, 1
  {
    |UsesOf(EntryAt(run.before[run.sorted[j]], t, c))| + PathsInto(run, run.sorted[j], j, t, c)
  }

  /** At most two mandatory uses for each rule and module, and neither optional uses nor variants. */
  ghost predicate FewUses(run: Passing)
    requires run.Valid()
  {
    && NoneMade(run.variants)
    && forall j, t, c | 0 <= j < |run.sorted| ::
         && UsesAlongPaths(run, j, t, c) <= 2
         && (UsesOf(EntryAt(run.before[run.sorted[j]], t, c)) == [] ==> EntryAt(run.before[run.sorted[j]], t, c) == None)
  }

  predicate AllMandatory(xs: seq<Extension>) { forall x <- xs :: MandatoryLeaves(x) != [] }

  lemma {:induction false} UsesOfRepeated(xs: seq<Extension>, x: Extension, n: nat)
    ensures |AllUses(xs + Repeat(x, n))| == |AllUses(xs)| + ForEach(n, |MandatoryLeaves(x)|)
  {
    hide MandatoryLeaves, Repeat;
    if n == 0 {
      RepeatMore(x, 0);
      assert xs + [] == xs;
    } else {
      UsesOfRepeated(xs, x, n - 1);
      RepeatMore(x, n - 1);
      var shorter := xs + Repeat(x, n - 1);
      assert xs + (Repeat(x, n - 1) + [x]) == shorter + [x] && (shorter + [x])[..|shorter|] == shorter;
      assert n * |MandatoryLeaves(x)| == (n - 1) * |MandatoryLeaves(x)| + |MandatoryLeaves(x)|;
    }
  }

  lemma NoUses()
    ensures AllUses([]) == [] && AllMandatory([])
  {}

  lemma MandatoryRepeated(xs: seq<Extension>, x: Extension, n: nat)
    requires AllMandatory(xs) && MandatoryLeaves(x) != []
    ensures AllMandatory(xs + Repeat(x, n))
  {
    hide MandatoryLeaves;
  }

  /** What is sent holds as many uses as there are paths. */
  lemma {:induction false} FewSent(run: Passing, m: ModuleId, k: nat, t: Simple, c: Compound)
    requires run.Valid() && FewUses(run) && k <= |run.sorted|
    ensures |AllUses(run.Sent(m, k, t, c))| == PathsInto(run, m, k, t, c) && AllMandatory(run.Sent(m, k, t, c))
    decreases k, 0
  {
    hide *;
    if k == 0 {
      run.SentByNone(m, t, c);
      NoPaths(run, m, t, c);
      NoUses();
    } else {
      FewSent(run, m, k - 1, t, c);
      FewAt(run, k - 1, t, c);
      FewSentOnceMore(run, m, k - 1, t, c);
    }
  }

  lemma NoPaths(run: Passing, m: ModuleId, t: Simple, c: Compound)
    requires run.Valid()
    ensures PathsInto(run, m, 0, t, c) == 0
  {}

  lemma FewSentOnceMore(run: Passing, m: ModuleId, k: nat, t: Simple, c: Compound)
    requires run.Valid() && k < |run.sorted|
    requires |AllUses(run.Sent(m, k, t, c))| == PathsInto(run, m, k, t, c) && AllMandatory(run.Sent(m, k, t, c))
    requires |UsesOf(run.Entry(k, t, c))| == UsesAlongPaths(run, k, t, c)
    requires run.Entry(k, t, c).Some? ==> UsesOf(run.Entry(k, t, c)) != []
    ensures |AllUses(run.Sent(m, k + 1, t, c))| == PathsInto(run, m, k + 1, t, c)
    ensures AllMandatory(run.Sent(m, k + 1, t, c))
  {
    assert run.p.Closed();
    hide Passing.Valid, Passing.Entry, MandatoryLeaves, Passing.Sent, UsesAlongPaths, AllUses, Program.TimesUsed;
    hide AllMandatory;
    run.SentByOne(m, k, t, c);
    var n, sent := run.p.TimesUsed(run.sorted[k], m), run.Sent(m, k, t, c);
    if t.IsPrivate() {
      assert sent + [] == sent;
      PrivatePaths(run, m, k, t, c);
    } else if run.Entry(k, t, c).None? {
      assert sent + [] == sent;
    } else {
      UsesOfRepeated(sent, run.Entry(k, t, c).value, n);
      MandatoryRepeated(sent, run.Entry(k, t, c).value, n);
    }
  }

  lemma PrivatePaths(run: Passing, m: ModuleId, k: nat, t: Simple, c: Compound)
    requires run.Valid() && k <= |run.sorted| && t.IsPrivate()
    ensures PathsInto(run, m, k, t, c) == 0
  {}

  lemma {:induction false} UsesOfFirst(x: Extension, xs: seq<Extension>)
    ensures AllUses([x] + xs) == MandatoryLeaves(x) + AllUses(xs)
  {
    hide MandatoryLeaves;
    if xs == [] {
      AllUsesOfOne(x);
      assert [x] + xs == [x];
    } else {
      var n := |xs| - 1;
      UsesOfFirst(x, xs[..n]);
      assert ([x] + xs)[..n + 1] == [x] + xs[..n];
    }
  }

  /** Where few uses come together all of them are kept. */
  lemma {:induction false} FewAt(run: Passing, j: nat, t: Simple, c: Compound)
    requires run.Valid() && FewUses(run) && j < |run.sorted|
    ensures UsesOf(run.Entry(j, t, c)) == AllUses(run.Gathered(j, t, c)) == Surviving(run.Gathered(j, t, c))
    ensures |UsesOf(run.Entry(j, t, c))| == UsesAlongPaths(run, j, t, c)
    ensures run.Entry(j, t, c).Some? ==> UsesOf(run.Entry(j, t, c)) != []
    decreases j, 1
  {
    hide *;
    FewSent(run, run.sorted[j], j, t, c);
    FewGathered(run, j, t, c);
    run.EntryUses(j, t, c);
    FewSurvivors(run.Gathered(j, t, c), t, c);
    SomethingGathered(run, j, t, c);
  }

  lemma FewGathered(run: Passing, j: nat, t: Simple, c: Compound)
    requires run.Valid() && FewUses(run) && j < |run.sorted| && AllMandatory(run.Sent(run.sorted[j], j, t, c))
    requires |AllUses(run.Sent(run.sorted[j], j, t, c))| == PathsInto(run, run.sorted[j], j, t, c)
    ensures AllMandatory(run.Gathered(j, t, c)) && |AllUses(run.Gathered(j, t, c))| == UsesAlongPaths(run, j, t, c) <= 2
  {
    assert |run.variants| == |run.sorted| && run.variants[j] == [] && run.sorted[j] in run.sorted;
    hide MandatoryLeaves, Passing.Valid, Passing.Entry, Passing.Sent, PathsInto, EntryAt, AllUses;
    var sent := run.Sent(run.sorted[j], j, t, c);
    assert Of(run.variants[j], t, c) == [] && sent + [] == sent;
    var own := EntryAt(run.before[run.sorted[j]], t, c);
    if own.Some? {
      UsesOfFirst(own.value, sent);
    }
  }

  lemma FewSurvivors(xs: seq<Extension>, t: Simple, c: Compound)
    requires AllForRule(xs, t, c) && AllMandatory(xs) && |AllUses(xs)| <= 2
    ensures Surviving(xs) == AllUses(xs)
  {
    FewSurvive(xs, t, c);
  }

  lemma SomethingGathered(run: Passing, j: nat, t: Simple, c: Compound)
    requires run.Valid() && j < |run.sorted| && AllMandatory(run.Gathered(j, t, c))
    ensures run.Entry(j, t, c).Some? ==> AllUses(run.Gathered(j, t, c)) != []
  {
    hide MandatoryLeaves, EntryAt, Passing.Sent, Of;
    if run.Gathered(j, t, c) == [] {
      MeldNone(None);
    } else {
      AtLeastOneEach(run.Gathered(j, t, c));
    }
  }

  /** At most two mandatory uses for each rule and module: nothing is lost. */
  lemma FewLoseNothing(run: Passing)
    requires run.Valid() && FewUses(run)
    ensures NothingLost(run)
  {
    hide FewUses, Passing.Valid, Passing.Gathered, Surviving, AllUses;
    forall j, t, c | 0 <= j < |run.sorted|
      ensures forall u <- AllUses(run.Gathered(j, t, c)) :: u in Surviving(run.Gathered(j, t, c))
    {
      FewAt(run, j, t, c);
    }
  }

  // ---- A third is not ----

  /** Different mandatory uses of one rule that may leave its module. */
  predicate Repeats(t: Simple, c: Compound, uses: seq<Extension>) {
    !t.IsPrivate() && NoRepeats(uses) && forall u <- uses :: Single(u) && ForRule(u, t, c)
  }

  /** A root uses some modules, and each of them one last module. */
  predicate IsStar(p: Program, sorted: seq<ModuleId>, n: nat)
    requires p.Closed() && |sorted| == n + 2
  {
    forall a, b | 0 <= a < n + 2 && 0 <= b < n + 2 ::
      p.TimesUsed(sorted[a], sorted[b]) == if (a == 0 && 1 <= b <= n) || (1 <= a <= n && b == n + 1) then 1 else 0
  }

  /** Each module in the middle of the star has one of the uses, and nobody has anything else. */
  ghost predicate EachHasOne(run: Passing, t: Simple, c: Compound, uses: seq<Extension>)
    requires run.Valid()
  {
    var n := |uses|;
    && NoneMade(run.variants) && Repeats(t, c, uses)
    && |run.sorted| == n + 2 && IsStar(run.p, run.sorted, n)
    && forall a, s, d | 0 <= a < n + 2 :: run.sorted[a] in run.before &&
         EntryAt(run.before[run.sorted[a]], s, d) == if s == t && d == c && 1 <= a <= n then Some(uses[a - 1]) else None
  }

  lemma NothingMade(run: Passing, j: nat, t: Simple, c: Compound)
    requires run.Valid() && NoneMade(run.variants) && j < |run.sorted|
    ensures Of(run.variants[j], t, c) == [] && run.sorted[j] in run.before
    ensures run.Sent(run.sorted[j], j, t, c) == [] ==> run.Entry(j, t, c) == EntryAt(run.before[run.sorted[j]], t, c)
  {
    assert run.sorted[j] in run.sorted;
    MeldNone(EntryAt(run.before[run.sorted[j]], t, c));
    assert Of([], t, c) == [];
  }

  /** The users get nothing from the root, and nothing from one another. */
  lemma {:induction false} UserGetsNothing(run: Passing, t: Simple, c: Compound, uses: seq<Extension>, b: nat, k: nat)
    requires run.Valid() && EachHasOne(run, t, c, uses) && k <= b <= |uses|
    ensures run.Sent(run.sorted[b], k, t, c) == []
    decreases k
  {
    hide *;
    StarFacts(run, t, c, uses, 0, b);
    if k == 0 {
      run.SentByNone(run.sorted[b], t, c);
    } else {
      UserGetsNothing(run, t, c, uses, b, k - 1);
      StarFacts(run, t, c, uses, k - 1, b);
      NobodySendsToUser(run, t, c, uses, b, k - 1);
    }
  }

  lemma StarFacts(run: Passing, t: Simple, c: Compound, uses: seq<Extension>, a: nat, b: nat)
    requires run.Valid() && EachHasOne(run, t, c, uses) && a < |uses| + 2 && b < |uses| + 2
    ensures |run.sorted| == |uses| + 2 && run.p.Closed() && NoneMade(run.variants)
    ensures run.p.TimesUsed(run.sorted[a], run.sorted[b])
            == if (a == 0 && 1 <= b <= |uses|) || (1 <= a <= |uses| && b == |uses| + 1) then 1 else 0
  {}

  lemma NobodySendsToUser(run: Passing, t: Simple, c: Compound, uses: seq<Extension>, b: nat, a: nat)
    requires run.Valid() && EachHasOne(run, t, c, uses) && a < b <= |uses|
    requires run.Sent(run.sorted[b], a, t, c) == []
    ensures run.Sent(run.sorted[b], a + 1, t, c) == []
  {
    StarFacts(run, t, c, uses, a, b);
    run.SentByOne(run.sorted[b], a, t, c);
    if a == 0 {
      RootKeepsNothing(run, t, c, uses);
    }
    hide *;
    if run.Entry(a, t, c).Some? {
      RepeatMore(run.Entry(a, t, c).value, 0);
    }
  }

  lemma RootKeepsNothing(run: Passing, t: Simple, c: Compound, uses: seq<Extension>)
    requires run.Valid() && EachHasOne(run, t, c, uses)
    ensures run.Entry(0, t, c) == None
  {
    run.SentByNone(run.sorted[0], t, c);
    NothingMade(run, 0, t, c);
    hide Passing.Valid, Passing.Entry, EntryAt, Passing.Sent, Repeats, Program.TimesUsed, IsStar;
  }

  lemma UserKeepsItsOwn(run: Passing, t: Simple, c: Compound, uses: seq<Extension>, i: nat)
    requires run.Valid() && EachHasOne(run, t, c, uses) && i <= |uses|
    ensures run.Entry(i, t, c) == if i == 0 then None else Some(uses[i - 1])
  {
    UserGetsNothing(run, t, c, uses, i, i);
    hide Passing.Valid, Passing.Entry, EntryAt, Passing.Sent, Repeats, Program.TimesUsed, IsStar;
    NothingMade(run, i, t, c);
  }

  /** The last module gets all the uses, in order. */
  lemma {:induction false} LastGetsAll(run: Passing, t: Simple, c: Compound, uses: seq<Extension>, k: nat)
    requires run.Valid() && EachHasOne(run, t, c, uses) && 1 <= k <= |uses| + 1
    ensures run.Sent(run.sorted[|uses| + 1], k, t, c) == uses[..k - 1]
    decreases k
  {
    hide *;
    StarFacts(run, t, c, uses, k - 1, |uses| + 1);
    if k == 1 {
      RootSendsNothing(run, t, c, uses, |uses| + 1);
    } else {
      LastGetsAll(run, t, c, uses, k - 1);
      UserSendsItsOwn(run, t, c, uses, k - 1);
      assert uses[..k - 1] == uses[..k - 2] + [uses[k - 2]];
    }
  }

  lemma RootSendsNothing(run: Passing, t: Simple, c: Compound, uses: seq<Extension>, b: nat)
    requires run.Valid() && EachHasOne(run, t, c, uses) && b < |uses| + 2
    ensures |run.sorted| == |uses| + 2 && run.Sent(run.sorted[b], 1, t, c) == []
  {
    hide *;
    StarFacts(run, t, c, uses, 0, b);
    run.SentByNone(run.sorted[b], t, c);
    run.SentByOne(run.sorted[b], 0, t, c);
    RootKeepsNothing(run, t, c, uses);
  }

  lemma UserSendsItsOwn(run: Passing, t: Simple, c: Compound, uses: seq<Extension>, k: nat)
    requires run.Valid() && EachHasOne(run, t, c, uses) && 1 <= k <= |uses|
    ensures |run.sorted| == |uses| + 2
    ensures run.Sent(run.sorted[|uses| + 1], k + 1, t, c) == run.Sent(run.sorted[|uses| + 1], k, t, c) + [uses[k - 1]]
  {
    assert !t.IsPrivate();
    hide *;
    StarFacts(run, t, c, uses, k, |uses| + 1);
    UserKeepsItsOwn(run, t, c, uses, k);
    RepeatMore(uses[k - 1], 0);
    run.SentByOne(run.sorted[|uses| + 1], k, t, c);
  }

  lemma {:induction false} AllSingles(uses: seq<Extension>)
    requires forall u <- uses :: Single(u)
    ensures Singles(uses) == uses
  {
    if uses != [] {
      var n := |uses| - 1;
      assert uses == uses[..n] + [uses[n]];
      AllSingles(uses[..n]);
    }
  }

  /** Of all the uses the last module keeps one or two. */
  lemma LastKeepsFew(run: Passing, t: Simple, c: Compound, uses: seq<Extension>)
    requires run.Valid() && EachHasOne(run, t, c, uses) && uses != []
    ensures UsesOf(run.Entry(|uses| + 1, t, c)) == LastUses(uses)
  {
    var n := |uses|;
    AllSingles(uses);
    LastGetsAll(run, t, c, uses, n + 1);
    NothingMade(run, n + 1, t, c);
    run.EntryUses(n + 1, t, c);
    hide Passing.Valid, EntryAt, Passing.Sent, Passing.Entry, LastUses, Singles, MandatoryLeaves, UsesOf, IsStar, Repeats;
    assert uses[..n] + [] == uses;
    assert run.Gathered(n + 1, t, c) == uses;
  }

  /** Only the last module of the star knows the target. */
  ghost predicate KnownLast(run: Passing, known: Known, t: Simple, n: nat)
    requires |run.sorted| == n + 2
  {
    && (forall m <- run.sorted :: m in known) && t in known[run.sorted[n + 1]]
    && forall a | 0 <= a <= n :: run.sorted[a] in known && t !in known[run.sorted[a]]
  }

  /** Each user misses its own use, and nobody misses anything else. */
  lemma EachMissesOne(run: Passing, known: Known, t: Simple, c: Compound, uses: seq<Extension>, a: nat, x: Extension)
    requires run.Valid() && EachHasOne(run, t, c, uses) && KnownLast(run, known, t, |uses|) && a < |uses| + 2
    ensures x in MissingAt(run, known, a) <==> 1 <= a <= |uses| && x == uses[a - 1]
  {
    assert run.sorted[a] in run.sorted;
    var exts := run.before[run.sorted[a]];
    MandatoryIsKept(exts, known[run.sorted[a]], false, x);
    hide Passing.Valid, EntryAt, IsStar, MandatoryAt, MandatoryLeaves;
    assert EntryAt(exts, x.target, x.extender.simples)
           == if x.target == t && x.extender.simples == c && 1 <= a <= |uses| then Some(uses[a - 1]) else None;
    if 1 <= a <= |uses| {
      assert uses[a - 1] in uses;
      MandatoryLeavesOfBase(uses[a - 1]);
    }
  }

  lemma UserGetsToLast(run: Passing, t: Simple, c: Compound, uses: seq<Extension>, a: nat)
    requires run.Valid() && EachHasOne(run, t, c, uses) && 1 <= a <= |uses|
    ensures GetsTo(run, a, uses[a - 1], |uses| + 1)
  {
    assert uses[a - 1] in uses;
    var d, m := run.sorted[a], run.sorted[|uses| + 1];
    assert run.p.TimesUsed(d, m) == 1;
    UsedIsFed(run.p, d, m);
    var path := [d, m];
    assert UseChain(run.p, run.sorted, path) && path[0] == d && path[|path| - 1] == m;
  }

  lemma PlacedIfLast(run: Passing, known: Known, t: Simple, c: Compound, uses: seq<Extension>, a: nat)
    requires run.Valid() && EachHasOne(run, t, c, uses) && KnownLast(run, known, t, |uses|) && 1 <= a <= |uses|
    ensures run.PlacedFrom(known, uses[a - 1], a) <==> uses[a - 1] in LastUses(uses)
  {
    hide Passing.Valid, EntryAt, IsStar, Passing.Entry, LastUses, MandatoryLeaves;
    assert uses[a - 1] in uses;
    LastKeepsFew(run, t, c, uses);
    assert run.Placed(known, uses[a - 1], |uses| + 1) <==> uses[a - 1] in LastUses(uses);
  }

  /**
   Some modules each declare the same mandatory rule and use a module that has its
   target. Every use gets to where its target is known; and yet the program is rejected
   as soon as there are three of them: reported are all but the last one or two.
   */
  lemma ThirdRepeatIsReported(run: Passing, known: Known, t: Simple, c: Compound, uses: seq<Extension>)
    requires run.Valid() && EachHasOne(run, t, c, uses) && KnownLast(run, known, t, |uses|) && uses != []
    ensures AllFound(run, known)
    ensures run.Unplaced(known) == set u | u in uses && u !in LastUses(uses)
    ensures run.Unplaced(known) == {} <==> |uses| <= 2
  {
    StarFinds(run, known, t, c, uses);
    StarReports(run, known, t, c, uses);
    MoreThanTwo(t, c, uses);
  }

  lemma MoreThanTwo(t: Simple, c: Compound, uses: seq<Extension>)
    requires Repeats(t, c, uses) && uses != []
    ensures (set u | u in uses && u !in LastUses(uses)) == {} <==> |uses| <= 2
  {
    var n, reported := |uses|, set u | u in uses && u !in LastUses(uses);
    if n > 2 {
      forall i | 0 <= i < |LastUses(uses)| ensures LastUses(uses)[i] != uses[0] {
        assert LastUses(uses)[i] == uses[n - |LastUses(uses)| + i];
      }
      assert uses[0] in reported;
    } else {
      assert LastUses(uses) == uses;
    }
  }

  lemma StarFinds(run: Passing, known: Known, t: Simple, c: Compound, uses: seq<Extension>)
    requires run.Valid() && EachHasOne(run, t, c, uses) && KnownLast(run, known, t, |uses|)
    ensures AllFound(run, known)
  {
    hide Passing.Valid, EntryAt, IsStar, MissingAt, GetsTo, NoRepeats;
    forall a, x | 0 <= a < |run.sorted| && x in MissingAt(run, known, a) ensures Found(run, known, a, x) {
      EachMissesOne(run, known, t, c, uses, a, x);
      UserGetsToLast(run, t, c, uses, a);
      assert uses[a - 1] in uses;
    }
  }

  lemma StarReports(run: Passing, known: Known, t: Simple, c: Compound, uses: seq<Extension>)
    requires run.Valid() && EachHasOne(run, t, c, uses) && KnownLast(run, known, t, |uses|) && uses != []
    ensures run.Unplaced(known) == set u | u in uses && u !in LastUses(uses)
  {
    hide Passing.Valid, EntryAt, IsStar, LastUses, Passing.PlacedFrom, MandatoryAt, NoRepeats;
    forall x | x in run.Unplaced(known) ensures x in uses && x !in LastUses(uses) {
      var a :| 0 <= a < |run.sorted| && x in MissingAt(run, known, a) && !run.PlacedFrom(known, x, a);
      EachMissesOne(run, known, t, c, uses, a, x);
      PlacedIfLast(run, known, t, c, uses, a);
    }
    forall x | x in uses && x !in LastUses(uses) ensures x in run.Unplaced(known) {
      var i :| 0 <= i < |uses| && uses[i] == x;
      EachMissesOne(run, known, t, c, uses, i + 1, x);
      PlacedIfLast(run, known, t, c, uses, i + 1);
      assert x in MissingAt(run, known, i + 1) && !run.PlacedFrom(known, x, i + 1);
    }
  }
}
