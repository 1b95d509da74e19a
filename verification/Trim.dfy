/** Trimming of redundant selectors, and the in-place rotation it uses. */
module Trim {
  import opened Selectors
  import opened Extensions
  import opened ExtendEngine

  function SimplesOf(cs: seq<ComplexSelector>): seq<Compound> {
    seq(|cs|, i requires 0 <= i < |cs| => cs[i].simples)
  }

  /** The highest recorded specificity of the simple selectors of `c`, zero when none is recorded. */
  function SourceSpecificity(specificity: map<Simple, nat>, c: Compound): (max: nat)
    ensures forall s | s in c && s in specificity :: specificity[s] <= max
    ensures max == 0 || exists s | s in c && s in specificity :: specificity[s] == max
  {
    if c == [] then 0
    else
      var rest := SourceSpecificity(specificity, c[1..]);
      assert c == [c[0]] + c[1..];
      if c[0] in specificity && specificity[c[0]] > rest then specificity[c[0]] else rest
  }

  /** `other` may stand in for `c`: it covers it and is specific enough. */
  predicate Replaces(specificity: map<Simple, nat>, other: ComplexSelector, c: ComplexSelector) {
    Specificity(other.simples) >= SourceSpecificity(specificity, c.simples) && IsSuperselector(other.simples, c.simples)
  }

  function Rotated<T>(s: seq<T>, start: nat, end: nat): seq<T>
    requires start < end <= |s|
  {
    s[..start] + [s[end - 1]] + s[start..end - 1] + s[end..]
  }

  /** Element `k` of `s` after `i` swaps of the rotation. */
  function RotatingAt<T>(s: seq<T>, start: nat, end: nat, i: nat, k: nat): T
    requires start < end <= |s| && i < end - start && k < |s|
  {
    if k < start || k >= end || i == 0 then s[k]
    else if k == end - 1 then s[start + i - 1]
    else if k == start then s[end - 1]
    else if k < start + i then s[k - 1]
    else s[k]
  }

  /** Moves the element at `end - 1` to `start` and shifts the ones between right. */
  method RotateSlice<T>(slice: array<T>, start: nat, end: nat)
    modifies slice
    ensures slice[..] == if start >= end || end > slice.Length then old(slice[..]) else Rotated(old(slice[..]), start, end)
  {
    if start >= end || end > slice.Length {
      return;
    }
    ghost var was := slice[..];
    var n := end - start;
    for i := 0 to n - 1
      invariant forall k | 0 <= k < slice.Length :: slice[k] == RotatingAt(was, start, end, i, k)
    {
      slice[start + i], slice[start + n - 1] := slice[start + n - 1], slice[start + i];
    }
    assert |Rotated(was, start, end)| == slice.Length;
    forall k | 0 <= k < slice.Length ensures slice[..][k] == Rotated(was, start, end)[k] {
      assert slice[k] == RotatingAt(was, start, end, n - 1, k);
    }
  }

  /** Brings the element at `end - 1` of an accumulator to its front. */
  method BringToFront<T>(s: seq<T>, end: nat) returns (rotated: seq<T>)
    requires 0 < end <= |s|
    ensures rotated == Rotated(s, 0, end)
  {
    var slice := new T[|s|](i requires 0 <= i < |s| => s[i]);
    assert slice[..] == s;
    RotateSlice(slice, 0, end);
    rotated := slice[..];
  }

  const TRIM_LIMIT := 100

  /** No survivor outside `originals` could be replaced by another survivor. */
  predicate Irredundant(specificity: map<Simple, nat>, originals: set<ComplexSelector>, result: seq<ComplexSelector>) {
    forall k, l | 0 <= k < |result| && 0 <= l < |result| && k != l && result[k] !in originals ::
      !Replaces(specificity, result[l], result[k])
  }

  /** Every member of `selectors` in `originals` has an equal survivor. */
  predicate KeepsOriginals(selectors: seq<ComplexSelector>, originals: set<ComplexSelector>, result: seq<ComplexSelector>) {
    forall j | 0 <= j < |selectors| && selectors[j] in originals :: HasEqual(result, selectors[j])
  }

  /**
   What is dropped had a replacement: another compound of the list that covers it
   and is at least as specific as anything it was written with.
   */
  predicate OnlyReplaced(specificity: map<Simple, nat>, all: seq<Compound>, kept: seq<Compound>) {
    forall c <- all :: c in kept || ReplacedAmong(specificity, all, c)
  }

  predicate ReplacedAmong(specificity: map<Simple, nat>, all: seq<Compound>, c: Compound) {
    exists d <- all :: d != c && Specificity(d) >= SourceSpecificity(specificity, c) && IsSuperselector(d, c)
  }

  /** `kept[k]` is `all[sources[k]]`, further and further on. */
  predicate PickedInOrder<T(==)>(all: seq<T>, kept: seq<T>, sources: seq<nat>) {
    && |sources| == |kept| && Increasing(sources)
    && forall k | 0 <= k < |sources| :: sources[k] < |all| && kept[k] == all[sources[k]]
  }

  predicate Increasing(s: seq<nat>) { forall k, l | 0 <= k < l < |s| :: s[k] < s[l] }

  /** No original has an equal later on. */
  predicate NoRepeatedOriginal(selectors: seq<ComplexSelector>, originals: set<ComplexSelector>) {
    forall j, m | 0 <= j < m < |selectors| && selectors[j] in originals :: selectors[j].simples != selectors[m].simples
  }

  predicate HasEqual(result: seq<ComplexSelector>, c: ComplexSelector) {
    exists k | 0 <= k < |result| :: result[k].Equals(c)
  }

  method IndexOfEqual(cs: seq<ComplexSelector>, limit: nat, c: ComplexSelector) returns (j: nat)
    requires limit <= |cs|
    ensures j <= limit
    ensures j < limit ==> cs[j].simples == c.simples
    ensures forall k | 0 <= k < j :: cs[k].simples != c.simples
  {
    j := 0;
    while j < limit && !cs[j].Equals(c)
      invariant 0 <= j <= limit
      invariant forall k | 0 <= k < j :: cs[k].simples != c.simples
    {
      j := j + 1;
    }
  }

  predicate Replaceable(specificity: map<Simple, nat>, others: seq<ComplexSelector>, c: ComplexSelector) {
    exists k | 0 <= k < |others| :: Replaces(specificity, others[k], c)
  }

  method FindsReplacement(specificity: map<Simple, nat>, others: seq<ComplexSelector>, c: ComplexSelector)
    returns (found: bool)
    ensures found <==> Replaceable(specificity, others, c)
  {
    hide Replaces;
    for k := 0 to |others|
      invariant forall l | 0 <= l < k :: !Replaces(specificity, others[l], c)
    {
      if Replaces(specificity, others[k], c) {
        return true;
      }
    }
    return false;
  }

  /** Keeps or drops one more selector, given what is left of those after it. */
  method Scan(selectors: seq<ComplexSelector>, originals: set<ComplexSelector>, specificity: map<Simple, nat>, i: nat,
              result: seq<ComplexSelector>, numOriginals: nat, ghost sources: seq<nat>)
    returns (kept: seq<ComplexSelector>, originalsKept: nat, ghost from: seq<nat>)
    requires i < |selectors| && numOriginals <= |result|
    requires Progress(specificity, selectors, originals, i + 1, result, sources)
    ensures originalsKept <= |kept| && Progress(specificity, selectors, originals, i, kept, from)
    ensures selectors[i] in originals ==> kept != [] && kept[0].simples == selectors[i].simples
  {
    hide *;
    kept, originalsKept, from := result, numOriginals, sources;
    var complex1 := selectors[i];
    if complex1 in originals {
      var j := IndexOfEqual(result, numOriginals, complex1);
      if j < numOriginals {
        SourcesMatch(specificity, selectors, originals, i + 1, result, sources);
        RepeatedOriginal(selectors, originals, i, result, sources, j);
        RotateKeeps(specificity, selectors, originals, i, result, sources, j);
        kept := BringToFront(result, j + 1);
        from := Rotated(sources, 0, j + 1);
        return;
      }
      originalsKept := numOriginals + 1;
    } else {
      var found := FindsReplacement(specificity, result, complex1);
      if !found {
        found := FindsReplacement(specificity, selectors[..i], complex1);
      }
      if found {
        AccountedByReplacement(specificity, selectors, i, result, complex1);
        ExcusedByReplacement(specificity, selectors, originals, i, result, sources);
        DropKeeps(specificity, selectors, originals, i, result, sources);
        return;
      }
    }
    PrependKeeps(specificity, selectors, originals, i, result, sources);
    kept := [complex1] + result;
    from := [i] + sources;
  }

  /**
   Drops every selector another one can replace, and nothing else. `originals` are
   never dropped, except for one that already has an equal survivor; unless that
   happens the others stay in their order.
   */
  method TrimSelectors(selectors: seq<ComplexSelector>, originals: set<ComplexSelector>, specificity: map<Simple, nat>)
    returns (trimmed: seq<ComplexSelector>, ghost sources: seq<nat>)
    ensures |trimmed| <= |selectors| && forall r <- trimmed :: r in selectors
    ensures NoRepeatedOriginal(selectors, originals) ==> PickedInOrder(selectors, trimmed, sources)
    ensures OnlyReplaced(specificity, SimplesOf(selectors), SimplesOf(trimmed))
    ensures Covers(SimplesOf(trimmed), SimplesOf(selectors))
    ensures KeepsOriginals(selectors, originals, trimmed)
    ensures |selectors| <= TRIM_LIMIT ==> Irredundant(specificity, originals, trimmed)
    ensures |selectors| > TRIM_LIMIT ==> trimmed == selectors
    ensures selectors != [] && selectors[0] in originals ==> trimmed != [] && trimmed[0].simples == selectors[0].simples
  {
    hide *;
    if |selectors| > TRIM_LIMIT {
      Untrimmed(selectors, originals, specificity);
      return selectors, AllPlaces(|selectors|);
    }
    var result := [];
    var numOriginals: nat := 0;
    sources := [];
    var i := |selectors|;
    ProgressStart(specificity, selectors, originals);
    while i > 0
      invariant 0 <= i <= |selectors|
      invariant numOriginals <= |result|
      invariant Progress(specificity, selectors, originals, i, result, sources)
      invariant i < |selectors| && selectors[i] in originals ==> result != [] && result[0].simples == selectors[i].simples
    {
      i := i - 1;
      result, numOriginals, sources := Scan(selectors, originals, specificity, i, result, numOriginals, sources);
    }
    trimmed := result;
    ProgressDone(specificity, selectors, originals, trimmed, sources);
  }

  lemma AllCoverThemselves(selectors: seq<ComplexSelector>)
    ensures Covers(SimplesOf(selectors), SimplesOf(selectors))
  {
    var all := SimplesOf(selectors);
    forall i | 0 <= i < |all| ensures CoveredBy(all[i], all) {
      SuperselectorReflexive(all[i]);
    }
  }

  function AllPlaces(n: nat): seq<nat> { seq(n, k requires 0 <= k < n => k) }

  lemma Untrimmed(selectors: seq<ComplexSelector>, originals: set<ComplexSelector>, specificity: map<Simple, nat>)
    ensures Covers(SimplesOf(selectors), SimplesOf(selectors)) && KeepsOriginals(selectors, originals, selectors)
    ensures OnlyReplaced(specificity, SimplesOf(selectors), SimplesOf(selectors))
    ensures PickedInOrder(selectors, selectors, AllPlaces(|selectors|))
  {
    AllCoverThemselves(selectors);
    forall j | 0 <= j < |selectors| ensures HasEqual(selectors, selectors[j]) {
      assert selectors[j].Equals(selectors[j]);
    }
  }

  // ---- The scan's invariant ----

  /** `c` is covered by a survivor or by one of the first `i` selectors. */
  predicate Accounted(selectors: seq<ComplexSelector>, i: nat, result: seq<ComplexSelector>, c: ComplexSelector)
    requires i <= |selectors|
  {
    || (exists k | 0 <= k < |result| :: IsSuperselector(result[k].simples, c.simples))
    || (exists m | 0 <= m < i :: IsSuperselector(selectors[m].simples, c.simples))
  }

  /** Survivor `k` stems from `selectors[sources[k]]`, all of them scanned already. */
  predicate Sourced(selectors: seq<ComplexSelector>, i: nat, result: seq<ComplexSelector>, sources: seq<nat>) {
    && |sources| == |result|
    && (forall k | 0 <= k < |sources| :: i <= sources[k] < |selectors| && result[k] == selectors[sources[k]])
    && (forall k, l | 0 <= k < |sources| && 0 <= l < |sources| && k != l :: sources[k] != sources[l])
  }

  predicate AllAccounted(selectors: seq<ComplexSelector>, i: nat, result: seq<ComplexSelector>) {
    i <= |selectors| && forall j | i <= j < |selectors| :: Accounted(selectors, i, result, selectors[j])
  }

  predicate OriginalsKept(selectors: seq<ComplexSelector>, originals: set<ComplexSelector>, i: nat,
                          result: seq<ComplexSelector>)
  {
    forall j | i <= j < |selectors| && selectors[j] in originals :: HasEqual(result, selectors[j])
  }

  /** None of the first `i` selectors could replace a survivor outside `originals`. */
  predicate Irreplaceable(specificity: map<Simple, nat>, selectors: seq<ComplexSelector>,
                          originals: set<ComplexSelector>, i: nat, result: seq<ComplexSelector>)
  {
    i <= |selectors| &&
    forall k, m | 0 <= k < |result| && 0 <= m < i && result[k] !in originals ::
      !Replaces(specificity, selectors[m], result[k])
  }

  /** Selector `j` has an equal survivor, or one that replaces it: an earlier selector or a survivor. */
  predicate Excused(specificity: map<Simple, nat>, selectors: seq<ComplexSelector>, result: seq<ComplexSelector>, j: nat)
    requires j < |selectors|
  {
    || HasEqual(result, selectors[j])
    || exists m | 0 <= m < |selectors| ::
         && Replaces(specificity, selectors[m], selectors[j])
         && m != j && (m < j || HasEqual(result, selectors[m]))
  }

  predicate AllExcused(specificity: map<Simple, nat>, selectors: seq<ComplexSelector>, i: nat, result: seq<ComplexSelector>) {
    forall j | i <= j < |selectors| :: Excused(specificity, selectors, result, j)
  }

  predicate OrderKept(selectors: seq<ComplexSelector>, originals: set<ComplexSelector>, i: nat, sources: seq<nat>) {
    i + |sources| <= |selectors| && (NoRepeatedOriginal(selectors, originals) ==> Increasing(sources))
  }

  /** Everything from index `i` on has been scanned. */
  predicate Progress(specificity: map<Simple, nat>, selectors: seq<ComplexSelector>, originals: set<ComplexSelector>,
                     i: nat, result: seq<ComplexSelector>, sources: seq<nat>)
  {
    && Sourced(selectors, i, result, sources)
    && AllAccounted(selectors, i, result)
    && OriginalsKept(selectors, originals, i, result)
    && Irredundant(specificity, originals, result)
    && Irreplaceable(specificity, selectors, originals, i, result)
    && AllExcused(specificity, selectors, i, result)
    && OrderKept(selectors, originals, i, sources)
  }

  lemma SourcesMatch(specificity: map<Simple, nat>, selectors: seq<ComplexSelector>, originals: set<ComplexSelector>,
                     i: nat, result: seq<ComplexSelector>, sources: seq<nat>)
    requires Progress(specificity, selectors, originals, i, result, sources)
    ensures Sourced(selectors, i, result, sources) && |sources| == |result|
  {}

  /** More survivors excuse whatever fewer did. */
  lemma StillExcused(specificity: map<Simple, nat>, selectors: seq<ComplexSelector>, before: seq<ComplexSelector>,
                     after: seq<ComplexSelector>, j: nat)
    requires j < |selectors| && Excused(specificity, selectors, before, j) && forall c <- before :: c in after
    ensures Excused(specificity, selectors, after, j)
  {
    hide Replaces;
    forall c | HasEqual(before, c) ensures HasEqual(after, c) {
      var k :| 0 <= k < |before| && before[k].Equals(c);
      assert before[k] in after;
    }
  }

  lemma ExcusedByReplacement(specificity: map<Simple, nat>, selectors: seq<ComplexSelector>,
                             originals: set<ComplexSelector>, i: nat, result: seq<ComplexSelector>, sources: seq<nat>)
    requires i < |selectors| && Progress(specificity, selectors, originals, i + 1, result, sources)
    requires Replaceable(specificity, result, selectors[i]) || Replaceable(specificity, selectors[..i], selectors[i])
    ensures Excused(specificity, selectors, result, i)
  {
    hide Replaces, AllAccounted, OriginalsKept, Irredundant, Irreplaceable, AllExcused, OrderKept;
    if k :| 0 <= k < |result| && Replaces(specificity, result[k], selectors[i]) {
      assert result[k].Equals(selectors[sources[k]]);
    } else {
      var m :| 0 <= m < |selectors[..i]| && Replaces(specificity, selectors[..i][m], selectors[i]);
      assert selectors[..i][m] == selectors[m];
    }
  }

  lemma ExcusedByEqual(specificity: map<Simple, nat>, selectors: seq<ComplexSelector>, result: seq<ComplexSelector>, j: nat)
    requires j < |selectors| && result != [] && result[0].simples == selectors[j].simples
    ensures Excused(specificity, selectors, result, j)
  {
    assert result[0].Equals(selectors[j]);
  }

  /** A survivor equal to an original scanned later is a repeat. */
  lemma RepeatedOriginal(selectors: seq<ComplexSelector>, originals: set<ComplexSelector>, i: nat,
                         result: seq<ComplexSelector>, sources: seq<nat>, j: nat)
    requires i < |selectors| && selectors[i] in originals && Sourced(selectors, i + 1, result, sources)
    requires j < |result| && result[j].simples == selectors[i].simples
    ensures !NoRepeatedOriginal(selectors, originals)
  {
    assert result[j] == selectors[sources[j]];
  }

  lemma ProgressStart(specificity: map<Simple, nat>, selectors: seq<ComplexSelector>, originals: set<ComplexSelector>)
    ensures Progress(specificity, selectors, originals, |selectors|, [], [])
  {}

  lemma PrependAccounts(selectors: seq<ComplexSelector>, i: nat, result: seq<ComplexSelector>, j: nat)
    requires i <= j < |selectors|
    requires j > i ==> Accounted(selectors, i + 1, result, selectors[j])
    ensures Accounted(selectors, i, [selectors[i]] + result, selectors[j])
  {
    var longer := [selectors[i]] + result;
    SuperselectorReflexive(selectors[i].simples);
    assert IsSuperselector(longer[0].simples, selectors[i].simples);
    forall c | c in result ensures c in longer {
      var k :| 0 <= k < |result| && result[k] == c;
      assert longer[k + 1] == c;
    }
    StillAccounted(selectors, i, result, longer, j);
  }

  lemma PrependIrredundant(specificity: map<Simple, nat>, originals: set<ComplexSelector>,
                           c: ComplexSelector, result: seq<ComplexSelector>)
    requires Irredundant(specificity, originals, result)
    requires c !in originals ==> !Replaceable(specificity, result, c)
    requires forall k | 0 <= k < |result| && result[k] !in originals :: !Replaces(specificity, c, result[k])
    ensures Irredundant(specificity, originals, [c] + result)
  {
    hide Replaces;
    var longer := [c] + result;
    forall k, l | 0 <= k < |longer| && 0 <= l < |longer| && k != l && longer[k] !in originals
      ensures !Replaces(specificity, longer[l], longer[k])
    {
      assert k > 0 ==> longer[k] == result[k - 1];
      assert l > 0 ==> longer[l] == result[l - 1];
    }
  }

  lemma PrependKeepsOriginals(selectors: seq<ComplexSelector>, originals: set<ComplexSelector>, i: nat,
                              result: seq<ComplexSelector>)
    requires i < |selectors| && OriginalsKept(selectors, originals, i + 1, result)
    ensures OriginalsKept(selectors, originals, i, [selectors[i]] + result)
  {
    var longer := [selectors[i]] + result;
    forall j | i <= j < |selectors| && selectors[j] in originals ensures HasEqual(longer, selectors[j]) {
      if j == i {
        assert longer[0].Equals(selectors[j]);
      } else {
        assert HasEqual(result, selectors[j]);
        var k :| 0 <= k < |result| && result[k].Equals(selectors[j]);
        assert longer[k + 1].Equals(selectors[j]);
      }
    }
  }

  lemma PrependIrreplaceable(specificity: map<Simple, nat>, selectors: seq<ComplexSelector>,
                             originals: set<ComplexSelector>, i: nat, result: seq<ComplexSelector>)
    requires i < |selectors| && Irreplaceable(specificity, selectors, originals, i + 1, result)
    requires selectors[i] !in originals ==> !Replaceable(specificity, selectors[..i], selectors[i])
    ensures Irreplaceable(specificity, selectors, originals, i, [selectors[i]] + result)
  {
    hide Replaces;
    assert forall m | 0 <= m < i :: selectors[..i][m] == selectors[m];
    var longer := [selectors[i]] + result;
    forall k, m | 0 <= k < |longer| && 0 <= m < i && longer[k] !in originals
      ensures !Replaces(specificity, selectors[m], longer[k])
    {
      assert k > 0 ==> longer[k] == result[k - 1];
    }
  }

  lemma PrependKeeps(specificity: map<Simple, nat>, selectors: seq<ComplexSelector>, originals: set<ComplexSelector>,
                     i: nat, result: seq<ComplexSelector>, sources: seq<nat>)
    requires i < |selectors| && Progress(specificity, selectors, originals, i + 1, result, sources)
    requires selectors[i] !in originals ==>
               && !Replaceable(specificity, result, selectors[i])
               && !Replaceable(specificity, selectors[..i], selectors[i])
    ensures Progress(specificity, selectors, originals, i, [selectors[i]] + result, [i] + sources)
  {
    hide Replaces, Replaceable, Accounted, Irredundant, OriginalsKept, HasEqual, Excused;
    var longer := [selectors[i]] + result;
    forall j | i <= j < |selectors|
      ensures Accounted(selectors, i, longer, selectors[j]) && Excused(specificity, selectors, longer, j)
    {
      PrependAccounts(selectors, i, result, j);
      if j == i {
        ExcusedByEqual(specificity, selectors, longer, j);
      } else {
        StillExcused(specificity, selectors, result, longer, j);
      }
    }
    PrependKeepsOriginals(selectors, originals, i, result);
    PrependIrredundant(specificity, originals, selectors[i], result);
    PrependIrreplaceable(specificity, selectors, originals, i, result);
  }

  lemma AccountedByReplacement(specificity: map<Simple, nat>, selectors: seq<ComplexSelector>, i: nat,
                               result: seq<ComplexSelector>, c: ComplexSelector)
    requires i <= |selectors|
    requires Replaceable(specificity, result, c) || Replaceable(specificity, selectors[..i], c)
    ensures Accounted(selectors, i, result, c)
  {
    if k :| 0 <= k < |result| && Replaces(specificity, result[k], c) {
    } else {
      var m :| 0 <= m < |selectors[..i]| && Replaces(specificity, selectors[..i][m], c);
      assert selectors[..i][m] == selectors[m];
    }
  }

  lemma DropKeeps(specificity: map<Simple, nat>, selectors: seq<ComplexSelector>, originals: set<ComplexSelector>,
                  i: nat, result: seq<ComplexSelector>, sources: seq<nat>)
    requires i < |selectors| && Progress(specificity, selectors, originals, i + 1, result, sources)
    requires selectors[i] !in originals && Accounted(selectors, i, result, selectors[i])
    requires Excused(specificity, selectors, result, i)
    ensures Progress(specificity, selectors, originals, i, result, sources)
  {
    hide Replaces, Accounted, Irredundant, HasEqual, Excused;
    forall j | i <= j < |selectors| ensures Accounted(selectors, i, result, selectors[j]) {
      StillAccounted(selectors, i, result, result, j);
    }
  }

  /** Whatever selector `i` accounted for is accounted for by what accounts for selector `i`. */
  lemma StillAccounted(selectors: seq<ComplexSelector>, i: nat, before: seq<ComplexSelector>,
                       after: seq<ComplexSelector>, j: nat)
    requires i <= j < |selectors|
    requires j > i ==> Accounted(selectors, i + 1, before, selectors[j])
    requires forall c <- before :: c in after
    requires Accounted(selectors, i, after, selectors[i])
    ensures Accounted(selectors, i, after, selectors[j])
  {
    if j > i {
      if k :| 0 <= k < |before| && IsSuperselector(before[k].simples, selectors[j].simples) {
        assert before[k] in after;
      } else {
        var m :| 0 <= m < i + 1 && IsSuperselector(selectors[m].simples, selectors[j].simples);
        if m == i {
          if k :| 0 <= k < |after| && IsSuperselector(after[k].simples, selectors[i].simples) {
            SuperselectorTransitive(after[k].simples, selectors[i].simples, selectors[j].simples);
          } else {
            var l :| 0 <= l < i && IsSuperselector(selectors[l].simples, selectors[i].simples);
            SuperselectorTransitive(selectors[l].simples, selectors[i].simples, selectors[j].simples);
          }
        }
      }
    }
  }

  /** Where the element at index `k` of a rotated prefix came from. */
  function Unrotated(k: nat, j: nat): nat { if k == 0 then j else if k <= j then k - 1 else k }

  lemma RotatedFrom<T>(s: seq<T>, j: nat, k: nat)
    requires j < |s| && k < |s|
    ensures |Rotated(s, 0, j + 1)| == |s|
    ensures Rotated(s, 0, j + 1)[k] == s[Unrotated(k, j)]
  {}

  lemma RotatedMember<T>(s: seq<T>, j: nat, x: T)
    requires j < |s| && x in s
    ensures x in Rotated(s, 0, j + 1)
  {
    var k :| 0 <= k < |s| && s[k] == x;
    RotatedFrom(s, j, if k == j then 0 else if k < j then k + 1 else k);
  }

  lemma RotateKeepsOriginals(selectors: seq<ComplexSelector>, originals: set<ComplexSelector>, i: nat,
                             result: seq<ComplexSelector>, rotated: seq<ComplexSelector>)
    requires i < |selectors| && OriginalsKept(selectors, originals, i + 1, result)
    requires forall c <- result :: c in rotated
    requires rotated != [] && rotated[0].Equals(selectors[i])
    ensures OriginalsKept(selectors, originals, i, rotated)
  {
    forall l | i <= l < |selectors| && selectors[l] in originals ensures HasEqual(rotated, selectors[l]) {
      if l > i {
        assert HasEqual(result, selectors[l]);
        var k :| 0 <= k < |result| && result[k].Equals(selectors[l]);
        assert result[k] in rotated;
      }
    }
  }

  lemma RotateIrredundant(specificity: map<Simple, nat>, selectors: seq<ComplexSelector>,
                          originals: set<ComplexSelector>, i: nat, result: seq<ComplexSelector>, j: nat)
    requires j < |result| && Irredundant(specificity, originals, result)
    requires i < |selectors| && Irreplaceable(specificity, selectors, originals, i + 1, result)
    ensures Irredundant(specificity, originals, Rotated(result, 0, j + 1))
    ensures Irreplaceable(specificity, selectors, originals, i, Rotated(result, 0, j + 1))
  {
    hide Replaces, Rotated;
    var rotated := Rotated(result, 0, j + 1);
    RotatedFrom(result, j, 0);
    forall k | 0 <= k < |result| ensures rotated[k] == result[Unrotated(k, j)] {
      RotatedFrom(result, j, k);
    }
    forall k, l | 0 <= k < |rotated| && 0 <= l < |rotated| && k != l && rotated[k] !in originals
      ensures !Replaces(specificity, rotated[l], rotated[k])
    {
      assert Unrotated(k, j) != Unrotated(l, j);
    }
  }

  lemma RotateSourced(selectors: seq<ComplexSelector>, i: nat, result: seq<ComplexSelector>, sources: seq<nat>, j: nat)
    requires j < |result| && Sourced(selectors, i + 1, result, sources)
    ensures Sourced(selectors, i, Rotated(result, 0, j + 1), Rotated(sources, 0, j + 1))
  {
    hide Rotated;
    var rotated, from := Rotated(result, 0, j + 1), Rotated(sources, 0, j + 1);
    RotatedFrom(result, j, 0);
    RotatedFrom(sources, j, 0);
    forall k | 0 <= k < |result|
      ensures from[k] == sources[Unrotated(k, j)] && i <= from[k] < |selectors|
      ensures rotated[k] == result[Unrotated(k, j)] == selectors[from[k]]
    {
      RotatedFrom(result, j, k);
      RotatedFrom(sources, j, k);
    }
    forall k, l | 0 <= k < |from| && 0 <= l < |from| && k != l ensures from[k] != from[l] {
      assert Unrotated(k, j) != Unrotated(l, j);
    }
  }

  lemma RotateKeeps(specificity: map<Simple, nat>, selectors: seq<ComplexSelector>, originals: set<ComplexSelector>,
                    i: nat, result: seq<ComplexSelector>, sources: seq<nat>, j: nat)
    requires i < |selectors| && Progress(specificity, selectors, originals, i + 1, result, sources)
    requires j < |result| && result[j].simples == selectors[i].simples && !NoRepeatedOriginal(selectors, originals)
    ensures Progress(specificity, selectors, originals, i, Rotated(result, 0, j + 1), Rotated(sources, 0, j + 1))
    ensures |Rotated(result, 0, j + 1)| == |result| && Rotated(result, 0, j + 1)[0] == result[j]
  {
    hide Replaces, Accounted, Rotated, OriginalsKept, Irredundant, Irreplaceable, Sourced, Excused, NoRepeatedOriginal;
    var rotated := Rotated(result, 0, j + 1);
    SourcesMatch(specificity, selectors, originals, i + 1, result, sources);
    RotatedFrom(sources, j, 0);
    RotatedFrom(result, j, 0);
    forall c | c in result ensures c in rotated {
      RotatedMember(result, j, c);
    }
    RotateSourced(selectors, i, result, sources, j);
    AccountedByEqual(selectors, i, rotated, selectors[i]);
    forall l | i <= l < |selectors|
      ensures Accounted(selectors, i, rotated, selectors[l]) && Excused(specificity, selectors, rotated, l)
    {
      StillAccounted(selectors, i, result, rotated, l);
      if l == i {
        ExcusedByEqual(specificity, selectors, rotated, l);
      } else {
        StillExcused(specificity, selectors, result, rotated, l);
      }
    }
    RotateKeepsOriginals(selectors, originals, i, result, rotated);
    RotateIrredundant(specificity, selectors, originals, i, result, j);
  }

  lemma AccountedByEqual(selectors: seq<ComplexSelector>, i: nat, result: seq<ComplexSelector>, c: ComplexSelector)
    requires i <= |selectors| && result != [] && result[0].Equals(c)
    ensures Accounted(selectors, i, result, c)
  {
    SuperselectorReflexive(c.simples);
    assert IsSuperselector(result[0].simples, c.simples);
  }

  lemma ProgressDone(specificity: map<Simple, nat>, selectors: seq<ComplexSelector>, originals: set<ComplexSelector>,
                     result: seq<ComplexSelector>, sources: seq<nat>)
    requires Progress(specificity, selectors, originals, 0, result, sources)
    ensures Covers(SimplesOf(result), SimplesOf(selectors))
    ensures KeepsOriginals(selectors, originals, result)
    ensures forall r <- result :: r in selectors
    ensures Irredundant(specificity, originals, result)
    ensures |result| <= |selectors| && OnlyReplaced(specificity, SimplesOf(selectors), SimplesOf(result))
    ensures NoRepeatedOriginal(selectors, originals) ==> PickedInOrder(selectors, result, sources)
  {
    hide Replaces, Excused, OnlyReplaced, NoRepeatedOriginal;
    ExcusedAreReplaced(specificity, selectors, result);
    var all, kept := SimplesOf(selectors), SimplesOf(result);
    forall i | 0 <= i < |all| ensures CoveredBy(all[i], kept) {
      assert Accounted(selectors, 0, result, selectors[i]);
      var k :| 0 <= k < |result| && IsSuperselector(result[k].simples, selectors[i].simples);
      assert kept[k] == result[k].simples;
    }
  }

  /** Whoever has a replacement that is itself replaced has one that differs from it. */
  lemma ExcusedAreReplaced(specificity: map<Simple, nat>, selectors: seq<ComplexSelector>, result: seq<ComplexSelector>)
    requires AllExcused(specificity, selectors, 0, result)
    ensures OnlyReplaced(specificity, SimplesOf(selectors), SimplesOf(result))
  {
    hide Excused, ReplacedAmong;
    var all, kept := SimplesOf(selectors), SimplesOf(result);
    forall c | c in all ensures c in kept || ReplacedAmong(specificity, all, c) {
      var j :| 0 <= j < |all| && all[j] == c;
      ExcusedIsReplaced(specificity, selectors, result, j);
    }
  }

  lemma {:induction false} ExcusedIsReplaced(specificity: map<Simple, nat>, selectors: seq<ComplexSelector>,
                                             result: seq<ComplexSelector>, j: nat)
    requires j < |selectors| && AllExcused(specificity, selectors, 0, result)
    ensures selectors[j].simples in SimplesOf(result) || ReplacedAmong(specificity, SimplesOf(selectors), selectors[j].simples)
  {
    hide Replaces, ReplacedAmong;
    var c := selectors[j].simples;
    assert Excused(specificity, selectors, result, j);
    if HasEqual(result, selectors[j]) {
      EqualSurvives(result, selectors[j]);
    } else {
      var m :| 0 <= m < |selectors| && Replaces(specificity, selectors[m], selectors[j])
               && m != j && (m < j || HasEqual(result, selectors[m]));
      if selectors[m].simples != c {
        ReplacedBy(specificity, selectors, m, j);
      } else if m < j {
        ExcusedIsReplaced(specificity, selectors, result, m);
      } else {
        EqualSurvives(result, selectors[m]);
      }
    }
  }

  lemma EqualSurvives(result: seq<ComplexSelector>, c: ComplexSelector)
    requires HasEqual(result, c)
    ensures c.simples in SimplesOf(result)
  {
    var k :| 0 <= k < |result| && result[k].Equals(c);
    assert SimplesOf(result)[k] == c.simples;
  }

  lemma ReplacedBy(specificity: map<Simple, nat>, selectors: seq<ComplexSelector>, m: nat, j: nat)
    requires m < |selectors| && j < |selectors| && selectors[m].simples != selectors[j].simples
    requires Replaces(specificity, selectors[m], selectors[j])
    ensures ReplacedAmong(specificity, SimplesOf(selectors), selectors[j].simples)
  {
    assert SimplesOf(selectors)[m] == selectors[m].simples;
  }
}
