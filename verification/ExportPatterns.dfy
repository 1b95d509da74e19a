/** Which `*` pattern of a package's `exports` a subpath takes (Node.js ECMAScript modules, PATTERN_KEY_COMPARE). */
module ExportPatterns {
  import opened Collections
  import opened Wrappers

  predicate HasSuffix(s: string, suffix: string) { |suffix| <= |s| && s[|s| - |suffix|..] == suffix }

  /** The position of the first `*`, or the length when there is none. */
  function StarIndex(key: string): (i: nat)
    ensures i <= |key| && (i < |key| ==> key[i] == '*') && forall j | 0 <= j < i :: key[j] != '*'
  {
    if key == "" || key[0] == '*' then 0 else 1 + StarIndex(key[1..])
  }

  predicate HasStar(key: string) { StarIndex(key) < |key| }

  function Base(key: string): string { key[..StarIndex(key)] }

  function Trailer(key: string): string { if HasStar(key) then key[StarIndex(key) + 1..] else "" }

  predicate OneStar(key: string) { HasStar(key) && '*' !in Trailer(key) }

  /** Negative when `a` is to be tried first. */
  function Compare(a: string, b: string): int {
    var baseA := if HasStar(a) then StarIndex(a) + 1 else |a|;
    var baseB := if HasStar(b) then StarIndex(b) + 1 else |b|;
    if baseA > baseB then -1
    else if baseB > baseA then 1
    else if !HasStar(a) then 1
    else if !HasStar(b) then -1
    else if |a| > |b| then -1
    else if |b| > |a| then 1
    else 0
  }

  /** The pattern frames the lookup key, with something left for the `*`. */
  predicate Matches(key: string, lookup: string) {
    && HasPrefix(lookup, Base(key)) && lookup != Base(key)
    && (Trailer(key) != "" ==> HasSuffix(lookup, Trailer(key)) && |lookup| >= |key|)
  }

  /** What the `*` stands for. */
  function Span(key: string, lookup: string): string
    requires OneStar(key) && Matches(key, lookup)
  {
    SpanFits(key, lookup);
    lookup[|Base(key)|..|lookup| - |Trailer(key)|]
  }

  lemma SpanFits(key: string, lookup: string)
    requires OneStar(key) && Matches(key, lookup)
    ensures |key| == |Base(key)| + 1 + |Trailer(key)| && |Base(key)| + |Trailer(key)| < |lookup|
  {}

  /** Putting the span back between base and trailer gives the lookup key; the span is never empty. */
  lemma SpanFillsPattern(key: string, lookup: string)
    requires OneStar(key) && Matches(key, lookup)
    ensures Span(key, lookup) != "" && Base(key) + Span(key, lookup) + Trailer(key) == lookup
  {
    SpanFits(key, lookup);
    var b, t := |Base(key)|, |Trailer(key)|;
    assert lookup == lookup[..b] + lookup[b..|lookup| - t] + lookup[|lookup| - t..];
  }

  /** A key matches exactly what comes of it by putting something for the `*`. */
  lemma MatchesWhatFits(key: string, lookup: string)
    requires OneStar(key)
    ensures Matches(key, lookup) <==> exists span: string :: span != "" && lookup == Base(key) + span + Trailer(key)
  {
    if Matches(key, lookup) {
      SpanFillsPattern(key, lookup);
    }
    if span: string :| span != "" && lookup == Base(key) + span + Trailer(key) {
      assert lookup[..|Base(key)|] == Base(key);
      assert lookup[|lookup| - |Trailer(key)|..] == Trailer(key);
    }
  }

  // ---- The order ----

  /** The longer base is tried first, and of two equally long ones the longer key. */
  lemma LongerIsTriedFirst(a: string, b: string)
    requires OneStar(a) && OneStar(b)
    ensures Compare(a, b) < 0 <==> |Base(a)| > |Base(b)| || (|Base(a)| == |Base(b)| && |a| > |b|)
    ensures Compare(a, b) == 0 <==> |Base(a)| == |Base(b)| && |a| == |b|
  {}

  /** On patterns the comparison is antisymmetric, transitive, and so is being equal. */
  lemma CompareIsWeakOrder(a: string, b: string, c: string)
    requires OneStar(a) && OneStar(b) && OneStar(c)
    ensures Compare(a, a) == 0 && Compare(a, b) == -Compare(b, a)
    ensures Compare(a, b) < 0 && Compare(b, c) < 0 ==> Compare(a, c) < 0
    ensures Compare(a, b) == 0 && Compare(b, c) == 0 ==> Compare(a, c) == 0
  {}

  /** It is not one on all keys: a key without `*` comes after itself. */
  lemma CompareNeedsStars(key: string)
    requires !HasStar(key)
    ensures Compare(key, key) == 1
  {}

  lemma KeyIsBaseStarTrailer(key: string)
    requires HasStar(key)
    ensures key == Base(key) + ['*'] + Trailer(key)
  {}

  /** Being a pattern is having exactly one star. */
  lemma OneStarCounts(key: string)
    ensures OneStar(key) <==> multiset(key)['*'] == 1
  {
    if HasStar(key) {
      KeyIsBaseStarTrailer(key);
      assert multiset(key)['*'] == multiset(Base(key))['*'] + 1 + multiset(Trailer(key))['*'];
    } else {
      assert key == Base(key);
    }
  }

  /** Patterns that tie never match the same key. */
  lemma TiesDoNotBothMatch(a: string, b: string, lookup: string)
    requires OneStar(a) && OneStar(b) && Compare(a, b) == 0
    requires Matches(a, lookup) && Matches(b, lookup)
    ensures a == b
  {
    KeyIsBaseStarTrailer(a);
    KeyIsBaseStarTrailer(b);
    assert |Base(a)| == |Base(b)| && |Trailer(a)| == |Trailer(b)|;
    assert Base(a) == lookup[..|Base(a)|] == Base(b);
    if Trailer(a) != "" {
      assert Trailer(a) == lookup[|lookup| - |Trailer(a)|..] == Trailer(b);
    }
  }

  // ---- The choice ----

  /** A key with one star that matches and whose target is not null. */
  predicate Usable(targets: map<string, Option<string>>, key: string, lookup: string) {
    key in targets && multiset(key)['*'] == 1 && targets[key].Some? && Matches(key, lookup)
  }

  /** The most specific usable key: every other one compares after it. */
  ghost predicate MostSpecific(targets: map<string, Option<string>>, key: string, lookup: string) {
    Usable(targets, key, lookup) && forall other | Usable(targets, other, lookup) && other != key :: Compare(key, other) < 0
  }

  /** There is at most one most specific key, so ties in the sort cannot change the choice. */
  lemma MostSpecificIsUnique(targets: map<string, Option<string>>, a: string, b: string, lookup: string)
    requires MostSpecific(targets, a, lookup) && MostSpecific(targets, b, lookup)
    ensures a == b
  {
    OneStarCounts(a);
    OneStarCounts(b);
    CompareIsWeakOrder(a, b, a);
  }

  /** Any order in which no key stands before one that is to be tried first. */
  predicate SortedBySpecificity(keys: seq<string>) {
    forall i, j | 0 <= i < j < |keys| :: Compare(keys[i], keys[j]) <= 0
  }

  /** The pattern keys, most specific first; ties in any order. */
  method SortExpansionKeys(keys: set<string>) returns (sorted: seq<string>)
    requires forall k <- keys :: OneStar(k)
    ensures SortedBySpecificity(sorted) && forall k :: k in sorted <==> k in keys
  {
    hide Compare, OneStar;
    sorted := [];
    var pending := keys;
    while pending != {}
      invariant pending <= keys && forall k :: k in sorted <==> k in keys && k !in pending
      invariant SortedBySpecificity(sorted)
      invariant forall i, k | 0 <= i < |sorted| && k in pending :: Compare(sorted[i], k) <= 0
      decreases |pending|
    {
      var first := FirstOf(pending);
      pending := pending - {first};
      sorted := sorted + [first];
    }
  }

  /** A key none of the others is to be tried before. */
  method FirstOf(keys: set<string>) returns (first: string)
    requires keys != {} && forall k <- keys :: OneStar(k)
    ensures first in keys && forall k <- keys :: Compare(first, k) <= 0
  {
    hide Compare, OneStar;
    first :| first in keys;
    var pending := keys - {first};
    CompareIsWeakOrder(first, first, first);
    while pending != {}
      invariant pending <= keys && first in keys
      invariant forall k <- keys - pending :: Compare(first, k) <= 0
      decreases |pending|
    {
      var k :| k in pending;
      CompareIsWeakOrder(k, first, k);
      if Compare(k, first) < 0 {
        forall other | other in keys - pending ensures Compare(k, other) <= 0 {
          NotAfter(k, first, other);
        }
        first := k;
      }
      pending := pending - {k};
    }
    assert keys - pending == keys;
  }

  lemma NotAfter(a: string, b: string, c: string)
    requires OneStar(a) && OneStar(b) && OneStar(c) && Compare(a, b) <= 0 && Compare(b, c) <= 0
    ensures Compare(a, c) <= 0
  {}

  /**
   Tries the pattern keys in order and takes the first that matches and has a
   target: exactly the most specific one, if there is any usable key. Of all usable
   keys it has the longest base, and is the longest of those.
   */
  method ChoosePattern(targets: map<string, Option<string>>, lookup: string) returns (choice: Option<(string, string)>)
    ensures choice.None? <==> forall key :: !Usable(targets, key, lookup)
    ensures choice.Some? ==>
              && MostSpecific(targets, choice.value.0, lookup)
              && Base(choice.value.0) + choice.value.1 + Trailer(choice.value.0) == lookup
    ensures choice.Some? ==>
              forall other | Usable(targets, other, lookup) && other != choice.value.0 ::
                || |Base(other)| < |Base(choice.value.0)|
                || (|Base(other)| == |Base(choice.value.0)| && |other| < |choice.value.0|)
  {
    hide Compare, Matches, OneStar, Base, Trailer;
    var expansionKeys := set key | key in targets && OneStar(key);
    forall key ensures OneStar(key) <==> multiset(key)['*'] == 1 { OneStarCounts(key); }
    var sorted := SortExpansionKeys(expansionKeys);
    for i := 0 to |sorted|
      invariant forall j | 0 <= j < i :: !Usable(targets, sorted[j], lookup)
    {
      var key := sorted[i];
      assert key in sorted;
      if Matches(key, lookup) && targets[key].Some? {
        forall other | Usable(targets, other, lookup) && other != key ensures Compare(key, other) < 0 {
          assert other in sorted;
          var j :| 0 <= j < |sorted| && sorted[j] == other;
          if Compare(key, other) == 0 {
            TiesDoNotBothMatch(key, other, lookup);
          }
        }
        forall other | Usable(targets, other, lookup) && other != key
          ensures |Base(other)| < |Base(key)| || (|Base(other)| == |Base(key)| && |other| < |key|)
        {
          LongerIsTriedFirst(key, other);
        }
        SpanFits(key, lookup);
        SpanFillsPattern(key, lookup);
        assert Usable(targets, key, lookup);
        return Some((key, lookup[|Base(key)|..|lookup| - |Trailer(key)|]));
      }
    }
    assert forall key | Usable(targets, key, lookup) :: key in sorted;
    return None;
  }
}
