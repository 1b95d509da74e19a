/** Whole runs of a store: any interleaving of selectors and extensions. */
module StoreRuns {
  import opened Wrappers
  import opened Selectors
  import opened Extensions
  import opened ExtendEngine
  import opened ExtendStrict
  import opened ExtendRuns
  import opened ExtendOrder
  import opened ExtendSafety
  import opened Trim
  import opened Expansion
  import opened StoreFacts
  import opened ExtensionStores

  datatype Op =
    | Select(list: SelectorList)
    | Extend(extender: SelectorList, target: Simple, isOptional: bool)
  {
    predicate Parsed() {
      match this
      case Select(list) => list.components != []
      case Extend(extender, _, _) => extender.components != []
    }

    function Declares(): set<Rule> {
      match this
      case Select(_) => {}
      case Extend(extender, target, _) => DeclaredBy(extender.components, target)
    }
  }

  /** The rules a run declares, wherever in the run. */
  function DeclaredIn(ops: seq<Op>): set<Rule> {
    set op, r | op in ops && r in op.Declares() :: r
  }

  /** The selector lists a run adds, in order. */
  function ListsIn(ops: seq<Op>): seq<SelectorList> {
    if ops == [] then []
    else ListsIn(ops[..|ops| - 1]) + (if ops[|ops| - 1].Select? then [ops[|ops| - 1].list] else [])
  }

  /** When those lists were added. */
  function AddedAt(ops: seq<Op>): (positions: seq<nat>)
    ensures |positions| == |ListsIn(ops)|
  {
    if ops == [] then []
    else AddedAt(ops[..|ops| - 1]) + (if ops[|ops| - 1].Select? then [|ops| - 1] else [])
  }

  /** What arrives at a list added by operation `p`: the rules declared before it, then new ones in turn. */
  function ArrivalsSince(ops: seq<Op>, p: nat): Arrivals {
    var n := |ops| - 1;
    if n <= p then [DeclaredIn(ops)]
    else ArrivalsSince(ops[..n], p) + (if ops[n].Extend? then [DeclaredIn(ops) - DeclaredIn(ops[..n])] else [])
  }

  /** Each box was handed out for the list at its position. */
  predicate HandedOut(boxes: seq<ModifiableBox>, lists: seq<SelectorList>, originalOf: map<ModifiableBox, SelectorList>) {
    |boxes| == |lists| && forall i | 0 <= i < |boxes| :: boxes[i] in originalOf && originalOf[boxes[i]] == lists[i]
  }

  lemma OneMore(ops: seq<Op>, i: nat)
    requires i < |ops|
    ensures ops[..i] <= ops[..i + 1]
    ensures DeclaredIn(ops[..i + 1]) == DeclaredIn(ops[..i]) + ops[i].Declares()
    ensures ListsIn(ops[..i + 1]) == ListsIn(ops[..i]) + (if ops[i].Select? then [ops[i].list] else [])
    ensures AddedAt(ops[..i + 1]) == AddedAt(ops[..i]) + (if ops[i].Select? then [i] else [])
  {
    assert ops[..i + 1] == ops[..i] + [ops[i]];
  }

  /** The store knows what arrived at each box. */
  predicate KnowsArrivals(ops: seq<Op>, boxes: seq<ModifiableBox>, arrivals: map<ModifiableBox, Arrivals>)
    requires |boxes| == |ListsIn(ops)|
  {
    forall k | 0 <= k < |boxes| :: boxes[k] in arrivals && arrivals[boxes[k]] == ArrivalsSince(ops, AddedAt(ops)[k])
  }

  lemma {:induction false} AddedEarlier(ops: seq<Op>, k: nat)
    requires k < |AddedAt(ops)|
    ensures AddedAt(ops)[k] < |ops|
  {
    if k < |AddedAt(ops[..|ops| - 1])| {
      AddedEarlier(ops[..|ops| - 1], k);
    }
  }

  /** What an operation lets arrive at every box that is already there. */
  function Brings(op: Op, before: set<Rule>, after: set<Rule>): Arrivals {
    if op.Extend? then [after - before] else []
  }

  /** `more` has arrived at the given boxes. */
  predicate ArrivedAt(boxes: seq<ModifiableBox>, before: map<ModifiableBox, Arrivals>,
                      after: map<ModifiableBox, Arrivals>, more: Arrivals)
  {
    forall b <- boxes :: b in before && b in after && after[b] == before[b] + more
  }

  /** The given boxes have just been added. */
  predicate ArrivedAtNew(boxes: seq<ModifiableBox>, arrivals: map<ModifiableBox, Arrivals>, declared: set<Rule>) {
    forall b <- boxes :: b in arrivals && arrivals[b] == [declared]
  }

  lemma SelectedElsewhere(boxes: seq<ModifiableBox>, before: map<ModifiableBox, Arrivals>, box: ModifiableBox,
                          arrivals: Arrivals)
    requires box !in before && forall b <- boxes :: b in before
    ensures ArrivedAt(boxes, before, before[box := arrivals], [])
  {}

  lemma ArrivedAtThese(boxes: seq<ModifiableBox>, before: map<ModifiableBox, Arrivals>, rules: set<Rule>)
    requires forall b <- boxes :: b in before
    ensures ArrivedAt(boxes, before, Arrived(before, rules), [rules])
  {}

  lemma ArrivalsStep(ops: seq<Op>, i: nat, boxes: seq<ModifiableBox>, before: map<ModifiableBox, Arrivals>,
                     more: seq<ModifiableBox>, after: map<ModifiableBox, Arrivals>)
    requires i < |ops| && |boxes| == |ListsIn(ops[..i])| && |more| == |ListsIn(ops[..i + 1])| && boxes <= more
    requires KnowsArrivals(ops[..i], boxes, before)
    requires ArrivedAt(boxes, before, after, Brings(ops[i], DeclaredIn(ops[..i]), DeclaredIn(ops[..i + 1])))
    requires ArrivedAtNew(more[|boxes|..], after, DeclaredIn(ops[..i + 1]))
    ensures KnowsArrivals(ops[..i + 1], more, after)
  {
    hide DeclaredIn;
    OneMore(ops, i);
    assert ops[..i + 1][..i] == ops[..i];
    forall k | 0 <= k < |more|
      ensures more[k] in after && after[more[k]] == ArrivalsSince(ops[..i + 1], AddedAt(ops[..i + 1])[k])
    {
      if k < |boxes| {
        AddedEarlier(ops[..i], k);
        assert more[k] == boxes[k] && boxes[k] in boxes;
      } else {
        assert more[k] == more[|boxes|..][k - |boxes|];
      }
    }
  }

  /** Runs one operation; an added list gets the next box. */
  method Step(store: ExtensionStore, op: Op, boxes: seq<ModifiableBox>, ghost lists: seq<SelectorList>)
    returns (after: seq<ModifiableBox>)
    requires op.Parsed() && store.Valid() && HandedOut(boxes, lists, store.originalOf)
    modifies store, store.originalOf.Keys
    ensures store.Valid() && store.declared == old(store.declared) + op.Declares()
    ensures HandedOut(after, lists + (if op.Select? then [op.list] else []), store.originalOf)
    ensures fresh(store.originalOf.Keys - old(store.originalOf.Keys))
    ensures boxes <= after && ArrivedAtNew(after[|boxes|..], store.arrivals, store.declared)
    ensures ArrivedAt(boxes, old(store.arrivals), store.arrivals, Brings(op, old(store.declared), store.declared))
  {
    hide DeclaredBy, ExtensionStore.Valid, ArrivedAt, ArrivedAtNew, HandedOut;
    match op
    case Select(list) =>
      var box := StepSelect(store, list, boxes, lists);
      after := boxes + [box];
      assert after[|boxes|..] == [box];
    case Extend(extender, target, isOptional) =>
      StepExtend(store, extender, target, isOptional, boxes, lists);
      after := boxes;
      assert lists + [] == lists && after[|boxes|..] == [];
  }

  method StepSelect(store: ExtensionStore, list: SelectorList, boxes: seq<ModifiableBox>, ghost lists: seq<SelectorList>)
    returns (box: ModifiableBox)
    requires list.components != [] && store.Valid() && HandedOut(boxes, lists, store.originalOf)
    modifies store
    ensures store.Valid() && store.declared == old(store.declared)
    ensures HandedOut(boxes + [box], lists + [list], store.originalOf)
    ensures fresh(store.originalOf.Keys - old(store.originalOf.Keys))
    ensures ArrivedAtNew([box], store.arrivals, store.declared)
    ensures ArrivedAt(boxes, old(store.arrivals), store.arrivals, [])
  {
    hide SimplesIn, WithRegistered, ListCandidates, IsExpansion;
    ArrivedAtAll(store, boxes, lists);
    hide ExtensionStore.Valid, ArrivedAt, ArrivedAtNew, HandedOut;
    ghost var arrivals, originalOf := store.arrivals, store.originalOf;
    box := store.AddSelector(list);
    SelectedElsewhere(boxes, arrivals, box, [store.declared]);
    HandedOutMore(boxes, lists, originalOf, box, list);
    NewlyArrived(store.arrivals, box, store.declared);
  }

  method StepExtend(store: ExtensionStore, extender: SelectorList, target: Simple, isOptional: bool,
                    ghost boxes: seq<ModifiableBox>, ghost lists: seq<SelectorList>)
    requires extender.components != [] && store.Valid() && HandedOut(boxes, lists, store.originalOf)
    modifies store, store.originalOf.Keys
    ensures store.Valid() && store.declared == old(store.declared) + DeclaredBy(extender.components, target)
    ensures store.originalOf == old(store.originalOf)
    ensures ArrivedAtNew([], store.arrivals, store.declared)
    ensures ArrivedAt(boxes, old(store.arrivals), store.arrivals, [store.declared - old(store.declared)])
  {
    hide DeclaredBy, RulesOf, AllComplete;
    ArrivedAtAll(store, boxes, lists);
    hide ExtensionStore.Valid, ExtensionStore.Values, Arrived, ArrivedAt, ArrivedAtNew, HandedOut;
    ghost var arrivals := store.arrivals;
    ghost var added, exts, uses, variants := store.AddExtension(extender, target, isOptional);
    ArrivedAtThese(boxes, arrivals, store.declared - old(store.declared));
    NoneNew(store.arrivals, store.declared);
  }

  lemma ArrivedAtAll(store: ExtensionStore, boxes: seq<ModifiableBox>, lists: seq<SelectorList>)
    requires store.Valid() && HandedOut(boxes, lists, store.originalOf)
    ensures store.arrivals.Keys == store.originalOf.Keys && forall b <- boxes :: b in store.arrivals
  {}

  lemma HandedOutMore(boxes: seq<ModifiableBox>, lists: seq<SelectorList>, originalOf: map<ModifiableBox, SelectorList>,
                      box: ModifiableBox, list: SelectorList)
    requires HandedOut(boxes, lists, originalOf) && box !in originalOf
    ensures HandedOut(boxes + [box], lists + [list], originalOf[box := list])
  {}

  lemma NewlyArrived(arrivals: map<ModifiableBox, Arrivals>, box: ModifiableBox, declared: set<Rule>)
    requires box in arrivals && arrivals[box] == [declared]
    ensures ArrivedAtNew([box], arrivals, declared)
  {}

  lemma NoneNew(arrivals: map<ModifiableBox, Arrivals>, declared: set<Rule>)
    ensures ArrivedAtNew([], arrivals, declared)
  {}

  /**
   Runs any interleaving on a new store. Every box keeps matching what its list
   matched; on elements closed under the declared rules it matches exactly that,
   chains or not; and without chains it matches only what the rules allow, which is
   exactly what its list means after one arrival of rules after another.
   */
  method Replay(ops: seq<Op>) returns (store: ExtensionStore, boxes: seq<ModifiableBox>)
    requires forall op <- ops :: op.Parsed()
    ensures fresh(store) && store.Valid() && store.declared == DeclaredIn(ops)
    ensures HandedOut(boxes, ListsIn(ops), store.originalOf)
    ensures forall k | 0 <= k < |boxes| ::
              BoxMeaning(ListsIn(ops)[k].Simples(), boxes[k].value.Simples(), DeclaredIn(ops),
                         ArrivalsSince(ops, AddedAt(ops)[k]))
  {
    hide DeclaredIn, ListsIn, AddedAt, ArrivalsSince, BoxMeaning, DeclaredBy, AllIndexed, IndexOver, DistinctIDs, RulesShape;
    hide RulesOf, Brings;
    store := new ExtensionStore();
    boxes := [];
    NothingRun(ops);
    for i := 0 to |ops|
      invariant fresh(store) && store.Valid() && fresh(store.originalOf.Keys)
      invariant store.declared == DeclaredIn(ops[..i])
      invariant HandedOut(boxes, ListsIn(ops[..i]), store.originalOf)
      invariant KnowsArrivals(ops[..i], boxes, store.arrivals)
    {
      OneMore(ops, i);
      ghost var before, arrivals := boxes, store.arrivals;
      boxes := Step(store, ops[i], boxes, ListsIn(ops[..i]));
      ArrivalsStep(ops, i, before, arrivals, boxes, store.arrivals);
    }
    assert ops[..|ops|] == ops;
    forall k | 0 <= k < |boxes|
      ensures BoxMeaning(ListsIn(ops)[k].Simples(), boxes[k].value.Simples(), DeclaredIn(ops),
                         ArrivalsSince(ops, AddedAt(ops)[k]))
    {
      Meant(store, boxes[k]);
    }
  }

  lemma Meant(store: ExtensionStore, box: ModifiableBox)
    requires store.Valid() && box in store.originalOf
    ensures box in store.arrivals
    ensures BoxMeaning(store.originalOf[box].Simples(), box.value.Simples(), store.declared, store.arrivals[box])
  {
    hide BoxMeaning;
    store.BoxFacts(box);
  }

  lemma NothingRun(ops: seq<Op>)
    ensures ops[..0] == []
    ensures DeclaredIn([]) == {} && ListsIn([]) == [] && AddedAt([]) == []
  {}

  lemma {:induction false} ArrivedAreDeclared(ops: seq<Op>, p: nat)
    ensures AllRules(ArrivalsSince(ops, p)) == DeclaredIn(ops)
  {
    hide DeclaredIn, AllRules;
    var n := |ops| - 1;
    if n > p {
      ArrivedAreDeclared(ops[..n], p);
      OneMore(ops, n);
      assert ops[..n + 1] == ops;
      AllRulesAppend(ArrivalsSince(ops[..n], p), DeclaredIn(ops) - DeclaredIn(ops[..n]));
      if ops[n].Select? {
        assert ArrivalsSince(ops, p) == ArrivalsSince(ops[..n], p);
      }
    } else {
      AllRulesAppend([], DeclaredIn(ops));
      assert [] + [DeclaredIn(ops)] == [DeclaredIn(ops)];
    }
  }

  lemma AllRulesAppend(arrivals: Arrivals, rules: set<Rule>)
    ensures AllRules(arrivals + [rules]) == AllRules(arrivals) + rules && AllRules([]) == {}
  {
    var all := arrivals + [rules];
    assert all[|arrivals|] == rules && forall i | 0 <= i < |arrivals| :: all[i] == arrivals[i];
  }

  /**
   What a box matches without chains: a consistent element exactly when the rules, in
   the order they arrived, can supply what it lacks of a member of the list.
   */
  lemma MatchesWhatIsSupplied(original: seq<Compound>, now: seq<Compound>, declared: set<Rule>, arrivals: Arrivals, e: Element)
    requires BoxMeaning(original, now, declared, arrivals) && ChainFree(declared) && AllRules(arrivals) == declared
    requires AllHeadTyped(original) && Written(declared) && Consistent(e)
    ensures AnyMatches(now, e) <==> Suppliable(original, arrivals, e)
  {
    hide Means, Keeps, ClosedSound, Sound, ChainFree, Consistent, AllRules, Written;
    MeansIsSuppliable(original, arrivals, e);
    ConsistentIsTame(e, declared);
  }

  lemma ConsistentIsTame(e: Element, rules: set<Rule>)
    requires Consistent(e)
    ensures Tame(e, rules)
  {
    forall r | r in rules && Matches(r.extender, e) ensures Sensible(r.extender) {
      ConsistentIsAlone(r.extender, e);
    }
  }

  /** A box means its list under all declared rules exactly when everything they could supply is supplied. */
  lemma ExactWhenSupplied(original: seq<Compound>, now: seq<Compound>, declared: set<Rule>, arrivals: Arrivals)
    requires BoxMeaning(original, now, declared, arrivals) && ChainFree(declared) && AllRules(arrivals) == declared
    requires AllHeadTyped(original) && Written(declared)
    ensures Exact(original, now, declared) <==>
            forall e | Consistent(e) && AnyMatches(original, Augment(e, declared)) :: Suppliable(original, arrivals, e)
  {
    hide BoxMeaning, ChainFree, Consistent, AllRules, Written, Suppliable, AnyMatches, AllHeadTyped;
    forall e | Consistent(e)
      ensures AnyMatches(now, e) <==> Suppliable(original, arrivals, e)
      ensures Suppliable(original, arrivals, e) ==> AnyMatches(original, Augment(e, declared))
    {
      MatchesWhatIsSupplied(original, now, declared, arrivals, e);
      SuppliableIsAugmented(original, arrivals, e);
    }
  }

  /** What the box of a chain-free run means when no rule is spoiled by a later one. */
  lemma ExactWithoutChains(original: seq<Compound>, now: seq<Compound>, declared: set<Rule>, arrivals: Arrivals)
    requires BoxMeaning(original, now, declared, arrivals) && ChainFree(declared) && AllRules(arrivals) == declared
    requires AllHeadTyped(original) && Timely(arrivals)
    ensures Exact(original, now, declared)
  {
    hide Means, Keeps, ClosedSound, Sound, AtMost, ChainFree, Consistent, AllRules, Suppliable, AllHeadTyped, Timely;
    forall e | Consistent(e) ensures AnyMatches(now, e) <==> AnyMatches(original, Augment(e, declared)) {
      MeansIsSuppliable(original, arrivals, e);
      TimelySupplies(original, arrivals, e);
      SoundAt(original, now, declared, e);
    }
  }

  lemma SoundAt(original: seq<Compound>, now: seq<Compound>, declared: set<Rule>, e: Element)
    requires Sound(original, now, declared)
    ensures AnyMatches(now, e) ==> AnyMatches(original, Augment(e, declared))
  {}

  /** Chained or not, nobody can tell box and original apart on an element the rules add nothing to. */
  lemma SameOnClosed(original: seq<Compound>, now: seq<Compound>, declared: set<Rule>, arrivals: Arrivals, e: Element)
    requires BoxMeaning(original, now, declared, arrivals) && Closed(e, declared)
    ensures AnyMatches(now, e) <==> AnyMatches(original, e)
  {}

  /** What the box of a chain-free run means when its rules are order-safe, whatever the order. */
  lemma OrderSafeIsExact(original: seq<Compound>, now: seq<Compound>, declared: set<Rule>, arrivals: Arrivals)
    requires BoxMeaning(original, now, declared, arrivals) && ChainFree(declared) && AllRules(arrivals) == declared
    requires AllHeadTyped(original) && OrderSafe(declared)
    ensures Exact(original, now, declared)
  {
    hide Means, Keeps, ClosedSound, Sound, AtMost, ChainFree, Consistent, AllRules, Suppliable, AllHeadTyped, OrderSafe;
    forall e | Consistent(e) ensures AnyMatches(now, e) <==> AnyMatches(original, Augment(e, declared)) {
      MeansIsSuppliable(original, arrivals, e);
      OrderSafeSupplies(original, arrivals, e);
      SoundAt(original, now, declared, e);
    }
  }

  /** The declared rules do not depend on the interleaving. */
  lemma DeclaredInAnyOrder(ops: seq<Op>, other: seq<Op>)
    requires multiset(ops) == multiset(other)
    ensures DeclaredIn(ops) == DeclaredIn(other)
  {
    forall op ensures op in ops <==> op in other {
      assert op in multiset(ops) <==> op in multiset(other);
    }
  }

  /**
   Two interleavings of the same operations leave boxes for the same list that
   match the same consistent elements.
   */
  method ReplayInTwoOrders(ops: seq<Op>, other: seq<Op>)
    returns (boxes: seq<ModifiableBox>, otherBoxes: seq<ModifiableBox>)
    requires forall op <- ops :: op.Parsed()
    requires multiset(ops) == multiset(other)
    requires ChainFree(DeclaredIn(ops)) && OrderSafe(DeclaredIn(ops))
    ensures |boxes| == |ListsIn(ops)| && |otherBoxes| == |ListsIn(other)|
    ensures forall i, j, e |
              && 0 <= i < |boxes| && 0 <= j < |otherBoxes| && ListsIn(ops)[i] == ListsIn(other)[j]
              && AllHeadTyped(ListsIn(ops)[i].Simples()) && Consistent(e) ::
              AnyMatches(boxes[i].value.Simples(), e) <==> AnyMatches(otherBoxes[j].value.Simples(), e)
  {
    hide DeclaredIn, ListsIn, AddedAt, ArrivalsSince, BoxMeaning, ChainFree, OrderSafe, Exact, AllHeadTyped, AllRules;
    forall op | op in other ensures op.Parsed() {
      assert op in multiset(other);
    }
    DeclaredInAnyOrder(ops, other);
    var store, otherStore;
    store, boxes := Replay(ops);
    otherStore, otherBoxes := Replay(other);
    forall i, j, e |
      && 0 <= i < |boxes| && 0 <= j < |otherBoxes| && ListsIn(ops)[i] == ListsIn(other)[j]
      && AllHeadTyped(ListsIn(ops)[i].Simples()) && Consistent(e)
      ensures AnyMatches(boxes[i].value.Simples(), e) <==> AnyMatches(otherBoxes[j].value.Simples(), e)
    {
      var original := ListsIn(ops)[i].Simples();
      SafeIsExact(ops, AddedAt(ops)[i], original, boxes[i].value.Simples());
      SafeIsExact(other, AddedAt(other)[j], original, otherBoxes[j].value.Simples());
      ExactAgree(original, boxes[i].value.Simples(), otherBoxes[j].value.Simples(), DeclaredIn(ops), e);
    }
  }

  lemma SafeIsExact(ops: seq<Op>, p: nat, original: seq<Compound>, now: seq<Compound>)
    requires ChainFree(DeclaredIn(ops)) && OrderSafe(DeclaredIn(ops)) && AllHeadTyped(original)
    requires BoxMeaning(original, now, DeclaredIn(ops), ArrivalsSince(ops, p))
    ensures Exact(original, now, DeclaredIn(ops))
  {
    hide DeclaredIn, ArrivalsSince, BoxMeaning, ChainFree, OrderSafe, Exact, AllHeadTyped, AllRules;
    ArrivedAreDeclared(ops, p);
    OrderSafeIsExact(original, now, DeclaredIn(ops), ArrivalsSince(ops, p));
  }

  lemma ExactAgree(original: seq<Compound>, a: seq<Compound>, b: seq<Compound>, rules: set<Rule>, e: Element)
    requires Exact(original, a, rules) && Exact(original, b, rules) && Consistent(e)
    ensures AnyMatches(a, e) <==> AnyMatches(b, e)
  {}

  // ---- Where the order matters ----

  function OwnLists(op: Op): seq<SelectorList> { if op.Select? then [op.list] else [] }

  lemma Appended(ops: seq<Op>, op: Op)
    ensures DeclaredIn(ops + [op]) == DeclaredIn(ops) + op.Declares() && ListsIn(ops + [op]) == ListsIn(ops) + OwnLists(op)
    ensures AddedAt(ops + [op]) == AddedAt(ops) + if op.Select? then [|ops|] else []
    ensures forall p: nat | p < |ops| ::
              ArrivalsSince(ops + [op], p) == ArrivalsSince(ops, p) + Brings(op, DeclaredIn(ops), DeclaredIn(ops + [op]))
  {
    hide DeclaredIn;
    OneMore(ops + [op], |ops|);
    assert (ops + [op])[..|ops|] == ops && (ops + [op])[..|ops| + 1] == ops + [op];
  }

  lemma ThreeOps(a: Op, b: Op, c: Op)
    ensures DeclaredIn([a, b, c]) == a.Declares() + b.Declares() + c.Declares()
    ensures ListsIn([a, b, c]) == OwnLists(a) + OwnLists(b) + OwnLists(c)
    ensures a.Select? && b.Extend? && c.Extend? ==>
              && AddedAt([a, b, c]) == [0]
              && ArrivalsSince([a, b, c], 0) == [{}, b.Declares(), c.Declares() - b.Declares()]
    ensures a.Extend? && b.Select? && c.Extend? ==>
              && AddedAt([a, b, c]) == [1]
              && ArrivalsSince([a, b, c], 1) == [a.Declares(), c.Declares() - a.Declares()]
    ensures a.Extend? && b.Extend? && c.Select? ==>
              && AddedAt([a, b, c]) == [2]
              && ArrivalsSince([a, b, c], 2) == [a.Declares() + b.Declares()]
  {
    hide DeclaredIn, ListsIn, AddedAt, OwnLists, Op.Declares;
    NothingRun([]);
    assert [] + [a] == [a] && [a] + [b] == [a, b] && [a, b] + [c] == [a, b, c];
    Appended([], a);
    Appended([a], b);
    Appended([a, b], c);
    assert {} + a.Declares() == a.Declares() && [] + OwnLists(a) == OwnLists(a);
    assert ArrivalsSince([a], 0) == [DeclaredIn([a])] && ArrivalsSince([a, b], 1) == [DeclaredIn([a, b])];
    assert ArrivalsSince([a, b, c], 2) == [DeclaredIn([a, b, c])];
    SelectsDeclareNothing(a);
    SelectsDeclareNothing(b);
    SelectsDeclareNothing(c);
    var one, two, all := DeclaredIn([a]), DeclaredIn([a, b]), DeclaredIn([a, b, c]);
    if a.Select? {
      assert one == {} && two - one == b.Declares() && all - two == c.Declares() - b.Declares();
    } else if b.Select? {
      assert two == a.Declares() && all - two == c.Declares() - a.Declares();
    } else if c.Select? {
      assert all == a.Declares() + b.Declares();
    }
  }

  lemma SelectsDeclareNothing(op: Op)
    ensures op.Select? ==> op.Declares() == {}
  {}

  /** A written list and two rules: the early one before or after the list, the late one last. */
  predicate IsLosingRun(ops: seq<Op>, early: Rule, late: Rule, listFirst: bool) {
    var list, rule := if listFirst then 0 else 1, if listFirst then 1 else 0;
    && |ops| == 3 && ops[list].Select? && AllHeadTyped(ops[list].list.Simples())
    && ops[rule].Extend? && ops[rule].Declares() == {early} && ops[2].Extend? && ops[2].Declares() == {late}
    && forall op <- ops :: op.Parsed()
  }

  /** The list `late.target early.target` and the two rules, each for itself. */
  method LosingRun(early: Rule, late: Rule, listFirst: bool) returns (ops: seq<Op>)
    requires early.extender != [] && late.extender != [] && !(early.target.Type? && late.target.Type?)
    ensures IsLosingRun(ops, early, late, listFirst)
    ensures ops[if listFirst then 0 else 1].list.Simples() == [BothTargets(early, late)]
  {
    var first := new ComplexSelector(early.extender);
    var second := new ComplexSelector(late.extender);
    var pair := new ComplexSelector(BothTargets(early, late));
    var earlyExtender := new SelectorList([first]);
    var lateExtender := new SelectorList([second]);
    var list := new SelectorList([pair]);
    assert list.Simples() == [BothTargets(early, late)];
    assert first in earlyExtender.components && second in lateExtender.components;
    ops := (if listFirst then [Select(list), Extend(earlyExtender, early.target, false)]
            else [Extend(earlyExtender, early.target, false), Select(list)])
           + [Extend(lateExtender, late.target, false)];
  }

  lemma LosingRunFacts(ops: seq<Op>, early: Rule, late: Rule, listFirst: bool)
    requires IsLosingRun(ops, early, late, listFirst) && early != late
    ensures ListsIn(ops) == [ops[if listFirst then 0 else 1].list] && DeclaredIn(ops) == {early, late}
    ensures |AddedAt(ops)| == 1 && AllRules(ArrivalsSince(ops, AddedAt(ops)[0])) == {early, late}
    ensures forall i, j | 0 <= i < |ArrivalsSince(ops, AddedAt(ops)[0])| && 0 <= j < |ArrivalsSince(ops, AddedAt(ops)[0])| ::
              early in ArrivalsSince(ops, AddedAt(ops)[0])[i] && late in ArrivalsSince(ops, AddedAt(ops)[0])[j] ==> i < j
  {
    hide DeclaredIn, ListsIn, AddedAt, ArrivalsSince;
    assert ops == [ops[0], ops[1], ops[2]];
    ThreeOps(ops[0], ops[1], ops[2]);
    ArrivedAreDeclared(ops, AddedAt(ops)[0]);
    assert {late} - {early} == {late};
  }

  /**
   Whenever one chain-free rule spoils another, a run of just these two rules in which
   it comes later leaves a box that never matches what satisfies both extenders,
   though the box's list does under the two rules. It does not matter whether the
   list comes before the other rule.
   */
  method LateRuleIsLost(early: Rule, late: Rule, listFirst: bool)
    returns (ops: seq<Op>, store: ExtensionStore, box: ModifiableBox)
    requires Spoils(early, late) && ChainFree({early, late}) && Written({early, late})
    ensures IsLosingRun(ops, early, late, listFirst) && |ListsIn(ops)| == 1 && DeclaredIn(ops) == {early, late}
    ensures AllHeadTyped(ListsIn(ops)[0].Simples())
    ensures fresh(store) && store.Valid() && store.declared == DeclaredIn(ops) && HandedOut([box], ListsIn(ops), store.originalOf)
    ensures var e := BothExtenders(early, late);
            && Consistent(e) && AnyMatches(ListsIn(ops)[0].Simples(), Augment(e, {early, late}))
            && !AnyMatches(box.value.Simples(), e)
    ensures !Exact(ListsIn(ops)[0].Simples(), box.value.Simples(), {early, late})
  {
    hide DeclaredIn, ListsIn, AddedAt, ArrivalsSince, BoxMeaning, ChainFree, AnyMatches, Augment, Consistent, BothExtenders;
    hide ExtensionStore.Valid, AllRules, Suppliable, Written, AllHeadTyped, BothTargets, Sensible, Op.Declares;
    assert early.extender != [] && late.extender != [] by { ExtendersWritten(early, late); }
    ops := LosingRun(early, late, listFirst);
    LosingRunFacts(ops, early, late, listFirst);
    var boxes;
    store, boxes := Replay(ops);
    box := boxes[0];
    BothMatch(early, late);
    SpoiltIsLost(early, late, ArrivalsSince(ops, AddedAt(ops)[0]));
    MatchesWhatIsSupplied(ListsIn(ops)[0].Simples(), box.value.Simples(), {early, late},
                          ArrivalsSince(ops, AddedAt(ops)[0]), BothExtenders(early, late));
  }

  lemma ExtendersWritten(early: Rule, late: Rule)
    requires Written({early, late})
    ensures early.extender != [] && late.extender != []
  {
    assert early in {early, late} && late in {early, late};
  }

  lemma PairIsWritten(rules: set<Rule>, q: Rule, r: Rule)
    requires q in rules && r in rules && ChainFree(rules) && Written(rules)
    ensures ChainFree({q, r}) && Written({q, r})
  {}

  /**
   Arrivals that are not in time can lose: some rule that arrives later spoils an
   earlier one, and under these two alone a box does not mean its list, whether the
   list comes before the earlier one or after it.
   */
  method UntimelyRulesLoseMeaning(arrivals: Arrivals, listFirst: bool)
    returns (ops: seq<Op>, store: ExtensionStore, box: ModifiableBox)
    requires !Timely(arrivals) && ChainFree(AllRules(arrivals)) && Written(AllRules(arrivals))
    ensures exists i, j, q, r | 0 <= i < j < |arrivals| && q in arrivals[i] && r in arrivals[j] ::
              IsLosingRun(ops, q, r, listFirst)
    ensures |ListsIn(ops)| == 1 && DeclaredIn(ops) <= AllRules(arrivals)
    ensures fresh(store) && store.Valid() && store.declared == DeclaredIn(ops) && HandedOut([box], ListsIn(ops), store.originalOf)
    ensures !Exact(ListsIn(ops)[0].Simples(), box.value.Simples(), DeclaredIn(ops))
  {
    hide DeclaredIn, ListsIn, ChainFree, Written, ExtensionStore.Valid, Exact, IsLosingRun, Spoils;
    var i, j, q, r :| 0 <= i < j < |arrivals| && q in arrivals[i] && r in arrivals[j] && Spoils(q, r);
    PairIsWritten(AllRules(arrivals), q, r);
    ops, store, box := LateRuleIsLost(q, r, listFirst);
  }

  // ---- Any order ----

  lemma {:induction false} NoLists(ops: seq<Op>)
    requires forall op <- ops :: op.Extend?
    ensures ListsIn(ops) == [] && AddedAt(ops) == []
  {
    if ops != [] {
      assert ops[|ops| - 1] in ops;
      NoLists(ops[..|ops| - 1]);
    }
  }

  /** One list between two runs of rules. */
  lemma {:induction false} OneListBetween(first: seq<Op>, list: SelectorList, rest: seq<Op>)
    requires forall op <- first + rest :: op.Extend?
    ensures var ops := first + [Select(list)] + rest;
            && ListsIn(ops) == [list] && AddedAt(ops) == [|first|]
            && ArrivalsSince(ops, |first|) != [] && ArrivalsSince(ops, |first|)[0] == DeclaredIn(first)
    decreases |rest|
  {
    hide DeclaredIn;
    if rest == [] {
      assert forall op <- first :: op in first + rest;
      NoLists(first);
      Appended(first, Select(list));
      assert first + [Select(list)] + rest == first + [Select(list)];
      SelectsDeclareNothing(Select(list));
      assert DeclaredIn(first) + {} == DeclaredIn(first);
    } else {
      var n := |rest| - 1;
      assert forall op <- first + rest[..n] :: op in first + rest;
      OneListBetween(first, list, rest[..n]);
      assert rest[n] in first + rest;
      Appended(first + [Select(list)] + rest[..n], rest[n]);
      assert first + [Select(list)] + rest[..n] + [rest[n]] == first + [Select(list)] + rest;
    }
  }

  /** Extensions that declare exactly the given rules. */
  method DeclareAll(rules: set<Rule>) returns (ops: seq<Op>)
    requires Written(rules)
    ensures DeclaredIn(ops) == rules && forall op <- ops :: op.Extend? && op.Parsed()
  {
    hide DeclaredIn, DeclaredBy;
    ops := [];
    NothingRun(ops);
    var left := rules;
    while left != {}
      invariant left <= rules && DeclaredIn(ops) == rules - left
      invariant forall op <- ops :: op.Extend? && op.Parsed()
      decreases |left|
    {
      var r :| r in left;
      left := left - {r};
      var complex := new ComplexSelector(r.extender);
      var extender := new SelectorList([complex]);
      OneDeclared(extender, r);
      Appended(ops, Extend(extender, r.target, false));
      ops := ops + [Extend(extender, r.target, false)];
    }
  }

  lemma OneDeclared(extender: SelectorList, r: Rule)
    requires |extender.components| == 1 && extender.components[0].simples == r.extender
    ensures DeclaredBy(extender.components, r.target) == {r}
  {
    assert extender.components[0] in extender.components;
  }

  lemma InTwoHalves(first: seq<Op>, rest: seq<Op>)
    ensures DeclaredIn(first + rest) == DeclaredIn(first) + DeclaredIn(rest)
  {
    assert forall op :: op in first + rest <==> op in first || op in rest;
  }

  lemma ListDeclaresNothing(first: seq<Op>, list: SelectorList, rest: seq<Op>)
    ensures DeclaredIn(first + [Select(list)] + rest) == DeclaredIn(first + rest)
    ensures multiset(first + [Select(list)] + rest) == multiset(first + rest + [Select(list)])
  {
    assert forall op :: op in first + [Select(list)] + rest <==> op in first + rest || op == Select(list);
  }

  /**
   Where nothing makes up for a contested rule, the order matters: two orders of the
   same operations, declaring exactly the given rules, leave boxes for the same list
   that do not match the same elements.
   */
  method UnsafeRulesMakeOrderMatter(rules: set<Rule>, q: Rule, others: seq<Rule>)
    returns (ops: seq<Op>, other: seq<Op>, box: ModifiableBox, otherBox: ModifiableBox, ghost stores: (ExtensionStore, ExtensionStore))
    requires ChainFree(rules) && Written(rules) && Contested(q, others, rules) && !MadeUpFor(q, others, rules)
    ensures multiset(ops) == multiset(other) && DeclaredIn(ops) == rules
    ensures (forall op <- ops :: op.Parsed()) && |ListsIn(ops)| == 1 && AllHeadTyped(ListsIn(ops)[0].Simples())
    ensures fresh(stores.0) && stores.0.Valid() && stores.0.declared == rules
    ensures HandedOut([box], ListsIn(ops), stores.0.originalOf)
    ensures fresh(stores.1) && stores.1.Valid() && stores.1.declared == rules
    ensures HandedOut([otherBox], ListsIn(ops), stores.1.originalOf)
    ensures var e := ContestedElement(q, others);
            Consistent(e) && !AnyMatches(box.value.Simples(), e) && AnyMatches(otherBox.value.Simples(), e)
  {
    hide DeclaredIn, ListsIn, AddedAt, ArrivalsSince, BoxMeaning, ChainFree, AnyMatches, Augment, Consistent, Contested;
    hide ExtensionStore.Valid, Written, Exact, AllRules, MadeUpFor, ContestedElement, ContestedTargets, Suppliable;
    var early := set r | r in rules && r.target == q.target;
    WrittenSubset(early, rules);
    WrittenSubset(rules - early, rules);
    var first := DeclareAll(early);
    var rest := DeclareAll(rules - early);
    ContestedMatches(q, others, rules);
    TargetsNotEmpty(q, others, rules);
    var complex := new ComplexSelector(ContestedTargets(q, others));
    var list := new SelectorList([complex]);
    assert list.Simples() == [ContestedTargets(q, others)];
    ops, other := first + [Select(list)] + rest, first + rest + [Select(list)];
    InTwoHalves(first, rest);
    assert early + (rules - early) == rules;
    ListDeclaresNothing(first, list, rest);
    DeclaredInAnyOrder(ops, other);
    OneListBetween(first, list, rest);
    OneListBetween(first + rest, list, []);
    assert first + rest + [Select(list)] + [] == other;
    var store, boxes := Replay(ops);
    var otherStore, otherBoxes := Replay(other);
    box, otherBox, stores := boxes[0], otherBoxes[0], (store, otherStore);
    ArrivedAreDeclared(ops, |first|);
    EarlyFirst(ops, |first|, rules, q.target);
    NotMadeUpForIsLost(q, others, ArrivalsSince(ops, |first|));
    MatchesWhatIsSupplied(list.Simples(), box.value.Simples(), rules, ArrivalsSince(ops, |first|), ContestedElement(q, others));
    AllAtOnce(other, |first + rest|);
    MatchesWhatIsSupplied(list.Simples(), otherBox.value.Simples(), rules, ArrivalsSince(other, |first + rest|),
                          ContestedElement(q, others));
    OneArrival(list.Simples(), rules, ContestedElement(q, others));
  }

  lemma TargetsNotEmpty(q: Rule, others: seq<Rule>, rules: set<Rule>)
    requires Contested(q, others, rules)
    ensures ContestedTargets(q, others) != []
  {
    WrittenMembers([q.target] + TargetsOf(others));
    assert q.target in [q.target] + TargetsOf(others);
  }

  /** What arrives later was not there before. */
  lemma {:induction false} LaterAreNew(ops: seq<Op>, p: nat)
    requires p < |ops|
    ensures var arrivals := ArrivalsSince(ops, p);
            && arrivals != [] && arrivals[0] == DeclaredIn(ops[..p + 1]) && arrivals[0] <= DeclaredIn(ops)
            && forall i | 0 < i < |arrivals| :: arrivals[i] !! arrivals[0]
  {
    hide DeclaredIn;
    var n := |ops| - 1;
    assert ops[..n + 1] == ops;
    if n > p {
      LaterAreNew(ops[..n], p);
      OneMore(ops, n);
      assert ops[..n][..p + 1] == ops[..p + 1];
    }
  }

  lemma EarlyFirst(ops: seq<Op>, p: nat, rules: set<Rule>, t: Simple)
    requires p < |ops| && ArrivalsSince(ops, p) != [] && AllRules(ArrivalsSince(ops, p)) == rules
    requires ArrivalsSince(ops, p)[0] == set r | r in rules && r.target == t
    ensures forall i, r | 0 <= i < |ArrivalsSince(ops, p)| && r in ArrivalsSince(ops, p)[i] :: i == 0 <==> r.target == t
  {
    var arrivals := ArrivalsSince(ops, p);
    LaterAreNew(ops, p);
    forall i: nat, r: Rule | 0 <= i < |arrivals| && r in arrivals[i] ensures i == 0 <==> r.target == t {
      InAllRules(r, arrivals, i);
    }
  }

  lemma AllAtOnce(ops: seq<Op>, p: nat)
    requires |ops| == p + 1
    ensures ArrivalsSince(ops, p) == [DeclaredIn(ops)] && AllRules([DeclaredIn(ops)]) == DeclaredIn(ops)
  {
    hide DeclaredIn;
    ArrivedAreDeclared(ops, p);
  }

  lemma OneArrival(list: seq<Compound>, rules: set<Rule>, e: Element)
    requires AllHeadTyped(list) && Consistent(e)
    ensures Suppliable(list, [rules], e) <==> AnyMatches(list, Augment(e, rules))
  {
    TimelySupplies(list, [rules], e);
    assert AllRules([rules]) == rules by {
      AllRulesAppend([], rules);
      assert [] + [rules] == [rules];
    }
  }

  lemma WrittenSubset(some: set<Rule>, rules: set<Rule>)
    requires some <= rules && Written(rules)
    ensures Written(some)
  {}
}
