/** Copying a store: new boxes for old ones, and nothing shared that either store changes. */
module StoreClone {
  import opened Collections
  import opened Selectors
  import opened Extensions
  import opened ExtendEngine
  import opened ExtendRuns
  import opened Trim
  import opened StoreFacts
  import opened ExtensionStores
  import opened StoreRuns

  type Renaming = map<ModifiableBox, ModifiableBox>

  function NewBox(b: ModifiableBox, renaming: Renaming): ModifiableBox {
    if b in renaming then renaming[b] else b
  }

  function Renamed(boxes: seq<ModifiableBox>, renaming: Renaming): seq<ModifiableBox> {
    seq(|boxes|, i requires 0 <= i < |boxes| => NewBox(boxes[i], renaming))
  }

  /** The highest ID after `n` boxes above `base`, zero when there is none. */
  function LastID(base: nat, n: nat): nat { if n == 0 then 0 else base + n }

  /** A renaming with more boxes that keeps the ones it had. */
  predicate Continues(renaming: Renaming, extended: Renaming) {
    forall b <- renaming :: b in extended && extended[b] == renaming[b]
  }

  /** New boxes carry distinct IDs above `base`, one for each renamed box. */
  predicate Numbered(base: nat, newBoxes: map<nat, ModifiableBox>, renaming: Renaming) {
    && (forall b <- renaming :: b.id in newBoxes && newBoxes[b.id] == renaming[b])
    && (forall b <- renaming :: base < renaming[b].id <= base + |newBoxes|)
    && (forall b <- renaming, c <- renaming :: renaming[b].id == renaming[c].id ==> b == c)
    && (forall id <- newBoxes :: exists b <- renaming :: b.id == id)
  }

  /** Each new box holds what the old one held. */
  ghost predicate Holds(renaming: Renaming, values: map<ModifiableBox, SelectorList>)
    reads renaming.Values
  {
    renaming.Keys <= values.Keys && forall b <- renaming :: renaming[b].value == values[b]
  }

  lemma NumberedMore(base: nat, newBoxes: map<nat, ModifiableBox>, renaming: Renaming,
                     s: ModifiableBox, copy: ModifiableBox)
    requires Numbered(base, newBoxes, renaming)
    requires s.id !in newBoxes && copy.id == base + |newBoxes| + 1
    ensures s !in renaming && Numbered(base, newBoxes[s.id := copy], renaming[s := copy])
  {
    var more := newBoxes[s.id := copy];
    assert |more| == |newBoxes| + 1;
    forall id | id in more ensures exists b <- renaming[s := copy] :: b.id == id {
      if id != s.id {
        var b :| b in renaming && b.id == id;
        assert b in renaming[s := copy];
      }
    }
  }

  lemma AlreadyRenamed(base: nat, newBoxes: map<nat, ModifiableBox>, renaming: Renaming, known: set<ModifiableBox>,
                       s: ModifiableBox)
    requires Numbered(base, newBoxes, renaming) && DistinctIDs(known) && renaming.Keys <= known && s in known
    requires s.id in newBoxes
    ensures s in renaming && newBoxes[s.id] == renaming[s]
  {
    var b :| b in renaming && b.id == s.id;
  }

  /** The new box of `s`: the one it got before, or one with the next ID. */
  method CloneBox(s: ModifiableBox, base: nat, newBoxes: map<nat, ModifiableBox>, maxID: nat,
                  ghost values: map<ModifiableBox, SelectorList>, ghost renaming: Renaming)
    returns (copy: ModifiableBox, allBoxes: map<nat, ModifiableBox>, newMaxID: nat, ghost extended: Renaming)
    requires DistinctIDs(values.Keys) && s in values && s.value == values[s]
    requires Numbered(base, newBoxes, renaming) && Holds(renaming, values)
    requires maxID == LastID(base, |newBoxes|)
    ensures Numbered(base, allBoxes, extended) && Holds(extended, values)
    ensures newMaxID == LastID(base, |allBoxes|)
    ensures extended == renaming[s := copy] && (s in renaming ==> copy == renaming[s])
    ensures forall b <- extended :: b !in renaming ==> fresh(extended[b])
  {
    hide Numbered, DistinctIDs;
    allBoxes, newMaxID := newBoxes, maxID;
    if s.id !in newBoxes {
      var id := base + |newBoxes| + 1;
      if id > maxID {
        newMaxID := id;
      }
      copy := new ModifiableBox(s.value, id);
      NumberedMore(base, newBoxes, renaming, s, copy);
      allBoxes := newBoxes[s.id := copy];
      assert s.id in allBoxes;
    } else {
      AlreadyRenamed(base, newBoxes, renaming, values.Keys, s);
      copy := newBoxes[s.id];
    }
    extended := renaming[s := copy];
    assert s in renaming ==> extended == renaming;
  }

  /** Every copied value leads to a new box that holds it. */
  predicate LeadsToCopies(oldToNew: map<SelectorList, ModifiableBox>, renaming: Renaming,
                          values: map<ModifiableBox, SelectorList>)
  {
    && renaming.Keys <= values.Keys
    && (forall b <- renaming :: values[b] in oldToNew)
    && (forall l <- oldToNew :: exists b <- renaming :: values[b] == l && oldToNew[l] == renaming[b])
  }

  lemma LeadsToOneMore(oldToNew: map<SelectorList, ModifiableBox>, renaming: Renaming,
                       values: map<ModifiableBox, SelectorList>, s: ModifiableBox, copy: ModifiableBox)
    requires s in values && LeadsToCopies(oldToNew, renaming, values)
    requires s in renaming ==> copy == renaming[s]
    ensures LeadsToCopies(oldToNew[values[s] := copy], renaming[s := copy], values)
  {
    var after, extended := oldToNew[values[s] := copy], renaming[s := copy];
    forall l | l in after ensures exists b <- extended :: values[b] == l && after[l] == extended[b] {
      if l == values[s] {
        assert s in extended;
      } else {
        var b :| b in renaming && values[b] == l && oldToNew[l] == renaming[b];
        assert b in extended && extended[b] == renaming[b];
      }
    }
  }

  /** Distinct boxes rename to boxes with distinct IDs, so none is taken for a repeat. */
  lemma NotARepeat(base: nat, newBoxes: map<nat, ModifiableBox>, renaming: Renaming,
                   boxes: seq<ModifiableBox>, k: nat)
    requires Numbered(base, newBoxes, renaming) && NoRepeats(boxes) && k < |boxes|
    requires Members(boxes[..k + 1]) <= renaming.Keys
    ensures Renamed(boxes[..k + 1], renaming) == AddBox(Renamed(boxes[..k], renaming), renaming[boxes[k]])
  {
    assert boxes[..k + 1] == boxes[..k] + [boxes[k]];
    var copies := Renamed(boxes[..k], renaming);
    forall i | 0 <= i < k ensures copies[i].id != renaming[boxes[k]].id {
      assert boxes[..k][i] == boxes[i] && boxes[i] in Members(boxes[..k + 1]) && boxes[k] in Members(boxes[..k + 1]);
    }
  }

  lemma RenamedMore(renaming: Renaming, before: Renaming, boxes: seq<ModifiableBox>, s: ModifiableBox,
                    copy: ModifiableBox)
    requires Continues(renaming, before) && before.Keys == renaming.Keys + Members(boxes)
    requires s in before ==> copy == before[s]
    ensures var after := before[s := copy];
            && Continues(renaming, after) && after.Keys == renaming.Keys + Members(boxes + [s])
            && Renamed(boxes, after) == Renamed(boxes, before)
  {
    forall b | b in boxes ensures b in before {
      assert b in Members(boxes);
    }
  }

  /** The new boxes of one index entry, in its order. */
  method CloneEntry(boxes: seq<ModifiableBox>, base: nat, newBoxes: map<nat, ModifiableBox>, maxID: nat,
                    oldToNew: map<SelectorList, ModifiableBox>,
                    ghost values: map<ModifiableBox, SelectorList>, ghost renaming: Renaming)
    returns (copies: seq<ModifiableBox>, allBoxes: map<nat, ModifiableBox>, newMaxID: nat,
             allToNew: map<SelectorList, ModifiableBox>, ghost extended: Renaming)
    requires DistinctIDs(values.Keys)
    requires NoRepeats(boxes) && forall b <- boxes :: b in values && b.value == values[b]
    requires Numbered(base, newBoxes, renaming) && Holds(renaming, values)
    requires maxID == LastID(base, |newBoxes|)
    requires LeadsToCopies(oldToNew, renaming, values)
    ensures Numbered(base, allBoxes, extended) && Holds(extended, values)
    ensures newMaxID == LastID(base, |allBoxes|)
    ensures extended.Keys == renaming.Keys + Members(boxes)
    ensures LeadsToCopies(allToNew, extended, values)
    ensures Continues(renaming, extended)
    ensures forall b <- extended :: b !in renaming ==> fresh(extended[b])
    ensures copies == Renamed(boxes, extended)
  {
    hide *;
    copies, allBoxes, newMaxID, allToNew, extended := [], newBoxes, maxID, oldToNew, renaming;
    assert boxes[..0] == [];
    NothingRenamed(renaming);
    for k := 0 to |boxes|
      invariant Numbered(base, allBoxes, extended) && Holds(extended, values)
      invariant newMaxID == LastID(base, |allBoxes|)
      invariant extended.Keys == renaming.Keys + Members(boxes[..k])
      invariant LeadsToCopies(allToNew, extended, values)
      invariant Continues(renaming, extended)
      invariant forall b <- extended :: b !in renaming ==> fresh(extended[b])
      invariant copies == Renamed(boxes[..k], extended)
    {
      var s := boxes[k];
      ghost var before := extended;
      var copy;
      copy, allBoxes, newMaxID, extended := CloneBox(s, base, allBoxes, newMaxID, values, before);
      assert s in boxes && boxes[..k + 1] == boxes[..k] + [s];
      RenamedMore(renaming, before, boxes[..k], s, copy);
      NotARepeat(base, allBoxes, extended, boxes, k);
      copies := AddBox(copies, copy);
      LeadsToOneMore(allToNew, before, values, s, copy);
      allToNew := allToNew[s.value := copy];
    }
    assert boxes[..|boxes|] == boxes;
  }

  lemma NothingRenamed(renaming: Renaming)
    ensures Renamed([], renaming) == [] && Continues(renaming, renaming)
    ensures Members<ModifiableBox>([]) == {}
  {}

  /** `copies` holds the entries of `index` at `done`, box by box renamed. */
  predicate Mirrors(index: map<Simple, seq<ModifiableBox>>, done: set<Simple>,
                    copies: map<Simple, seq<ModifiableBox>>, renaming: Renaming)
  {
    && copies.Keys == done && done <= index.Keys
    && forall s <- done :: Members(index[s]) <= renaming.Keys && copies[s] == Renamed(index[s], renaming)
  }

  lemma MirrorsMore(index: map<Simple, seq<ModifiableBox>>, done: set<Simple>, copies: map<Simple, seq<ModifiableBox>>,
                    renaming: Renaming, s: Simple, entry: seq<ModifiableBox>, extended: Renaming)
    requires Mirrors(index, done, copies, renaming) && s in index
    requires Continues(renaming, extended) && extended.Keys == renaming.Keys + Members(index[s])
    requires entry == Renamed(index[s], extended)
    ensures Mirrors(index, done + {s}, copies[s := entry], extended)
  {
    forall t | t in done ensures Renamed(index[t], extended) == Renamed(index[t], renaming) {
      assert forall b <- index[t] :: b in Members(index[t]);
    }
  }

  /** What was known of each box, of its copy. */
  ghost function Moved<V>(known: map<ModifiableBox, V>, renaming: Renaming): map<ModifiableBox, V>
    requires renaming.Keys <= known.Keys
  {
    map n | n in renaming.Values :: var b :| b in renaming && renaming[b] == n; known[b]
  }

  lemma MovedTo<V>(known: map<ModifiableBox, V>, renaming: Renaming, base: nat, newBoxes: map<nat, ModifiableBox>)
    requires renaming.Keys <= known.Keys && Numbered(base, newBoxes, renaming)
    ensures forall b <- renaming :: renaming[b] in Moved(known, renaming) && Moved(known, renaming)[renaming[b]] == known[b]
  {
    forall b | b in renaming
      ensures renaming[b] in Moved(known, renaming) && Moved(known, renaming)[renaming[b]] == known[b]
    {
      assert renaming[b] in renaming.Values;
    }
  }

  /** Every box of a valid store is listed somewhere in the index. */
  lemma AllListed(index: map<Simple, seq<ModifiableBox>>, values: map<ModifiableBox, SelectorList>,
                  copies: map<Simple, seq<ModifiableBox>>, renaming: Renaming)
    requires AllIndexed(index, values) && Mirrors(index, index.Keys, copies, renaming)
    ensures values.Keys <= renaming.Keys
  {
    forall b | b in values ensures b in renaming {
      assert IndexedIn(index, values[b], b);
      var simples := values[b].components[0].simples;
      assert values[b].Simples()[0] == simples && simples[0] in simples;
      assert simples[0] in SimplesIn(values[b].Simples());
      assert b in Members(index[simples[0]]);
    }
  }

  /** What the copied index needs to be the index of the new boxes. */
  lemma CopiesAreIndexed(index: map<Simple, seq<ModifiableBox>>, values: map<ModifiableBox, SelectorList>,
                         base: nat, newBoxes: map<nat, ModifiableBox>, renaming: Renaming,
                         copies: map<Simple, seq<ModifiableBox>>, newValues: map<ModifiableBox, SelectorList>)
    requires IndexOver(index, values.Keys) && AllIndexed(index, values)
    requires renaming.Keys == values.Keys && Numbered(base, newBoxes, renaming)
    requires Mirrors(index, index.Keys, copies, renaming)
    requires newValues.Keys == renaming.Values && forall b <- renaming :: newValues[renaming[b]] == values[b]
    ensures IndexOver(copies, renaming.Values) && AllIndexed(copies, newValues)
  {
    hide SimplesIn, NoRepeats, Renamed, Numbered, IndexedIn;
    forall s | s in copies ensures NoRepeats(copies[s]) && forall n <- copies[s] :: n in renaming.Values {
      EntryCopied(index[s], values.Keys, base, newBoxes, renaming);
    }
    forall n | n in newValues ensures IndexedIn(copies, newValues[n], n) && newValues[n].components != [] {
      var b :| b in renaming && renaming[b] == n;
      BoxCopied(index, values[b], b, renaming, copies);
    }
  }

  lemma BoxCopied(index: map<Simple, seq<ModifiableBox>>, value: SelectorList, b: ModifiableBox, renaming: Renaming,
                  copies: map<Simple, seq<ModifiableBox>>)
    requires IndexedIn(index, value, b) && b in renaming && Mirrors(index, index.Keys, copies, renaming)
    ensures IndexedIn(copies, value, renaming[b])
  {
    forall s | s in SimplesIn(value.Simples()) ensures renaming[b] in copies[s] {
      var i :| 0 <= i < |index[s]| && index[s][i] == b;
      assert copies[s][i] == renaming[b];
    }
  }

  lemma CopiesMeanTheSame(originalOf: map<ModifiableBox, SelectorList>, values: map<ModifiableBox, SelectorList>,
                          declared: set<Rule>, base: nat, newBoxes: map<nat, ModifiableBox>, renaming: Renaming,
                          newValues: map<ModifiableBox, SelectorList>, arrivals: map<ModifiableBox, Arrivals>)
    requires AllMean(originalOf, values, declared, arrivals)
    requires renaming.Keys == values.Keys && Numbered(base, newBoxes, renaming)
    requires newValues.Keys == renaming.Values && forall b <- renaming :: newValues[renaming[b]] == values[b]
    ensures AllMean(Moved(originalOf, renaming), newValues, declared, Moved(arrivals, renaming))
    ensures forall b <- renaming :: renaming[b] in Moved(originalOf, renaming)
              && Moved(originalOf, renaming)[renaming[b]] == originalOf[b]
  {
    hide BoxMeaning, Numbered;
    MovedTo(originalOf, renaming, base, newBoxes);
    MovedTo(arrivals, renaming, base, newBoxes);
  }

  lemma EntryCopied(entry: seq<ModifiableBox>, boxes: set<ModifiableBox>, base: nat, newBoxes: map<nat, ModifiableBox>,
                    renaming: Renaming)
    requires NoRepeats(entry) && (forall b <- entry :: b in boxes)
    requires renaming.Keys == boxes && Numbered(base, newBoxes, renaming)
    ensures NoRepeats(Renamed(entry, renaming))
    ensures forall n <- Renamed(entry, renaming) :: n in renaming.Values
  {
    var copied := Renamed(entry, renaming);
    forall i | 0 <= i < |entry| ensures entry[i] in renaming && copied[i] == renaming[entry[i]] {
      assert entry[i] in entry;
    }
  }

  /** Copies an index entry by entry. */
  method CloneIndex(index: map<Simple, seq<ModifiableBox>>, base: nat, ghost values: map<ModifiableBox, SelectorList>)
    returns (copies: map<Simple, seq<ModifiableBox>>, maxID: nat, oldToNew: map<SelectorList, ModifiableBox>,
             ghost newBoxes: map<nat, ModifiableBox>, ghost renaming: Renaming)
    requires DistinctIDs(values.Keys) && IndexOver(index, values.Keys) && forall b <- values :: b.value == values[b]
    ensures Mirrors(index, index.Keys, copies, renaming)
    ensures Numbered(base, newBoxes, renaming) && Holds(renaming, values) && maxID == LastID(base, |newBoxes|)
    ensures LeadsToCopies(oldToNew, renaming, values)
    ensures fresh(renaming.Values)
  {
    hide Numbered, Mirrors, Holds, LeadsToCopies, Renamed, Members, LastID, DistinctIDs, IndexOver;
    var allBoxes: map<nat, ModifiableBox> := map[];
    var pending := index.Keys;
    copies, maxID, oldToNew, renaming := map[], 0, map[], map[];
    NothingCopied(index, base, values);
    assert index.Keys - pending == {};
    while pending != {}
      invariant pending <= index.Keys && Mirrors(index, index.Keys - pending, copies, renaming)
      invariant Numbered(base, allBoxes, renaming) && Holds(renaming, values) && maxID == LastID(base, |allBoxes|)
      invariant LeadsToCopies(oldToNew, renaming, values)
      invariant forall b <- renaming :: fresh(renaming[b])
      decreases |pending|
    {
      var simple :| simple in pending;
      ghost var done, before, mirrored := index.Keys - pending, renaming, copies;
      pending := pending - {simple};
      EntryOf(index, values, simple);
      var entry;
      entry, allBoxes, maxID, oldToNew, renaming :=
        CloneEntry(index[simple], base, allBoxes, maxID, oldToNew, values, before);
      MirrorsMore(index, done, mirrored, before, simple, entry, renaming);
      copies := copies[simple := entry];
      assert done + {simple} == index.Keys - pending;
    }
    assert index.Keys - {} == index.Keys;
    newBoxes := allBoxes;
  }

  /** The new IDs are above every old one and at most the last one given. */
  lemma NewIDs(base: nat, newBoxes: map<nat, ModifiableBox>, renaming: Renaming)
    requires Numbered(base, newBoxes, renaming)
    requires DistinctIDs(renaming.Keys) && forall b <- renaming :: b.id < base
    ensures DistinctIDs(renaming.Keys + renaming.Values) && DistinctIDs(renaming.Values)
    ensures forall n <- renaming.Values :: base < n.id <= LastID(base, |newBoxes|)
  {}

  /**
   Copies a store. The copy mirrors the original through an injective renaming to
   new boxes; IDs stay distinct and below the next one in both; nothing is shared
   that either store changes, and the original is left as it was.
   */
  method Clone(store: ExtensionStore)
    returns (clone: ExtensionStore, oldToNew: map<SelectorList, ModifiableBox>, ghost renaming: Renaming)
    requires store.Valid()
    ensures fresh(clone) && clone.Valid()
    ensures renaming.Keys == store.originalOf.Keys && renaming.Values == clone.originalOf.Keys
    ensures fresh(renaming.Values) && DistinctIDs(store.originalOf.Keys + clone.originalOf.Keys)
    ensures Holds(renaming, store.Values())
    ensures forall b <- renaming :: clone.originalOf[renaming[b]] == store.originalOf[b]
    ensures Mirrors(store.selectors, store.selectors.Keys, clone.selectors, renaming)
    ensures LeadsToCopies(oldToNew, renaming, store.Values())
    ensures clone.extensions == store.extensions && clone.extensionsByExtender == store.extensionsByExtender
    ensures clone.sourceSpecificity == store.sourceSpecificity && clone.originals == store.originals
    ensures clone.declared == store.declared && clone.arrivals == Moved(store.arrivals, renaming)
  {
    hide ExtensionStore.Valid, ExtensionStore.Values;
    hide Numbered, Mirrors, LeadsToCopies, LastID, Holds, AllIndexed, AllMean, IndexOver, DistinctIDs, Moved;
    ghost var values := store.Values();
    PartsOf(store);
    var copies, maxID;
    ghost var newBoxes;
    copies, maxID, oldToNew, newBoxes, renaming := CloneIndex(store.selectors, store.nextBoxID, values);
    AllListed(store.selectors, values, copies, renaming);
    assert renaming.Keys == values.Keys by {
      HoldsKnown(renaming, values);
    }
    NewIDs(store.nextBoxID, newBoxes, renaming);
    ghost var newValues := CopiedValues(renaming, values);
    CopiesAreIndexed(store.selectors, values, store.nextBoxID, newBoxes, renaming, copies, newValues);
    CopiesMeanTheSame(store.originalOf, values, store.declared, store.nextBoxID, newBoxes, renaming, newValues,
                      store.arrivals);
    clone := Assemble(store, copies, maxID + 1, Moved(store.originalOf, renaming), Moved(store.arrivals, renaming));
    MovedKeys(store.originalOf, renaming);
    AssembledIsValid(clone, store, newValues);
  }

  lemma MovedKeys<V>(known: map<ModifiableBox, V>, renaming: Renaming)
    requires renaming.Keys <= known.Keys
    ensures Moved(known, renaming).Keys == renaming.Values
  {}

  lemma HoldsKnown(renaming: Renaming, values: map<ModifiableBox, SelectorList>)
    requires Holds(renaming, values)
    ensures renaming.Keys <= values.Keys
  {}

  ghost function CopiedValues(renaming: Renaming, values: map<ModifiableBox, SelectorList>)
    : (copied: map<ModifiableBox, SelectorList>)
    requires Holds(renaming, values)
    reads renaming.Values
    ensures copied.Keys == renaming.Values
    ensures forall b <- renaming :: copied[renaming[b]] == values[b]
    ensures forall n <- copied :: copied[n] == n.value
  {
    var copied := map n | n in renaming.Values :: CopiedValue(renaming, n);
    assert forall b <- renaming :: renaming[b] in renaming.Values;
    copied
  }

  ghost function CopiedValue(renaming: Renaming, copy: ModifiableBox): SelectorList
    requires copy in renaming.Values
    reads renaming.Values
  {
    copy.value
  }

  lemma PartsOf(store: ExtensionStore)
    requires store.Valid()
    ensures store.Values().Keys == store.originalOf.Keys == store.arrivals.Keys
    ensures forall b <- store.Values() :: store.Values()[b] == b.value && b.id < store.nextBoxID
    ensures IndexOver(store.selectors, store.Values().Keys) && DistinctIDs(store.Values().Keys)
    ensures AllIndexed(store.selectors, store.Values())
    ensures AllMean(store.originalOf, store.Values(), store.declared, store.arrivals)
  {
    assert store.arrivals.Keys == store.originalOf.Keys;
    hide IndexOver, DistinctIDs, AllIndexed, AllMean, RulesShape, RulesOf, Follows, ChainFree;
    assert store.Values().Keys == store.originalOf.Keys;
  }

  lemma AssembledIsValid(clone: ExtensionStore, store: ExtensionStore, values: map<ModifiableBox, SelectorList>)
    requires store.Valid() && clone.declared == store.declared
    requires clone.extensions == store.extensions && clone.extensionsByExtender == store.extensionsByExtender
    requires values.Keys == clone.originalOf.Keys
    requires forall b <- values :: values[b] == b.value && b.id < clone.nextBoxID
    requires IndexOver(clone.selectors, values.Keys) && DistinctIDs(values.Keys) && AllIndexed(clone.selectors, values)
    requires AllMean(clone.originalOf, values, clone.declared, clone.arrivals)
    ensures clone.Valid()
  {
    hide IndexOver, DistinctIDs, AllIndexed, AllMean, RulesShape, RulesOf, Follows, ChainFree;
    assert clone.Values() == values;
  }

  /** A new store with its own index and everything else as in `store`. */
  method Assemble(store: ExtensionStore, selectors: map<Simple, seq<ModifiableBox>>, nextBoxID: nat,
                  ghost originalOf: map<ModifiableBox, SelectorList>, ghost arrivals: map<ModifiableBox, Arrivals>)
    returns (clone: ExtensionStore)
    ensures fresh(clone)
    ensures clone.selectors == selectors && clone.nextBoxID == nextBoxID && clone.originalOf == originalOf
    ensures clone.extensions == store.extensions && clone.extensionsByExtender == store.extensionsByExtender
    ensures clone.sourceSpecificity == store.sourceSpecificity && clone.originals == store.originals
    ensures clone.declared == store.declared && clone.arrivals == arrivals
  {
    hide *;
    clone := new ExtensionStore();
    clone.selectors, clone.nextBoxID, clone.originalOf := selectors, nextBoxID, originalOf;
    clone.extensions, clone.extensionsByExtender := store.extensions, store.extensionsByExtender;
    clone.sourceSpecificity, clone.originals := store.sourceSpecificity, store.originals;
    clone.declared, clone.arrivals := store.declared, arrivals;
  }

  lemma NothingCopied(index: map<Simple, seq<ModifiableBox>>, base: nat, values: map<ModifiableBox, SelectorList>)
    ensures Mirrors(index, {}, map[], map[]) && Numbered(base, map[], map[]) && LeadsToCopies(map[], map[], values)
    ensures LastID(base, 0) == 0 && Holds(map[], values)
  {}

  lemma EntryOf(index: map<Simple, seq<ModifiableBox>>, values: map<ModifiableBox, SelectorList>, s: Simple)
    requires IndexOver(index, values.Keys) && s in index
    ensures NoRepeats(index[s]) && forall b <- index[s] :: b in values
  {}

  ghost predicate Apart(store: ExtensionStore, other: ExtensionStore)
    reads store`originalOf, other`originalOf
  {
    store != other && store.originalOf.Keys !! other.originalOf.Keys
  }

  /** However `store` is used later, a store apart from it keeps its maps and the values of its boxes. */
  method RunOneOfTwo(store: ExtensionStore, other: ExtensionStore, ops: seq<Op>)
    requires store.Valid() && other.Valid() && Apart(store, other)
    requires forall op <- ops :: op.Parsed()
    modifies store, store.originalOf.Keys
    ensures store.Valid() && other.Valid() && Apart(store, other)
    ensures store.declared == old(store.declared) + DeclaredIn(ops)
    ensures unchanged(other) && unchanged(other.originalOf.Keys)
    ensures other.Values() == old(other.Values())
  {
    hide ExtensionStore.Valid, ExtensionStore.Values, DeclaredIn, ListsIn, HandedOut;
    NothingRun(ops);
    NoneHandedOut(store.originalOf);
    for i := 0 to |ops|
      invariant store.Valid() && Apart(store, other)
      invariant store.declared == old(store.declared) + DeclaredIn(ops[..i])
      invariant unchanged(other) && unchanged(other.originalOf.Keys)
      invariant fresh(store.originalOf.Keys - old(store.originalOf.Keys))
    {
      OneMore(ops, i);
      NoneHandedOut(store.originalOf);
      assert ops[i].Parsed();
      var boxes := Step(store, ops[i], [], []);
    }
    assert ops[..|ops|] == ops;
  }

  lemma NoneHandedOut(originalOf: map<ModifiableBox, SelectorList>)
    ensures HandedOut([], [], originalOf)
  {}

  /** A store and its copy go separate ways: each ends with its own rules only. */
  method CloneThenDiverge(store: ExtensionStore, ops: seq<Op>, cloneOps: seq<Op>) returns (clone: ExtensionStore)
    requires store.Valid() && (forall op <- ops :: op.Parsed()) && forall op <- cloneOps :: op.Parsed()
    modifies store, store.originalOf.Keys
    ensures store.Valid() && store.declared == old(store.declared) + DeclaredIn(ops)
    ensures fresh(clone) && clone.Valid() && clone.declared == old(store.declared) + DeclaredIn(cloneOps)
    ensures Apart(store, clone)
  {
    hide ExtensionStore.Valid, ExtensionStore.Values, DeclaredIn, ListsIn, HandedOut;
    hide Numbered, Mirrors, LeadsToCopies, Holds, DistinctIDs;
    var oldToNew;
    ghost var renaming;
    clone, oldToNew, renaming := Clone(store);
    RunOneOfTwo(clone, store, cloneOps);
    RunOneOfTwo(store, clone, ops);
  }
}
