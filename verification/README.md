# A verified model of the Sass compiler's core protocols

Dafny models of the parts of this Go port of the Sass compiler whose behaviour is
hardest to see from the code, with proofs of what they guarantee. Each module
models one component; every theorem is about all inputs, all runs or all
reachable states.

**`@extend`** (`Selectors`, `Extensions`, `MandatoryUses`, `ExtendEngine`,
`ExtendStrict`, `Trim`, `ExtendRuns`, `ExtendOrder`, `ExtendSafety`, `Expansion`,
`StoreFacts`, `StoreEntries`, `ExtensionStores`, `StoreRuns`, `StoreClone`,
`StoreMerge`). The store is a class
whose methods update its maps and rewrite its boxes in place. An element is the set
of simple selectors it satisfies, with at most one ID and one type; a rewritten list
must match exactly what the old list matched once an element also counts as
everything some extender lets it stand in for. That is proved for one rewriting, for
every step of the store, and for whole runs. Rules are *chained* when the target of
one occurs in the extender of another.

- Without chains a box matches an element exactly when the rules, in the order they
  arrived, can *supply* the simple selectors it lacks of a member of the list: each is
  the target of a rule whose extender the element matches, and no such extender has
  another ID or type than what a later rule supplies (`MatchesWhatIsSupplied`).
  Otherwise the compound has two IDs or types when the earlier rule is applied, and is
  dropped although the later rule would have replaced one of them.
- So a box is exact, that is, means its list under all declared rules at once, if and
  only if whatever the rules could supply together is supplied (`ExactWhenSupplied`),
  and `EveryListWhenSupplied` says for which arrivals that is so for every list.
- A rule `z {@extend u}` *spoils* `y {@extend t}` if `u` is an ID or a type and `y` has
  another one of its kind, some element matches `y` and `z`, and `t` and `u` can stand
  in one selector. A box is exact if no later rule spoils an earlier one; and whenever
  one rule spoils another, the list of `t` and `u` is lost under these two
  (`LateRuleIsLost`).
- Rules are *order-safe* if for every rule that others may spoil there is one for the
  same target that they do not. Then the order of operations does not matter; and for
  every other set of rules two orders of the very same operations give different boxes
  (`UnsafeRulesMakeOrderMatter`).
- Trimming drops only what another candidate covers that is at least as specific as
  anything it was written with, and up to 100 candidates leaves nothing but originals
  that could still go.
- With chains a box never matches more than its list on elements that already
  satisfy every declared rule, and never less than its list.
- `MergeExtensions` does not keep the mandatory rules of an operand that is itself
  a media-free merge; `MergeKeepsMandatoryRules` says exactly when it does, and
  `MeldedUses` which of any number of uses are left.
- `RotateSlice` follows the code: it moves the last element of the range to the
  front, where the comment above the Go function says the opposite.

**Import cache** (`ImportCaches`). An importer either answers outright or after
reading the URL of the stylesheet that does the load. The cache answers as if the
importers had been run without it, provided every load carries a base URL whose
resolution is canonical for the base importer, and no weaker condition on the load
will do. Both exceptions are real: a base-importer hit that read the containing URL
is dropped, and a load without a base URL is remembered although another load site
contradicts it. What running the importers comes to is said without the code that
does it (`UncachedIsDecided`). Clearing a canonical URL makes both tiers right again
for importers that changed only where they could have produced that URL.

**Isolate dispatcher** (`IsolateDispatcher`, `DispatcherProgress`,
`DispatcherDelivery`). A machine of atomic steps: lock regions, token acquire and
release, and the hand-over of messages between goroutines, with a host that answers
each request once and reuses an ID only after its response. The invariant gives token conservation, the split of isolates
into active and inactive, and the absence of cross-talk and stale completions. The
dispatcher never deadlocks while a compilation is open and not all tokens belong to
compilations that wait for the host, and whatever a compilation says reaches the host
once and in order (`EverythingIsDelivered`).

**Modules** (`ModuleLoading`, `ModuleGraphs`, `ModuleEntries`, `ExtendModules`,
`ExtensionReach`, `UnsatisfiedReports`, `RepeatedUses`, `ModuleExtensions`,
`RejectedPrograms`). Loading with loop detection and evaluate-once, putting the CSS
together depth first, passing extensions from each module to what it uses, where they
end up, and when a program is rejected for an `@extend` whose target is not found.

- What a program means is the list of its modules in the order of evaluation, or the
  first thing that goes wrong (`Meaning`); the loader computes it, and
  `ConfiguredTooLate` says when a module that was used before is refused a
  configuration.
- The combined CSS is told from the graph (`Arranged`): as a multiset, the statements
  of the modules and their comments as often as they are due, and where each block
  stands.
- What a store keeps for a rule in the end is what merging the extensions that arrive
  there leaves, told from what all stores kept before and from who uses whom
  (`PassedOnEnds`); so is whether a program is rejected (`ExtendAll`).
- A mandatory use whose target is known nowhere it gets to is always reported
  (`UnknownIsReported`). As long as merging loses no use on the way nothing else is
  (`ReportedExactly`), and it loses none where at most two mandatory uses of a rule come
  to any module, counted along all paths, and no optional one (`FewLoseNothing`).
- Beyond that the code rejects programs all of whose targets are found, contrary to the
  comments above `MergedExtension` and `throwForUnsatisfiedExtension`. Some modules each
  declare the same mandatory rule and use one that has its target: if there are three or
  more, all uses but the last one or two are reported (`ThirdRepeatIsReported`).
  `RejectThree` is the program with three.

**Wire formats** (`Varints`, `Framing`, `Protofiers`). Varints as in the Protocol
Buffers encoding guide, "Base 128 Varints"; length-delimited packets; compilation
IDs; and Sass values with the registries that keep lists, functions and mixins.

**Configurations** (`ConfigurationViews`), **arguments** (`Arguments`),
**`@at-root`** (`AtRoot`) and **package export patterns** (`ExportPatterns`, after
PATTERN_KEY_COMPARE in the resolution algorithm of the Node.js ECMAScript modules
documentation).

`Wrappers` holds the option type and `Collections` a few facts about sequences and
sets. `dafny verify dfyconfig.toml` checks everything.

## Model

| member | source | states |
|---|---|---|
| `Selectors.UnifySimpleMeaning` | value/selector_extend_functions.go:28-215 | merging a simple selector into a compound matches exactly the elements both match; it fails only when no element with at most one ID and one type matches both |
| `Selectors.UnifyCompoundMeaning` | value/selector_extend.go:157-204 | the same for two compounds, folded one simple selector at a time |
| `Selectors.InsertedBeforePseudos` | value/selector_extend_functions.go:28-58 | the new simple selector goes right before the first pseudo-class, with everything else as it was |
| `Selectors.UnifyCompoundOrder` | value/selector_extend.go:157-204 | unifying leaves the first compound in its order, up to `*` and what the second one has too, and pseudo-classes behind everything else |
| `Selectors.UnifyComplexMeaning` | value/selector_extend.go:43-147 | unifying a list of single compounds gives exactly the elements all of them match; failure means no consistent element does |
| `Selectors.UnifyComplexAlone` | value/selector_extend.go:43-147 | it succeeds whenever some element, consistent or not, matches all of them and has no other ID or type than those of each one after the first |
| `Selectors.UnifyComplexApart` | value/selector_extend.go:43-147 | and only when no ID or type of those after the first clashes with any other |
| `Selectors.SuperselectorMatches` | value/selector_extend.go:1114-1222 | whatever a compound matches, its superselector matches |
| `Selectors.SuperselectorExactly` | value/selector_extend.go:1114-1136 | it is one exactly if it is no longer and matches whatever the other one matches |
| `Selectors.SpecificityWeighs` | value/selector_complex.go:143-150 | a million for each ID, one for each type, nothing for `*`, and a thousand for everything else |
| `Selectors.PrivateNames` | value/selector_extend_functions.go:365-376 | private are exactly the placeholders whose names start with a dash or an underscore |
| `Selectors.SuperselectorTransitive` | value/selector_extend.go:1114-1222 | the superselector relation is transitive, which trimming relies on |
| `Extensions.MergesTheSame` | extend/extension_merged.go:40-121 | two extensions merge exactly if extender and target are equal and their media contexts do not differ; the result is for the same, in the one context there is |
| `Extensions.MergeKeepsMandatoryRules` | extend/extension_merged.go:40-121 | the leaves of a merge are exactly the mandatory rules of both operands if and only if no operand that is dropped or hidden is itself a media-free merge |
| `Extensions.ThirdRepeatDropsTwo` | extend/extension_merged.go:89-108 | the failing case: repeating one mandatory rule a third time leaves one of the three |
| `Extensions.StoredHoldsAtMostTwo` | extend/extension_merged.go:40-121 | however often a rule is repeated, an entry of a store stands for at most two mandatory uses of it |
| `MandatoryUses.MeldsIntoUses` | extend/extension_merged.go:40-121 | merging any number of extensions for one rule in turn leaves the last of an odd number of single mandatory uses, a merge of the last two of an even number, and without any the first extension |
| `MandatoryUses.MeldedUses` | extend/extension_merged.go:89-121 | so the mandatory uses an entry stands for in the end are the last one or two of the single ones that came in, and those of a merge only if there is no single one |
| `MandatoryUses.FewSurvive` | extend/extension_merged.go:89-121 | at most two mandatory uses, with no optional one among what is merged, all survive |
| `ExtendEngine.PathsAreProduct` | value/selector_extend.go:793-808 | the paths through the options are exactly the selections of one option per position |
| `ExtendEngine.LastChangesSlowest` | value/selector_extend.go:793-808 | and they come in order: the option of the last position changes slowest |
| `ExtendEngine.OptionsMeaning` | extend/default_extension_store.go:900-1000 | all option lists of a compound can be met by an element exactly when the element, with the targets it may stand in for, matches the compound; the same if extenders have to be alone with their IDs and types |
| `ExtendEngine.UnifyExtendersMeaning` | extend/default_extension_store.go:1341-1402 | the unification of one path matches exactly what every extender on it matches, and exists if some element matches them all with the registered ones alone in it |
| `ExtendEngine.CandidatesMeaning` | extend/default_extension_store.go:900-1039 | one extended compound matches an element only if the compound matches the element plus every target with an extender that matches it, and does so if extenders alone with their IDs and types suffice, as they always do for consistent elements; the compound itself is the first candidate |
| `ExtendEngine.ConsistentStandsAlone` | extend/default_extension_store.go:1341-1402 | on a consistent element every extender it matches is alone, so the two readings agree |
| `ExtendEngine.ListCandidatesMeaning` | extend/default_extension_store.go:719-768 | the same for a whole list, which also keeps matching all it matched |
| `ExtendStrict.ListCandidatesStrict` | extend/default_extension_store.go:719-768 | the exact other half: a candidate matches an element only if the list matches part of it plus the targets of extenders alone in that part |
| `Expansion.PathsOf` | value/selector_extend.go:793-808 | the nested loops compute the product in order |
| `Expansion.ExtendCompound` | extend/default_extension_store.go:900-1039 | a compound without targets is left alone; otherwise the result is drawn from its candidates, covers them all, and starts with the compound itself in an original selector; with one option list it is the candidates; otherwise only candidates that another, specific enough one covers are gone, and up to 100 candidates none is left that could be |
| `Trim.RotateSlice` | extend/default_extension_store.go:1552-1561 | the in-place swaps move the last element of the range to its front and shift the others right; a range that does not fit changes nothing |
| `Trim.SourceSpecificity` | extend/default_extension_store.go:1482-1490 | the result is an upper bound of the recorded specificities, and is reached or zero |
| `Trim.TrimSelectors` | extend/default_extension_store.go:1413-1478 | the survivors come from the input; every input is covered by a survivor; every original has an equal survivor; whatever has none is covered by another input that is at least as specific as anything it was written with; up to 100 inputs no other survivor could be replaced by a remaining one; beyond that nothing is dropped; without a repeated original the order is kept, and a leading original stays in front |
| `ExtendRuns.TrimmedCandidatesExtend` | extend/default_extension_store.go:758-768 | whatever trimming keeps, the rewritten list is the old one extended by exactly the rules |
| `ExtendRuns.AugmentTwice` | extend/default_extension_store.go:241-335 | without chains, letting an element stand in for new targets and then for old ones is the same as for all of them at once |
| `ExtendRuns.SoundStep` | extend/default_extension_store.go:241-335 | applying new rules to an already extended list never matches more than all rules together allow |
| `ExtendRuns.AtLeastStep` | extend/default_extension_store.go:241-335 | and it always matches what the list means when the new rules come after the old ones |
| `ExtendRuns.AtMostStep` | extend/default_extension_store.go:241-335 | without chains it matches nothing else, on every element whose matched extenders are sensible |
| `ExtendOrder.MeansIsSuppliable` | extend/default_extension_store.go:241-335 | what rules arriving one after another make of a list, without them: a consistent element is matched exactly when rules whose extenders it matches can supply what it lacks of a member, none of whose extenders has another ID or type than a later one supplies |
| `ExtendOrder.EveryListWhenSupplied` | extend/default_extension_store.go:241-335 | arrivals lose nothing of any list exactly when nothing is lost of the lists made of their own targets, on the elements made of their extenders |
| `ExtendSafety.TimelySupplies` | extend/default_extension_store.go:241-335 | nothing is lost when no rule spoils an earlier one |
| `ExtendSafety.SpoiltIsLost` | extend/default_extension_store.go:514-554 | of two rules of which the later spoils the earlier, the earlier is lost on a list of both targets |
| `ExtendSafety.NoneSpoiledIsOrderSafe` | extend/default_extension_store.go:241-335 | rules of which none spoils another are order-safe |
| `ExtendSafety.OrderSafeSupplies` | extend/default_extension_store.go:241-335 | with order-safe rules nothing is lost, however they arrive |
| `ExtendSafety.NotMadeUpForIsLost` | extend/default_extension_store.go:514-554 | if nothing makes up for a contested rule, its target is lost when its rules come before all others |
| `ExtendRuns.ClosedStep` | extend/default_extension_store.go:438-508 | rules that follow from declared ones never let a list match a new element that already satisfies every declared rule, chains or not |
| `StoreFacts.BoxStep` | extend/default_extension_store.go:514-554 | carries what a box means over one more rewriting |
| `ExtensionStores.ExtensionStore.ExtendComplex` | extend/default_extension_store.go:781-883 | a single-component selector is rewritten when it mentions a target, trimmed by the specificities the store has recorded; the copy of an original comes first and is the only new original |
| `ExtensionStores.ExtensionStore.ExtendList` | extend/default_extension_store.go:719-768 | a list without targets is returned as it is, the very same object; otherwise the result is a trimming of the candidates that keeps an equal of every original; each candidate that is gone is covered by another one that is at least as specific as anything it was written with, and up to 100 candidates no other than an original is left that could be replaced |
| `ExtensionStores.ExtensionStore.RegisterSelector` | extend/default_extension_store.go:209-231 | afterwards exactly the simple selectors of the list lead to the box as well, each listing it once |
| `ExtensionStores.ExtensionStore.AddSelector` | extend/default_extension_store.go:164-204 | the list goes into a new box with the next ID, extended by everything registered and so, without chains, exact, and trimmed only of what had a specific enough replacement; a visible list keeps an equal of each of its members there; every simple selector of every box still leads to its box |
| `ExtensionStores.ExtensionStore.AddExtension` | extend/default_extension_store.go:241-335 | every box keeps its meaning, with the new rules arrived last, and its index, matches all that the new rules for the target let it match, and loses only what had a specific enough replacement; every simple selector of an extender with a new rule is recorded with the specificity of the first one it was in |
| `ExtensionStores.ExtensionStore.DeclareAndApply` | extend/default_extension_store.go:241-335 | the rules are recorded; every extender that mentions the target gets its variants; every box is rewritten as far as it mentions the target, with exactly the new rules for it |
| `ExtensionStores.ExtensionStore.RecordExtension` | extend/default_extension_store.go:260-293 | a repeated extender is merged and not reported again; a new one is filed, indexed by its simple selectors and remembered with its specificity; either way the entry of the rule is merged with one new extension and all others stay |
| `ExtensionStores.ExtensionStore.ExtendExistingExtensions` | extend/default_extension_store.go:438-508 | every existing extender that mentions a new target gets its variants; no registered rule goes beyond what follows from the earlier ones; exactly the new rules for the new targets are returned; what is kept for a rule is merged with the variants made for it |
| `ExtensionStores.ExtensionStore.ExtendExistingSelectors` | extend/default_extension_store.go:514-554 | exactly the given boxes are rewritten, trimmed only of what had a specific enough replacement, and what is new in them is indexed |
| `ExtensionStores.MeaningStep` | extend/default_extension_store.go:514-554 | every box means the same as before with one more arrival |
| `ExtensionStores.RegisterKeepsIndexed` | extend/default_extension_store.go:209-231 | indexing one box leaves every box indexed under everything its value mentions |
| `StoreRuns.Replay` | extend/default_extension_store.go:164-335 | for every interleaving of selectors and extensions each box keeps matching what its list matched, equals it on elements closed under the rules, and without chains matches only what the rules allow and exactly what its list means as the rules arrived |
| `StoreRuns.MatchesWhatIsSupplied` | extend/default_extension_store.go:164-335 | that is: every consistent element for which the rules, in the order they arrived, can supply what it lacks of a member of the list |
| `StoreRuns.ExactWhenSupplied` | extend/default_extension_store.go:164-335 | so a box means exactly its list under all declared rules if and only if everything the rules could supply together is supplied |
| `StoreRuns.OrderSafeIsExact` | extend/default_extension_store.go:164-335 | with order-safe rules every box is exact, whatever the order |
| `StoreRuns.ReplayInTwoOrders` | extend/default_extension_store.go:164-335 | two orders of the same operations leave boxes that match the same elements, given chain-free order-safe rules |
| `StoreRuns.ExactWithoutChains` | extend/default_extension_store.go:164-335 | a box is exact if no rule that arrived later spoils an earlier one |
| `StoreRuns.SameOnClosed` | extend/default_extension_store.go:164-335 | chains or not, box and list match the same elements among those the rules add nothing to |
| `StoreRuns.LateRuleIsLost` | extend/default_extension_store.go:514-554 | for any two chain-free rules `y {@extend t}` and `z {@extend u}` of which the second spoils the first, the list of both targets under exactly these rules, the list before or after the first, ends as a box that is not exact |
| `StoreRuns.UntimelyRulesLoseMeaning` | extend/default_extension_store.go:514-554 | whenever an arrival spoils an earlier one, two of these very rules alone leave a box that is not exact |
| `StoreRuns.UnsafeRulesMakeOrderMatter` | extend/default_extension_store.go:514-554 | for every chain-free set of rules that is not order-safe, two orders of operations that declare exactly these rules leave boxes for the same list that match different elements |
| `StoreClone.Clone` | extend/default_extension_store.go:667-711 | the copy mirrors index, values and extensions through a renaming to new boxes; all IDs are distinct and below the next one in both stores; the original is unchanged |
| `StoreClone.CloneIndex` | extend/default_extension_store.go:674-695 | each entry of the copied index is the old entry box by box, each old box copied once |
| `StoreClone.RunOneOfTwo` | extend/default_extension_store.go:667-711 | whatever operations are run on one of two separate stores, the maps and boxes of the other stay unchanged |
| `StoreClone.CloneThenDiverge` | extend/default_extension_store.go:667-711 | a store and its copy end with their own rules only |
| `StoreMerge.AddExtensions` | extend/default_extension_store.go:563-661 | exactly the rules with public targets of the other stores are taken in and count as declared; they arrive at every box, which matches all they allow and keeps its meaning; only boxes that mention an imported target are rewritten; every extender that mentions one gets its variants; what is kept for a rule is merged, in order, with what the stores keep for it and then with the variants; the last store that has extensions and knows a simple selector decides its specificity |
| `StoreMerge.AddTargets` | extend/default_extension_store.go:580-643 | one other store: its private targets are skipped, all other rules registered, and the boxes and extenders mentioning a target gathered |
| `StoreMerge.GatheredMeans` | extend/default_extension_store.go:580-643 | what is gathered: every imported rule whose target a selector or an extender mentions, every box that mentions one, and exactly the extensions whose extenders do |
| `StoreMerge.GatheredBoxesExtend` | extend/default_extension_store.go:645-661 | rewriting only the gathered boxes extends every box |
| `ImportCaches.CanonicalizeWith` | eval/import_cache.go:594-633 | runs the importer once: a miss is a miss, an error or a URL with a non-canonical scheme is an error, and any other URL is the canonical one, with the importer and the URL it was asked for; the result counts as shareable exactly when there is no base URL or the importer did not have to look at it |
| `ImportCaches.UncachedIsDecided` | eval/import_cache.go:477-582 | without the cache the first importer with an answer decides: the base importer on the resolved URL if the load is relative, then the chain on the URL as it is; each sees the URL of the load site only for URLs that are relative or non-canonical for it |
| `ImportCaches.DecidedOnce` | eval/import_cache.go:477-582 | and that leaves one outcome |
| `ImportCaches.AskImporter` | eval/importer_canonicalize_context.go:51-62 | the access flag is set exactly when the importer read the containing URL |
| `ImportCaches.ImportCache.CanonicalizeInChain` | eval/import_cache.go:512-582 | the answer is that of the first importer of the chain that has one; a cache that is right from every load site stays so; a chain that nobody looks out of is remembered as a whole, and otherwise the misses before the first importer that looks are |
| `ImportCaches.ImportCache.Canonicalize` | eval/import_cache.go:477-582 | from a right cache the answer is what the importers say, base importer first, except that a base-importer hit that read the containing URL is dropped; what may be shared is remembered and nothing is forgotten |
| `ImportCaches.AnchoredIsUncached` | eval/import_cache.go:480-511 | on loads with a base URL whose resolution is canonical for the base importer nothing is dropped |
| `ImportCaches.ChainContextFreeAnywhere` | eval/import_cache.go:594-633 | a chain in which every consulted importer ignores the containing URL answers the same from everywhere |
| `ImportCaches.ImportCache.ClearCanonicalize` | eval/import_cache.go:804-821 | exactly the affected entries are forgotten, and the rest is right for importers that changed only where they say they could |
| `ImportCaches.Run` | eval/import_cache.go:477-821 | in any run of anchored loads and cleared changes, every outcome is the uncached one, and so what the importers say, under the behaviour of that moment |
| `ImportCaches.UnanchoredLosesHit` | eval/import_cache.go:500-511 | for every relative load that is not anchored, with the schemes and the resolution of URLs as they are, there are importers for which the cache answers differently |
| `ImportCaches.AnchoringDecides` | eval/import_cache.go:480-511 | so a load with an absolute base URL is answered as without a cache, whatever the importers, if and only if it is anchored |
| `ImportCaches.NilBaseIsRemembered` | eval/import_cache.go:595-610 | a load without a base URL caches an answer that another load site contradicts |
| `IsolateDispatcher.StepKeepsInv` | embedded/isolate_dispatcher.go:132-252 | every atomic step of packet handlers, isolates and drains keeps the invariant |
| `IsolateDispatcher.TokensAreConserved` | embedded/isolate_dispatcher.go:187-252 | in every reachable state tokens in use are active compilations plus handlers about to activate plus completions about to release; at most 15 compilations are active and 15 isolates exist; no borrow, release or token return ever fails or blocks |
| `IsolateDispatcher.IsolatesSplit` | embedded/isolate_dispatcher.go:205-246 | isolates are exactly the active ones, each borrowed for one compilation, and the inactive ones, not borrowed |
| `IsolateDispatcher.NobodyElsesMessage` | embedded/reusable_isolate.go:133-155 | whatever reaches the host was handled by the callback of the borrow that produced it, under its compilation ID |
| `DispatcherDelivery.EverythingIsDelivered` | embedded/isolate_dispatcher.go:227-250 | in every reachable state what a compilation has said is what the host has been sent of it, in order, followed by what is in the drain of its isolate and what its worker is sending: nothing is lost, doubled or overtaken, logs included |
| `DispatcherDelivery.QuietMeansDelivered` | embedded/isolate_dispatcher.go:227-250 | once nothing is being sent the host has been sent all that was ever said |
| `IsolateDispatcher.CompletionIsNotStale` | embedded/isolate_dispatcher.go:227-250 | when a completion is written its ID is no longer active, no packet for it is on the way, and the host has not reused it |
| `IsolateDispatcher.PacketIsExpected` | embedded/compilation_dispatcher.go:97-170 | an isolate always gets a compile request when idle and a reply to the compilation that asked when waiting |
| `IsolateDispatcher.StartIsFresh` | embedded/isolate_dispatcher.go:205-226 | the second look under the lock never finds the compilation already active |
| `IsolateDispatcher.HandlerIsOwn` | embedded/compilation_dispatcher.go:638-654 | the message being written carries the ID and borrow of the handler that writes it |
| `DispatcherProgress.StepKeepsBusy` | embedded/isolate_dispatcher.go:132-252 | after every step each compilation the host waits for is with a packet handler, with its isolate, or with the drain that ends it |
| `DispatcherProgress.FullCanStep` | embedded/isolate_dispatcher.go:200-206 | with all tokens taken, and not all of them by compilations that wait for the host, one of their holders can go on |
| `DispatcherProgress.NeverStuck` | embedded/isolate_dispatcher.go:101-252 | in every reachable state in which some compilation does not wait for the host and fewer than 15 do, the dispatcher can take a step: it never deadlocks |
| `DispatcherProgress.HostIsHeard` | embedded/isolate_dispatcher.go:101-131 | the host can always start a compilation under a free ID and answer one that asks |
| `DispatcherProgress.AnythingMayBeSaid` | embedded/compilation_dispatcher.go:638-654 | a running compilation can log, ask, end or fail at any time |
| `ModuleGraphs.IndexAfterImports` | eval/evaluate.go:673-687 | the scan finds where the leading imports end |
| `ModuleGraphs.LeadingImportsEnd` | eval/evaluate.go:673-687 | everything before that point is imports and comments ending in an import, and any later import comes after something else |
| `ModuleGraphs.Combiner.Visit` | eval/evaluate.go:594-635 | on an acyclic graph a visit adds exactly what can be reached, depth first, everything a module uses before it; the lists grow by the statements of what is added and its comments |
| `ModuleGraphs.CombineCss` | eval/evaluate.go:571-656 | the statements are those of exactly the reachable modules and, once for every time a listed module names what they are for, its comments, as a multiset; all leading imports come first; the rest of each module stands in one piece after what it uses and after its comments, which stand among the imports unless there has been CSS, and after whatever comes with the modules it names before; the list is the modules depth-first, the root in front |
| `ModuleGraphs.FirstNamedFirst` | eval/evaluate.go:608-624 | of two modules the root uses, the one named first comes first, unless something named before uses the other one |
| `ModuleGraphs.UpstreamIsAppendedFirst` | eval/evaluate.go:624-634 | each reachable module is appended once, after everything it uses |
| `ModuleGraphs.CommentsComeFirst` | eval/evaluate.go:610-622 | the comments a module has for one it uses come before the module, among the imports exactly while there is no CSS yet |
| `ExtendModules.InOrderIsDownstreamFirst` | eval/evaluate.go:624-624 | the list made while combining has users before what they use |
| `ExtendModules.TakeIn` | eval/evaluate.go:716-724 | a module takes in what the modules listed before it that use it hold publicly |
| `ExtendModules.ExtensionsWhereTarget` | extend/default_extension_store.go:137-156 | exactly the mandatory uses of rules whose targets are known, or are not |
| `ModuleEntries.Passing.EntryUses` | eval/evaluate.go:716-724 | the mandatory uses a module keeps for a rule in the end are those that survive merging its own extension, those its users keep, once for every time they use it, and then its variants |
| `ModuleEntries.Passing.PassedOnEnds` | eval/evaluate.go:716-741 | once every module has taken in the stores noted for it, what it keeps for each rule is told from what all kept before and from who uses whom |
| `ExtendModules.UnsatisfiedAreUnplaced` | eval/evaluate.go:709-748 | adding what is missing and deleting what is placed, module by module, leaves exactly the uses that no module from theirs on both knows the target of and keeps |
| `ExtendModules.ExtendAll` | eval/evaluate.go:699-756 | in the end every listed module has declared its own rules and what its users publicly hold in the end, and keeps for each rule the merge, in order, of its own extension, those its users keep and its variants, of which there are none without chains; an error is reported exactly if that leaves some mandatory use unplaced: unknown to its module, and neither there nor in a later module both kept and known |
| `ExtensionReach.HoldsExactlyWhatReachesIt` | eval/evaluate.go:699-756 | without chains a store holds a public rule exactly when it was declared there or in a module that reaches it, and a private one exactly when it was declared there |
| `ExtensionReach.RuleTravels` | eval/evaluate.go:729-741 | a public rule arrives wherever a chain of uses leads, chains of rules or not |
| `ExtensionReach.NothingElseArrives` | eval/evaluate.go:699-756 | whatever a store holds follows from what the modules that reach it declared |
| `ExtensionReach.StoresSettle` | eval/evaluate.go:699-756 | ties both results to the stores |
| `ModuleExtensions.ReachIsUpstream` | eval/evaluate.go:606-610 | among listed modules, reaching one another through listed modules is reaching one another through `Upstream` |
| `ModuleExtensions.CheckAlone` | eval/evaluate.go:572-584 | a module without upstream CSS reports exactly the mandatory uses it cannot place |
| `UnsatisfiedReports.KeptComesFrom` | eval/evaluate.go:716-741 | every use a module keeps in the end, unless it is a variant, was there before or in a module that reaches it, and is public then |
| `UnsatisfiedReports.UnknownIsReported` | eval/evaluate.go:699-756 | a missing mandatory use is always among those reported if its target is known neither to a module that has it nor, if public, to any listed module reached from one |
| `UnsatisfiedReports.KeptWhereItGets` | eval/evaluate.go:716-741 | where merging loses no use, each is kept in its module and, if public, in every listed module reached from there |
| `UnsatisfiedReports.ReportedExactly` | eval/evaluate.go:699-756 | where merging loses no use and no two modules had the same one, something is reported if and only if the target of some mandatory use is known nowhere it gets to; without the first condition, if |
| `RepeatedUses.FewLoseNothing` | extend/extension_merged.go:89-108 | merging loses no use where at most two mandatory uses of each rule, and no optional ones or variants, come to each module, counted along all paths |
| `RepeatedUses.ThirdRepeatIsReported` | extend/extension_merged.go:89-108 | the failing case: some modules each have one mandatory use of a rule and use a module that knows its target; every target is found, and something is reported if and only if they are more than two, namely all uses but the last one or two |
| `RejectedPrograms.RejectThree` | eval/evaluate.go:699-756 | the same from the declarations on: three modules with the rule and a fourth they use with the style rule are rejected although every target is found |
| `ModuleExtensions.Combine` | eval/evaluate.go:571-656 | combining and passing extensions on: the statements are those of the reachable modules, all in their places; afterwards every store of the program holds the extensions that arrive along `Upstream` from the modules that use it, public ones only, and nothing that does not follow from those declared above it; without chains exactly those that arrive; it keeps what merging them leaves; the program is rejected exactly if that leaves a mandatory use unplaced, always if the target of one is found nowhere it gets to, and only then if merging loses no use |
| `ModuleLoading.Loader.LoadModule` | eval/evaluate_statement.go:741-840 | a module that is being loaded is a loop; a loaded one is returned, or refused if and only if the current configuration is explicit, of another origin than the recorded one, and sets a name the module could have been configured with; the URLs in progress are those of the loads that led here, before and after |
| `ModuleLoading.Loader.EvaluateModule` | eval/evaluate_statement.go:139-306 | an unloaded module is evaluated under the given configuration or the current one and recorded with it; a loaded one is refused if and only if the current configuration is explicit, of another origin than the recorded one, and sets a name the module could have been configured with; the current configuration is restored |
| `ModuleLoading.Run` | eval/evaluate.go:491-515 | a run evaluates the modules that the program means, in its order, and stops where it does; it stops for a reason that can be reached from the entrypoint, or evaluates exactly the reachable modules, each once and after what it loads, and then nothing in reach loops or breaks |
| `ModuleLoading.ConfiguredTooLate` | eval/evaluate_statement.go:155-170 | using a module and then using it again with an explicit configuration of its own is refused if and only if the first use succeeds and the configuration sets a name the module could have been configured with |
| `ModuleLoading.UseThenUseWith` | eval/evaluate_statement.go:155-170 | the program `@use "a"; @use "a" with ($x: 1)`, whatever the sheets |
| `ModuleLoading.LoadedMeansSound` | eval/evaluate_statement.go:785-828 | a run that succeeds has neither a loop nor another error in reach |
| `ModuleLoading.FailsExactlyOnLoops` | eval/evaluate_statement.go:785-828 | where nothing in reach breaks and no module is loaded under clashing configurations, loading fails exactly when a loop is in reach, and then with the loop error |
| `Varints.VarintBuilder.Add` | embedded/varint_builder.go:65-88 | a byte completes a number exactly when the bytes so far are a varint of a number below 2^maxLength; the builder gives up as soon as another byte would be too many; for limits up to 57 bits the accumulator fits 63 bits |
| `Varints.VarintBuilder.Reset` | embedded/varint_builder.go:94-98 | a reset builder is as good as a new one |
| `Varints.AccumulatorFits` | embedded/varint_builder.go:65-88 | the bound on the accumulator |
| `Varints.EncodeVarint` | embedded/length_delimited_transformer.go:78-103 | the buffer holds the varint of the number |
| `Varints.VarintRoundTrip` | embedded/length_delimited_transformer.go:78-103 | the encoding is one varint and denotes the number |
| `Varints.VarintIsShortest` | embedded/length_delimited_transformer.go:78-103 | no varint of the same number is shorter |
| `Varints.VarintLength` | embedded/length_delimited_transformer.go:84-91 | its length is the number of bits divided by seven, rounded up |
| `Varints.EncodingsArePrefixFree` | embedded/length_delimited_transformer.go:78-103 | no encoding begins another |
| `Framing.ReadPacket` | embedded/length_delimited_transformer.go:27-52 | reads exactly one length and as many bytes, or reports which end of stream it met |
| `Framing.PacketMeans` | embedded/length_delimited_transformer.go:27-52 | a packet is a length and as many bytes; the stream ends properly before a length is complete or right after one, and otherwise in the middle of a packet; a length that goes on for too long or is too large is an error |
| `Framing.WritePacket` | embedded/length_delimited_transformer.go:62-69 | appends the length, cut to 32 bits, and the packet |
| `Framing.FramingRoundTrip` | embedded/length_delimited_transformer.go:27-69 | a packet is read back whole, whatever follows it, exactly when its length fits 32 bits |
| `Framing.WriteThenRead` | embedded/length_delimited_transformer.go:27-69 | any sequence of such packets is read back, then end of file |
| `Framing.ParsePacket` | embedded/utils.go:171-185 | the loop finds the ID and the rest, and the ID fits 32 bits |
| `Framing.ParsedMeans` | embedded/utils.go:171-185 | the front of the packet is a 32-bit varint and the rest the message, or it goes on for too long, or it never ends |
| `Framing.ParseUndoesSerialize` | embedded/utils.go:150-185 | parsing undoes serializing for every 32-bit ID |
| `Framing.SerializeIsInjective` | embedded/utils.go:150-158 | different IDs or messages give different packets |
| `Protofiers.OpaqueRegistry.GetId` | embedded/opaque_registry.go:31-39 | an element gets the ID it had or the next one, and IDs are never reassigned |
| `Protofiers.Protofier.Protofy` | embedded/protofier.go:64-165 | the result encodes the value, each separator as the one of the same name, under tables that only grow; the argument lists in the value take the next IDs, each before those inside it |
| `Protofiers.EncodesLater` | embedded/protofier.go:64-165 | later calls never change what an encoding stands for |
| `Protofiers.EncodedIsDecodable` | embedded/protofier.go:215-387 | every encoding of a well-formed value is accepted |
| `Protofiers.DecodesToSame` | embedded/protofier.go:215-387 | whatever decoding it gives is the value, up to the order of map entries |
| `Protofiers.Protofier.Deprotofy` | embedded/protofier.go:215-387 | decoding succeeds exactly on what can be decoded and gives one of its readings |
| `Protofiers.FailsOnDefects` | embedded/protofier.go:215-387 | it fails exactly if some part that has to be decoded is defective: an unknown ID, separator, singleton or colour, an undecided separator with several elements, or nothing at all |
| `Protofiers.NewListDecodes` | embedded/protofier.go:256-291 | an argument list the host makes up has the contents, separator and keywords its parts stand for |
| `Protofiers.SimplifiedCancels` | value/number.go:942-971 | a number is decoded by cancelling units, one conversion each |
| `Protofiers.SimplifiedIsIrreducible` | value/number.go:942-971 | until nothing is left to cancel |
| `Protofiers.FirstIsKept` | value/map.go:48-58 | of entries with equal keys the first is kept |
| `Protofiers.KeptAreEntries` | value/map.go:48-58 | and no other |
| `Protofiers.Protofier.ArgumentListForId` | embedded/protofier.go:689-698 | IDs count from one; zero and unknown IDs are errors |
| `Protofiers.Protofier.DeprotofyResponse` | embedded/protofier.go:189-198 | succeeds exactly when every accessed list is known and the value can be decoded, and marks exactly the named lists |
| `Protofiers.RoundTrip` | embedded/protofier.go:64-387 | a value encoded in any state and decoded after any further encodings comes back the same up to map order |
| `ConfigurationViews.Store.ReadIsBaseEntry` | configuration/configuration.go:40-146 | reading through any stack of views is reading the base map under the translated name, if every layer shows it |
| `ConfigurationViews.Store.TranslateIsInjective` | configuration/configuration.go:63-79 | no two names of a view mean the same entry |
| `ConfigurationViews.Store.ShowsVisibleEntries` | configuration/configuration.go:55-167 | the names shown are exactly the visible base entries, one each |
| `ConfigurationViews.Store.Lookup` | configuration/configuration.go:40-146 | asking layer by layer gives that reading |
| `ConfigurationViews.Store.Keys` | configuration/configuration.go:55-167 | the keys are exactly the readable names, without repeats |
| `ConfigurationViews.Store.Len` | configuration/configuration.go:51-157 | the length is the number of readable names |
| `ConfigurationViews.Store.Remove` | configuration/configuration.go:45-153 | removes exactly the one base entry of a visible name and returns it; a hidden name removes nothing |
| `ConfigurationViews.SiblingLosesOnly` | configuration/configuration.go:45-153 | a sibling view loses exactly the name that means the removed entry |
| `ConfigurationViews.Configuration.Values` | configuration/configuration.go:269-277 | the snapshot holds exactly what can be read |
| `ConfigurationViews.Configuration.ThroughForward` | configuration/configuration.go:295-321 | the forwarded module sees exactly the variables the rule allows, without its prefix, of the same original |
| `ConfigurationViews.RemoveUsedConfiguration` | eval/evaluate_statement.go:329-338 | with maps of their own, exactly the excepted names and those still present downstream are left, with their values |
| `Arguments.VerifyParameterList` | eval/evaluate_helpers.go:1036-1142 | accepts exactly the arguments that fit: nothing twice, nothing required missing, nothing left over without a rest parameter; the error names the first parameter that is wrong, or what is left over |
| `Arguments.FitsUnlessWrong` | eval/evaluate_helpers.go:1036-1142 | what fitting means, parameter by parameter and name by name |
| `Arguments.BindArguments` | eval/evaluate_helpers.go:1239-1320 | binds every parameter once and in order; the keywords used are taken out and the rest parameter holds what remains, as the very keywords of the call |
| `Arguments.EachBoundOnce` | eval/evaluate_helpers.go:1252-1298 | each binding is the value at the position, of the name, or of the default |
| `Arguments.FittingIsNotMissing` | eval/evaluate_helpers.go:1036-1320 | what was accepted never meets the missing-argument error |
| `Arguments.CallUserDefined` | eval/evaluate_helpers.go:1491-1511 | verify, then bind: every argument ends in exactly one place, each parameter holds the argument at its position, or else of its name, or else its default where the parameters before it are set; nothing is left over without a rest parameter; only a default can fail after the check |
| `AtRoot.Included` | eval/evaluate_statement.go:2747-2765 | collects exactly the ancestors the query does not exclude, in order |
| `AtRoot.TrimIncluded` | eval/evaluate_statement.go:2832-2867 | splits off the nodes at the end that hang together and hang off the root, as many as possible; the base is the innermost of them, or the root |
| `AtRoot.CopyInto` | eval/evaluate_statement.go:2782-2805 | the copies nest in order inside the base, each new and the only child of the next |
| `AtRoot.ParentForBody` | eval/evaluate_statement.go:2730-2805 | the chain from the body to the root is the old chain without the excluded nodes, order kept: all nodes above the last excluded one are reused and below it each node that stays is copied once; the outermost copy becomes the last child of what is above it, and everything else stays as it was |
| `AtRoot.ChainIsDistinct` | eval/evaluate_statement.go:2747-2765 | following parents never comes back |
| `ExportPatterns.CompareIsWeakOrder` | eval/node_package_importer.go:557-585 | on keys with one star the comparison is a strict weak order |
| `ExportPatterns.LongerIsTriedFirst` | eval/node_package_importer.go:557-585 | the longer base is tried first, and of equally long ones the longer key |
| `ExportPatterns.OneStarCounts` | eval/node_package_importer.go:470-476 | what counts as a pattern: exactly one star |
| `ExportPatterns.CompareNeedsStars` | eval/node_package_importer.go:557-585 | a key without a star would come after itself |
| `ExportPatterns.TiesDoNotBothMatch` | eval/node_package_importer.go:470-585 | two different keys that tie never match the same subpath |
| `ExportPatterns.MostSpecificIsUnique` | eval/node_package_importer.go:470-515 | so the sort cannot change the choice |
| `ExportPatterns.SpanFillsPattern` | eval/node_package_importer.go:482-515 | the captured part is not empty and fills the pattern |
| `ExportPatterns.MatchesWhatFits` | eval/node_package_importer.go:482-515 | a pattern matches exactly what comes of it by putting something for the star |
| `ExportPatterns.ChoosePattern` | eval/node_package_importer.go:470-515 | the loop takes exactly the most specific usable pattern, if there is one: of those that match and have a target it has the longest base, and is the longest of these; what stands for the star fills it |

## Left out

- Selectors: namespaces, `&`, pseudo-elements, pseudo-classes with selector arguments (`extendPseudo`), host pseudo-classes, combinators and weaving; a complex selector is one compound, so a selector is never useless.
- Media contexts in the store (`media` is always absent there; merging itself models them), the replace and all-targets modes, spans and line breaks, and the wrap-around of 64-bit box IDs.
- Iteration order of linked hash maps beyond what the results show: maps of extensions keep a sequence per target, sets of boxes a sequence per simple selector.
- ExtensionStores.ExtensionStore.AddExtension: what a box matches after chained extensions is bounded from both sides, not given exactly; a variant of an extender is registered, but is itself extended again only when a later extension names it.
- StoreRuns.Replay: what a box matches exactly is stated for lists and extenders with a type selector only in front, as the parser reads them; for others it is bounded from both sides.
- StoreClone.RunOneOfTwo: the boxes are objects that the two stores do not share; the maps are values in Dafny, so the copying of the nested maps that `copyMapOfMap` and `copyMapOfList` do in Go holds by construction here and is not at stake.
- ExtendModules.ExtendAll: which of several unsatisfied extensions is reported is open, as in Go. Which variants of an extender trimming leaves is not given exactly, so with chained rules what is kept is told from the variants a run makes as well.
- RepeatedUses.FewLoseNothing: asks that there be no optional use of any rule; one before a merge of two would displace it.
- ModuleExtensions.Combine: leaves out the clone mode, which copies each module before it is visited, and computes the statements even when it reports an error.
- ModuleGraphs.CombineCss: asks for an acyclic graph, which loading guarantees.
- ExtensionReach.HoldsExactlyWhatReachesIt: asks for chain-free declarations; with chains `ExtensionReach.RuleTravels` and `ExtensionReach.NothingElseArrives` bound what a store holds from both sides.
- ModuleLoading.Loader.EvaluateModule: a configuration is a value, so names it loses while it is used are not followed.
- `@import`, built-in modules, `meta.load-css` callbacks and the environment of a module in loading.
- URL parsing and resolution in the import cache are parameters, as are the importers; `nonCanonicalRelativeUrls`, `ImportCanonical`, `ClearImport`, `Humanize` and load times only add lookups. That `CouldCanonicalize` has no false negatives is what clearing asks of importers.
- Dispatcher: end of input, `Kill`, closed mailboxes, process exit beyond the fatal message, and packets for unknown compilations or malformed ones.
- Varints.EncodeVarint: takes the 32-bit numbers the Go type allows.
- Protofiers.Protofier.Protofy: leaves out calculations and the inner structure of strings; floating-point numbers are carried unchanged.
- Protofiers.Protofier.Deprotofy: leaves out calculations and host functions; what the value library makes of units and of colour channels is a parameter.
- Protofiers.RoundTrip: more than 2^32 retained lists, functions or mixins would make IDs wrap and are excluded.
- ConfigurationViews.RemoveUsedConfiguration: nothing is said when both configurations share a map, where the result depends on map order; its caller always passes a fresh map.
- ConfigurationViews.Store: the order of keys, which Go leaves open.
- Arguments: the wording and spans of errors, deprecations, evaluation of the body, and the check after it that keywords in a rest parameter were looked at; evaluating a default is a function of the bindings before it.
- AtRoot: the query's own parsing, the visitor's scope flags and the grouping of siblings.
- ExportPatterns: exact keys, conditions, arrays and the substitution in `packageTargetResolve`, and the choice among subpath variants.
