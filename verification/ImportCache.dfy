/**
 The two-tier cache in front of the importer chain. Importers are deterministic
 functions that may or may not look at the URL of the stylesheet doing the load;
 a result that depends on it must not be shared between load sites.
 */
module ImportCaches {
  import opened Wrappers

  /** A URL, which is also its own cache key. */
  datatype Url = Url(scheme: string, rest: string)

  type ImporterId = nat

  /** What an importer answers: nothing, a canonical URL, or an error. */
  datatype Answer = Miss | Found(url: Url) | Failed

  /** An importer on one URL: it answers outright, or after reading the containing URL. */
  datatype Script = Outright(answer: Answer) | AfterReading(reply: Option<Url> -> Answer)

  /** How every importer behaves. */
  datatype World = World(
    script: (ImporterId, Url, bool) -> Script,
    nonCanonical: (ImporterId, string) -> bool,
    could: (ImporterId, Url, Url) -> bool,
    resolveRest: (string, string) -> string)
  {
    /** Relative references take the scheme of the base (RFC 3986, section 5.2.2). */
    function Resolve(base: Url, u: Url): Url {
      if u.scheme != "" then u else Url(base.scheme, resolveRest(base.rest, u.rest))
    }

    /** Whether this importer is offered the containing URL when there is one. */
    predicate Contextual(imp: ImporterId, u: Url) { u.scheme == "" || nonCanonical(imp, u.scheme) }
  }

  datatype CanonicalizeResult = CanonicalizeResult(importer: ImporterId, canonicalUrl: Url, originalUrl: Url)

  datatype Outcome = Done(result: Option<CanonicalizeResult>) | Error

  // ---- Without a cache ----

  function Checked(w: World, imp: ImporterId, u: Url, answer: Answer): Outcome {
    match answer
    case Miss => Done(None)
    case Failed => Error
    case Found(url) =>
      if url.scheme != "" && w.nonCanonical(imp, url.scheme) then Error
      else Done(Some(CanonicalizeResult(imp, url, u)))
  }

  /** One importer on one URL, loaded from `base`. */
  function RunImporter(w: World, imp: ImporterId, u: Url, base: Option<Url>, forImport: bool): Outcome {
    match w.script(imp, u, forImport)
    case Outright(answer) => Checked(w, imp, u, answer)
    case AfterReading(reply) => Checked(w, imp, u, reply(if w.Contextual(imp, u) then base else None))
  }

  /** The importers in order, up to the first hit or error. */
  function RunChain(w: World, imps: seq<ImporterId>, u: Url, base: Option<Url>, forImport: bool): Outcome {
    if imps == [] then Done(None)
    else
      var first := RunImporter(w, imps[0], u, base, forImport);
      if first == Done(None) then RunChain(w, imps[1..], u, base, forImport) else first
  }

  datatype Call = Call(url: Url, baseImporter: Option<ImporterId>, base: Option<Url>, forImport: bool) {
    predicate Relative() { baseImporter.Some? && url.scheme == "" }

    function Resolved(w: World): Url { if base.Some? then w.Resolve(base.value, url) else url }

    /** The load site is known and resolving against it gives the base importer a canonical URL. */
    predicate Anchored(w: World) {
      base.Some? && (Relative() ==> !w.Contextual(baseImporter.value, Resolved(w)))
    }
  }

  /** What a load means: the base importer on the resolved URL, then the chain. */
  function Uncached(w: World, imps: seq<ImporterId>, c: Call): Outcome {
    var first := if c.Relative() then RunImporter(w, c.baseImporter.value, c.Resolved(w), c.base, c.forImport) else Done(None);
    if first == Done(None) then RunChain(w, imps, c.url, c.base, c.forImport) else first
  }

  // ---- What a load comes to ----

  /** The importer answers, at most after reading the URL of the load site if that is offered to it. */
  predicate Says(w: World, imp: ImporterId, u: Url, base: Option<Url>, forImport: bool, answer: Answer) {
    match w.script(imp, u, forImport)
    case Outright(a) => answer == a
    case AfterReading(reply) =>
      answer == reply(if u.scheme == "" || w.nonCanonical(imp, u.scheme) then base else None)
  }

  predicate Misses(w: World, imp: ImporterId, u: Url, base: Option<Url>, forImport: bool) {
    Says(w, imp, u, base, forImport, Miss)
  }

  /** The result names the importer, the URL it was asked for and the canonical URL it gave. */
  predicate Gives(w: World, imp: ImporterId, u: Url, base: Option<Url>, forImport: bool, r: CanonicalizeResult) {
    && r.importer == imp && r.originalUrl == u
    && Says(w, imp, u, base, forImport, Found(r.canonicalUrl))
    && (r.canonicalUrl.scheme == "" || !w.nonCanonical(imp, r.canonicalUrl.scheme))
  }

  /** An error of the importer, or a URL in a scheme it has declared non-canonical. */
  ghost predicate Fails(w: World, imp: ImporterId, u: Url, base: Option<Url>, forImport: bool) {
    || Says(w, imp, u, base, forImport, Failed)
    || exists url :: Says(w, imp, u, base, forImport, Found(url)) && url.scheme != "" && w.nonCanonical(imp, url.scheme)
  }

  /** The outcome of asking one importer that has an answer. */
  ghost predicate Decides(w: World, imp: ImporterId, u: Url, base: Option<Url>, forImport: bool, outcome: Outcome) {
    match outcome
    case Error => Fails(w, imp, u, base, forImport)
    case Done(Some(r)) => Gives(w, imp, u, base, forImport, r)
    case Done(None) => false
  }

  /** The first importer of the chain that does not miss decides, and without one nothing is found. */
  ghost predicate ChainDecides(w: World, imps: seq<ImporterId>, u: Url, base: Option<Url>, forImport: bool, outcome: Outcome) {
    if outcome == Done(None) then forall i | 0 <= i < |imps| :: Misses(w, imps[i], u, base, forImport)
    else exists i | 0 <= i < |imps| ::
           && Decides(w, imps[i], u, base, forImport, outcome)
           && forall j | 0 <= j < i :: Misses(w, imps[j], u, base, forImport)
  }

  /** The URL the base importer is asked for: resolved against that of the load site. */
  function AskedOfBase(w: World, c: Call): Url {
    if c.base.Some? then Url(c.base.value.scheme, w.resolveRest(c.base.value.rest, c.url.rest)) else c.url
  }

  /** A relative load asks the base importer first, every other one only the chain. */
  ghost predicate LoadDecided(w: World, imps: seq<ImporterId>, c: Call, outcome: Outcome) {
    if c.baseImporter.Some? && c.url.scheme == "" && !Misses(w, c.baseImporter.value, AskedOfBase(w, c), c.base, c.forImport)
    then Decides(w, c.baseImporter.value, AskedOfBase(w, c), c.base, c.forImport, outcome)
    else ChainDecides(w, imps, c.url, c.base, c.forImport, outcome)
  }

  /** The base importer finds something, and looks at the URL of the load site for that. */
  ghost predicate FoundByLooking(w: World, c: Call) {
    && c.baseImporter.Some? && c.url.scheme == "" && c.base.Some?
    && var u, imp := AskedOfBase(w, c), c.baseImporter.value;
       && (u.scheme == "" || w.nonCanonical(imp, u.scheme)) && w.script(imp, u, c.forImport).AfterReading?
       && !Misses(w, imp, u, c.base, c.forImport) && !Fails(w, imp, u, c.base, c.forImport)
  }

  lemma ImporterDecides(w: World, imp: ImporterId, u: Url, base: Option<Url>, forImport: bool)
    ensures var outcome := RunImporter(w, imp, u, base, forImport);
            if Misses(w, imp, u, base, forImport) then outcome == Done(None)
            else Decides(w, imp, u, base, forImport, outcome)
    ensures RunImporter(w, imp, u, base, forImport) == Error <==> Fails(w, imp, u, base, forImport)
  {
    var answer := match w.script(imp, u, forImport)
                  case Outright(a) => a
                  case AfterReading(reply) => reply(if w.Contextual(imp, u) then base else None);
    assert Says(w, imp, u, base, forImport, answer);
  }

  lemma {:induction false} FirstHitDecides(w: World, imps: seq<ImporterId>, u: Url, base: Option<Url>, forImport: bool)
    ensures ChainDecides(w, imps, u, base, forImport, RunChain(w, imps, u, base, forImport))
  {
    hide RunImporter, Misses, Decides;
    if imps != [] {
      ImporterDecides(w, imps[0], u, base, forImport);
      FirstHitDecides(w, imps[1..], u, base, forImport);
      var outcome := RunChain(w, imps, u, base, forImport);
      if Misses(w, imps[0], u, base, forImport) && outcome != Done(None) {
        var i :| 0 <= i < |imps[1..]| && Decides(w, imps[1..][i], u, base, forImport, outcome)
                 && forall j | 0 <= j < i :: Misses(w, imps[1..][j], u, base, forImport);
        assert forall j | 1 <= j < i + 1 :: imps[j] == imps[1..][j - 1];
        assert Decides(w, imps[i + 1], u, base, forImport, outcome);
      }
    }
  }

  /** Importers that answer leave only one outcome. */
  lemma DecidedOnce(w: World, imps: seq<ImporterId>, c: Call, a: Outcome, b: Outcome)
    requires LoadDecided(w, imps, c, a) && LoadDecided(w, imps, c, b)
    ensures a == b
  {
    hide AskedOfBase;
    forall imp, u | Decides(w, imp, u, c.base, c.forImport, a) ensures !Misses(w, imp, u, c.base, c.forImport) {}
    forall imp, u | Decides(w, imp, u, c.base, c.forImport, b) ensures !Misses(w, imp, u, c.base, c.forImport) {}
  }

  /** An uncached load comes to what its importers say. */
  lemma UncachedIsDecided(w: World, imps: seq<ImporterId>, c: Call)
    ensures LoadDecided(w, imps, c, Uncached(w, imps, c))
  {
    hide RunImporter, RunChain, Misses, Decides, ChainDecides;
    if c.Relative() {
      ImporterDecides(w, c.baseImporter.value, AskedOfBase(w, c), c.base, c.forImport);
      assert Uncached(w, imps, c) == Done(None) ==> RunChain(w, imps, c.url, c.base, c.forImport) == Done(None);
    }
    FirstHitDecides(w, imps, c.url, c.base, c.forImport);
  }

  /**
   What the cache answers: as without it, except that a hit of the base importer
   that read the containing URL is dropped and the chain asked instead.
   */
  function WithDroppedHit(w: World, imps: seq<ImporterId>, c: Call): Outcome {
    if DropsHit(w, c) then RunChain(w, imps, c.url, c.base, c.forImport) else Uncached(w, imps, c)
  }

  /** The base importer has the URL, but only by looking at the load site. */
  predicate DropsHit(w: World, c: Call) {
    && c.Relative() && c.base.Some?
    && !ContextFree(w, c.baseImporter.value, c.Resolved(w), c.forImport)
    && RunImporter(w, c.baseImporter.value, c.Resolved(w), c.base, c.forImport) != Error
  }

  /** With the cache the base importer's hit counts unless it looked at the load site for it. */
  lemma CachedIsDecided(w: World, imps: seq<ImporterId>, c: Call)
    ensures if FoundByLooking(w, c) then ChainDecides(w, imps, c.url, c.base, c.forImport, WithDroppedHit(w, imps, c))
            else LoadDecided(w, imps, c, WithDroppedHit(w, imps, c))
  {
    hide RunImporter, RunChain, Misses, Fails, Decides, ChainDecides;
    UncachedIsDecided(w, imps, c);
    FirstHitDecides(w, imps, c.url, c.base, c.forImport);
    if c.Relative() {
      ImporterDecides(w, c.baseImporter.value, AskedOfBase(w, c), c.base, c.forImport);
    }
  }

  // ---- Context ----

  /** The importer's answer is the same from every load site, and known to be. */
  predicate ContextFree(w: World, imp: ImporterId, u: Url, forImport: bool) {
    w.Contextual(imp, u) ==> w.script(imp, u, forImport).Outright?
  }

  /** Every importer the chain gets to is context-free. */
  predicate ChainContextFree(w: World, imps: seq<ImporterId>, u: Url, forImport: bool) {
    imps == [] ||
    (ContextFree(w, imps[0], u, forImport) &&
     (RunImporter(w, imps[0], u, None, forImport) == Done(None) ==> ChainContextFree(w, imps[1..], u, forImport)))
  }

  lemma ContextFreeAnywhere(w: World, imp: ImporterId, u: Url, base: Option<Url>, other: Option<Url>, forImport: bool)
    requires ContextFree(w, imp, u, forImport)
    ensures RunImporter(w, imp, u, base, forImport) == RunImporter(w, imp, u, other, forImport)
  {}

  lemma {:induction false} ChainContextFreeAnywhere(w: World, imps: seq<ImporterId>, u: Url,
                                                    base: Option<Url>, other: Option<Url>, forImport: bool)
    requires ChainContextFree(w, imps, u, forImport)
    ensures RunChain(w, imps, u, base, forImport) == RunChain(w, imps, u, other, forImport)
  {
    if imps != [] {
      ContextFreeAnywhere(w, imps[0], u, base, None, forImport);
      ContextFreeAnywhere(w, imps[0], u, other, None, forImport);
      if RunImporter(w, imps[0], u, None, forImport) == Done(None) {
        ChainContextFreeAnywhere(w, imps[1..], u, base, other, forImport);
      }
    }
  }

  /** Context-free misses at the front leave the rest of the chain to decide. */
  lemma {:induction false} ChainAfterMisses(w: World, imps: seq<ImporterId>, i: nat, u: Url, base: Option<Url>, forImport: bool)
    requires i <= |imps|
    requires forall j | 0 <= j < i :: RunImporter(w, imps[j], u, base, forImport) == Done(None)
    ensures RunChain(w, imps, u, base, forImport) == RunChain(w, imps[i..], u, base, forImport)
  {
    if i > 0 {
      ChainAfterMisses(w, imps[1..], i - 1, u, base, forImport);
      assert imps[1..][i - 1..] == imps[i..];
    } else {
      assert imps[0..] == imps;
    }
  }

  /** After misses the next importer decides, unless it misses too. */
  lemma ChainDecidedAt(w: World, imps: seq<ImporterId>, i: nat, u: Url, base: Option<Url>, forImport: bool)
    requires i <= |imps|
    requires forall j | 0 <= j < i :: RunImporter(w, imps[j], u, base, forImport) == Done(None)
    ensures if i == |imps| then RunChain(w, imps, u, base, forImport) == Done(None)
            else RunImporter(w, imps[i], u, base, forImport) != Done(None) ==>
                   RunChain(w, imps, u, base, forImport) == RunImporter(w, imps[i], u, base, forImport)
  {
    ChainAfterMisses(w, imps, i, u, base, forImport);
  }

  lemma {:induction false} ChainContextFreeAfterMisses(w: World, imps: seq<ImporterId>, i: nat, u: Url, forImport: bool)
    requires i <= |imps|
    requires forall j | 0 <= j < i :: ContextFree(w, imps[j], u, forImport)
    requires i < |imps| ==> ContextFree(w, imps[i], u, forImport) && RunImporter(w, imps[i], u, None, forImport) != Done(None)
    ensures ChainContextFree(w, imps, u, forImport)
  {
    if i > 0 {
      ChainContextFreeAfterMisses(w, imps[1..], i - 1, u, forImport);
    }
  }

  /** Context-free misses up to `i`, and context-free at `i` where something is decided. */
  lemma DecidedAnywhere(w: World, imps: seq<ImporterId>, i: nat, u: Url, base: Option<Url>, forImport: bool)
    requires i <= |imps|
    requires forall j | 0 <= j < i :: RunImporter(w, imps[j], u, base, forImport) == Done(None)
    requires forall j | 0 <= j < i :: ContextFree(w, imps[j], u, forImport)
    requires i < |imps| ==> ContextFree(w, imps[i], u, forImport) && RunImporter(w, imps[i], u, base, forImport) != Done(None)
    ensures forall j | 0 <= j < i :: RunImporter(w, imps[j], u, None, forImport) == Done(None)
    ensures ChainContextFree(w, imps, u, forImport)
    ensures RunChain(w, imps, u, None, forImport) == RunChain(w, imps, u, base, forImport)
  {
    MissesAnywhere(w, imps, i, u, base, forImport);
    if i < |imps| {
      ContextFreeAnywhere(w, imps[i], u, base, None, forImport);
    }
    ChainContextFreeAfterMisses(w, imps, i, u, forImport);
    ChainContextFreeAnywhere(w, imps, u, None, base, forImport);
  }

  lemma MissesAnywhere(w: World, imps: seq<ImporterId>, i: nat, u: Url, base: Option<Url>, forImport: bool)
    requires i <= |imps|
    requires forall j | 0 <= j < i :: RunImporter(w, imps[j], u, base, forImport) == Done(None)
    requires forall j | 0 <= j < i :: ContextFree(w, imps[j], u, forImport)
    ensures forall j | 0 <= j < i :: RunImporter(w, imps[j], u, None, forImport) == Done(None)
  {
    forall j | 0 <= j < i ensures RunImporter(w, imps[j], u, None, forImport) == Done(None) {
      ContextFreeAnywhere(w, imps[j], u, base, None, forImport);
    }
  }

  /** Whoever a context-free chain gets to is context-free. */
  lemma {:induction false} ConsultedIsContextFree(w: World, imps: seq<ImporterId>, i: nat, u: Url, base: Option<Url>,
                                                  forImport: bool)
    requires i < |imps| && ChainContextFree(w, imps, u, forImport)
    requires forall j | 0 <= j < i :: RunImporter(w, imps[j], u, base, forImport) == Done(None)
    ensures ContextFree(w, imps[i], u, forImport)
  {
    if i > 0 {
      ContextFreeAnywhere(w, imps[0], u, base, None, forImport);
      ConsultedIsContextFree(w, imps[1..], i - 1, u, base, forImport);
    }
  }

  /** Importer `i` is the first that looks at the load site, after misses that do not depend on it. */
  predicate FirstToLook(w: World, imps: seq<ImporterId>, i: nat, u: Url, base: Option<Url>, forImport: bool) {
    && i < |imps| && base.Some?
    && (forall j | 0 <= j < i ::
          ContextFree(w, imps[j], u, forImport) && RunImporter(w, imps[j], u, base, forImport) == Done(None))
    && !ContextFree(w, imps[i], u, forImport) && RunImporter(w, imps[i], u, base, forImport) != Error
  }

  /** What is cached stays cached. */
  predicate Grows<K, V(==)>(before: map<K, V>, after: map<K, V>) {
    forall k <- before :: k in after && after[k] == before[k]
  }

  // ---- The context handed to an importer ----

  class CanonicalizeContext {
    const fromImport: bool
    const containingUrl: Option<Url>
    var wasContainingUrlAccessed: bool

    constructor (containingUrl: Option<Url>, fromImport: bool)
      ensures this.containingUrl == containingUrl && this.fromImport == fromImport && !wasContainingUrlAccessed
    {
      this.containingUrl, this.fromImport, wasContainingUrlAccessed := containingUrl, fromImport, false;
    }

    method ContainingUrl() returns (url: Option<Url>)
      modifies this
      ensures url == containingUrl && wasContainingUrlAccessed
    {
      wasContainingUrlAccessed := true;
      return containingUrl;
    }
  }

  /** An importer at work: it reads the containing URL only through the context. */
  method AskImporter(w: World, imp: ImporterId, u: Url, ctx: CanonicalizeContext) returns (answer: Answer)
    modifies ctx
    ensures answer == match w.script(imp, u, ctx.fromImport)
                      case Outright(a) => a
                      case AfterReading(reply) => reply(ctx.containingUrl)
    ensures ctx.wasContainingUrlAccessed ==
              (old(ctx.wasContainingUrlAccessed) || w.script(imp, u, ctx.fromImport).AfterReading?)
  {
    match w.script(imp, u, ctx.fromImport)
    case Outright(a) =>
      return a;
    case AfterReading(reply) =>
      var url := ctx.ContainingUrl();
      return reply(url);
  }

  /** Runs one importer, and says whether the result may be shared. */
  method CanonicalizeWith(w: World, imp: ImporterId, u: Url, base: Option<Url>, forImport: bool)
    returns (outcome: Outcome, cacheable: bool)
    ensures outcome == RunImporter(w, imp, u, base, forImport)
    ensures if Misses(w, imp, u, base, forImport) then outcome == Done(None)
            else Decides(w, imp, u, base, forImport, outcome)
    ensures outcome == Error <==> Fails(w, imp, u, base, forImport)
    ensures cacheable <==> base.None? || ContextFree(w, imp, u, forImport)
  {
    ImporterDecides(w, imp, u, base, forImport);
    var passContainingUrl := base.Some? && (u.scheme == "" || w.nonCanonical(imp, u.scheme));
    var ctx := new CanonicalizeContext(if passContainingUrl then base else None, forImport);
    var answer := AskImporter(w, imp, u, ctx);
    cacheable := !passContainingUrl || !ctx.wasContainingUrlAccessed;
    outcome := Checked(w, imp, u, answer);
  }

  // ---- The cache ----

  datatype Key = Key(url: Url, forImport: bool)
  datatype ImporterKey = ImporterKey(importer: ImporterId, url: Url, forImport: bool)

  type PerImporter = map<ImporterKey, Option<CanonicalizeResult>>

  /** The misses of the first `i` importers are remembered one by one. */
  predicate Pinned(imps: seq<ImporterId>, cache: PerImporter, i: nat, u: Url, forImport: bool) {
    && i <= |imps|
    && forall j | 0 <= j < i ::
         var k := ImporterKey(imps[j], u, forImport); k in cache && cache[k].None?
  }

  /** Before an importer among the first `n` that was the first to look, all misses are remembered. */
  predicate AllPinned(w: World, imps: seq<ImporterId>, cache: PerImporter, u: Url, base: Option<Url>, forImport: bool, n: nat) {
    forall i | 0 <= i < n && FirstToLook(w, imps, i, u, base, forImport) :: Pinned(imps, cache, i, u, forImport)
  }

  lemma PinNext(w: World, imps: seq<ImporterId>, before: PerImporter, cache: PerImporter, u: Url, base: Option<Url>,
                forImport: bool, i: nat)
    requires i < |imps| && AllPinned(w, imps, before, u, base, forImport, i) && Grows(before, cache)
    requires ContextFree(w, imps[i], u, forImport) || RunImporter(w, imps[i], u, base, forImport) == Error || base.None?
             || Pinned(imps, cache, i, u, forImport)
             || exists j | 0 <= j < i :: !ContextFree(w, imps[j], u, forImport)
    ensures AllPinned(w, imps, cache, u, base, forImport, i + 1)
    ensures RunImporter(w, imps[i], u, base, forImport) != Done(None) ==>
              AllPinned(w, imps, cache, u, base, forImport, |imps|)
  {
    forall m | 0 <= m < i && FirstToLook(w, imps, m, u, base, forImport) ensures Pinned(imps, cache, m, u, forImport) {
      assert Pinned(imps, before, m, u, forImport);
    }
  }

  lemma NoneLooks(w: World, imps: seq<ImporterId>, cache: PerImporter, u: Url, base: Option<Url>, forImport: bool)
    ensures AllPinned(w, imps, cache, u, base, forImport, 0)
    ensures base.None? || ChainContextFree(w, imps, u, forImport) ==>
              AllPinned(w, imps, cache, u, base, forImport, |imps|)
  {
    forall i | 0 <= i < |imps| && ChainContextFree(w, imps, u, forImport)
      ensures !FirstToLook(w, imps, i, u, base, forImport)
    {
      if FirstToLook(w, imps, i, u, base, forImport) {
        ConsultedIsContextFree(w, imps, i, u, base, forImport);
      }
    }
  }

  type Global = map<Key, Option<CanonicalizeResult>>

  /** Everything cached is what the importers say from every load site. */
  ghost predicate RightAnywhere(w: World, imps: seq<ImporterId>, global: Global, cache: PerImporter) {
    && (forall k <- global ::
          ChainContextFree(w, imps, k.url, k.forImport) && RunChain(w, imps, k.url, None, k.forImport) == Done(global[k]))
    && (forall k <- cache ::
          ContextFree(w, k.importer, k.url, k.forImport)
          && RunImporter(w, k.importer, k.url, None, k.forImport) == Done(cache[k]))
  }

  /** Everything cached is what the importers say when loaded from `base`. */
  ghost predicate RightFrom(w: World, imps: seq<ImporterId>, global: Global, cache: PerImporter, base: Option<Url>) {
    && (forall k <- global :: RunChain(w, imps, k.url, base, k.forImport) == Done(global[k]))
    && (forall k <- cache :: RunImporter(w, k.importer, k.url, base, k.forImport) == Done(cache[k]))
  }

  /** Remembering the outcome of the whole chain. */
  lemma CacheOfChain(w: World, imps: seq<ImporterId>, global: Global, cache: PerImporter, base: Option<Url>, k: Key,
                     result: Option<CanonicalizeResult>)
    requires RightFrom(w, imps, global, cache, base) && RunChain(w, imps, k.url, base, k.forImport) == Done(result)
    ensures RightFrom(w, imps, global[k := result], cache, base)
    ensures RightAnywhere(w, imps, global, cache) && ChainContextFree(w, imps, k.url, k.forImport) ==>
              RightAnywhere(w, imps, global[k := result], cache)
  {
    hide RunImporter, RunChain, ContextFree, ChainContextFree;
    if ChainContextFree(w, imps, k.url, k.forImport) {
      ChainContextFreeAnywhere(w, imps, k.url, base, None, k.forImport);
    }
  }

  /** Remembering the outcome of one importer. */
  lemma CacheOfImporter(w: World, imps: seq<ImporterId>, global: Global, cache: PerImporter, base: Option<Url>,
                        k: ImporterKey, result: Option<CanonicalizeResult>)
    requires RightFrom(w, imps, global, cache, base)
    requires RunImporter(w, k.importer, k.url, base, k.forImport) == Done(result)
    ensures RightFrom(w, imps, global, cache[k := result], base)
    ensures RightAnywhere(w, imps, global, cache) && ContextFree(w, k.importer, k.url, k.forImport) ==>
              RightAnywhere(w, imps, global, cache[k := result])
  {
    hide RunImporter, RunChain, ContextFree, ChainContextFree;
    if ContextFree(w, k.importer, k.url, k.forImport) {
      ContextFreeAnywhere(w, k.importer, k.url, base, None, k.forImport);
    }
  }

  lemma CachedByImporter(w: World, imps: seq<ImporterId>, global: Global, cache: PerImporter, base: Option<Url>, k: ImporterKey)
    requires RightFrom(w, imps, global, cache, base) && k in cache
    ensures RunImporter(w, k.importer, k.url, base, k.forImport) == Done(cache[k])
    ensures RightAnywhere(w, imps, global, cache) ==> ContextFree(w, k.importer, k.url, k.forImport)
  {}

  lemma CachedByChain(w: World, imps: seq<ImporterId>, global: Global, cache: PerImporter, base: Option<Url>, k: Key)
    requires RightFrom(w, imps, global, cache, base) && k in global
    requires base.Some? ==> RightAnywhere(w, imps, global, cache)
    ensures RunChain(w, imps, k.url, base, k.forImport) == Done(global[k])
    ensures AllPinned(w, imps, cache, k.url, base, k.forImport, |imps|)
  {
    NoneLooks(w, imps, cache, k.url, base, k.forImport);
  }

  class ImportCache {
    const importers: seq<ImporterId>
    var canonicalizeCache: map<Key, Option<CanonicalizeResult>>
    var perImporterCache: map<ImporterKey, Option<CanonicalizeResult>>

    constructor (importers: seq<ImporterId>)
      ensures this.importers == importers && canonicalizeCache == map[] && perImporterCache == map[]
      ensures forall w :: Valid(w)
    {
      this.importers, canonicalizeCache, perImporterCache := importers, map[], map[];
    }

    ghost predicate Valid(w: World)
      reads this
    {
      RightAnywhere(w, importers, canonicalizeCache, perImporterCache)
    }

    ghost predicate Agrees(w: World, base: Option<Url>)
      reads this
    {
      RightFrom(w, importers, canonicalizeCache, perImporterCache, base)
    }

    lemma ValidAgrees(w: World, base: Option<Url>)
      requires Valid(w)
      ensures Agrees(w, base)
    {
      forall k | k in canonicalizeCache
        ensures RunChain(w, importers, k.url, base, k.forImport) == Done(canonicalizeCache[k])
      {
        ChainContextFreeAnywhere(w, importers, k.url, base, None, k.forImport);
      }
    }

    /** What a call from this site can put into the cache is context-free. */
    ghost predicate Harmless(w: World, c: Call) {
      || c.base.Some?
      || ((c.Relative() ==> ContextFree(w, c.baseImporter.value, c.url, c.forImport))
          && forall imp <- importers :: ContextFree(w, imp, c.url, c.forImport))
    }

    /** No importer of the chain has a hit of its own remembered. */
    predicate NoHits(u: Url, forImport: bool)
      reads this
    {
      forall imp <- importers :: var k := ImporterKey(imp, u, forImport); k in perImporterCache ==> perImporterCache[k].None?
    }

    /** The misses of the importers before the first uncacheable one are remembered. */
    method RememberMisses(w: World, i: nat, u: Url, forImport: bool)
      requires i <= |importers| && Valid(w)
      requires forall j | 0 <= j < i ::
                 ContextFree(w, importers[j], u, forImport) && RunImporter(w, importers[j], u, None, forImport) == Done(None)
      modifies this`perImporterCache
      ensures Valid(w) && Pinned(importers, perImporterCache, i, u, forImport) && Grows(old(perImporterCache), perImporterCache)
    {
      hide RunImporter, RunChain, ChainContextFree, ContextFree;
      for j := 0 to i
        invariant Valid(w) && Pinned(importers, perImporterCache, j, u, forImport) && Grows(old(perImporterCache), perImporterCache)
      {
        perImporterCache := perImporterCache[ImporterKey(importers[j], u, forImport) := None];
      }
    }

    /** The chain behind the cache. */
    method CanonicalizeInChain(w: World, u: Url, base: Option<Url>, forImport: bool) returns (outcome: Outcome)
      requires Agrees(w, base) && (base.Some? ==> Valid(w))
      modifies this
      ensures outcome == RunChain(w, importers, u, base, forImport)
      ensures ChainDecides(w, importers, u, base, forImport, outcome)
      ensures Agrees(w, base)
      ensures old(Valid(w)) && Harmless(w, Call(u, None, base, forImport)) ==> Valid(w)
      ensures Grows(old(canonicalizeCache), canonicalizeCache) && Grows(old(perImporterCache), perImporterCache)
      ensures outcome.Done? && old(NoHits(u, forImport)) && (base.None? || ChainContextFree(w, importers, u, forImport)) ==>
                Key(u, forImport) in canonicalizeCache && outcome == Done(canonicalizeCache[Key(u, forImport)])
      ensures AllPinned(w, importers, perImporterCache, u, base, forImport, |importers|)
    {
      hide RunImporter, ContextFree, RunChain, ChainContextFree, FirstToLook, AllPinned, Pinned, RightAnywhere, RightFrom;
      hide Misses, Fails, Decides, ChainDecides;
      FirstHitDecides(w, importers, u, base, forImport);
      var key := Key(u, forImport);
      ghost var shared := base.None? || ChainContextFree(w, importers, u, forImport);
      if key in canonicalizeCache {
        CachedByChain(w, importers, canonicalizeCache, perImporterCache, base, key);
        return Done(canonicalizeCache[key]);
      }
      NoneLooks(w, importers, perImporterCache, u, base, forImport);
      var cacheable := true;
      ghost var harmless := Harmless(w, Call(u, None, base, forImport));
      for i := 0 to |importers|
        invariant Agrees(w, base) && (old(Valid(w)) && harmless ==> Valid(w)) && (base.Some? ==> Valid(w))
        invariant forall j | 0 <= j < i :: RunImporter(w, importers[j], u, base, forImport) == Done(None)
        invariant base.Some? && cacheable ==> forall j | 0 <= j < i :: ContextFree(w, importers[j], u, forImport)
        invariant canonicalizeCache == old(canonicalizeCache) && Grows(old(perImporterCache), perImporterCache)
        invariant shared ==> cacheable && perImporterCache == old(perImporterCache)
        invariant !cacheable ==> exists j | 0 <= j < i :: !ContextFree(w, importers[j], u, forImport)
        invariant AllPinned(w, importers, perImporterCache, u, base, forImport, i)
      {
        var imp := importers[i];
        ChainDecidedAt(w, importers, i, u, base, forImport);
        var importerKey := ImporterKey(imp, u, forImport);
        ghost var before := perImporterCache;
        if importerKey in perImporterCache {
          CachedByImporter(w, importers, canonicalizeCache, before, base, importerKey);
          PinNext(w, importers, before, before, u, base, forImport, i);
          if perImporterCache[importerKey].Some? {
            return Done(perImporterCache[importerKey]);
          }
          continue;
        }
        var crCacheable;
        outcome, crCacheable := CanonicalizeWith(w, imp, u, base, forImport);
        if outcome.Error? {
          PinNext(w, importers, before, before, u, base, forImport, i);
          return;
        }
        if base.Some? && shared {
          ConsultedIsContextFree(w, importers, i, u, base, forImport);
        }
        if outcome.result.Some? && crCacheable && cacheable {
          PinNext(w, importers, before, before, u, base, forImport, i);
          if base.Some? || harmless {
            DecidedAnywhere(w, importers, i, u, base, forImport);
          }
          CacheOfChain(w, importers, canonicalizeCache, before, base, key, outcome.result);
          canonicalizeCache := canonicalizeCache[key := outcome.result];
          return;
        } else if crCacheable && !cacheable {
          CacheOfImporter(w, importers, canonicalizeCache, before, base, importerKey, outcome.result);
          perImporterCache := perImporterCache[importerKey := outcome.result];
          PinNext(w, importers, before, perImporterCache, u, base, forImport, i);
          if outcome.result.Some? {
            return;
          }
        } else if !crCacheable {
          if cacheable {
            MissesAnywhere(w, importers, i, u, base, forImport);
            RememberMisses(w, i, u, forImport);
            ValidAgrees(w, base);
            cacheable := false;
          }
          PinNext(w, importers, before, perImporterCache, u, base, forImport, i);
          if outcome.result.Some? {
            return;
          }
        } else {
          PinNext(w, importers, before, before, u, base, forImport, i);
        }
      }
      ChainDecidedAt(w, importers, |importers|, u, base, forImport);
      if cacheable {
        if base.Some? || harmless {
          DecidedAnywhere(w, importers, |importers|, u, base, forImport);
        }
        CacheOfChain(w, importers, canonicalizeCache, perImporterCache, base, key, None);
        canonicalizeCache := canonicalizeCache[key := None];
      }
      return Done(None);
    }

    /**
     Canonicalizes a URL through both tiers. From a valid cache the answer is the
     uncached one, up to a dropped hit, and so what the importers say: the base
     importer on the resolved URL, then the chain. A cache that agrees with the load
     site keeps doing so, and a valid one stays valid unless a load without a base
     URL consults an importer that reads it. What may be shared is remembered.
     */
    method Canonicalize(w: World, c: Call) returns (outcome: Outcome)
      requires Agrees(w, c.base) && (c.base.Some? ==> Valid(w))
      modifies this
      ensures outcome == WithDroppedHit(w, importers, c)
      ensures if FoundByLooking(w, c) then ChainDecides(w, importers, c.url, c.base, c.forImport, outcome)
              else LoadDecided(w, importers, c, outcome)
      ensures Agrees(w, c.base)
      ensures old(Valid(w)) && Harmless(w, c) ==> Valid(w)
      ensures Grows(old(canonicalizeCache), canonicalizeCache) && Grows(old(perImporterCache), perImporterCache)
      ensures !c.Relative() && outcome.Done? && old(NoHits(c.url, c.forImport))
              && (c.base.None? || ChainContextFree(w, importers, c.url, c.forImport)) ==>
                Key(c.url, c.forImport) in canonicalizeCache
                && outcome == Done(canonicalizeCache[Key(c.url, c.forImport)])
      ensures c.Relative() && (c.base.None? || ContextFree(w, c.baseImporter.value, c.Resolved(w), c.forImport)) ==>
                var first := RunImporter(w, c.baseImporter.value, c.Resolved(w), c.base, c.forImport);
                var key := ImporterKey(c.baseImporter.value, c.Resolved(w), c.forImport);
                first.Done? ==> key in perImporterCache && Done(perImporterCache[key]) == first
    {
      hide RunImporter, RunChain, ChainContextFree, ContextFree;
      hide Misses, Fails, Decides, ChainDecides, LoadDecided, FoundByLooking;
      CachedIsDecided(w, importers, c);
      if c.Relative() {
        var imp, resolved := c.baseImporter.value, c.Resolved(w);
        var key := ImporterKey(imp, resolved, c.forImport);
        if key in perImporterCache {
          if perImporterCache[key].Some? {
            return Done(perImporterCache[key]);
          }
        } else {
          var first, cacheable := CanonicalizeWith(w, imp, resolved, c.base, c.forImport);
          if first.Error? {
            return Error;
          }
          if cacheable {
            if c.base.Some? || Harmless(w, c) {
              ContextFreeAnywhere(w, imp, resolved, c.base, None, c.forImport);
            }
            perImporterCache := perImporterCache[key := first.result];
            if first.result.Some? {
              return first;
            }
          }
        }
      }
      outcome := CanonicalizeInChain(w, c.url, c.base, c.forImport);
    }

    /** Whether some importer of the chain might give `canonical` for `u`. */
    method CouldCanonicalize(w: World, u: Url, canonical: Url) returns (could: bool)
      ensures could == AnyCould(w, importers, u, canonical)
    {
      for i := 0 to |importers|
        invariant forall j | 0 <= j < i :: !w.could(importers[j], u, canonical)
      {
        if w.could(importers[i], u, canonical) {
          assert importers[i] in importers;
          return true;
        }
      }
      return false;
    }

    method ClearChain(w: World, canonical: Url)
      modifies this`canonicalizeCache
      ensures canonicalizeCache == KeptInChain(w, importers, canonical, old(canonicalizeCache))
    {
      hide AnyCould;
      var pending := canonicalizeCache.Keys;
      ghost var before := canonicalizeCache;
      while pending != {}
        invariant pending <= before.Keys && canonicalizeCache.Keys <= before.Keys
        invariant forall k <- before ::
                    k in canonicalizeCache <==> k in pending || !AnyCould(w, importers, k.url, canonical)
        invariant forall k <- canonicalizeCache :: canonicalizeCache[k] == before[k]
        decreases |pending|
      {
        var k :| k in pending;
        pending := pending - {k};
        var could := CouldCanonicalize(w, k.url, canonical);
        if could {
          canonicalizeCache := canonicalizeCache - {k};
        }
      }
    }

    method ClearPerImporter(w: World, canonical: Url)
      modifies this`perImporterCache
      ensures perImporterCache == KeptPerImporter(w, canonical, old(perImporterCache))
    {
      var pending := perImporterCache.Keys;
      ghost var before := perImporterCache;
      while pending != {}
        invariant pending <= before.Keys && perImporterCache.Keys <= before.Keys
        invariant forall k <- before :: k in perImporterCache <==> k in pending || !w.could(k.importer, k.url, canonical)
        invariant forall k <- perImporterCache :: perImporterCache[k] == before[k]
        decreases |pending|
      {
        var k :| k in pending;
        pending := pending - {k};
        if w.could(k.importer, k.url, canonical) {
          perImporterCache := perImporterCache - {k};
        }
      }
    }

    /**
     Forgets every cached answer that might change with `canonical`. What is left
     is valid in any world that differs from this one only where importers say
     they could give `canonical`.
     */
    method ClearCanonicalize(w: World, canonical: Url, ghost changed: World)
      requires Valid(w) && ChangesOnly(w, changed, canonical)
      modifies this
      ensures canonicalizeCache == KeptInChain(w, importers, canonical, old(canonicalizeCache))
      ensures perImporterCache == KeptPerImporter(w, canonical, old(perImporterCache))
      ensures forall k <- old(canonicalizeCache) ::
                if exists imp <- importers :: w.could(imp, k.url, canonical) then k !in canonicalizeCache
                else k in canonicalizeCache && canonicalizeCache[k] == old(canonicalizeCache)[k]
      ensures forall k <- old(perImporterCache) ::
                if w.could(k.importer, k.url, canonical) then k !in perImporterCache
                else k in perImporterCache && perImporterCache[k] == old(perImporterCache)[k]
      ensures Valid(changed)
    {
      ClearChain(w, canonical);
      ClearPerImporter(w, canonical);
      KeptIsValid(w, changed, canonical);
    }

    lemma KeptIsValid(w: World, changed: World, canonical: Url)
      requires Valid(w) && ChangesOnly(w, changed, canonical)
      requires forall k <- canonicalizeCache :: !AnyCould(w, importers, k.url, canonical)
      requires forall k <- perImporterCache :: !w.could(k.importer, k.url, canonical)
      ensures Valid(changed)
    {
      forall k | k in canonicalizeCache
        ensures ChainContextFree(changed, importers, k.url, k.forImport)
        ensures RunChain(changed, importers, k.url, None, k.forImport) == Done(canonicalizeCache[k])
      {
        UnchangedChain(w, changed, importers, canonical, k.url, k.forImport);
      }
    }
  }

  // ---- Invalidation ----

  predicate AnyCould(w: World, imps: seq<ImporterId>, u: Url, canonical: Url) {
    exists imp <- imps :: w.could(imp, u, canonical)
  }

  function KeptInChain(w: World, imps: seq<ImporterId>, canonical: Url, cache: map<Key, Option<CanonicalizeResult>>)
    : map<Key, Option<CanonicalizeResult>>
  {
    map k | k in cache && !AnyCould(w, imps, k.url, canonical) :: cache[k]
  }

  function KeptPerImporter(w: World, canonical: Url, cache: map<ImporterKey, Option<CanonicalizeResult>>)
    : map<ImporterKey, Option<CanonicalizeResult>>
  {
    map k | k in cache && !w.could(k.importer, k.url, canonical) :: cache[k]
  }

  /** Importers may behave differently only where they could have given `canonical`. */
  ghost predicate ChangesOnly(w: World, changed: World, canonical: Url) {
    && changed.nonCanonical == w.nonCanonical
    && forall imp, u, forImport ::
         !w.could(imp, u, canonical) ==> changed.script(imp, u, forImport) == w.script(imp, u, forImport)
  }

  lemma {:induction false} UnchangedChain(w: World, changed: World, imps: seq<ImporterId>, canonical: Url, u: Url,
                                          forImport: bool)
    requires ChangesOnly(w, changed, canonical) && !AnyCould(w, imps, u, canonical)
    ensures ChainContextFree(w, imps, u, forImport) ==> ChainContextFree(changed, imps, u, forImport)
    ensures RunChain(changed, imps, u, None, forImport) == RunChain(w, imps, u, None, forImport)
  {
    if imps != [] {
      assert imps[0] in imps && forall imp <- imps[1..] :: imp in imps;
      UnchangedChain(w, changed, imps[1..], canonical, u, forImport);
    }
  }

  // ---- Runs ----

  /** On anchored loads nothing is dropped. */
  lemma AnchoredIsUncached(w: World, imps: seq<ImporterId>, c: Call)
    requires c.Anchored(w)
    ensures WithDroppedHit(w, imps, c) == Uncached(w, imps, c)
  {}

  /** A load, or importers changing behaviour after which the affected answers are cleared. */
  datatype Event = Load(call: Call) | Change(world: World, canonical: Url)

  function WorldAfter(w: World, events: seq<Event>): World {
    if events == [] then w
    else
      var last := events[|events| - 1];
      if last.Change? then last.world else WorldAfter(w, events[..|events| - 1])
  }

  /** Loads are anchored, and each change touches only what is cleared with it. */
  ghost predicate Orderly(w: World, events: seq<Event>) {
    forall i | 0 <= i < |events| ::
      match events[i]
      case Load(c) => c.Anchored(WorldAfter(w, events[..i]))
      case Change(changed, canonical) => ChangesOnly(WorldAfter(w, events[..i]), changed, canonical)
  }

  /** In an orderly run nobody can tell that there is a cache. */
  method Run(w: World, importers: seq<ImporterId>, events: seq<Event>) returns (outcomes: seq<Option<Outcome>>)
    requires Orderly(w, events)
    ensures |outcomes| == |events|
    ensures forall i | 0 <= i < |events| && events[i].Load? ::
              && outcomes[i] == Some(Uncached(WorldAfter(w, events[..i]), importers, events[i].call))
              && LoadDecided(WorldAfter(w, events[..i]), importers, events[i].call, outcomes[i].value)
  {
    hide Uncached, WithDroppedHit, RunImporter, RunChain, ChainContextFree, ContextFree, ChangesOnly, LoadDecided;
    forall v, c ensures LoadDecided(v, importers, c, Uncached(v, importers, c)) { UncachedIsDecided(v, importers, c); }
    var cache := new ImportCache(importers);
    var world := w;
    outcomes := [];
    for i := 0 to |events|
      invariant fresh(cache) && cache.Valid(world) && cache.importers == importers
      invariant world == WorldAfter(w, events[..i])
      invariant |outcomes| == i
      invariant forall j | 0 <= j < i && events[j].Load? ::
                  outcomes[j] == Some(Uncached(WorldAfter(w, events[..j]), importers, events[j].call))
    {
      assert events[..i + 1][..i] == events[..i];
      match events[i]
      case Load(call) =>
        cache.ValidAgrees(world, call.base);
        AnchoredIsUncached(world, importers, call);
        var outcome := cache.Canonicalize(world, call);
        outcomes := outcomes + [Some(outcome)];
      case Change(changed, canonical) =>
        cache.ClearCanonicalize(world, canonical, changed);
        world := changed;
        outcomes := outcomes + [None];
    }
  }

  // ---- What anchoring is needed for ----

  /** Finds something at one URL only after looking at the load site, and nothing anywhere else. */
  function LooksAround(target: Url): (ImporterId, Url, bool) -> Script {
    (imp, u, forImport) => if u == target then AfterReading(_ => Found(Url("", ""))) else Outright(Miss)
  }

  /**
   A relative load that is not anchored can be told from one without a cache: with
   the same schemes and the same resolution of URLs, importers that look at the load
   site make it lose a hit.
   */
  lemma UnanchoredLosesHit(w: World, c: Call, imps: seq<ImporterId>)
    requires c.Relative() && c.base.Some? && c.base.value.scheme != "" && !c.Anchored(w)
    ensures exists s :: WithDroppedHit(w.(script := s), imps, c) != Uncached(w.(script := s), imps, c)
  {
    var resolved, imp := c.Resolved(w), c.baseImporter.value;
    var v := w.(script := LooksAround(resolved));
    assert c.Resolved(v) == resolved && v.Contextual(imp, resolved);
    assert RunImporter(v, imp, resolved, c.base, c.forImport) == Done(Some(CanonicalizeResult(imp, Url("", ""), resolved)));
    AllMiss(v, imps, c.url, c.base, c.forImport);
    assert WithDroppedHit(w.(script := LooksAround(resolved)), imps, c) != Uncached(w.(script := LooksAround(resolved)), imps, c);
  }

  /**
   Whatever the importers do, a load with an absolute base URL is answered as without
   a cache exactly when it is anchored, which the schemes and URLs alone decide.
   */
  lemma AnchoringDecides(w: World, c: Call, imps: seq<ImporterId>)
    requires c.base.Some? && c.base.value.scheme != ""
    ensures c.Anchored(w) <==> forall s :: WithDroppedHit(w.(script := s), imps, c) == Uncached(w.(script := s), imps, c)
  {
    if c.Anchored(w) {
      forall s ensures WithDroppedHit(w.(script := s), imps, c) == Uncached(w.(script := s), imps, c) {
        AnchoredIsUncached(w.(script := s), imps, c);
      }
    } else {
      UnanchoredLosesHit(w, c, imps);
    }
  }

  lemma {:induction false} AllMiss(w: World, imps: seq<ImporterId>, u: Url, base: Option<Url>, forImport: bool)
    requires forall imp <- imps :: w.script(imp, u, forImport) == Outright(Miss)
    ensures RunChain(w, imps, u, base, forImport) == Done(None)
  {
    if imps != [] {
      assert imps[0] in imps && forall imp <- imps[1..] :: imp in imps;
      AllMiss(w, imps[1..], u, base, forImport);
    }
  }

  /**
   A load without a base URL caches the answer of an importer that reads it,
   and so an answer another load site would contradict.
   */
  method NilBaseIsRemembered(w: World, imp: ImporterId, u: Url, base: Url, forImport: bool) returns (cache: ImportCache)
    requires RunImporter(w, imp, u, None, forImport) != Error
    requires RunImporter(w, imp, u, None, forImport) != RunImporter(w, imp, u, Some(base), forImport)
    ensures cache.importers == [imp] && Key(u, forImport) in cache.canonicalizeCache
    ensures Done(cache.canonicalizeCache[Key(u, forImport)])
            != Uncached(w, [imp], Call(u, None, Some(base), forImport))
  {
    cache := new ImportCache([imp]);
    var c := Call(u, None, None, forImport);
    cache.ValidAgrees(w, None);
    ChainOfOne(w, imp, u, None, forImport);
    ChainOfOne(w, imp, u, Some(base), forImport);
    var outcome := cache.Canonicalize(w, c);
  }

  lemma ChainOfOne(w: World, imp: ImporterId, u: Url, base: Option<Url>, forImport: bool)
    ensures RunChain(w, [imp], u, base, forImport) == RunImporter(w, imp, u, base, forImport)
  {
    assert [imp][1..] == [];
    assert RunChain(w, [], u, base, forImport) == Done(None);
  }
}
