/** Loading modules: each is evaluated once, and a load of one that is still being evaluated is a loop. */
module ModuleLoading {
  import opened Wrappers

  type Url = string

  /** A configuration: where it came from, whether a `with` clause made it, and what it sets. */
  datatype Config = Config(origin: nat, explicit: bool, names: set<string>)

  /** What evaluating a statement does here; `Raise` stands for every other error. */
  datatype Step = Load(url: Url, config: Option<Config>) | Raise

  datatype Sheet = Sheet(body: seq<Step>, configurable: set<string>)

  /** What is found at each URL, and the entrypoint, which may have no URL, with the configuration it starts under. */
  datatype Program = Program(sheets: map<Url, Sheet>, entry: Sheet, url: Option<Url>, config: Config)

  datatype Failure = Loop(url: Url) | Reconfigured(url: Url) | Raised

  predicate Loads(body: seq<Step>, url: Url) {
    exists s <- body :: s.Load? && s.url == url
  }

  /** What runs at the end of a chain of loads. */
  function Body(p: Program, path: seq<Url>): seq<Step> {
    if path == [] then p.entry.body
    else if path[|path| - 1] in p.sheets then p.sheets[path[|path| - 1]].body
    else []
  }

  /** Each module of the chain is loaded by the one before it, the first by the entrypoint. */
  ghost predicate Chain(p: Program, path: seq<Url>) {
    forall i | 0 <= i < |path| :: Loads(Body(p, path[..i]), path[i])
  }

  ghost predicate Reached(p: Program, url: Url) {
    exists path :: Chain(p, path + [url])
  }

  /** The chain comes back to something it has already been through. */
  predicate ComesBack(p: Program, path: seq<Url>, url: Url) {
    url in path || p.url == Some(url)
  }

  ghost predicate LoopReachable(p: Program) {
    exists path, url :: Chain(p, path + [url]) && ComesBack(p, path, url)
  }

  predicate Breaks(p: Program, body: seq<Step>) {
    exists s <- body :: s.Raise? || s.url !in p.sheets
  }

  ghost predicate BreakReachable(p: Program) {
    exists path :: Chain(p, path) && Breaks(p, Body(p, path))
  }

  /**
   The end of the chain runs under `config`: the last load gave it, or it is what
   the loading module runs under.
   */
  ghost predicate RunsUnder(p: Program, path: seq<Url>, config: Config)
    decreases |path|
  {
    if path == [] then config == p.config
    else
      var before, url := path[..|path| - 1], path[|path| - 1];
      || (Chain(p, before) && Load(url, Some(config)) in Body(p, before))
      || (RunsUnder(p, before, config) && Load(url, None) in Body(p, before))
  }

  ghost predicate LoadedUnder(p: Program, url: Url, config: Config) {
    exists path :: RunsUnder(p, path + [url], config)
  }

  /** An explicit configuration that is not the one a module was first loaded with, and that it could have used. */
  predicate Clash(first: Config, config: Config, configurable: set<string>) {
    first.origin != config.origin && config.explicit && config.names * configurable != {}
  }

  lemma ClashIsOverAName(first: Config, config: Config, configurable: set<string>)
    ensures Clash(first, config, configurable) <==>
              config.explicit && config.origin != first.origin && exists name <- config.names :: name in configurable
  {
    if name :| name in config.names && name in configurable {
      assert name in config.names * configurable;
    }
  }

  /** There is a reason for the failure that can be reached from the entrypoint. */
  ghost predicate Explained(p: Program, f: Failure) {
    match f
    case Loop(url) => exists path :: Chain(p, path + [url]) && ComesBack(p, path, url)
    case Reconfigured(url) =>
      url in p.sheets && exists first, config ::
        LoadedUnder(p, url, first) && LoadedUnder(p, url, config) && Clash(first, config, p.sheets[url].configurable)
    case Raised => BreakReachable(p)
  }

  // ---- What a program means ----

  /** How far a run has come: the modules evaluated, in order, what each was first loaded with, and what went wrong. */
  datatype Progress = Progress(order: seq<Url>, configs: map<Url, Config>, failure: Option<Failure>)

  /** Load by load: an unknown URL and a loop fail, a module seen before is not evaluated again. */
  function AfterLoad(p: Program, loading: set<Url>, config: Config, s: Progress, url: Url, with: Option<Config>): Progress
    decreases p.sheets.Keys - loading, 0
  {
    var current := if with.Some? then with.value else config;
    if url !in p.sheets then s.(failure := Some(Raised))
    else if url in loading then s.(failure := Some(Loop(url)))
    else if url in s.configs then
      if current.explicit && current.origin != s.configs[url].origin
         && exists name <- current.names :: name in p.sheets[url].configurable
      then s.(failure := Some(Reconfigured(url)))
      else s
    else
      assert url in p.sheets.Keys - loading;
      var after := AfterBody(p, loading + {url}, current, s, p.sheets[url].body);
      if after.failure.Some? then after else Progress(after.order + [url], after.configs[url := current], None)
  }

  /** The statements in order, up to the first that fails. */
  function AfterBody(p: Program, loading: set<Url>, config: Config, s: Progress, body: seq<Step>): Progress
    decreases p.sheets.Keys - loading, 1, |body|
  {
    if s.failure.Some? || body == [] then s
    else
      match body[0]
      case Raise => s.(failure := Some(Raised))
      case Load(url, with) =>
        AfterBody(p, loading, config, AfterLoad(p, loading, config, s, url, with), body[1..])
  }

  /** What becomes of the entrypoint. */
  function Meaning(p: Program): Progress {
    AfterBody(p, if p.url.Some? then {p.url.value} else {}, p.config, Progress([], map[], None), p.entry.body)
  }

  /** While a module is being loaded it is not refused as already loaded. */
  lemma {:induction false} NotRefusedWhileLoading(p: Program, loading: set<Url>, config: Config, s: Progress, body: seq<Step>,
                                                  url: Url)
    requires url in loading && s.failure != Some(Reconfigured(url))
    ensures AfterBody(p, loading, config, s, body).failure != Some(Reconfigured(url))
    decreases p.sheets.Keys - loading, |body|
  {
    if s.failure.None? && body != [] && body[0].Load? {
      var u, with := body[0].url, body[0].config;
      var current := if with.Some? then with.value else config;
      if u in p.sheets && u !in loading {
        assert u in p.sheets.Keys - loading;
        NotRefusedWhileLoading(p, loading + {u}, current, s, p.sheets[u].body, url);
      }
      NotRefusedWhileLoading(p, loading, config, AfterLoad(p, loading, config, s, u, with), body[1..], url);
    }
  }

  /**
   Using a module and then using it again with a configuration of its own is refused
   exactly when the module can be loaded and the configuration sets a variable that
   could have been configured.
   */
  lemma {:induction false} ConfiguredTooLate(p: Program, url: Url, with: Config)
    requires p.entry.body == [Load(url, None), Load(url, Some(with))] && with.explicit && with.origin != p.config.origin
    ensures var once := p.(entry := p.entry.(body := [Load(url, None)]));
            Meaning(p).failure ==
              if Meaning(once).failure.Some? then Meaning(once).failure
              else if url in p.sheets && with.names * p.sheets[url].configurable != {} then Some(Reconfigured(url))
              else None
    ensures Meaning(p).failure == Some(Reconfigured(url)) <==>
              && Meaning(p.(entry := p.entry.(body := [Load(url, None)]))).failure.None?
              && url in p.sheets && with.names * p.sheets[url].configurable != {}
  {
    hide AfterLoad;
    var once := p.(entry := p.entry.(body := [Load(url, None)]));
    var loading, start := if p.url.Some? then {p.url.value} else {}, Progress([], map[], None);
    var first := AfterLoad(p, loading, p.config, start, url, None);
    assert Meaning(once) == first by {
      SameSheets(p, once, loading, p.config, start, once.entry.body);
      assert AfterBody(p, loading, p.config, start, once.entry.body) == AfterBody(p, loading, p.config, first, []);
    }
    FirstLoad(p, loading, start, url);
    assert p.entry.body[1..] == [Load(url, Some(with))];
    assert Meaning(p) == AfterBody(p, loading, p.config, first, p.entry.body[1..]);
    if first.failure.None? {
      SecondLoad(p, loading, first, url, with);
      var second := AfterLoad(p, loading, p.config, first, url, Some(with));
      assert p.entry.body[1..][1..] == [];
      assert AfterBody(p, loading, p.config, first, p.entry.body[1..]) == AfterBody(p, loading, p.config, second, []);
    }
  }

  lemma {:induction false} FirstLoad(p: Program, loading: set<Url>, start: Progress, url: Url)
    requires start == Progress([], map[], None)
    ensures var first := AfterLoad(p, loading, p.config, start, url, None);
            && first.failure != Some(Reconfigured(url))
            && (first.failure.None? ==>
                  url in p.sheets && url !in loading && url in first.configs && first.configs[url] == p.config)
  {
    if url in p.sheets && url !in loading {
      assert url in p.sheets.Keys - loading;
      NotRefusedWhileLoading(p, loading + {url}, p.config, start, p.sheets[url].body, url);
    }
  }

  lemma {:induction false} SecondLoad(p: Program, loading: set<Url>, first: Progress, url: Url, with: Config)
    requires first.failure.None? && url in p.sheets && url !in loading && url in first.configs
    requires first.configs[url] == p.config && with.explicit && with.origin != p.config.origin
    ensures AfterLoad(p, loading, p.config, first, url, Some(with)).failure ==
              if with.names * p.sheets[url].configurable != {} then Some(Reconfigured(url)) else None
  {
    if with.names * p.sheets[url].configurable != {} {
      var name :| name in with.names * p.sheets[url].configurable;
      assert name in with.names && name in p.sheets[url].configurable;
    } else {
      forall name <- with.names ensures name !in p.sheets[url].configurable {
        assert name !in with.names * p.sheets[url].configurable;
      }
    }
  }

  /** Only the sheets and what is being loaded matter to a list of statements. */
  lemma {:induction false} SameSheets(p: Program, q: Program, loading: set<Url>, config: Config, s: Progress, body: seq<Step>)
    requires p.sheets == q.sheets
    ensures AfterBody(p, loading, config, s, body) == AfterBody(q, loading, config, s, body)
    decreases p.sheets.Keys - loading, |body|
  {
    if s.failure.None? && body != [] && body[0].Load? {
      var u, with := body[0].url, body[0].config;
      var current := if with.Some? then with.value else config;
      if u in p.sheets && u !in loading {
        assert u in p.sheets.Keys - loading;
        SameSheets(p, q, loading + {u}, current, s, p.sheets[u].body);
      }
      SameSheets(p, q, loading, config, AfterLoad(p, loading, config, s, u, with), body[1..]);
    }
  }

  /** `@use "a"` and then `@use "a" with ($x: 1)`: refused exactly if `a` loads and has an `$x` to configure. */
  lemma {:induction false} UseThenUseWith(sheets: map<Url, Sheet>, url: Option<Url>, config: Config)
    requires config.origin == 0
    ensures var use, useWith := Load("a", None), Load("a", Some(Config(1, true, {"x"})));
            Meaning(Program(sheets, Sheet([use, useWith], {}), url, config)).failure == Some(Reconfigured("a")) <==>
              && Meaning(Program(sheets, Sheet([use], {}), url, config)).failure.None?
              && "a" in sheets && "x" in sheets["a"].configurable
  {
    hide Meaning;
    var with := Config(1, true, {"x"});
    var p := Program(sheets, Sheet([Load("a", None), Load("a", Some(with))], {}), url, config);
    ConfiguredTooLate(p, "a", with);
    assert p.(entry := p.entry.(body := [Load("a", None)])) == Program(sheets, Sheet([Load("a", None)], {}), url, config);
    if "a" in sheets {
      assert "x" in sheets["a"].configurable ==> "x" in with.names * sheets["a"].configurable;
    }
  }

  // ---- Chains of loads ----

  lemma ChainGrows(p: Program, path: seq<Url>, url: Url)
    requires Chain(p, path) && Loads(Body(p, path), url)
    ensures Chain(p, path + [url])
  {
    var longer := path + [url];
    forall i | 0 <= i < |longer| ensures Loads(Body(p, longer[..i]), longer[i]) {
      assert longer[..i] == path[..i];
      assert i == |path| ==> path[..i] == path;
    }
  }

  lemma ChainShrinks(p: Program, path: seq<Url>, url: Url)
    requires Chain(p, path + [url])
    ensures Chain(p, path) && Loads(Body(p, path), url)
  {
    var longer := path + [url];
    assert longer[..|path|] == path && longer[|path|] == url;
    forall i | 0 <= i < |path| ensures Loads(Body(p, path[..i]), path[i]) {
      assert longer[..i] == path[..i] && longer[i] == path[i];
    }
  }

  lemma StepLoads(p: Program, path: seq<Url>, active: set<Url>, url: Url, with: Option<Config>, config: Config)
    requires AreLoading(p, path, active) && RunsUnder(p, path, config)
    requires Chain(p, path) && Load(url, with) in Body(p, path)
    ensures Chain(p, path + [url])
    ensures RunsUnder(p, path + [url], if with.Some? then with.value else config)
    ensures url in active ==> Explained(p, Loop(url))
  {
    assert (path + [url])[..|path|] == path;
    ChainGrows(p, path, url);
  }

  lemma StepBreaks(p: Program, path: seq<Url>, s: Step)
    requires Chain(p, path) && s in Body(p, path) && (s.Raise? || s.url !in p.sheets)
    ensures Explained(p, Raised)
  {
    hide Chain;
    assert Breaks(p, Body(p, path));
  }

  lemma ChainReaches(p: Program, path: seq<Url>)
    requires Chain(p, path) && path != []
    ensures Reached(p, path[|path| - 1])
  {
    hide Chain;
    assert path[..|path| - 1] + [path[|path| - 1]] == path;
  }

  lemma RefusalIsExplained(p: Program, url: Url, first: Config, config: Config)
    requires url in p.sheets && LoadedUnder(p, url, first) && LoadedUnder(p, url, config)
    requires Clash(first, config, p.sheets[url].configurable)
    ensures Explained(p, Reconfigured(url))
  {
    hide LoadedUnder, Clash;
  }

  lemma RunsUnderLoads(p: Program, path: seq<Url>, config: Config)
    requires RunsUnder(p, path, config) && path != []
    ensures LoadedUnder(p, path[|path| - 1], config)
  {
    hide RunsUnder;
    assert path[..|path| - 1] + [path[|path| - 1]] == path;
  }

  /** The URLs are those of the loads that led here. */
  ghost predicate AreLoading(p: Program, path: seq<Url>, active: set<Url>) {
    forall u :: u in active <==> ComesBack(p, path, u)
  }

  /** What was recorded stays as it was. */
  predicate Extends<V(==)>(before: map<Url, V>, after: map<Url, V>) {
    forall u <- before :: u in after && after[u] == before[u]
  }

  lemma OneMoreLoading(p: Program, path: seq<Url>, active: set<Url>, url: Url)
    requires AreLoading(p, path, active) && url !in active && url in p.sheets
    ensures AreLoading(p, path + [url], active + {url}) && p.sheets.Keys - (active + {url}) < p.sheets.Keys - active
    ensures active + {url} - {url} == active
  {
    assert url in p.sheets.Keys - active;
  }

  /** What a loaded module is, or why the run fails. */
  datatype Outcome = Loaded(evaluation: nat) | Failed(error: Failure) {
    function Failure(): Option<Failure> { if Failed? then Some(error) else None }
  }

  class Loader {
    const p: Program
    /** What is being loaded right now. */
    var active: set<Url>
    /** Which evaluation made each loaded module. */
    var modules: map<Url, nat>
    var configs: map<Url, Config>
    var config: Config
    var evaluations: nat
    /** The evaluated modules, in the order in which they finished. */
    ghost var order: seq<Url>

    constructor (p: Program)
      ensures this.p == p && Valid() && OnStack([]) && RunsUnder(p, [], config) && config == p.config
      ensures Now(None) == Progress([], map[], None) && active == if p.url.Some? then {p.url.value} else {}
    {
      this.p := p;
      active := if p.url.Some? then {p.url.value} else {};
      modules, configs, config, evaluations, order := map[], map[], p.config, 0, [];
    }

    /** What a module loads was evaluated before it. */
    ghost predicate LoadedBefore(url: Url)
      requires url in modules
      reads this`modules
    {
      && url in p.sheets && Reached(p, url)
      && forall s <- p.sheets[url].body :: s.Load? && s.url in modules && modules[s.url] < modules[url]
    }

    /** The modules are numbered in the order in which they were evaluated. */
    ghost predicate Numbered()
      reads this`modules, this`configs, this`evaluations, this`order
    {
      && configs.Keys == modules.Keys && evaluations == |order|
      && (forall i | 0 <= i < |order| :: order[i] in modules && modules[order[i]] == i)
      && (forall u <- modules :: modules[u] < |order| && order[modules[u]] == u && LoadedBefore(u))
    }

    ghost predicate Valid()
      reads this
    {
      Numbered() && forall u <- configs :: LoadedUnder(p, u, configs[u])
    }

    ghost predicate OnStack(path: seq<Url>)
      reads this`active
    {
      Chain(p, path) && AreLoading(p, path, active)
    }

    function Current(with: Option<Config>): Config
      reads this`config
    {
      if with.Some? then with.value else config
    }

    predicate Clashes(url: Url, with: Option<Config>)
      requires url in configs && url in p.sheets
      reads this`configs, this`config
    {
      Clash(configs[url], Current(with), p.sheets[url].configurable)
    }

    /** How far the run has come. */
    ghost function Now(failure: Option<Failure>): Progress
      reads this`order, this`configs
    {
      Progress(order, configs, failure)
    }

    /**
     What a load that is not a loop comes to. A module loaded before is refused exactly
     if the current configuration is explicit, comes from somewhere else than the one
     recorded, and sets a name the module could have been configured with.
     */
    twostate predicate Remembered(url: Url, with: Option<Config>, r: Outcome)
      requires url in p.sheets
      reads this
    {
      if url in old(modules) && url in old(configs) then
        var current := if with.Some? then with.value else old(config);
        var refused := current.explicit && current.origin != old(configs)[url].origin
                       && exists name <- current.names :: name in p.sheets[url].configurable;
        r == if refused then Failed(Reconfigured(url)) else Loaded(old(modules)[url])
      else
        r.Loaded? ==> url in configs && configs[url] == old(Current(with)) && url in modules && r.evaluation == modules[url]
    }

    /** The loads in progress are the same, and nothing that is in progress was recorded as loaded. */
    twostate predicate Kept()
      reads this
    {
      && active == old(active) && config == old(config)
      && Extends(old(modules), modules) && Extends(old(configs), configs)
      && forall u <- modules :: u in active ==> u in old(modules)
    }

    /**
     Loads a module: a loop if that is already in progress, else the one evaluation
     of it. Whatever happens, the loads in progress are afterwards what they were.
     */
    method LoadModule(url: Url, with: Option<Config>, ghost path: seq<Url>) returns (r: Outcome, firstLoad: bool)
      requires Valid() && OnStack(path) && RunsUnder(p, path, config) && Load(url, with) in Body(p, path)
      modifies this
      decreases p.sheets.Keys - active, 0
      ensures Valid() && Kept()
      ensures r.Loaded? ==> url in modules && r.evaluation == modules[url] && (firstLoad <==> url !in old(modules))
      ensures if url !in p.sheets then r == Failed(Raised)
              else if url in old(active) then r == Failed(Loop(url))
              else Remembered(url, with, r)
      ensures Now(r.Failure()) == AfterLoad(p, old(active), old(config), old(Now(None)), url, with)
      ensures r.Failed? ==> Explained(p, r.error)
    {
      hide AreLoading, Loader.Numbered, Loader.Clashes, Explained, Chain, RunsUnder, LoadedUnder, Body, Breaks, Loads;
      if url !in p.sheets {
        StepBreaks(p, path, Load(url, with));
        return Failed(Raised), false;
      }
      StepLoads(p, path, active, url, with, config);
      if url in active {
        return Failed(Loop(url)), false;
      }
      OneMoreLoading(p, path, active, url);
      active := active + {url};
      firstLoad := url !in modules;
      r := EvaluateModule(url, with, path + [url]);
      active := active - {url};
    }

    /** Evaluates a module unless that has been done, under the given configuration or else the current one. */
    method EvaluateModule(url: Url, with: Option<Config>, ghost path: seq<Url>) returns (r: Outcome)
      requires Valid() && OnStack(path) && path != [] && path[|path| - 1] == url && url in p.sheets
      requires RunsUnder(p, path, Current(with))
      modifies this
      decreases p.sheets.Keys - active, 2
      ensures Valid() && active == old(active) && config == old(config)
      ensures Extends(old(modules), modules) && Extends(old(configs), configs)
      ensures forall u <- modules :: u in active ==> u in old(modules) || u == url
      ensures r.Loaded? ==> url in modules && r.evaluation == modules[url]
      ensures Remembered(url, with, r)
      ensures Now(r.Failure()) == AfterLoad(p, old(active) - {url}, old(config), old(Now(None)), url, with)
      ensures r.Failed? ==> Explained(p, r.error)
    {
      hide Loader.Numbered, Chain, RunsUnder, LoadedUnder, Explained, Loads, AfterBody, Clash;
      KeysAgree();
      var current := Current(with);
      assert active - {url} + {url} == active;
      RunsUnderLoads(p, path, current);
      if url in modules {
        ClashIsOverAName(configs[url], current, p.sheets[url].configurable);
        if Clashes(url, with) {
          RefusalIsExplained(p, url, configs[url], current);
          return Failed(Reconfigured(url));
        }
        return Loaded(modules[url]);
      }
      var oldConfig := config;
      config := current;
      assert url in active;
      var failure := VisitBody(p.sheets[url].body, path);
      config := oldConfig;
      if failure.Some? {
        return Failed(failure.value);
      }
      Record(url, current, path);
      return Loaded(modules[url]);
    }

    lemma KeysAgree()
      requires Numbered()
      ensures configs.Keys == modules.Keys
    {}

    method Record(url: Url, current: Config, ghost path: seq<Url>)
      requires Numbered() && Chain(p, path) && path != [] && path[|path| - 1] == url && url in p.sheets && url !in modules
      requires forall s <- p.sheets[url].body :: s.Load? && s.url in modules
      modifies this`modules, this`configs, this`order, this`evaluations
      ensures Numbered() && modules == old(modules)[url := old(evaluations)] && configs == old(configs)[url := current]
      ensures order == old(order) + [url]
    {
      hide Chain;
      ChainReaches(p, path);
      modules, configs := modules[url := evaluations], configs[url := current];
      order, evaluations := order + [url], evaluations + 1;
      forall u <- modules ensures LoadedBefore(u) {
        if u != url {
          assert old(LoadedBefore(u));
        }
      }
    }

    method VisitBody(body: seq<Step>, ghost path: seq<Url>) returns (failure: Option<Failure>)
      requires Valid() && OnStack(path) && RunsUnder(p, path, config) && body == Body(p, path)
      modifies this
      decreases p.sheets.Keys - active, 1
      ensures Valid() && Kept()
      ensures failure.None? ==> forall s <- body :: s.Load? && s.url in modules
      ensures Now(failure) == AfterBody(p, active, config, old(Now(None)), body)
      ensures failure.Some? ==> Explained(p, failure.value)
    {
      hide Loader.Valid, Explained, Chain, RunsUnder, AfterLoad;
      for i := 0 to |body|
        invariant Valid() && Kept()
        invariant AfterBody(p, active, config, Now(None), body[i..]) == AfterBody(p, active, config, old(Now(None)), body)
        invariant forall j | 0 <= j < i :: body[j].Load? && body[j].url in modules
      {
        match body[i] {
          case Raise =>
            StepBreaks(p, path, Raise);
            return Some(Raised);
          case Load(url, with) =>
            var r, _ := LoadModule(url, with, path);
            if r.Failed? {
              return Some(r.error);
            }
        }
      }
      return None;
    }
  }

  /** The run stopped for a reason that can be reached, or evaluated exactly what can be reached. */
  ghost predicate Explains(p: Program, failure: Option<Failure>, order: seq<Url>) {
    match failure
    case Some(f) => Explained(p, f)
    case None =>
      && (forall u :: u in order <==> Reached(p, u))
      && (forall i, j | 0 <= i < j < |order| :: order[i] != order[j])
      && (forall i | 0 <= i < |order| :: order[i] in p.sheets && LoadsOnly(p.sheets[order[i]].body, order[..i]))
      && LoadsOnly(p.entry.body, order) && (p.url.Some? ==> p.url.value !in order)
  }

  predicate LoadsOnly(body: seq<Step>, urls: seq<Url>) {
    forall s <- body :: s.Load? && s.url in urls
  }

  /** Everything a chain of loads reaches is in a list that holds what its members and the entrypoint load. */
  lemma {:induction false} ClosedHoldsReached(p: Program, order: seq<Url>, path: seq<Url>)
    requires Chain(p, path) && path != [] && LoadsOnly(p.entry.body, order)
    requires forall u <- order :: u in p.sheets && LoadsOnly(p.sheets[u].body, order)
    ensures path[|path| - 1] in order
    decreases |path|
  {
    var before, url := path[..|path| - 1], path[|path| - 1];
    assert before + [url] == path;
    ChainShrinks(p, before, url);
    if before != [] {
      ClosedHoldsReached(p, order, before);
    }
  }

  /** When everything that was to be loaded was loaded, that is all there is to reach. */
  lemma EverythingWasLoaded(loader: Loader)
    requires loader.Valid() && loader.OnStack([]) && LoadsOnly(loader.p.entry.body, loader.order)
    requires forall u <- loader.modules :: u !in loader.active
    ensures Explains(loader.p, None, loader.order)
  {
    hide Chain;
    var p, order := loader.p, loader.order;
    forall i | 0 <= i < |order|
      ensures order[i] in p.sheets && LoadsOnly(p.sheets[order[i]].body, order[..i]) && Reached(p, order[i])
    {
      assert loader.LoadedBefore(order[i]);
      forall s | s in p.sheets[order[i]].body ensures s.Load? && s.url in order[..i] {
        assert order[..i][loader.modules[s.url]] == s.url;
      }
    }
    forall u | Reached(p, u) ensures u in order {
      var path :| Chain(p, path + [u]);
      ClosedHoldsReached(p, order, path + [u]);
    }
  }

  /** Along a chain of loads the modules were evaluated later and later towards the start. */
  lemma {:induction false} ChainDescends(p: Program, order: seq<Url>, path: seq<Url>, i: nat)
    requires Explains(p, None, order) && Chain(p, path) && i < |path|
    ensures exists a, b | 0 <= a <= b < |order| ::
              order[a] == path[|path| - 1] && order[b] == path[i] && (a == b ==> i == |path| - 1)
    decreases |path|
  {
    hide Chain;
    var before, url := path[..|path| - 1], path[|path| - 1];
    assert before + [url] == path;
    assert Reached(p, url);
    var a :| 0 <= a < |order| && order[a] == url;
    if i < |path| - 1 {
      ChainShrinks(p, before, url);
      ChainDescends(p, order, before, i);
      var c, b :| 0 <= c <= b < |order| && order[c] == before[|before| - 1] && order[b] == before[i];
      assert Body(p, before) == p.sheets[order[c]].body && url in order[..c];
      var k :| 0 <= k < c && order[k] == url;
      assert order[k] == path[|path| - 1] && order[b] == path[i] && k < b;
    } else {
      assert order[a] == path[i];
    }
  }

  lemma LoadedWithoutLoop(p: Program, order: seq<Url>, path: seq<Url>, url: Url)
    requires Explains(p, None, order) && Chain(p, path + [url])
    ensures !ComesBack(p, path, url)
  {
    hide Chain;
    var longer := path + [url];
    assert Reached(p, url);
    if url in path {
      var i :| 0 <= i < |path| && path[i] == url;
      assert longer[i] == path[i];
      ChainDescends(p, order, longer, i);
      assert false;
    }
  }

  lemma LoadedWithoutBreak(p: Program, order: seq<Url>, path: seq<Url>)
    requires Explains(p, None, order) && Chain(p, path)
    ensures !Breaks(p, Body(p, path))
  {
    hide Chain;
    if path != [] {
      ChainReaches(p, path);
      assert path[|path| - 1] in order;
    }
  }

  /** A run succeeds only where nothing that can be reached loops or breaks. */
  lemma LoadedMeansSound(p: Program, order: seq<Url>)
    requires Explains(p, None, order)
    ensures !LoopReachable(p) && !BreakReachable(p)
  {
    hide Chain, Explains;
    forall path, url | Chain(p, path + [url]) ensures !ComesBack(p, path, url) {
      LoadedWithoutLoop(p, order, path, url);
    }
    forall path | Chain(p, path) ensures !Breaks(p, Body(p, path)) {
      LoadedWithoutBreak(p, order, path);
    }
  }

  /**
   Where nothing in reach breaks and no module is loaded under configurations that
   clash, a run fails exactly when a loop can be reached from the entrypoint, and then
   with a loop error.
   */
  lemma FailsExactlyOnLoops(p: Program, failure: Option<Failure>, order: seq<Url>)
    requires Explains(p, failure, order) && !BreakReachable(p)
    requires forall url :: !Explained(p, Reconfigured(url))
    ensures failure.Some? <==> LoopReachable(p)
    ensures failure.Some? ==> failure.value.Loop?
  {
    hide Chain, Breaks, LoadedUnder;
    if failure.None? {
      LoadedMeansSound(p, order);
    }
  }

  /**
   Runs the entrypoint. It either fails for a reason that can be reached, or every
   module in reach has been evaluated once, after what it loads.
   */
  method Run(p: Program) returns (failure: Option<Failure>, ghost order: seq<Url>)
    ensures failure == Meaning(p).failure && order == Meaning(p).order
    ensures Explains(p, failure, order)
    ensures if failure.Some? then Explained(p, failure.value) else !LoopReachable(p) && !BreakReachable(p)
  {
    hide Explained, Chain, LoopReachable, BreakReachable;
    var loader := new Loader(p);
    failure := loader.VisitBody(p.entry.body, []);
    order := loader.order;
    if failure.None? {
      EverythingWasLoaded(loader);
      LoadedMeansSound(p, order);
    }
  }
}
