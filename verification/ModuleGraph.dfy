/** Putting the CSS of a module graph together, upstream modules first. */
module ModuleGraphs {
  import opened Collections
  import opened Wrappers

  type ModuleId = nat

  datatype Statement = Import(text: string) | Comment(text: string) | Other(text: string)

  /** Loaded modules: what each uses, its CSS, and whether it or anything upstream has CSS. */
  datatype Graph = Graph(
    modules: set<ModuleId>,
    upstream: map<ModuleId, seq<ModuleId>>,
    css: map<ModuleId, seq<Statement>>,
    containsCss: map<ModuleId, bool>,
    comments: map<(ModuleId, ModuleId), seq<Statement>>)
  {
    predicate Closed() {
      && upstream.Keys == modules && css.Keys == modules && containsCss.Keys == modules
      && forall m <- modules :: forall u <- upstream[m] :: u in modules
    }

    /** `u` is a module `m` uses, and has CSS somewhere upstream. */
    predicate Uses(m: ModuleId, u: ModuleId)
      requires Closed()
    {
      m in modules && u in upstream[m] && containsCss[u]
    }

    /** Every module ranks above what it uses: there is no cycle. */
    ghost predicate Ranked(rank: ModuleId -> nat)
      requires Closed()
    {
      forall m, u :: Uses(m, u) ==> rank(u) < rank(m)
    }
  }

  ghost predicate IsPath(g: Graph, path: seq<ModuleId>)
    requires g.Closed()
  {
    path != [] && path[0] in g.modules && forall i | 0 <= i < |path| - 1 :: g.Uses(path[i], path[i + 1])
  }

  /** `to` can be reached from `from` through modules with CSS. */
  ghost predicate Reaches(g: Graph, from: ModuleId, other: ModuleId)
    requires g.Closed()
  {
    exists path :: IsPath(g, path) && path[0] == from && path[|path| - 1] == other
  }

  lemma ReachesSelf(g: Graph, m: ModuleId)
    requires g.Closed() && m in g.modules
    ensures Reaches(g, m, m)
  {
    assert IsPath(g, [m]) && [m][0] == m && [m][|[m]| - 1] == m;
  }

  lemma ReachesBefore(g: Graph, m: ModuleId, u: ModuleId, x: ModuleId)
    requires g.Closed() && g.Uses(m, u) && Reaches(g, u, x)
    ensures Reaches(g, m, x)
  {
    var path :| IsPath(g, path) && path[0] == u && path[|path| - 1] == x;
    var longer := [m] + path;
    forall i | 0 <= i < |longer| - 1 ensures g.Uses(longer[i], longer[i + 1]) {
      assert i > 0 ==> longer[i] == path[i - 1] && longer[i + 1] == path[i];
    }
    assert IsPath(g, longer) && longer[0] == m && longer[|longer| - 1] == x;
  }

  /** A set that holds a module and everything its members use holds all it reaches. */
  lemma {:induction false} ClosedHoldsReachable(g: Graph, s: set<ModuleId>, path: seq<ModuleId>)
    requires g.Closed() && IsPath(g, path) && path[0] in s
    requires forall m, u | m in s && g.Uses(m, u) :: u in s
    ensures path[|path| - 1] in s
    decreases |path|
  {
    if |path| > 1 {
      assert g.Uses(path[0], path[1]);
      forall i | 0 <= i < |path[1..]| - 1 ensures g.Uses(path[1..][i], path[1..][i + 1]) {
        assert g.Uses(path[i + 1], path[i + 1 + 1]);
      }
      ClosedHoldsReachable(g, s, path[1..]);
    }
  }

  // ---- Imports first ----

  /** Where the leading imports end; comments between them belong to them. */
  function LeadingImports(statements: seq<Statement>): (n: nat)
    ensures n <= |statements|
  {
    if statements == [] then 0
    else
      match statements[0]
      case Import(_) => 1 + LeadingImports(statements[1..])
      case Comment(_) => if LeadingImports(statements[1..]) == 0 then 0 else 1 + LeadingImports(statements[1..])
      case Other(_) => 0
  }

  /** No import stands among the leading imports' successors before something that is neither, and none is cut off. */
  lemma {:induction false} LeadingImportsEnd(statements: seq<Statement>)
    ensures var n := LeadingImports(statements);
            && n <= |statements|
            && (n > 0 ==> statements[n - 1].Import?)
            && (forall i | 0 <= i < n :: !statements[i].Other?)
            && (forall i | n <= i < |statements| && statements[i].Import? ::
                  exists j | n <= j < i :: statements[j].Other?)
  {
    if statements != [] {
      LeadingImportsEnd(statements[1..]);
      var n := LeadingImports(statements);
      forall i | n <= i < |statements| && statements[i].Import? ensures exists j | n <= j < i :: statements[j].Other? {
        if i > 0 && !statements[0].Other? {
          assert statements[1..][i - 1].Import?;
          var j :| LeadingImports(statements[1..]) <= j < i - 1 && statements[1..][j].Other?;
          assert statements[j + 1].Other?;
        }
      }
    }
  }

  method IndexAfterImports(statements: seq<Statement>) returns (index: nat)
    ensures index == LeadingImports(statements)
  {
    var lastImport := -1;
    var i := 0;
    while i < |statements|
      invariant 0 <= i <= |statements| && -1 <= lastImport < i
      invariant LeadingImports(statements) == if LeadingImports(statements[i..]) == 0 then lastImport + 1
                                              else i + LeadingImports(statements[i..])
    {
      assert statements[i..][1..] == statements[i + 1..];
      match statements[i] {
        case Import(_) => lastImport := i;
        case Comment(_) =>
        case Other(_) => return lastImport + 1;
      }
      i := i + 1;
    }
    assert statements[i..] == [];
    return lastImport + 1;
  }

  // ---- The order of modules ----

  /** What `m` uses, of the first `k` it names, that has CSS. */
  function Used(g: Graph, m: ModuleId, k: nat): seq<ModuleId>
    requires g.Closed() && m in g.modules && k <= |g.upstream[m]|
  {
    if k == 0 then []
    else Used(g, m, k - 1) + if g.containsCss[g.upstream[m][k - 1]] then [g.upstream[m][k - 1]] else []
  }

  /** Depth-first: of the modules to visit and not seen yet, each after all it uses. */
  function Order(g: Graph, todo: seq<ModuleId>, seen: set<ModuleId>): (order: seq<ModuleId>)
    requires g.Closed()
    ensures forall x <- order :: x in g.modules
    decreases g.modules - seen, |todo|
  {
    if todo == [] then []
    else if todo[0] in seen || todo[0] !in g.modules then Order(g, todo[1..], seen)
    else
      assert todo[0] in g.modules - seen;
      var inner := Order(g, Used(g, todo[0], |g.upstream[todo[0]]|), seen + {todo[0]});
      inner + [todo[0]] + Order(g, todo[1..], seen + {todo[0]} + Members(inner))
  }

  function Reversed<T>(s: seq<T>): seq<T> { seq(|s|, i requires 0 <= i < |s| => s[|s| - 1 - i]) }

  lemma MembersOfThree(a: seq<ModuleId>, m: ModuleId, b: seq<ModuleId>, seen: set<ModuleId>)
    ensures seen + {m} + Members(a) + Members(b) == seen + Members(a + [m] + b)
  {}

  lemma {:induction false} OrderConcat(g: Graph, a: seq<ModuleId>, b: seq<ModuleId>, seen: set<ModuleId>)
    requires g.Closed()
    ensures Order(g, a + b, seen) == Order(g, a, seen) + Order(g, b, seen + Members(Order(g, a, seen)))
    decreases g.modules - seen, |a|
  {
    hide Members, Used;
    if a == [] {
      assert a + b == b;
      NoMembers(seen);
    } else {
      assert (a + b)[1..] == a[1..] + b;
      if a[0] in seen || a[0] !in g.modules {
        OrderConcat(g, a[1..], b, seen);
      } else {
        assert a[0] in g.modules - seen;
        var inner := Order(g, Used(g, a[0], |g.upstream[a[0]]|), seen + {a[0]});
        var now := seen + {a[0]} + Members(inner);
        OrderConcat(g, a[1..], b, now);
        var rest := Order(g, a[1..], now);
        MembersOfThree(inner, a[0], rest, seen);
        assert inner + [a[0]] + (rest + Order(g, b, now + Members(rest)))
            == inner + [a[0]] + rest + Order(g, b, now + Members(rest));
      }
    }
  }

  lemma NoMembers(seen: set<ModuleId>)
    ensures seen + Members<ModuleId>([]) == seen
  {}

  lemma OrderOfOne(g: Graph, m: ModuleId, seen: set<ModuleId>)
    requires g.Closed() && m in g.modules
    ensures Order(g, [m], seen) == if m in seen then [] else Order(g, Used(g, m, |g.upstream[m]|), seen + {m}) + [m]
  {}

  /** What is visited is reached from something that was to be visited. */
  lemma {:induction false} OrderIsReached(g: Graph, todo: seq<ModuleId>, seen: set<ModuleId>, x: ModuleId)
    requires g.Closed() && x in Order(g, todo, seen)
    ensures exists t <- todo :: Reaches(g, t, x)
    decreases g.modules - seen, |todo|
  {
    hide Reaches;
    if todo[0] in seen || todo[0] !in g.modules {
      OrderIsReached(g, todo[1..], seen, x);
      var t :| t in todo[1..] && Reaches(g, t, x);
      assert t in todo;
    } else {
      var m := todo[0];
      assert m in g.modules - seen;
      var used := Used(g, m, |g.upstream[m]|);
      var inner := Order(g, used, seen + {m});
      if x in inner {
        OrderIsReached(g, used, seen + {m}, x);
        var t :| t in used && Reaches(g, t, x);
        UsedIsUsed(g, m, |g.upstream[m]|, t);
        ReachesBefore(g, m, t, x);
      } else if x == m {
        ReachesSelf(g, m);
      } else {
        OrderIsReached(g, todo[1..], seen + {m} + Members(inner), x);
        var t :| t in todo[1..] && Reaches(g, t, x);
        assert t in todo;
      }
    }
  }

  lemma {:induction false} UsedIsUsed(g: Graph, m: ModuleId, k: nat, u: ModuleId)
    requires g.Closed() && m in g.modules && k <= |g.upstream[m]|
    ensures u in Used(g, m, k) <==> exists j | 0 <= j < k :: g.upstream[m][j] == u && g.containsCss[u]
    ensures u in Used(g, m, k) ==> g.Uses(m, u)
  {
    if k > 0 {
      UsedIsUsed(g, m, k - 1, u);
    }
  }

  /** Everything that was to be visited has been seen in the end. */
  lemma {:induction false} OrderHolds(g: Graph, todo: seq<ModuleId>, seen: set<ModuleId>, t: ModuleId)
    requires g.Closed() && t in todo && t in g.modules
    ensures t in seen || t in Order(g, todo, seen)
    decreases g.modules - seen, |todo|
  {
    if todo[0] in seen || todo[0] !in g.modules {
      if t != todo[0] {
        OrderHolds(g, todo[1..], seen, t);
      }
    } else if t != todo[0] {
      assert todo[0] in g.modules - seen;
      var inner := Order(g, Used(g, todo[0], |g.upstream[todo[0]]|), seen + {todo[0]});
      OrderHolds(g, todo[1..], seen + {todo[0]} + Members(inner), t);
    }
  }

  lemma {:induction false} UsedPrefix(g: Graph, m: ModuleId, k: nat, l: nat)
    requires g.Closed() && m in g.modules && k <= l <= |g.upstream[m]|
    ensures Used(g, m, k) <= Used(g, m, l)
  {
    if k < l {
      UsedPrefix(g, m, k, l - 1);
    }
  }

  /**
   Of two modules the root uses, the one named first stands first, unless something
   named before uses the other one.
   */
  lemma {:induction false} FirstNamedFirst(g: Graph, root: ModuleId, rank: ModuleId -> nat, k: nat, l: nat)
    requires g.Closed() && g.Ranked(rank) && root in g.modules && k < l < |g.upstream[root]|
    requires g.containsCss[g.upstream[root][k]] && g.containsCss[g.upstream[root][l]]
    requires forall j | 0 <= j <= k && g.containsCss[g.upstream[root][j]] ::
               !Reaches(g, g.upstream[root][j], g.upstream[root][l])
    ensures exists i, j | 0 <= i < j < |Order(g, [root], {})| ::
              Order(g, [root], {})[i] == g.upstream[root][k] && Order(g, [root], {})[j] == g.upstream[root][l]
  {
    hide Reaches, Used, Order, Graph.Ranked;
    var u, v, n := g.upstream[root][k], g.upstream[root][l], |g.upstream[root]|;
    OrderOfOne(g, root, {});
    UsedPrefix(g, root, k + 1, n);
    var some, all := Used(g, root, k + 1), Used(g, root, n);
    var rest := all[|some|..];
    assert all == some + rest && {} + {root} == {root};
    OrderConcat(g, some, rest, {root});
    UsedIsUsed(g, root, k + 1, u);
    UsedIsUsed(g, root, n, v);
    OwnUse(g, root, rank, u);
    OwnUse(g, root, rank, v);
    OrderHolds(g, some, {root}, u);
    OrderHolds(g, all, {root}, v);
    if v in Order(g, some, {root}) {
      OrderIsReached(g, some, {root}, v);
      var t :| t in some && Reaches(g, t, v);
      UsedIsUsed(g, root, k + 1, t);
    }
    InTheRest(Order(g, some, {root}), Order(g, rest, {root} + Members(Order(g, some, {root}))), [root], u, v);
  }

  lemma OwnUse(g: Graph, m: ModuleId, rank: ModuleId -> nat, u: ModuleId)
    requires g.Closed() && g.Ranked(rank) && g.Uses(m, u)
    ensures u != m
  {}

  lemma InTheRest(a: seq<ModuleId>, b: seq<ModuleId>, c: seq<ModuleId>, u: ModuleId, v: ModuleId)
    requires u in a && v in b
    ensures exists i, j | 0 <= i < j < |a + b + c| :: (a + b + c)[i] == u && (a + b + c)[j] == v
  {
    var i :| 0 <= i < |a| && a[i] == u;
    var j :| 0 <= j < |b| && b[j] == v;
    assert (a + b + c)[i] == u && (a + b + c)[|a| + j] == v;
  }

  // ---- What modules and their comments amount to ----

  /** The comments `m` has for what it uses, of the first `k` it names, once for every time it does. */
  function CommentsFor(g: Graph, m: ModuleId, k: nat): multiset<Statement>
    requires g.Closed() && m in g.modules && k <= |g.upstream[m]|
  {
    if k == 0 then multiset{} else CommentsFor(g, m, k - 1) + CommentsAt(g, m, g.upstream[m][k - 1])
  }

  function CommentsAt(g: Graph, m: ModuleId, u: ModuleId): multiset<Statement>
    requires g.Closed() && u in g.modules
  {
    if g.containsCss[u] && (m, u) in g.comments then multiset(g.comments[(m, u)]) else multiset{}
  }

  /** The statements of the modules and all their comments. */
  function Total(g: Graph, modules: seq<ModuleId>): multiset<Statement>
    requires g.Closed() && forall m <- modules :: m in g.modules
  {
    if modules == [] then multiset{}
    else
      var m := modules[|modules| - 1];
      Total(g, modules[..|modules| - 1]) + multiset(g.css[m]) + CommentsFor(g, m, |g.upstream[m]|)
  }

  lemma {:induction false} TotalConcat(g: Graph, a: seq<ModuleId>, b: seq<ModuleId>)
    requires g.Closed() && forall m <- a + b :: m in g.modules
    requires (forall m <- a :: m in g.modules) && forall m <- b :: m in g.modules
    ensures Total(g, a + b) == Total(g, a) + Total(g, b)
  {
    hide CommentsFor;
    if b == [] {
      assert a + b == a;
    } else {
      var n := |b| - 1;
      assert (a + b)[..|a + b| - 1] == a + b[..n];
      TotalConcat(g, a, b[..n]);
    }
  }

  lemma {:induction false} TotalReversed(g: Graph, modules: seq<ModuleId>)
    requires g.Closed() && (forall m <- modules :: m in g.modules) && forall m <- Reversed(modules) :: m in g.modules
    ensures Total(g, Reversed(modules)) == Total(g, modules)
  {
    if modules != [] {
      var n := |modules| - 1;
      var m, before := modules[n], modules[..n];
      assert Reversed(modules) == [m] + Reversed(before);
      assert forall x <- Reversed(before) :: x in Reversed(modules);
      TotalReversed(g, before);
      TotalConcat(g, [m], Reversed(before));
      assert [m][..0] == [] && Total(g, [m]) == Total(g, []) + multiset(g.css[m]) + CommentsFor(g, m, |g.upstream[m]|);
    }
  }

  /** Visiting the modules of `order` has put them in front, and all they amount to into the lists. */
  ghost predicate Grown(g: Graph, order: seq<ModuleId>, sorted: seq<ModuleId>, seen: set<ModuleId>,
                        contents: multiset<Statement>, sortedAfter: seq<ModuleId>, seenAfter: set<ModuleId>,
                        contentsAfter: multiset<Statement>)
    requires g.Closed() && forall m <- order :: m in g.modules
  {
    && sortedAfter == Reversed(order) + sorted && seenAfter == seen + Members(order)
    && contentsAfter == contents + Total(g, order)
  }

  lemma NothingGrown(g: Graph, m: ModuleId, sorted: seq<ModuleId>, seen: set<ModuleId>, contents: multiset<Statement>)
    requires g.Closed() && m in g.modules
    ensures m in seen ==> Order(g, [m], seen) == []
    ensures Used(g, m, 0) == [] && CommentsFor(g, m, 0) == multiset{} && Order(g, [], seen) == []
    ensures Grown(g, [], sorted, seen, contents, sorted, seen, contents)
  {
    assert Reversed<ModuleId>([]) + sorted == sorted && seen + Members<ModuleId>([]) == seen;
  }

  /** Growing by one list of modules and then by another. */
  lemma GrownOn(g: Graph, some: seq<ModuleId>, more: seq<ModuleId>,
                sorted: seq<ModuleId>, seen: set<ModuleId>, contents: multiset<Statement>,
                sorted1: seq<ModuleId>, seen1: set<ModuleId>, contents1: multiset<Statement>,
                comments: multiset<Statement>, sorted2: seq<ModuleId>, seen2: set<ModuleId>, contents2: multiset<Statement>)
    requires g.Closed() && (forall m <- some :: m in g.modules) && forall m <- more :: m in g.modules
    requires Grown(g, some, sorted, seen, contents, sorted1, seen1, contents1)
    requires Grown(g, more, sorted1, seen1, contents1 + comments, sorted2, seen2, contents2)
    ensures forall m <- some + more :: m in g.modules
    ensures Grown(g, some + more, sorted, seen, contents + comments, sorted2, seen2, contents2)
  {
    hide Total;
    TotalConcat(g, some, more);
    assert Reversed(some + more) == Reversed(more) + Reversed(some);
    assert Reversed(more) + (Reversed(some) + sorted) == Reversed(more) + Reversed(some) + sorted;
    assert Members(some + more) == Members(some) + Members(more);
  }

  /** One more module is used: its comments and then whatever it brings. */
  lemma OneMoreUsed(g: Graph, m: ModuleId, k: nat, sorted: seq<ModuleId>, seen: set<ModuleId>, contents: multiset<Statement>,
                    sorted1: seq<ModuleId>, seen1: set<ModuleId>, contents1: multiset<Statement>,
                    sorted2: seq<ModuleId>, seen2: set<ModuleId>, contents2: multiset<Statement>)
    requires g.Closed() && m in g.modules && k < |g.upstream[m]|
    requires Grown(g, Order(g, Used(g, m, k), seen), sorted, seen, contents + CommentsFor(g, m, k), sorted1, seen1, contents1)
    requires var u := g.upstream[m][k];
             if g.containsCss[u]
             then Grown(g, Order(g, [u], seen1), sorted1, seen1, contents1 + CommentsAt(g, m, u), sorted2, seen2, contents2)
             else sorted2 == sorted1 && seen2 == seen1 && contents2 == contents1
    ensures Grown(g, Order(g, Used(g, m, k + 1), seen), sorted, seen, contents + CommentsFor(g, m, k + 1), sorted2, seen2, contents2)
  {
    var u := g.upstream[m][k];
    var some := Order(g, Used(g, m, k), seen);
    hide Order, CommentsFor, CommentsAt, Used, Grown, Members;
    UsedOneMore(g, m, k);
    SeenGrown(g, some, sorted, seen, contents + CommentsFor(g, m, k), sorted1, seen1, contents1);
    if g.containsCss[u] {
      OrderConcat(g, Used(g, m, k), [u], seen);
      GrownOn(g, some, Order(g, [u], seen1), sorted, seen, contents + CommentsFor(g, m, k), sorted1, seen1, contents1,
              CommentsAt(g, m, u), sorted2, seen2, contents2);
      SumOfThree(contents, CommentsFor(g, m, k), CommentsAt(g, m, u));
    } else {
      NoCommentsAt(g, m, u);
      assert Used(g, m, k + 1) == Used(g, m, k);
      assert CommentsFor(g, m, k + 1) == CommentsFor(g, m, k);
    }
  }

  lemma SumOfThree(a: multiset<Statement>, b: multiset<Statement>, c: multiset<Statement>)
    ensures a + (b + c) == a + b + c
  {}

  lemma UsedOneMore(g: Graph, m: ModuleId, k: nat)
    requires g.Closed() && m in g.modules && k < |g.upstream[m]|
    ensures CommentsFor(g, m, k + 1) == CommentsFor(g, m, k) + CommentsAt(g, m, g.upstream[m][k])
    ensures Used(g, m, k + 1) == Used(g, m, k) + if g.containsCss[g.upstream[m][k]] then [g.upstream[m][k]] else []
  {
    hide CommentsAt;
  }

  lemma SeenGrown(g: Graph, order: seq<ModuleId>, sorted: seq<ModuleId>, seen: set<ModuleId>,
                  contents: multiset<Statement>, sortedAfter: seq<ModuleId>, seenAfter: set<ModuleId>,
                  contentsAfter: multiset<Statement>)
    requires g.Closed() && forall m <- order :: m in g.modules
    requires Grown(g, order, sorted, seen, contents, sortedAfter, seenAfter, contentsAfter)
    ensures seenAfter == seen + Members(order)
  {}

  lemma NoCommentsAt(g: Graph, m: ModuleId, u: ModuleId)
    requires g.Closed() && u in g.modules && !g.containsCss[u]
    ensures CommentsAt(g, m, u) == multiset{}
  {}

  lemma TotalOfOneMore(g: Graph, modules: seq<ModuleId>, m: ModuleId)
    requires g.Closed() && m in g.modules && forall x <- modules :: x in g.modules
    ensures forall x <- modules + [m] :: x in g.modules
    ensures Total(g, modules + [m]) == Total(g, modules) + multiset(g.css[m]) + CommentsFor(g, m, |g.upstream[m]|)
    ensures Members(modules + [m]) == Members(modules) + {m} && Reversed(modules + [m]) == [m] + Reversed(modules)
  {
    hide CommentsFor;
    assert (modules + [m])[..|modules|] == modules;
  }

  /** The module itself, once all it uses is there. */
  lemma ModuleGrown(g: Graph, m: ModuleId, sorted: seq<ModuleId>, seen: set<ModuleId>, contents: multiset<Statement>,
                    sorted1: seq<ModuleId>, seen1: set<ModuleId>, contents1: multiset<Statement>)
    requires g.Closed() && m in g.modules && m !in seen
    requires Grown(g, Order(g, Used(g, m, |g.upstream[m]|), seen + {m}), sorted, seen + {m},
                   contents + CommentsFor(g, m, |g.upstream[m]|), sorted1, seen1, contents1)
    ensures Grown(g, Order(g, [m], seen), sorted, seen, contents, [m] + sorted1, seen1, contents1 + multiset(g.css[m]))
  {
    hide Order, CommentsFor, Used, Total, Members, Reversed;
    OrderOfOne(g, m, seen);
    var inner := Order(g, Used(g, m, |g.upstream[m]|), seen + {m});
    TotalOfOneMore(g, inner, m);
    assert [m] + (Reversed(inner) + sorted) == [m] + Reversed(inner) + sorted;
  }

  // ---- Depth-first, upstream first ----

  /** What was appended, in order; comments go with the imports while there is no CSS yet. */
  datatype Piece = Css(m: ModuleId) | Comments(m: ModuleId, u: ModuleId, early: bool)

  function ImportsOf(g: Graph, log: seq<Piece>): seq<Statement>
    requires g.Closed()
  {
    if log == [] then []
    else
      ImportsOf(g, log[..|log| - 1]) +
      match log[|log| - 1]
      case Css(m) => if m in g.modules then (LeadingImportsEnd(g.css[m]); g.css[m][..LeadingImports(g.css[m])]) else []
      case Comments(m, u, early) => if early && (m, u) in g.comments then g.comments[(m, u)] else []
  }

  function CssOf(g: Graph, log: seq<Piece>): seq<Statement>
    requires g.Closed()
  {
    if log == [] then []
    else
      CssOf(g, log[..|log| - 1]) +
      match log[|log| - 1]
      case Css(m) => if m in g.modules then (LeadingImportsEnd(g.css[m]); g.css[m][LeadingImports(g.css[m])..]) else []
      case Comments(m, u, early) => if !early && (m, u) in g.comments then g.comments[(m, u)] else []
  }

  /** The modules whose CSS was appended, last first. */
  function ModulesOf(log: seq<Piece>): seq<ModuleId> {
    if log == [] then []
    else (if log[|log| - 1].Css? then [log[|log| - 1].m] else []) + ModulesOf(log[..|log| - 1])
  }

  /** Whatever a listed module uses is listed after it. */
  ghost predicate UpstreamLater(g: Graph, sorted: seq<ModuleId>)
    requires g.Closed()
  {
    forall i, u | 0 <= i < |sorted| && g.Uses(sorted[i], u) :: exists j | i < j < |sorted| :: sorted[j] == u
  }

  lemma Prepended(g: Graph, sorted: seq<ModuleId>, m: ModuleId)
    requires g.Closed() && UpstreamLater(g, sorted)
    requires forall u | g.Uses(m, u) :: u in sorted
    ensures UpstreamLater(g, [m] + sorted)
  {
    var longer := [m] + sorted;
    forall i, u | 0 <= i < |longer| && g.Uses(longer[i], u) ensures exists j | i < j < |longer| :: longer[j] == u {
      if i == 0 {
        var j :| 0 <= j < |sorted| && sorted[j] == u;
        assert longer[j + 1] == u;
      } else {
        assert longer[i] == sorted[i - 1];
        var j :| i - 1 < j < |sorted| && sorted[j] == u;
        assert longer[j + 1] == u;
      }
    }
  }

  /** `u` is the `k`-th module `m` names, and all it names before with CSS have been appended. */
  ghost predicate Turn(g: Graph, log: seq<Piece>, m: ModuleId, u: ModuleId, k: nat)
    requires g.Closed()
  {
    && m in g.modules && k < |g.upstream[m]| && g.upstream[m][k] == u
    && forall j | 0 <= j < k && g.containsCss[g.upstream[m][j]] :: g.upstream[m][j] in ModulesOf(log)
  }

  /** The comments `m` has for `u`, if any, have been appended. */
  ghost predicate Commented(g: Graph, log: seq<Piece>, m: ModuleId, u: ModuleId) {
    (m, u) in g.comments ==> Comments(m, u, true) in log || Comments(m, u, false) in log
  }

  /** Comments go with the imports exactly while there is no CSS, and a module's come before the module. */
  ghost predicate CommentsPlaced(g: Graph, log: seq<Piece>)
    requires g.Closed()
  {
    log == [] ||
    var before := log[..|log| - 1];
    && CommentsPlaced(g, before)
    && match log[|log| - 1]
       case Css(m) => forall u | g.Uses(m, u) :: Commented(g, before, m, u)
       case Comments(m, u, early) => early == (CssOf(g, before) == []) && exists k: nat :: Turn(g, before, m, u, k)
  }

  /** Whose comments for whom were appended, and how often. */
  function PairsOf(log: seq<Piece>): multiset<(ModuleId, ModuleId)> {
    if log == [] then multiset{}
    else
      PairsOf(log[..|log| - 1]) +
      match log[|log| - 1]
      case Css(_) => multiset{}
      case Comments(m, u, _) => multiset{(m, u)}
  }

  /** Appending a module's CSS, once everything it uses has its comments in place. */
  lemma CssAppended(g: Graph, log: seq<Piece>, m: ModuleId)
    requires g.Closed() && m in g.modules && CommentsPlaced(g, log)
    requires forall u | g.Uses(m, u) :: Commented(g, log, m, u)
    ensures var n, after := LeadingImports(g.css[m]), log + [Css(m)];
            && n <= |g.css[m]|
            && ImportsOf(g, after) == ImportsOf(g, log) + g.css[m][..n]
            && CssOf(g, after) == CssOf(g, log) + g.css[m][n..]
            && ModulesOf(after) == [m] + ModulesOf(log) && PairsOf(after) == PairsOf(log)
            && CommentsPlaced(g, after)
  {
    hide Commented;
    LeadingImportsEnd(g.css[m]);
    assert (log + [Css(m)])[..|log|] == log;
  }

  /** Appending the comments `m` has for `u`, when it is their turn. */
  lemma CommentsAppended(g: Graph, log: seq<Piece>, m: ModuleId, u: ModuleId, k: nat)
    requires g.Closed() && CommentsPlaced(g, log) && (m, u) in g.comments && Turn(g, log, m, u, k)
    ensures var early := CssOf(g, log) == [];
            var after, comments := log + [Comments(m, u, early)], g.comments[(m, u)];
            && ImportsOf(g, after) == ImportsOf(g, log) + (if early then comments else [])
            && CssOf(g, after) == CssOf(g, log) + (if early then [] else comments)
            && ModulesOf(after) == ModulesOf(log) && PairsOf(after) == PairsOf(log) + multiset{(m, u)}
            && CommentsPlaced(g, after) && Commented(g, after, m, u)
  {
    hide Turn;
    var piece := Comments(m, u, CssOf(g, log) == []);
    var after := log + [piece];
    assert after[..|log|] == log && after[|log|] == piece;
    assert [] + ModulesOf(log) == ModulesOf(log);
    assert piece in after;
  }

  type Pairs = multiset<(ModuleId, ModuleId)>

  /** How often the comments of `m` for `u` are due: once for every time `m` names `u` among the first `k` it uses. */
  function Due(g: Graph, m: ModuleId, u: ModuleId, k: nat): nat
    requires g.Closed() && m in g.modules ==> k <= |g.upstream[m]|
  {
    if g.Closed() && g.Uses(m, u) && (m, u) in g.comments then multiset(g.upstream[m][..k])[u] else 0
  }

  /** How often the comments of `m` for `u` are due in all. */
  function TimesCommented(g: Graph, m: ModuleId, u: ModuleId): nat
    requires g.Closed()
  {
    if m in g.modules then Due(g, m, u, |g.upstream[m]|) else 0
  }

  /** Modules that were left have all their comments in the log, and those not entered none. */
  ghost predicate CommentsCounted(g: Graph, pairs: Pairs, seen: set<ModuleId>, left: set<ModuleId>)
    requires g.Closed()
  {
    && (forall m, u | m !in seen :: pairs[(m, u)] == 0)
    && (forall m, u | m in left :: pairs[(m, u)] == TimesCommented(g, m, u))
  }

  /** The comments of the given modules are as before, but for `times` more of one pair. */
  ghost predicate MoreBy(before: Pairs, after: Pairs, modules: set<ModuleId>, m: ModuleId, u: ModuleId, times: nat) {
    forall x, v | x in modules :: after[(x, v)] == before[(x, v)] + if x == m && v == u then times else 0
  }

  /** The first `k` uses of `m` have had their comments. */
  ghost predicate CountedUpTo(g: Graph, pairs: Pairs, m: ModuleId, k: nat)
    requires g.Closed() && m in g.modules && k <= |g.upstream[m]|
  {
    forall u :: pairs[(m, u)] == Due(g, m, u, k)
  }

  function Times(g: Graph, m: ModuleId, u: ModuleId): nat { if (m, u) in g.comments then 1 else 0 }

  lemma NextCounted(g: Graph, before: Pairs, after: Pairs, modules: set<ModuleId>, m: ModuleId, k: nat)
    requires g.Closed() && m in g.modules && m in modules && k < |g.upstream[m]| && CountedUpTo(g, before, m, k)
    requires var u := g.upstream[m][k];
             if g.containsCss[u] then MoreBy(before, after, modules, m, u, Times(g, m, u)) else after == before
    ensures CountedUpTo(g, after, m, k + 1)
  {
    assert g.upstream[m][..k + 1] == g.upstream[m][..k] + [g.upstream[m][k]];
  }

  lemma NoMore(pairs: Pairs, modules: set<ModuleId>, m: ModuleId)
    ensures MoreBy(pairs, pairs, modules, m, m, 0)
  {}

  lemma SomeoneElsesMore(start: Pairs, before: Pairs, after: Pairs, kept: set<ModuleId>, modules: set<ModuleId>,
                         m: ModuleId, u: ModuleId, times: nat)
    requires MoreBy(start, before, kept, m, m, 0) && MoreBy(before, after, modules, m, u, times)
    requires kept <= modules && m !in kept
    ensures MoreBy(start, after, kept, m, m, 0)
  {}

  lemma MoreThenNone(start: Pairs, before: Pairs, after: Pairs, modules: set<ModuleId>, m: ModuleId, u: ModuleId, times: nat)
    requires MoreBy(start, before, modules, m, u, times) && MoreBy(before, after, modules, u, u, 0)
    ensures MoreBy(start, after, modules, m, u, times)
  {}

  /** Adding comments of a module that has been entered but not left. */
  lemma OnlyTheseMore(g: Graph, before: Pairs, after: Pairs, seen: set<ModuleId>, left: set<ModuleId>, m: ModuleId, u: ModuleId)
    requires g.Closed() && CommentsCounted(g, before, seen, left) && m in seen && m !in left
    requires after == before + if (m, u) in g.comments then multiset{(m, u)} else multiset{}
    ensures CommentsCounted(g, after, seen, left) && MoreBy(before, after, seen, m, u, Times(g, m, u))
  {}

  lemma LeavingCounted(g: Graph, pairs: Pairs, seen: set<ModuleId>, left: set<ModuleId>, m: ModuleId)
    requires g.Closed() && m in g.modules && CommentsCounted(g, pairs, seen, left)
    requires CountedUpTo(g, pairs, m, |g.upstream[m]|)
    ensures CommentsCounted(g, pairs, seen, left + {m})
  {}

  lemma CommentedStays(g: Graph, before: seq<Piece>, log: seq<Piece>, m: ModuleId)
    requires before <= log
    ensures forall u | Commented(g, before, m, u) :: Commented(g, log, m, u)
  {}

  class Combiner {
    var imports: seq<Statement>
    var css: seq<Statement>
    var sorted: seq<ModuleId>
    var seen: set<ModuleId>
    /** What has been appended so far. */
    ghost var log: seq<Piece>

    constructor (ghost g: Graph)
      requires g.Closed()
      ensures imports == [] && css == [] && sorted == [] && seen == {} && log == [] && Valid(g) && Counted(g)
      ensures Contents() == multiset{}
    {
      imports, css, sorted, seen, log := [], [], [], {}, [];
    }

    /** The lists are what was appended; every listed module comes before what it uses. */
    ghost predicate Valid(g: Graph)
      requires g.Closed()
      reads this
    {
      && imports == ImportsOf(g, log) && css == CssOf(g, log) && sorted == ModulesOf(log)
      && NoRepeats(sorted) && UpstreamLater(g, sorted) && CommentsPlaced(g, log)
      && (forall m <- sorted :: m in seen) && seen <= g.modules
    }

    ghost function Contents(): multiset<Statement>
      reads this`imports, this`css
    {
      multiset(imports) + multiset(css)
    }

    ghost function Left(): set<ModuleId>
      reads this`sorted
    {
      set m | m in sorted
    }

    /** Modules that have been entered but not left. */
    ghost function Entered(): set<ModuleId>
      reads this
    {
      seen - Left()
    }

    lemma AllLeft()
      requires Entered() == {} && forall m <- sorted :: m in seen
      ensures forall m :: m in seen <==> m in sorted
    {
      forall m | m in seen ensures m in sorted {
        assert m !in Entered();
      }
    }

    /** Nothing has been said twice or out of turn. */
    ghost predicate Counted(g: Graph)
      requires g.Closed()
      reads this`log, this`seen, this`sorted
    {
      CommentsCounted(g, PairsOf(log), seen, Left())
    }

    /** Appends the comments `m` has for `u`, if any. */
    method AddComments(g: Graph, m: ModuleId, u: ModuleId, ghost k: nat)
      requires g.Closed() && Valid(g) && g.Uses(m, u) && Turn(g, log, m, u, k)
      modifies this`imports, this`css, this`log
      ensures Valid(g) && old(log) <= log && Commented(g, log, m, u)
      ensures PairsOf(log) == old(PairsOf(log)) + if (m, u) in g.comments then multiset{(m, u)} else multiset{}
      ensures Contents() == old(Contents()) + CommentsAt(g, m, u)
    {
      hide CommentsPlaced, ImportsOf, CssOf, ModulesOf, PairsOf, Turn, UpstreamLater, NoRepeats;
      if (m, u) in g.comments {
        CommentsAppended(g, log, m, u, k);
        log := log + [Comments(m, u, css == [])];
        if css == [] {
          imports := imports + g.comments[(m, u)];
        } else {
          css := css + g.comments[(m, u)];
        }
      }
    }

    method Enter(g: Graph, m: ModuleId)
      requires g.Closed() && Valid(g) && m in g.modules && m !in seen
      modifies this`seen
      ensures Valid(g) && seen == old(seen) + {m} && Entered() == old(Entered()) + {m}
      ensures m !in old(Entered())
      ensures old(Counted(g)) ==> Counted(g) && CountedUpTo(g, PairsOf(log), m, 0)
    {
      assert g.upstream[m][..0] == [];
      seen := seen + {m};
    }

    /** Appends a module's own statements, now that everything it uses is there. */
    method AddModule(g: Graph, m: ModuleId)
      requires g.Closed() && Valid(g) && m in Entered()
      requires forall u | g.Uses(m, u) :: u in sorted && Commented(g, log, m, u)
      requires Counted(g) && CountedUpTo(g, PairsOf(log), m, |g.upstream[m]|)
      modifies this`imports, this`css, this`sorted, this`log
      ensures Valid(g) && old(log) <= log && sorted == [m] + old(sorted) && Entered() == old(Entered()) - {m}
      ensures Counted(g) && PairsOf(log) == old(PairsOf(log))
      ensures Contents() == old(Contents()) + multiset(g.css[m])
    {
      hide CommentsCounted, CountedUpTo, Commented, CommentsPlaced, ImportsOf, CssOf, ModulesOf, PairsOf;
      LeavingCounted(g, PairsOf(log), seen, Left(), m);
      ghost var left := Left();
      Prepended(g, sorted, m);
      sorted := [m] + sorted;
      var statements := g.css[m];
      var index := IndexAfterImports(statements);
      CssAppended(g, log, m);
      imports := imports + statements[..index];
      css := css + statements[index..];
      assert statements == statements[..index] + statements[index..];
      log := log + [Css(m)];
      assert Left() == left + {m};
    }

    /** Everything of lower rank that has been seen has been left again. */
    lemma SeenIsSorted(g: Graph, m: ModuleId, rank: ModuleId -> nat)
      requires g.Closed() && g.Ranked(rank) && m in g.modules
      requires forall e <- Entered() :: e == m || rank(e) > rank(m)
      requires forall u <- g.upstream[m] :: g.containsCss[u] ==> u in seen
      ensures forall u | g.Uses(m, u) :: u in sorted
    {
      forall u | g.Uses(m, u) ensures u in sorted {
        assert rank(u) < rank(m);
        assert u !in Entered();
      }
    }

    lemma ItIsTheTurn(g: Graph, m: ModuleId, rank: ModuleId -> nat, k: nat)
      requires g.Closed() && g.Ranked(rank) && Valid(g) && m in g.modules && k < |g.upstream[m]|
      requires forall e <- Entered() :: e == m || rank(e) > rank(m)
      requires forall j | 0 <= j < k && g.containsCss[g.upstream[m][j]] :: g.upstream[m][j] in seen
      ensures Turn(g, log, m, g.upstream[m][k], k)
    {
      hide ImportsOf, CssOf, ModulesOf, CommentsPlaced, UpstreamLater, NoRepeats;
      forall j | 0 <= j < k && g.containsCss[g.upstream[m][j]] ensures g.upstream[m][j] in sorted {
        assert g.Uses(m, g.upstream[m][j]);
        assert g.upstream[m][j] !in Entered();
      }
    }

    /** Having entered `m`, the first `k` modules it uses have been visited since the given state. */
    ghost predicate VisitedUpTo(g: Graph, m: ModuleId, k: nat, pairs: Pairs, modules: set<ModuleId>,
                                list: seq<ModuleId>, contents: multiset<Statement>)
      requires g.Closed() && m in g.modules && k <= |g.upstream[m]|
      reads this
    {
      && modules + {m} <= seen && m !in modules
      && (forall x <- seen :: x in modules || Reaches(g, m, x))
      && (forall j | 0 <= j < k && g.containsCss[g.upstream[m][j]] ::
            g.upstream[m][j] in seen && Commented(g, log, m, g.upstream[m][j]))
      && CountedUpTo(g, PairsOf(log), m, k) && MoreBy(pairs, PairsOf(log), modules, m, m, 0)
      && Grown(g, Order(g, Used(g, m, k), modules + {m}), list, modules + {m}, contents + CommentsFor(g, m, k),
               sorted, seen, Contents())
    }

    /**
     Visits a module and, before it, everything it uses. On an acyclic graph
     afterwards exactly what it reaches has been added to what was seen, and none of
     it is still being visited.
     */
    method Visit(g: Graph, m: ModuleId, ghost rank: ModuleId -> nat)
      requires g.Closed() && g.Ranked(rank) && Valid(g) && m in g.modules
      requires Counted(g) && forall e <- Entered() :: rank(e) > rank(m)
      modifies this
      decreases g.modules - seen, 0
      ensures Valid(g) && m in seen && old(seen) <= seen && Entered() == old(Entered())
      ensures forall x <- seen :: x in old(seen) || Reaches(g, m, x)
      ensures m !in old(seen) ==> sorted != [] && sorted[0] == m
      ensures old(log) <= log
      ensures Counted(g) && MoreBy(old(PairsOf(log)), PairsOf(log), old(seen), m, m, 0)
      ensures Grown(g, Order(g, [m], old(seen)), old(sorted), old(seen), old(Contents()), sorted, seen, Contents())
    {
      hide Combiner.Valid, Combiner.Entered, Combiner.Counted, Graph.Ranked, Reaches, Commented;
      hide MoreBy, CountedUpTo, PairsOf, Grown, Order, Used, Combiner.Contents, CommentsFor;
      NoMore(PairsOf(log), seen, m);
      NothingGrown(g, m, sorted, seen, Contents());
      if m in seen {
        return;
      }
      ReachesSelf(g, m);
      Enter(g, m);
      ghost var entered := Entered();
      NothingGrown(g, m, sorted, seen, Contents() + multiset{});
      var upstream := g.upstream[m];
      for k := 0 to |upstream|
        invariant Valid(g) && Counted(g) && Entered() == entered && old(log) <= log
        invariant VisitedUpTo(g, m, k, old(PairsOf(log)), old(seen), old(sorted), old(Contents()))
      {
        VisitNext(g, m, k, rank, old(PairsOf(log)), old(seen), old(sorted), old(Contents()));
      }
      SeenIsSorted(g, m, rank);
      ModuleGrown(g, m, old(sorted), old(seen), old(Contents()), sorted, seen, Contents());
      AddModule(g, m);
    }

    /** Visits the next module `m` uses, if it has CSS. */
    method VisitNext(g: Graph, m: ModuleId, k: nat, ghost rank: ModuleId -> nat, ghost pairs: Pairs,
                     ghost modules: set<ModuleId>, ghost list: seq<ModuleId>, ghost contents: multiset<Statement>)
      requires g.Closed() && g.Ranked(rank) && Valid(g) && Counted(g) && m in g.modules && k < |g.upstream[m]|
      requires m in Entered() && forall e <- Entered() :: e == m || rank(e) > rank(m)
      requires VisitedUpTo(g, m, k, pairs, modules, list, contents)
      modifies this
      decreases g.modules - seen, 2
      ensures Valid(g) && Counted(g) && Entered() == old(Entered()) && old(log) <= log && old(seen) <= seen
      ensures VisitedUpTo(g, m, k + 1, pairs, modules, list, contents)
    {
      hide Combiner.Valid, Combiner.Entered, Combiner.Counted, Graph.Ranked, Reaches, Commented;
      hide MoreBy, CountedUpTo, PairsOf, Grown, Order, Used, Combiner.Contents, CommentsFor;
      var u := g.upstream[m][k];
      ghost var before, known, earlier, had := log, seen, sorted, Contents();
      if g.containsCss[u] {
        VisitUsed(g, m, u, k, rank, modules);
        CommentedStays(g, before, log, m);
        SomeoneElsesMore(pairs, PairsOf(before), PairsOf(log), modules, known, m, u, Times(g, m, u));
      }
      NextCounted(g, PairsOf(before), PairsOf(log), known, m, k);
      OneMoreUsed(g, m, k, list, modules + {m}, contents, earlier, known, had, sorted, seen, Contents());
    }

    /** Visits one module that `m` uses, after the comments `m` has for it. */
    method VisitUsed(g: Graph, m: ModuleId, u: ModuleId, ghost k: nat, ghost rank: ModuleId -> nat,
                     ghost start: set<ModuleId>)
      requires g.Closed() && g.Ranked(rank) && Valid(g) && g.Uses(m, u) && m in seen
      requires forall e <- Entered() :: e == m || rank(e) > rank(m)
      requires Counted(g) && m in Entered() && forall x <- seen :: x in start || Reaches(g, m, x)
      requires k < |g.upstream[m]| && g.upstream[m][k] == u
      requires forall j | 0 <= j < k && g.containsCss[g.upstream[m][j]] :: g.upstream[m][j] in seen
      modifies this
      decreases g.modules - seen, 1
      ensures Valid(g) && u in seen && old(seen) <= seen && Entered() == old(Entered())
      ensures forall x <- seen :: x in start || Reaches(g, m, x)
      ensures old(log) <= log && Commented(g, log, m, u)
      ensures Counted(g) && MoreBy(old(PairsOf(log)), PairsOf(log), old(seen), m, u, Times(g, m, u))
      ensures Grown(g, Order(g, [u], old(seen)), old(sorted), old(seen), old(Contents()) + CommentsAt(g, m, u),
                    sorted, seen, Contents())
    {
      hide Combiner.Valid, Reaches, Commented, PairsOf, CommentsCounted, MoreBy, Grown, Combiner.Contents, CommentsAt;
      ghost var pairs := PairsOf(log);
      ItIsTheTurn(g, m, rank, k);
      AddComments(g, m, u, k);
      OnlyTheseMore(g, pairs, PairsOf(log), seen, Left(), m, u);
      ghost var before := log;
      assert rank(u) < rank(m);
      Visit(g, u, rank);
      CommentedStays(g, before, log, m);
      MoreThenNone(pairs, PairsOf(before), PairsOf(log), old(seen), m, u, Times(g, m, u));
      forall x | x in seen && x !in old(seen) ensures Reaches(g, m, x) {
        ReachesBefore(g, m, u, x);
      }
    }
  }

  // ---- Where everything stands ----

  /** The leading imports of a module. */
  function Head(g: Graph, m: ModuleId): seq<Statement>
    requires g.Closed() && m in g.modules
  {
    g.css[m][..LeadingImports(g.css[m])]
  }

  /** The rest of a module. */
  function Body(g: Graph, m: ModuleId): seq<Statement>
    requires g.Closed() && m in g.modules
  {
    g.css[m][LeadingImports(g.css[m])..]
  }

  /** The block stands there, in one piece. */
  predicate BlockAt(statements: seq<Statement>, start: nat, block: seq<Statement>) {
    start + |block| <= |statements| && statements[start..start + |block|] == block
  }

  /** The body of `x`, if it has one, is over at `place`. */
  predicate OverBy(g: Graph, own: map<ModuleId, nat>, x: ModuleId, place: nat)
    requires g.Closed() && x in own && x in g.modules
  {
    own[x] + |Body(g, x)| <= place
  }

  /** Where the comments `m` has for `u` may stand. */
  ghost predicate CommentsStand(g: Graph, statements: seq<Statement>, lead: nat, own: map<ModuleId, nat>, m: ModuleId,
                                u: ModuleId, q: nat)
    requires g.Closed() && own.Keys <= g.modules && m in own && (m, u) in g.comments
  {
    var comments := g.comments[(m, u)];
    && BlockAt(statements, q, comments) && q + |comments| <= own[m]
    && (q + |comments| <= lead || exists x <- own :: Body(g, x) != [] && OverBy(g, own, x, q))
    && exists k: nat :: AfterEarlierUses(g, own, m, u, k, q)
  }

  /** `u` is the `k`-th module `m` names, and the bodies of all that comes with those named before are over. */
  ghost predicate AfterEarlierUses(g: Graph, own: map<ModuleId, nat>, m: ModuleId, u: ModuleId, k: nat, place: nat)
    requires g.Closed() && own.Keys <= g.modules && m in own
  {
    && k < |g.upstream[m]| && g.upstream[m][k] == u
    && forall j, x | 0 <= j < k && g.containsCss[g.upstream[m][j]] && x in own && Reaches(g, g.upstream[m][j], x)
                     && Body(g, x) != [] :: OverBy(g, own, x, place)
  }

  /**
   The imports of all modules come first. Then every module stands in one piece after
   what it uses, and after the comments it has for it; these stand among the imports
   unless there has been a body before them.
   */
  ghost predicate BlocksInPlace(g: Graph, statements: seq<Statement>, lead: nat, own: map<ModuleId, nat>)
    requires g.Closed() && own.Keys <= g.modules
  {
    && (forall m <- own :: lead <= own[m] && BlockAt(statements, own[m], Body(g, m)))
    && (forall m <- own :: exists r: nat :: BlockAt(statements, r, Head(g, m)) && r + |Head(g, m)| <= lead)
    && (forall m, x | m in own && x in own && m != x :: OverBy(g, own, m, own[x]) || OverBy(g, own, x, own[m]))
    && (forall m: ModuleId, u: ModuleId | m in own && g.Uses(m, u) :: u in own && OverBy(g, own, u, own[m]))
    && (forall m: ModuleId, u: ModuleId | m in own && g.Uses(m, u) && (m, u) in g.comments ::
          exists q: nat :: CommentsStand(g, statements, lead, own, m, u, q))
  }

  /** What was appended earlier is in front. */
  lemma {:induction false} AppendedInFront(g: Graph, log: seq<Piece>, a: nat)
    requires g.Closed() && a <= |log|
    ensures ImportsOf(g, log[..a]) <= ImportsOf(g, log) && CssOf(g, log[..a]) <= CssOf(g, log)
  {
    if a < |log| {
      AppendedInFront(g, log[..|log| - 1], a);
      assert log[..|log| - 1][..a] == log[..a];
    } else {
      assert log[..a] == log;
    }
  }

  lemma PrefixBlock(statements: seq<Statement>, front: seq<Statement>, block: seq<Statement>)
    requires front + block <= statements
    ensures BlockAt(statements, |front|, block)
  {
    assert statements[|front|..|front| + |block|] == (front + block)[|front|..];
  }

  lemma ShiftedBlock(imports: seq<Statement>, css: seq<Statement>, start: nat, block: seq<Statement>)
    ensures BlockAt(imports, start, block) ==> BlockAt(imports + css, start, block)
    ensures BlockAt(css, start, block) ==> BlockAt(imports + css, |imports| + start, block)
  {
    if BlockAt(imports, start, block) {
      assert (imports + css)[start..start + |block|] == imports[start..start + |block|];
    }
    if BlockAt(css, start, block) {
      assert (imports + css)[|imports| + start..|imports| + start + |block|] == css[start..start + |block|];
    }
  }

  /** Where the piece at index `a` of the log ended up. */
  lemma PieceStands(g: Graph, log: seq<Piece>, a: nat)
    requires g.Closed() && a < |log|
    requires match log[a] case Css(m) => m in g.modules case Comments(m, u, _) => (m, u) in g.comments
    ensures var imports, css := ImportsOf(g, log[..a]), CssOf(g, log[..a]);
            match log[a]
            case Css(m) => BlockAt(ImportsOf(g, log), |imports|, Head(g, m)) && BlockAt(CssOf(g, log), |css|, Body(g, m))
            case Comments(m, u, early) =>
              if early then BlockAt(ImportsOf(g, log), |imports|, g.comments[(m, u)])
              else BlockAt(CssOf(g, log), |css|, g.comments[(m, u)])
    ensures var more := CssOf(g, log[..a + 1]);
            match log[a]
            case Css(m) => |more| == |CssOf(g, log[..a])| + |Body(g, m)|
            case Comments(m, u, early) => |more| == |CssOf(g, log[..a])| + if early then 0 else |g.comments[(m, u)]|
  {
    var longer, imports, css := log[..a + 1], ImportsOf(g, log[..a]), CssOf(g, log[..a]);
    AppendedInFront(g, log, a + 1);
    assert longer[..a] == log[..a] && longer[a] == log[a];
    match log[a]
    case Css(m) =>
      PrefixBlock(ImportsOf(g, log), imports, Head(g, m));
      PrefixBlock(CssOf(g, log), css, Body(g, m));
    case Comments(m, u, early) =>
      if early {
        PrefixBlock(ImportsOf(g, log), imports, g.comments[(m, u)]);
      } else {
        PrefixBlock(CssOf(g, log), css, g.comments[(m, u)]);
      }
  }

  /** How much CSS there was before the module. */
  function CssBefore(g: Graph, log: seq<Piece>, m: ModuleId): nat
    requires g.Closed() && m in ModulesOf(log)
  {
    var before := log[..|log| - 1];
    if log[|log| - 1] == Css(m) then |CssOf(g, before)| else CssBefore(g, before, m)
  }

  lemma {:induction false} ListedAt(g: Graph, log: seq<Piece>, m: ModuleId) returns (a: nat)
    requires g.Closed() && m in ModulesOf(log)
    ensures a < |log| && log[a] == Css(m) && CssBefore(g, log, m) == |CssOf(g, log[..a])|
  {
    var n := |log| - 1;
    if log[n] == Css(m) {
      a := n;
    } else {
      a := ListedAt(g, log[..n], m);
      assert log[..n][..a] == log[..a];
    }
  }

  /** With nothing appended twice, the place is that of the one piece. */
  lemma PlaceOfPiece(g: Graph, log: seq<Piece>, a: nat)
    requires g.Closed() && NoRepeats(ModulesOf(log)) && a < |log| && log[a].Css? && log[a].m in ModulesOf(log)
    ensures CssBefore(g, log, log[a].m) == |CssOf(g, log[..a])|
  {
    var b := ListedAt(g, log, log[a].m);
    if a < b {
      AppendedOnce(log, a, b);
    } else if b < a {
      AppendedOnce(log, b, a);
    }
  }

  /** Where the body of each module stands. */
  function Places(g: Graph, log: seq<Piece>): map<ModuleId, nat>
    requires g.Closed()
  {
    map m | m in ModulesOf(log) :: PlaceOf(g, log, m)
  }

  function PlaceOf(g: Graph, log: seq<Piece>, m: ModuleId): nat
    requires g.Closed() && m in ModulesOf(log)
  {
    |ImportsOf(g, log)| + CssBefore(g, log, m)
  }

  /** What the pieces of the log fulfil. */
  ghost predicate Laid(g: Graph, log: seq<Piece>)
    requires g.Closed()
  {
    && NoRepeats(ModulesOf(log)) && UpstreamLater(g, ModulesOf(log)) && CommentsPlaced(g, log)
    && forall m <- ModulesOf(log) :: m in g.modules
  }

  lemma ModuleStands(g: Graph, log: seq<Piece>, m: ModuleId)
    requires g.Closed() && Laid(g, log) && m in ModulesOf(log)
    ensures BlockAt(ImportsOf(g, log) + CssOf(g, log), PlaceOf(g, log, m), Body(g, m))
    ensures exists r: nat :: BlockAt(ImportsOf(g, log) + CssOf(g, log), r, Head(g, m)) && r + |Head(g, m)| <= |ImportsOf(g, log)|
  {
    hide ImportsOf, CssOf, CommentsPlaced, UpstreamLater, NoRepeats, BlockAt;
    var imports, css := ImportsOf(g, log), CssOf(g, log);
    var a := ListedAt(g, log, m);
    PieceStands(g, log, a);
    ShiftedBlock(imports, css, |ImportsOf(g, log[..a])|, Head(g, m));
    ShiftedBlock(imports, css, |CssOf(g, log[..a])|, Body(g, m));
    BlockFits(imports, |ImportsOf(g, log[..a])|, Head(g, m));
  }

  lemma BlockFits(statements: seq<Statement>, start: nat, block: seq<Statement>)
    requires BlockAt(statements, start, block)
    ensures start + |block| <= |statements|
  {}

  /** What is appended earlier is over when the later piece begins. */
  lemma EarlierIsOver(g: Graph, log: seq<Piece>, a: nat, b: nat)
    requires g.Closed() && a < b <= |log| && log[a].Css? && log[a].m in g.modules
    ensures |CssOf(g, log[..a])| + |Body(g, log[a].m)| <= |CssOf(g, log[..b])|
  {
    hide ImportsOf, CssOf;
    PieceStands(g, log, a);
    AppendedInFront(g, log[..b], a + 1);
    assert log[..b][..a + 1] == log[..a + 1];
  }

  lemma OneAfterTheOther(g: Graph, log: seq<Piece>, m: ModuleId, x: ModuleId)
    requires g.Closed() && Laid(g, log) && m in ModulesOf(log) && x in ModulesOf(log) && m != x
    ensures var own := Places(g, log); OverBy(g, own, m, own[x]) || OverBy(g, own, x, own[m])
  {
    hide ImportsOf, CssOf, CommentsPlaced, UpstreamLater, NoRepeats, ModulesOf, Body;
    var a := ListedAt(g, log, m);
    var b := ListedAt(g, log, x);
    if a < b {
      EarlierIsOver(g, log, a, b);
    } else {
      EarlierIsOver(g, log, b, a);
    }
  }

  lemma UpstreamStands(g: Graph, log: seq<Piece>, m: ModuleId, u: ModuleId)
    requires g.Closed() && Laid(g, log) && m in ModulesOf(log) && g.Uses(m, u)
    ensures var own := Places(g, log); u in own && OverBy(g, own, u, own[m])
  {
    hide ImportsOf, CssOf, CommentsPlaced, NoRepeats, ModulesOf, Body;
    var sorted := ModulesOf(log);
    var i :| 0 <= i < |sorted| && sorted[i] == m;
    var j :| i < j < |sorted| && sorted[j] == u;
    ListedLaterIsAppendedEarlier(log, i, j);
    var a, b :| 0 <= a < b < |log| && log[a] == Css(u) && log[b] == Css(m);
    EarlierIsOver(g, log, a, b);
    PlaceOfPiece(g, log, a);
    PlaceOfPiece(g, log, b);
  }

  /** What was listed of a part of the log is listed later of all of it. */
  lemma {:induction false} ListedOfPart(log: seq<Piece>, c: nat) returns (k: nat)
    requires c <= |log|
    ensures k <= |ModulesOf(log)| && ModulesOf(log[..c]) == ModulesOf(log)[k..]
  {
    var n := |log| - 1;
    if c == |log| {
      assert log[..c] == log;
      k := 0;
    } else {
      var rest := ListedOfPart(log[..n], c);
      assert log[..n][..c] == log[..c];
      k := rest + if log[n].Css? then 1 else 0;
      assert log[n].Css? ==> ([log[n].m] + ModulesOf(log[..n]))[k..] == ModulesOf(log[..n])[rest..];
      assert [] + ModulesOf(log[..n]) == ModulesOf(log[..n]);
    }
  }

  lemma UpstreamLaterOfRest(g: Graph, sorted: seq<ModuleId>, k: nat)
    requires g.Closed() && UpstreamLater(g, sorted) && k <= |sorted|
    ensures UpstreamLater(g, sorted[k..])
  {
    var rest := sorted[k..];
    forall i, u | 0 <= i < |rest| && g.Uses(rest[i], u) ensures exists j | i < j < |rest| :: rest[j] == u {
      assert rest[i] == sorted[k + i];
      var j :| k + i < j < |sorted| && sorted[j] == u;
      assert rest[j - k] == u;
    }
  }

  /** CSS starts with the body of some module. */
  lemma {:induction false} CssStartsWithBody(g: Graph, log: seq<Piece>) returns (a: nat)
    requires g.Closed() && CommentsPlaced(g, log) && CssOf(g, log) != []
    ensures a < |log| && log[a].Css? && log[a].m in g.modules && Body(g, log[a].m) != []
  {
    hide Turn, Commented;
    var before := log[..|log| - 1];
    if CssOf(g, before) != [] {
      a := CssStartsWithBody(g, before);
    } else {
      a := |log| - 1;
    }
  }

  lemma LaidFront(g: Graph, log: seq<Piece>, c: nat)
    requires g.Closed() && Laid(g, log) && c <= |log|
    ensures CommentsPlaced(g, log[..c]) && UpstreamLater(g, ModulesOf(log[..c]))
    ensures forall m <- ModulesOf(log[..c]) :: m in ModulesOf(log)
  {
    hide ImportsOf, CssOf, CommentsPlaced, UpstreamLater, NoRepeats;
    var k := ListedOfPart(log, c);
    UpstreamLaterOfRest(g, ModulesOf(log), k);
    PlacedFront(g, log, c);
  }

  lemma {:induction false} PlacedFront(g: Graph, log: seq<Piece>, c: nat)
    requires g.Closed() && CommentsPlaced(g, log) && c <= |log|
    ensures CommentsPlaced(g, log[..c])
    decreases |log|
  {
    if c == |log| {
      assert log[..c] == log;
    } else {
      var before := log[..|log| - 1];
      PlacedFront(g, before, c);
      assert before[..c] == log[..c];
    }
  }

  /** A module listed of the front of the log is over at its end. */
  lemma ListedIsOver(g: Graph, log: seq<Piece>, c: nat, x: ModuleId)
    requires g.Closed() && Laid(g, log) && c <= |log| && x in ModulesOf(log[..c])
    ensures x in ModulesOf(log) && x in g.modules && OverBy(g, Places(g, log), x, |ImportsOf(g, log)| + |CssOf(g, log[..c])|)
  {
    hide ImportsOf, CssOf, CommentsPlaced, UpstreamLater, NoRepeats, ModulesOf, Body;
    LaidFront(g, log, c);
    var a := ListedAt(g, log[..c], x);
    assert log[..c][..a] == log[..a] && log[a] == Css(x);
    EarlierIsOver(g, log, a, c);
    PlaceOfPiece(g, log, a);
  }

  lemma TurnIsAfterEarlierUses(g: Graph, log: seq<Piece>, c: nat, m: ModuleId, u: ModuleId, k: nat)
    requires g.Closed() && Laid(g, log) && c <= |log| && Turn(g, log[..c], m, u, k) && m in ModulesOf(log)
    ensures AfterEarlierUses(g, Places(g, log), m, u, k, |ImportsOf(g, log)| + |CssOf(g, log[..c])|)
  {
    hide ImportsOf, CssOf, CommentsPlaced, UpstreamLater, NoRepeats, ModulesOf, Body, Reaches, Laid, OverBy;
    var own, place := Places(g, log), |ImportsOf(g, log)| + |CssOf(g, log[..c])|;
    LaidFront(g, log, c);
    forall j, x | 0 <= j < k && g.containsCss[g.upstream[m][j]] && x in own && Reaches(g, g.upstream[m][j], x)
      ensures x in g.modules && OverBy(g, own, x, place)
    {
      ReachableAreListed(g, ModulesOf(log[..c]), g.upstream[m][j]);
      ListedIsOver(g, log, c, x);
    }
  }

  lemma BodyBefore(g: Graph, log: seq<Piece>, c: nat) returns (x: ModuleId)
    requires g.Closed() && Laid(g, log) && c <= |log| && CssOf(g, log[..c]) != []
    ensures x in ModulesOf(log) && x in g.modules && Body(g, x) != []
    ensures OverBy(g, Places(g, log), x, |ImportsOf(g, log)| + |CssOf(g, log[..c])|)
  {
    hide ImportsOf, CssOf, CommentsPlaced, UpstreamLater, NoRepeats, ModulesOf, Body, Laid, OverBy;
    LaidFront(g, log, c);
    var a := CssStartsWithBody(g, log[..c]);
    x := log[..c][a].m;
    AppendedIsListed(log[..c], a);
    ListedIsOver(g, log, c, x);
  }

  lemma {:induction false} PlacedAt(g: Graph, log: seq<Piece>, c: nat)
    requires g.Closed() && CommentsPlaced(g, log) && c < |log| && log[c].Comments?
    ensures log[c].early == (CssOf(g, log[..c]) == []) && exists k: nat :: Turn(g, log[..c], log[c].m, log[c].u, k)
    decreases |log|
  {
    hide Turn, CssOf, Commented;
    var before := log[..|log| - 1];
    if c < |log| - 1 {
      PlacedAt(g, before, c);
      assert before[..c] == log[..c];
    }
  }

  /** The place of one piece of comments. */
  lemma CommentPieceStands(g: Graph, log: seq<Piece>, c: nat, b: nat, m: ModuleId, u: ModuleId)
    requires g.Closed() && Laid(g, log) && c < b < |log| && log[b] == Css(m) && m in ModulesOf(log)
    requires log[c].Comments? && log[c].m == m && log[c].u == u && (m, u) in g.comments
    ensures exists q: nat :: CommentsStand(g, ImportsOf(g, log) + CssOf(g, log), |ImportsOf(g, log)|, Places(g, log), m, u, q)
  {
    hide ImportsOf, CssOf, CommentsPlaced, UpstreamLater, NoRepeats, ModulesOf, Body, OverBy, AfterEarlierUses, Turn, BlockAt;
    var imports, css, own := ImportsOf(g, log), CssOf(g, log), Places(g, log);
    PlacedAt(g, log, c);
    var k: nat :| Turn(g, log[..c], m, u, k);
    TurnIsAfterEarlierUses(g, log, c, m, u, k);
    PieceStands(g, log, c);
    PlaceOfPiece(g, log, b);
    AppendedInFront(g, log[..b], c + 1);
    assert log[..b][..c + 1] == log[..c + 1];
    if log[c].early {
      var q := |ImportsOf(g, log[..c])|;
      ShiftedBlock(imports, css, q, g.comments[(m, u)]);
      BlockFits(imports, q, g.comments[(m, u)]);
      NothingEarlier(g, own, log, c, m, u, k, q);
      assert CommentsStand(g, imports + css, |imports|, own, m, u, q);
    } else {
      var q := |CssOf(g, log[..c])|;
      ShiftedBlock(imports, css, q, g.comments[(m, u)]);
      var x := BodyBefore(g, log, c);
      assert CommentsStand(g, imports + css, |imports|, own, m, u, |imports| + q);
    }
  }

  /** While there is no CSS, nothing that came before has a body. */
  lemma NothingEarlier(g: Graph, own: map<ModuleId, nat>, log: seq<Piece>, c: nat, m: ModuleId, u: ModuleId, k: nat, q: nat)
    requires g.Closed() && Laid(g, log) && own == Places(g, log) && c <= |log| && m in own
    requires AfterEarlierUses(g, own, m, u, k, |ImportsOf(g, log)| + |CssOf(g, log[..c])|)
    requires CssOf(g, log[..c]) == []
    ensures AfterEarlierUses(g, own, m, u, k, q)
  {
    hide ImportsOf, CssOf, CommentsPlaced, UpstreamLater, NoRepeats, ModulesOf, Body, Reaches;
    forall x | x in own ensures x in g.modules && own[x] >= |ImportsOf(g, log)| {}
    forall j, x | 0 <= j < k && g.containsCss[g.upstream[m][j]] && x in own && Reaches(g, g.upstream[m][j], x)
      ensures Body(g, x) == []
    {
      assert OverBy(g, own, x, |ImportsOf(g, log)|) || Body(g, x) == [];
    }
  }

  lemma CommentsHavePlace(g: Graph, log: seq<Piece>, m: ModuleId, u: ModuleId)
    requires g.Closed() && Laid(g, log) && m in ModulesOf(log) && g.Uses(m, u) && (m, u) in g.comments
    ensures exists q: nat :: CommentsStand(g, ImportsOf(g, log) + CssOf(g, log), |ImportsOf(g, log)|, Places(g, log), m, u, q)
  {
    hide ImportsOf, CssOf, CommentsPlaced, UpstreamLater, NoRepeats, ModulesOf, CommentsStand;
    var b := ListedAt(g, log, m);
    CommentsComeFirst(g, log, b, u);
    var c :| 0 <= c < b && log[c] == Comments(log[b].m, u, CssOf(g, log[..c]) == []);
    CommentPieceStands(g, log, c, b, m, u);
  }

  /** All that was appended is in its place. */
  lemma EverythingInPlace(g: Graph, log: seq<Piece>)
    requires g.Closed() && Laid(g, log)
    ensures Places(g, log).Keys == Members(ModulesOf(log)) && Places(g, log).Keys <= g.modules
    ensures BlocksInPlace(g, ImportsOf(g, log) + CssOf(g, log), |ImportsOf(g, log)|, Places(g, log))
  {
    var statements, lead, own := ImportsOf(g, log) + CssOf(g, log), |ImportsOf(g, log)|, Places(g, log);
    hide ImportsOf, CssOf, CommentsPlaced, UpstreamLater, NoRepeats, ModulesOf, CommentsStand, BlockAt, OverBy, Body, Head;
    forall m | m in own
      ensures m in g.modules && lead <= own[m] && BlockAt(statements, own[m], Body(g, m))
      ensures exists r: nat :: BlockAt(statements, r, Head(g, m)) && r + |Head(g, m)| <= lead
    {
      ModuleStands(g, log, m);
    }
    forall m, x | m in own && x in own && m != x ensures OverBy(g, own, m, own[x]) || OverBy(g, own, x, own[m]) {
      OneAfterTheOther(g, log, m, x);
    }
    forall m: ModuleId, u: ModuleId | m in own && g.Uses(m, u) ensures u in own && OverBy(g, own, u, own[m]) {
      UpstreamStands(g, log, m, u);
    }
    forall m: ModuleId, u: ModuleId | m in own && g.Uses(m, u) && (m, u) in g.comments
      ensures exists q: nat :: CommentsStand(g, statements, lead, own, m, u, q)
    {
      CommentsHavePlace(g, log, m, u);
    }
  }

  /** The modules a combined stylesheet is made of: the root and what it reaches, each before what it uses. */
  ghost predicate InOrder(g: Graph, sorted: seq<ModuleId>, root: ModuleId)
    requires g.Closed()
  {
    && sorted != [] && sorted[0] == root && NoRepeats(sorted) && UpstreamLater(g, sorted)
    && forall m :: m in sorted <==> Reaches(g, root, m)
  }

  lemma ReachableAreListed(g: Graph, sorted: seq<ModuleId>, root: ModuleId)
    requires g.Closed() && UpstreamLater(g, sorted) && root in sorted
    ensures forall m | Reaches(g, root, m) :: m in sorted
  {
    var listed := set m | m in sorted;
    forall m, u | m in listed && g.Uses(m, u) ensures u in listed {
      var i :| 0 <= i < |sorted| && sorted[i] == m;
      var j :| i < j < |sorted| && sorted[j] == u;
    }
    forall m | Reaches(g, root, m) ensures m in sorted {
      var path :| IsPath(g, path) && path[0] == root && path[|path| - 1] == m;
      ClosedHoldsReachable(g, listed, path);
    }
  }

  method AnyTransitivelyContainsCss(g: Graph, upstream: seq<ModuleId>) returns (any: bool)
    requires g.Closed() && forall u <- upstream :: u in g.modules
    ensures any <==> exists u <- upstream :: g.containsCss[u]
  {
    for i := 0 to |upstream|
      invariant forall j | 0 <= j < i :: !g.containsCss[upstream[j]]
    {
      assert upstream[i] in upstream;
      if g.containsCss[upstream[i]] {
        return true;
      }
    }
    return false;
  }

  /** The comments in the log are those of listed modules for what they use, each as often as it is due. */
  ghost predicate CommentsAreDue(g: Graph, sorted: seq<ModuleId>, log: seq<Piece>)
    requires g.Closed()
  {
    forall m, u :: PairsOf(log)[(m, u)] == if m in sorted then TimesCommented(g, m, u) else 0
  }

  lemma NoneAreDue(g: Graph, root: ModuleId)
    requires g.Closed() && root in g.modules && forall u :: !g.Uses(root, u)
    ensures CommentsAreDue(g, [root], [Css(root)])
  {
    assert [Css(root)][..0] == [] && PairsOf([]) == multiset{};
    assert PairsOf([Css(root)]) == multiset{};
  }

  lemma AllCounted(g: Graph, sorted: seq<ModuleId>, log: seq<Piece>, seen: set<ModuleId>, left: set<ModuleId>)
    requires g.Closed() && CommentsCounted(g, PairsOf(log), seen, left)
    requires left == (set m | m in sorted) && forall m :: m in seen <==> m in sorted
    ensures CommentsAreDue(g, sorted, log)
  {}

  lemma AloneReachesItself(g: Graph, root: ModuleId, m: ModuleId)
    requires g.Closed() && Reaches(g, root, m) && forall u :: !g.Uses(root, u)
    ensures m == root
  {
    var path :| IsPath(g, path) && path[0] == root && path[|path| - 1] == m;
    ClosedHoldsReachable(g, {root}, path);
  }

  /** A module that uses nothing is its own stylesheet. */
  lemma AloneIsWhole(g: Graph, root: ModuleId)
    requires g.Closed() && root in g.modules && forall u :: !g.Uses(root, u)
    ensures ImportsOf(g, [Css(root)]) + CssOf(g, [Css(root)]) == g.css[root]
    ensures ModulesOf([Css(root)]) == [root] && InOrder(g, [root], root)
    ensures CommentsPlaced(g, [Css(root)]) && CommentsAreDue(g, [root], [Css(root)])
  {
    hide Reaches, IsPath, CommentsAreDue, PairsOf;
    NoneAreDue(g, root);
    LeadingImportsEnd(g.css[root]);
    assert [Css(root)][..0] == [];
    ReachesSelf(g, root);
    forall m | Reaches(g, root, m) ensures m == root {
      AloneReachesItself(g, root, m);
    }
  }

  /** The statements and the list are what appending the pieces of the log gives. */
  ghost predicate Combined(g: Graph, root: ModuleId, statements: seq<Statement>, sorted: seq<ModuleId>, log: seq<Piece>)
    requires g.Closed()
  {
    && statements == ImportsOf(g, log) + CssOf(g, log)
    && sorted == ModulesOf(log) && InOrder(g, sorted, root)
    && CommentsPlaced(g, log) && CommentsAreDue(g, sorted, log)
  }

  /**
   What is combined, told from the graph alone: the modules depth-first, the root in
   front; their statements, and the comments of each once for every time it names what
   they are for; and everything in its place.
   */
  ghost predicate Arranged(g: Graph, root: ModuleId, statements: seq<Statement>, sorted: seq<ModuleId>)
    requires g.Closed()
  {
    && sorted == Reversed(Order(g, [root], {}))
    && (forall m <- sorted :: m in g.modules) && multiset(statements) == Total(g, sorted)
    && exists lead, own :: HasPlaces(g, statements, sorted, lead, own)
  }

  ghost predicate HasPlaces(g: Graph, statements: seq<Statement>, sorted: seq<ModuleId>, lead: nat, own: map<ModuleId, nat>)
    requires g.Closed()
  {
    own.Keys == Members(sorted) && own.Keys <= g.modules && BlocksInPlace(g, statements, lead, own)
  }

  lemma CombinedHasPlaces(g: Graph, root: ModuleId, statements: seq<Statement>, sorted: seq<ModuleId>, log: seq<Piece>)
    requires g.Closed() && Combined(g, root, statements, sorted, log) && forall m <- sorted :: m in g.modules
    ensures exists lead, own :: HasPlaces(g, statements, sorted, lead, own)
  {
    hide BlocksInPlace, ImportsOf, CssOf, CommentsPlaced, UpstreamLater, NoRepeats, ModulesOf, CommentsAreDue, Members, Reaches;
    EverythingInPlace(g, log);
    assert HasPlaces(g, statements, sorted, |ImportsOf(g, log)|, Places(g, log));
  }

  lemma {:induction false} NothingUsed(g: Graph, m: ModuleId, k: nat)
    requires g.Closed() && m in g.modules && k <= |g.upstream[m]| && forall u :: !g.Uses(m, u)
    ensures Used(g, m, k) == [] && CommentsFor(g, m, k) == multiset{}
  {
    if k > 0 {
      NothingUsed(g, m, k - 1);
      assert !g.Uses(m, g.upstream[m][k - 1]);
    }
  }

  lemma AloneIsTotal(g: Graph, root: ModuleId)
    requires g.Closed() && root in g.modules && forall u :: !g.Uses(root, u)
    ensures [root] == Reversed(Order(g, [root], {})) && multiset(g.css[root]) == Total(g, [root])
  {
    NothingUsed(g, root, |g.upstream[root]|);
    OrderOfOne(g, root, {});
    assert Order(g, [], {} + {root}) == [];
    assert [root][..0] == [] && Total(g, []) == multiset{};
    hide Order, Used, CommentsFor;
  }

  lemma AloneIsArranged(g: Graph, root: ModuleId)
    requires g.Closed() && root in g.modules && forall u :: !g.Uses(root, u)
    requires Combined(g, root, g.css[root], [root], [Css(root)])
    ensures Arranged(g, root, g.css[root], [root])
  {
    hide HasPlaces, Combined, Order, Total;
    CombinedHasPlaces(g, root, g.css[root], [root], [Css(root)]);
    AloneIsTotal(g, root);
  }

  lemma VisitedIsArranged(g: Graph, root: ModuleId, imports: seq<Statement>, css: seq<Statement>, sorted: seq<ModuleId>,
                          seen: set<ModuleId>, log: seq<Piece>)
    requires g.Closed() && root in g.modules && Combined(g, root, imports + css, sorted, log)
    requires Grown(g, Order(g, [root], {}), [], {}, multiset{}, sorted, seen, multiset(imports) + multiset(css))
    ensures Arranged(g, root, imports + css, sorted)
  {
    hide HasPlaces, Combined, Order, Total;
    VisitedIsTotal(g, root, imports, css, sorted, seen);
    CombinedHasPlaces(g, root, imports + css, sorted, log);
  }

  lemma VisitedIsTotal(g: Graph, root: ModuleId, imports: seq<Statement>, css: seq<Statement>, sorted: seq<ModuleId>,
                       seen: set<ModuleId>)
    requires g.Closed() && root in g.modules
    requires Grown(g, Order(g, [root], {}), [], {}, multiset{}, sorted, seen, multiset(imports) + multiset(css))
    ensures sorted == Reversed(Order(g, [root], {})) && forall m <- sorted :: m in g.modules
    ensures multiset(imports + css) == Total(g, sorted)
  {
    hide Order;
    var order := Order(g, [root], {});
    assert Reversed(order) + [] == Reversed(order);
    TotalReversed(g, order);
  }

  /**
   Combines the CSS of a module with that of everything it reaches: each module's
   statements once, its comments once for every time it names what they are for,
   imports in front, and everything else after what the module uses.
   */
  method CombineCss(g: Graph, root: ModuleId, ghost rank: ModuleId -> nat)
    returns (statements: seq<Statement>, sorted: seq<ModuleId>)
    requires g.Closed() && g.Ranked(rank) && root in g.modules
    ensures exists log :: Combined(g, root, statements, sorted, log)
    ensures Arranged(g, root, statements, sorted)
  {
    hide ImportsOf, CssOf, ModulesOf, UpstreamLater, NoRepeats, IsPath, CommentsPlaced, PairsOf, CommentsAreDue;
    hide Arranged, Order, Grown, Reaches;
    var any := AnyTransitivelyContainsCss(g, g.upstream[root]);
    if !any {
      AloneIsWhole(g, root);
      assert Combined(g, root, g.css[root], [root], [Css(root)]);
      AloneIsArranged(g, root);
      return g.css[root], [root];
    }
    var combiner := new Combiner(g);
    assert combiner.sorted == [] && combiner.seen == {} && combiner.Contents() == multiset{};
    combiner.Visit(g, root, rank);
    combiner.AllLeft();
    ReachableAreListed(g, combiner.sorted, root);
    AllCounted(g, combiner.sorted, combiner.log, combiner.seen, combiner.Left());
    assert Combined(g, root, combiner.imports + combiner.css, combiner.sorted, combiner.log);
    VisitedIsArranged(g, root, combiner.imports, combiner.css, combiner.sorted, combiner.seen, combiner.log);
    return combiner.imports + combiner.css, combiner.sorted;
  }

  /** Of two listed modules, the one listed later was appended earlier. */
  lemma {:induction false} ListedLaterIsAppendedEarlier(log: seq<Piece>, i: nat, j: nat)
    requires i < j < |ModulesOf(log)|
    ensures exists a, b | 0 <= a < b < |log| :: log[a] == Css(ModulesOf(log)[j]) && log[b] == Css(ModulesOf(log)[i])
  {
    var n := |log| - 1;
    var before := log[..n];
    var shift := if log[n].Css? then 1 else 0;
    if i == 0 && shift == 1 {
      AppendedSomewhere(before, j - 1);
      var a :| 0 <= a < |before| && before[a] == Css(ModulesOf(before)[j - 1]);
      assert log[a] == Css(ModulesOf(log)[j]) && log[n] == Css(ModulesOf(log)[i]);
    } else {
      ListedLaterIsAppendedEarlier(before, i - shift, j - shift);
      var a, b :| 0 <= a < b < |before| && before[a] == Css(ModulesOf(before)[j - shift])
                  && before[b] == Css(ModulesOf(before)[i - shift]);
      assert log[a] == before[a] && log[b] == before[b];
    }
  }

  lemma {:induction false} AppendedSomewhere(log: seq<Piece>, j: nat)
    requires j < |ModulesOf(log)|
    ensures exists a | 0 <= a < |log| :: log[a] == Css(ModulesOf(log)[j])
  {
    var n := |log| - 1;
    if j == 0 && log[n].Css? {
      assert log[n] == Css(ModulesOf(log)[j]);
    } else {
      var shift := if log[n].Css? then 1 else 0;
      AppendedSomewhere(log[..n], j - shift);
      var a :| 0 <= a < n && log[..n][a] == Css(ModulesOf(log[..n])[j - shift]);
      assert log[a] == log[..n][a];
    }
  }

  lemma {:induction false} AppendedIsListed(log: seq<Piece>, a: nat)
    requires a < |log| && log[a].Css?
    ensures log[a].m in ModulesOf(log)
  {
    if a < |log| - 1 {
      AppendedIsListed(log[..|log| - 1], a);
    }
  }

  /** Nothing listed once is appended twice. */
  lemma {:induction false} AppendedOnce(log: seq<Piece>, a: nat, b: nat)
    requires NoRepeats(ModulesOf(log)) && a < b < |log| && log[a].Css? && log[b].Css?
    ensures log[a] != log[b]
  {
    var n := |log| - 1;
    var before := log[..n];
    assert ModulesOf(log) == if log[n].Css? then [log[n].m] + ModulesOf(before) else [] + ModulesOf(before);
    if b < n {
      if log[n].Css? {
        FirstIsNotListedAgain(log[n].m, ModulesOf(before));
      } else {
        assert [] + ModulesOf(before) == ModulesOf(before);
      }
      AppendedOnce(before, a, b);
    } else {
      AppendedIsListed(before, a);
      assert before[a] == log[a];
      FirstIsNotListedAgain(log[n].m, ModulesOf(before));
    }
  }

  lemma FirstIsNotListedAgain(m: ModuleId, rest: seq<ModuleId>)
    requires NoRepeats([m] + rest)
    ensures m !in rest && NoRepeats(rest)
  {
    var all := [m] + rest;
    assert forall j | 0 <= j < |rest| :: all[j + 1] == rest[j];
    assert all[0] == m;
  }

  /**
   The statements of every reachable module are appended exactly once, and after
   those of everything the module uses.
   */
  lemma UpstreamIsAppendedFirst(g: Graph, log: seq<Piece>, root: ModuleId, m: ModuleId, u: ModuleId)
    requires g.Closed() && InOrder(g, ModulesOf(log), root) && Reaches(g, root, m) && g.Uses(m, u)
    ensures exists a, b | 0 <= a < b < |log| :: log[a] == Css(u) && log[b] == Css(m)
    ensures forall a, b | 0 <= a < b < |log| && log[a].Css? && log[b].Css? :: log[a] != log[b]
  {
    hide Reaches;
    var sorted := ModulesOf(log);
    assert m in sorted;
    var i :| 0 <= i < |sorted| && sorted[i] == m;
    var j :| i < j < |sorted| && sorted[j] == u;
    ListedLaterIsAppendedEarlier(log, i, j);
    forall a, b | 0 <= a < b < |log| && log[a].Css? && log[b].Css? ensures log[a] != log[b] {
      AppendedOnce(log, a, b);
    }
  }

  /**
   The comments a module has for one it uses are appended before the module, among
   the imports exactly when there is no CSS yet.
   */
  lemma {:induction false} CommentsComeFirst(g: Graph, log: seq<Piece>, b: nat, u: ModuleId)
    requires g.Closed() && CommentsPlaced(g, log) && b < |log| && log[b].Css?
    requires g.Uses(log[b].m, u) && (log[b].m, u) in g.comments
    ensures exists a | 0 <= a < b :: log[a] == Comments(log[b].m, u, CssOf(g, log[..a]) == [])
    decreases |log|
  {
    var before := log[..|log| - 1];
    if b < |log| - 1 {
      CommentsComeFirst(g, before, b, u);
      var a :| 0 <= a < b && before[a] == Comments(log[b].m, u, CssOf(g, before[..a]) == []);
      assert log[a] == before[a] && log[..a] == before[..a];
    } else {
      var early := Comments(log[b].m, u, true) in before;
      var a :| 0 <= a < |before| && before[a] == Comments(log[b].m, u, early);
      CommentsAreTimed(g, before, a);
      assert log[a] == before[a] && log[..a] == before[..a];
    }
  }

  lemma {:induction false} CommentsAreTimed(g: Graph, log: seq<Piece>, a: nat)
    requires g.Closed() && CommentsPlaced(g, log) && a < |log| && log[a].Comments?
    ensures log[a].early == (CssOf(g, log[..a]) == [])
    decreases |log|
  {
    var before := log[..|log| - 1];
    if a < |log| - 1 {
      CommentsAreTimed(g, before, a);
      assert log[..a] == before[..a];
    }
  }
}
