/** Checking arguments against a parameter list, and then binding them. */
module Arguments {
  import opened Wrappers

  datatype Value = Value(text: string)

  type Expression = string

  datatype Parameter = Parameter(name: string, defaultValue: Option<Expression>)

  datatype ParameterList = ParameterList(parameters: seq<Parameter>, rest: Option<string>)

  /** What the parser guarantees: no parameter name twice. */
  predicate Distinct(params: ParameterList) {
    forall i, j | 0 <= i < j < |params.parameters| :: params.parameters[i].name != params.parameters[j].name
  }

  datatype ArgumentError = UnexpectedArguments | PassedTwice(name: string) | Missing(name: string) | TooMany | Unknown(names: set<string>)

  function NamesFrom(params: ParameterList, from: nat): set<string> {
    set i | from <= i < |params.parameters| :: params.parameters[i].name
  }

  /** A parameter given by position is not named too; another one is named or has a default. */
  predicate Given(parameter: Parameter, byPosition: bool, names: set<string>) {
    if byPosition then parameter.name !in names else parameter.name in names || parameter.defaultValue.Some?
  }

  /** The arguments fit: nothing is given twice, nothing required is missing, nothing is left over without a rest parameter. */
  predicate Fits(positional: nat, names: set<string>, params: Option<ParameterList>) {
    match params
    case None => positional == 0 && names == {}
    case Some(list) =>
      && (forall i | 0 <= i < |list.parameters| :: Given(list.parameters[i], i < positional, names))
      && (list.rest.None? ==> positional <= |list.parameters| && names <= NamesFrom(list, positional))
  }

  /** What an error complains of, with everything before it in order. */
  ghost predicate Complains(error: ArgumentError, positional: nat, names: set<string>, params: Option<ParameterList>) {
    if params.None? then error == UnexpectedArguments && (positional > 0 || names != {})
    else
      var list := params.value;
      match error
      case UnexpectedArguments => false
      case PassedTwice(name) =>
        exists i | 0 <= i < |list.parameters| ::
          i < positional && list.parameters[i].name == name && name in names && GivenBelow(list, positional, names, i)
      case Missing(name) =>
        exists i | 0 <= i < |list.parameters| ::
          && i >= positional && list.parameters[i].name == name && name !in names
          && list.parameters[i].defaultValue.None? && GivenBelow(list, positional, names, i)
      case TooMany =>
        list.rest.None? && positional > |list.parameters| && GivenBelow(list, positional, names, |list.parameters|)
      case Unknown(unknown) =>
        && list.rest.None? && positional <= |list.parameters| && GivenBelow(list, positional, names, |list.parameters|)
        && unknown != {}
        && forall name :: name in unknown <==>
             name in names && forall i | 0 <= i < |list.parameters| :: list.parameters[i].name != name
  }

  predicate GivenBelow(params: ParameterList, positional: nat, names: set<string>, n: nat)
    requires n <= |params.parameters|
  {
    forall k | 0 <= k < n :: Given(params.parameters[k], k < positional, names)
  }

  /** A call is refused exactly if something is wrong with it. */
  lemma FitsUnlessWrong(positional: nat, names: set<string>, list: ParameterList)
    ensures Fits(positional, names, Some(list)) <==>
              && (forall i | 0 <= i < |list.parameters| && i < positional :: list.parameters[i].name !in names)
              && (forall i | positional <= i < |list.parameters| ::
                    list.parameters[i].name in names || list.parameters[i].defaultValue.Some?)
              && (list.rest.None? ==>
                    && positional <= |list.parameters|
                    && forall name <- names :: exists i | positional <= i < |list.parameters| :: list.parameters[i].name == name)
    ensures Fits(positional, names, None) <==> positional == 0 && names == {}
  {
    assert Fits(positional, names, Some(list)) ==>
        forall i | 0 <= i < |list.parameters| :: Given(list.parameters[i], i < positional, names);
  }

  /** The names given for the parameters from `positional` up to `i`. */
  function UsedBelow(params: ParameterList, positional: nat, names: set<string>, i: nat): set<string>
    requires i <= |params.parameters|
  {
    if i == 0 then {}
    else
      var p := params.parameters[i - 1].name;
      UsedBelow(params, positional, names, i - 1) + if positional <= i - 1 && p in names then {p} else {}
  }

  /** Each name is counted once, because parameters have different names. */
  lemma {:induction false} NotUsedYet(params: ParameterList, positional: nat, names: set<string>, i: nat, j: nat)
    requires Distinct(params) && i <= j < |params.parameters|
    ensures params.parameters[j].name !in UsedBelow(params, positional, names, i)
  {
    if i > 0 {
      NotUsedYet(params, positional, names, i - 1, j);
    }
  }

  lemma {:induction false} AllUsed(params: ParameterList, positional: nat, names: set<string>, i: nat)
    requires i <= |params.parameters|
    ensures UsedBelow(params, positional, names, i) == names * NamesBetween(params, positional, i)
  {
    if i > 0 {
      AllUsed(params, positional, names, i - 1);
      NamesBetweenMore(params, positional, i - 1);
    } else {
      assert NamesBetween(params, positional, 0) == {};
    }
  }

  lemma SmallerUse(names: set<string>, from: set<string>)
    ensures |names * from| < |names| <==> !(names <= from)
  {
    assert names == names * from + (names - from);
  }

  lemma NothingUnknown(names: set<string>, known: set<string>)
    ensures names - known == {} <==> names <= known
  {
    forall name | name in names ensures name in known || name in names - known {}
  }

  function NamesBetween(params: ParameterList, from: nat, to: nat): set<string> {
    set i | from <= i < to && i < |params.parameters| :: params.parameters[i].name
  }

  lemma NamesBetweenMore(params: ParameterList, from: nat, i: nat)
    requires i < |params.parameters|
    ensures NamesBetween(params, from, i + 1)
            == NamesBetween(params, from, i) + if from <= i then {params.parameters[i].name} else {}
  {}

  lemma NamesBetweenAll(params: ParameterList, from: nat)
    ensures NamesBetween(params, from, |params.parameters|) == NamesFrom(params, from)
    ensures NamesBetween(params, from, from) == {}
  {}

  /** With nothing given twice, a name that is a parameter at all is one not given by position. */
  lemma KnownIsLate(params: ParameterList, positional: nat, names: set<string>)
    requires forall i | 0 <= i < |params.parameters| :: Given(params.parameters[i], i < positional, names)
    ensures names <= NamesFrom(params, 0) <==> names <= NamesFrom(params, positional)
  {
    forall name | name in names ensures name in NamesFrom(params, 0) <==> name in NamesFrom(params, positional) {
      if name in NamesFrom(params, 0) {
        var i :| 0 <= i < |params.parameters| && params.parameters[i].name == name;
        assert Given(params.parameters[i], i < positional, names);
      }
    }
  }

  lemma AreUnknown(params: ParameterList, names: set<string>)
    ensures forall name :: name in names - NamesFrom(params, 0) <==>
              name in names && forall i | 0 <= i < |params.parameters| :: params.parameters[i].name != name
  {}

  method VerifyParameterList(positional: nat, names: set<string>, params: Option<ParameterList>)
    returns (error: Option<ArgumentError>)
    requires params.Some? ==> Distinct(params.value)
    ensures error.None? <==> Fits(positional, names, params)
    ensures error.Some? ==> Complains(error.value, positional, names, params)
  {
    hide NamesFrom, NamesBetween, Distinct;
    if params.None? {
      return if positional > 0 || names != {} then Some(UnexpectedArguments) else None;
    }
    var list := params.value;
    var namedUsed := 0;
    for i := 0 to |list.parameters|
      invariant namedUsed == |UsedBelow(list, positional, names, i)|
      invariant forall k | 0 <= k < i :: Given(list.parameters[k], k < positional, names)
    {
      NotUsedYet(list, positional, names, i, i);
      var param := list.parameters[i];
      if i < positional {
        if param.name in names {
          return Some(PassedTwice(param.name));
        }
      } else if param.name in names {
        namedUsed := namedUsed + 1;
      } else if param.defaultValue.None? {
        return Some(Missing(param.name));
      }
    }
    if list.rest.Some? {
      return None;
    }
    if positional > |list.parameters| {
      return Some(TooMany);
    }
    AllUsed(list, positional, names, |list.parameters|);
    NamesBetweenAll(list, positional);
    SmallerUse(names, NamesFrom(list, positional));
    KnownIsLate(list, positional, names);
    NothingUnknown(names, NamesFrom(list, 0));
    if namedUsed < |names| {
      var unknown := names - NamesFrom(list, 0);
      if unknown != {} {
        AreUnknown(list, names);
        return Some(Unknown(unknown));
      }
    }
    return None;
  }

  // ---- Binding ----

  /** The keyword arguments of a call; binding takes out the ones it uses. */
  class Keywords {
    var entries: map<string, Value>

    constructor (entries: map<string, Value>)
      ensures this.entries == entries
    {
      this.entries := entries;
    }
  }

  /** What the rest parameter holds: the keywords are the call's own, not a copy. */
  datatype Bound = Plain(value: Value) | ArgumentList(rest: seq<Value>, keywords: Keywords)

  /** The local variables of a call, in the order they were set. */
  class Environment {
    var locals: seq<(string, Bound)>

    constructor ()
      ensures locals == []
    {
      locals := [];
    }

    method SetLocalVariable(name: string, value: Bound)
      modifies this
      ensures locals == old(locals) + [(name, value)]
    {
      locals := locals + [(name, value)];
    }
  }

  datatype BindError = BadDefault | MissingArgument(name: string)

  /** Evaluates a default where the parameters before it are set. */
  type Evaluator = (Expression, seq<(string, Bound)>) -> Option<Value>

  /** The value of parameter `i`: by position, by name, or its default; None if that fails or there is none. */
  function ValueOf(params: ParameterList, args: seq<Value>, named: map<string, Value>, eval: Evaluator, i: nat,
                   before: seq<(string, Bound)>): Option<Value>
    requires i < |params.parameters|
  {
    var p := params.parameters[i];
    if i < |args| then Some(args[i])
    else if p.name in named then Some(named[p.name])
    else if p.defaultValue.Some? then eval(p.defaultValue.value, before)
    else None
  }

  /**
   Variable `k` is parameter `k`, with the argument at its position, or else the one
   with its name, or else its default as it comes out where the parameters before it
   are set.
   */
  predicate Holds(params: ParameterList, args: seq<Value>, named: map<string, Value>, eval: Evaluator,
                  locals: seq<(string, Bound)>, k: nat)
    requires k < |params.parameters| && k < |locals|
  {
    var p, variable := params.parameters[k], locals[k];
    && variable.0 == p.name && variable.1.Plain?
    && (k < |args| ==> variable.1.value == args[k])
    && (k >= |args| && p.name in named ==> variable.1.value == named[p.name])
    && (k >= |args| && p.name !in named ==>
          p.defaultValue.Some? && eval(p.defaultValue.value, locals[..k]) == Some(variable.1.value))
  }

  /** Parameter `k` needs its default, and that fails where the parameters before it are set. */
  ghost predicate FailsAt(params: ParameterList, args: seq<Value>, named: map<string, Value>, eval: Evaluator, k: nat,
                          before: seq<(string, Bound)>)
  {
    && |args| <= k < |params.parameters| && |before| == k
    && (forall j | 0 <= j < k :: Holds(params, args, named, eval, before, j))
    && params.parameters[k].name !in named && params.parameters[k].defaultValue.Some?
    && eval(params.parameters[k].defaultValue.value, before).None?
  }

  /** The bindings of the first `i` parameters, None when one of them has no value. */
  function Bindings(params: ParameterList, args: seq<Value>, named: map<string, Value>, eval: Evaluator, i: nat)
    : Option<seq<(string, Bound)>>
    requires i <= |params.parameters|
  {
    if i == 0 then Some([])
    else
      match Bindings(params, args, named, eval, i - 1)
      case None => None
      case Some(before) =>
        var value := ValueOf(params, args, named, eval, i - 1, before);
        if value.None? then None else Some(before + [(params.parameters[i - 1].name, Plain(value.value))])
  }

  method Min(a: nat, b: nat) returns (m: nat)
    ensures m == if a < b then a else b
  {
    m := if a < b then a else b;
  }

  /** What is left of the keywords once the parameters below `i` have theirs. */
  function LeftAt(params: ParameterList, args: seq<Value>, named: map<string, Value>, i: nat): map<string, Value> {
    named - NamesBetween(params, |args|, i)
  }

  lemma LeftMore(params: ParameterList, args: seq<Value>, named: map<string, Value>, i: nat)
    requires Distinct(params) && |args| <= i < |params.parameters|
    ensures var name := params.parameters[i].name;
            && (name in LeftAt(params, args, named, i) <==> name in named)
            && (name in named ==> LeftAt(params, args, named, i)[name] == named[name])
            && LeftAt(params, args, named, i + 1) == LeftAt(params, args, named, i) - {name}
  {
    NamesBetweenMore(params, |args|, i);
  }

  lemma WithoutMissing(named: map<string, Value>, name: string)
    requires name !in named
    ensures named - {name} == named
  {}

  /** Binds the parameters that are not given by position. */
  method BindRemaining(env: Environment, params: ParameterList, args: seq<Value>, kwargs: Keywords, eval: Evaluator,
                       from: nat)
    returns (error: Option<BindError>)
    requires Distinct(params) && from <= |params.parameters| && (from < |params.parameters| ==> from == |args|)
    requires Bindings(params, args, kwargs.entries, eval, from) == Some(env.locals)
    requires LeftAt(params, args, kwargs.entries, from) == kwargs.entries
    modifies env, kwargs
    ensures error.None? ==>
              Bindings(params, args, old(kwargs.entries), eval, |params.parameters|) == Some(env.locals)
    ensures error.None? ==> kwargs.entries == LeftAt(params, args, old(kwargs.entries), |params.parameters|)
    ensures error.Some? ==> Bindings(params, args, old(kwargs.entries), eval, |params.parameters|).None?
    ensures error.Some? && error.value.MissingArgument? ==>
              IsMissing(params, |args|, old(kwargs.entries.Keys))
  {
    hide LeftAt, Distinct;
    ghost var named := kwargs.entries;
    var parameters := params.parameters;
    for i := from to |parameters|
      invariant i < |parameters| ==> i >= |args|
      invariant Bindings(params, args, named, eval, i) == Some(env.locals)
      invariant kwargs.entries == LeftAt(params, args, named, i)
    {
      var param := parameters[i];
      LeftMore(params, args, named, i);
      if param.name in kwargs.entries {
        var val := kwargs.entries[param.name];
        kwargs.entries := kwargs.entries - {param.name};
        env.SetLocalVariable(param.name, Plain(val));
      } else if param.defaultValue.Some? {
        WithoutMissing(kwargs.entries, param.name);
        var val := eval(param.defaultValue.value, env.locals);
        if val.None? {
          NoBindingsAfter(params, args, named, eval, i + 1);
          return Some(BadDefault);
        }
        env.SetLocalVariable(param.name, Plain(val.value));
      } else {
        NoBindingsAfter(params, args, named, eval, i + 1);
        return Some(MissingArgument(param.name));
      }
    }
    return None;
  }

  predicate IsMissing(params: ParameterList, positional: nat, names: set<string>) {
    exists i | positional <= i < |params.parameters| ::
      params.parameters[i].name !in names && params.parameters[i].defaultValue.None?
  }

  /** The positional arguments beyond the parameters. */
  function Beyond(params: ParameterList, args: seq<Value>): seq<Value> {
    if |args| > |params.parameters| then args[|params.parameters|..] else []
  }

  /**
   Binds the arguments of a call: each parameter once, in order, to its own
   argument or default. The keywords used are taken out; what is left over goes to
   the rest parameter, together with the positional arguments beyond the others.
   */
  method BindArguments(env: Environment, params: ParameterList, args: seq<Value>, kwargs: Keywords, eval: Evaluator)
    returns (error: Option<BindError>)
    requires Distinct(params) && env.locals == []
    modifies env, kwargs
    ensures error.None? <==> Bindings(params, args, old(kwargs.entries), eval, |params.parameters|).Some?
    ensures error.None? ==>
              env.locals == Bindings(params, args, old(kwargs.entries), eval, |params.parameters|).value
                            + if params.rest.None? then []
                              else [(params.rest.value, ArgumentList(Beyond(params, args), kwargs))]
    ensures error.None? ==> kwargs.entries == old(kwargs.entries) - NamesFrom(params, |args|)
    ensures error.Some? && error.value.MissingArgument? ==> IsMissing(params, |args|, old(kwargs.entries.Keys))
  {
    hide NamesBetween, NamesFrom, IsMissing, Distinct;
    var parameters := params.parameters;
    ghost var named := kwargs.entries;
    var minLength := Min(|args|, |parameters|);
    for i := 0 to minLength
      invariant Bindings(params, args, named, eval, i) == Some(env.locals)
      invariant kwargs.entries == named
    {
      env.SetLocalVariable(parameters[i].name, Plain(args[i]));
    }
    NothingTaken(params, args, named, minLength);
    error := BindRemaining(env, params, args, kwargs, eval, minLength);
    if error.Some? {
      return;
    }
    NamesBetweenAll(params, |args|);
    if params.rest.Some? {
      var rest := [];
      if |args| > |parameters| {
        rest := args[|parameters|..];
      }
      env.SetLocalVariable(params.rest.value, ArgumentList(rest, kwargs));
    } else {
      assert env.locals + [] == env.locals;
    }
  }

  lemma NothingTaken(params: ParameterList, args: seq<Value>, named: map<string, Value>, i: nat)
    requires i <= |args|
    ensures LeftAt(params, args, named, i) == named
  {}

  lemma {:induction false} NoBindingsAfter(params: ParameterList, args: seq<Value>, named: map<string, Value>,
                                           eval: Evaluator, i: nat)
    requires i <= |params.parameters| && Bindings(params, args, named, eval, i).None?
    ensures Bindings(params, args, named, eval, |params.parameters|).None?
    decreases |params.parameters| - i
  {
    if i < |params.parameters| {
      NoBindingsAfter(params, args, named, eval, i + 1);
    }
  }

  lemma LastBinding(params: ParameterList, args: seq<Value>, named: map<string, Value>, eval: Evaluator, i: nat)
    requires 0 < i <= |params.parameters| && Bindings(params, args, named, eval, i).Some?
    ensures Bindings(params, args, named, eval, i - 1).Some?
    ensures var before := Bindings(params, args, named, eval, i - 1).value;
            var value := ValueOf(params, args, named, eval, i - 1, before);
            && value.Some?
            && Bindings(params, args, named, eval, i).value
                 == before + [(params.parameters[i - 1].name, Plain(value.value))]
  {}

  /** Bindings are the parameters in order, each with a value of its own. */
  lemma {:induction false} EachBoundOnce(params: ParameterList, args: seq<Value>, named: map<string, Value>,
                                         eval: Evaluator, i: nat)
    requires i <= |params.parameters| && Bindings(params, args, named, eval, i).Some?
    ensures var bound := Bindings(params, args, named, eval, i).value;
            && |bound| == i
            && forall k | 0 <= k < i ::
                 bound[k].0 == params.parameters[k].name && bound[k].1.Plain?
                 && ValueOf(params, args, named, eval, k, bound[..k]) == Some(bound[k].1.value)
  {
    if i > 0 {
      hide ValueOf;
      LastBinding(params, args, named, eval, i);
      EachBoundOnce(params, args, named, eval, i - 1);
      hide Bindings;
      var before := Bindings(params, args, named, eval, i - 1).value;
      var bound := Bindings(params, args, named, eval, i).value;
      assert before[..i - 1] == before && bound == before + [bound[i - 1]];
      forall k | 0 <= k < i ensures bound[..k] == before[..k] && (k < i - 1 ==> bound[k] == before[k]) {}
    }
  }

  lemma BoundHolds(params: ParameterList, args: seq<Value>, named: map<string, Value>, eval: Evaluator, i: nat)
    requires i <= |params.parameters| && Bindings(params, args, named, eval, i).Some?
    ensures var bound := Bindings(params, args, named, eval, i).value;
            |bound| == i && forall k | 0 <= k < i :: Holds(params, args, named, eval, bound, k)
  {
    hide Bindings;
    EachBoundOnce(params, args, named, eval, i);
  }

  /** Where binding stops at all, it stops at a default that fails or is missing. */
  lemma {:induction false} StopsSomewhere(params: ParameterList, args: seq<Value>, named: map<string, Value>,
                                          eval: Evaluator, i: nat)
    requires i <= |params.parameters| && Bindings(params, args, named, eval, i).None?
    requires !IsMissing(params, |args|, named.Keys)
    ensures exists k, before :: FailsAt(params, args, named, eval, k, before)
  {
    if Bindings(params, args, named, eval, i - 1).None? {
      StopsSomewhere(params, args, named, eval, i - 1);
    } else {
      BoundHolds(params, args, named, eval, i - 1);
      assert FailsAt(params, args, named, eval, i - 1, Bindings(params, args, named, eval, i - 1).value);
    }
  }

  /** Verified arguments never lack one: binding fails only when a default does. */
  lemma FittingIsNotMissing(positional: nat, names: set<string>, params: ParameterList)
    requires Fits(positional, names, Some(params))
    ensures !IsMissing(params, positional, names)
  {
    forall i | positional <= i < |params.parameters|
      ensures params.parameters[i].name in names || params.parameters[i].defaultValue.Some?
    {
      assert Given(params.parameters[i], i < positional, names);
    }
  }

  datatype CallOutcome = Rejected(argumentError: ArgumentError) | DefaultFailed | Called

  /**
   Checks the arguments of a call and then binds them. Whatever passes the check is
   bound without a missing argument, and every argument goes to exactly one place:
   the parameter at its position, the parameter with its name, or the rest
   parameter. Without a rest parameter nothing is left over.
   */
  method CallUserDefined(params: ParameterList, args: seq<Value>, kwargs: Keywords, eval: Evaluator, env: Environment)
    returns (outcome: CallOutcome)
    requires Distinct(params) && env.locals == []
    modifies env, kwargs
    ensures outcome.Rejected? <==> !Fits(|args|, old(kwargs.entries.Keys), Some(params))
    ensures outcome.Rejected? ==> Complains(outcome.argumentError, |args|, old(kwargs.entries.Keys), Some(params))
    ensures outcome.Called? ==>
              && |env.locals| == |params.parameters| + (if params.rest.Some? then 1 else 0)
              && (forall k | 0 <= k < |params.parameters| :: Holds(params, args, old(kwargs.entries), eval, env.locals, k))
              && (params.rest.Some? ==>
                    env.locals[|params.parameters|] ==
                      (params.rest.value,
                       ArgumentList(if |args| > |params.parameters| then args[|params.parameters|..] else [], kwargs)))
    ensures outcome.DefaultFailed? ==> exists k, before :: FailsAt(params, args, old(kwargs.entries), eval, k, before)
    ensures outcome.Called? ==>
              && (forall name <- kwargs.entries ::
                    && name in old(kwargs.entries) && kwargs.entries[name] == old(kwargs.entries)[name]
                    && forall i | |args| <= i < |params.parameters| :: params.parameters[i].name != name)
              && (forall name <- old(kwargs.entries) ::
                    || name in kwargs.entries
                    || exists i | |args| <= i < |params.parameters| :: params.parameters[i].name == name)
    ensures outcome.Called? && params.rest.None? ==> kwargs.entries == map[] && |args| <= |params.parameters|
  {
    hide Fits, Bindings, NamesFrom, Distinct, IsMissing, Holds, FailsAt, Complains;
    ghost var named := kwargs.entries;
    var rejected := VerifyParameterList(|args|, kwargs.entries.Keys, Some(params));
    if rejected.Some? {
      return Rejected(rejected.value);
    }
    FittingIsNotMissing(|args|, named.Keys, params);
    FittingIsUsedUp(|args|, named, params);
    var error := BindArguments(env, params, args, kwargs, eval);
    if error.Some? {
      StopsSomewhere(params, args, named, eval, |params.parameters|);
      return DefaultFailed;
    }
    BoundHolds(params, args, named, eval, |params.parameters|);
    ghost var bound := Bindings(params, args, named, eval, |params.parameters|).value;
    StillHolds(params, args, named, eval, bound, env.locals);
    LeftOver(params, |args|, named);
    return Called;
  }

  lemma StillHolds(params: ParameterList, args: seq<Value>, named: map<string, Value>, eval: Evaluator,
                   bound: seq<(string, Bound)>, locals: seq<(string, Bound)>)
    requires |bound| == |params.parameters| && bound <= locals
    requires forall k | 0 <= k < |bound| :: Holds(params, args, named, eval, bound, k)
    ensures forall k | 0 <= k < |bound| :: Holds(params, args, named, eval, locals, k)
  {
    forall k | 0 <= k < |bound| ensures Holds(params, args, named, eval, locals, k) {
      assert Holds(params, args, named, eval, bound, k) && locals[..k] == bound[..k] && locals[k] == bound[k];
    }
  }

  lemma LeftOver(params: ParameterList, positional: nat, named: map<string, Value>)
    ensures var left := named - NamesFrom(params, positional);
            && (forall name <- left ::
                  name in named && left[name] == named[name]
                  && forall i | positional <= i < |params.parameters| :: params.parameters[i].name != name)
            && (forall name <- named ::
                  name in left || exists i | positional <= i < |params.parameters| :: params.parameters[i].name == name)
  {
    var left := named - NamesFrom(params, positional);
    forall name | name in named && name !in left
      ensures exists i | positional <= i < |params.parameters| :: params.parameters[i].name == name
    {
      assert name in NamesFrom(params, positional);
    }
    forall name | name in left ensures name in named && left[name] == named[name] && name !in NamesFrom(params, positional) {}
  }

  lemma FittingIsUsedUp(positional: nat, named: map<string, Value>, params: ParameterList)
    requires Fits(positional, named.Keys, Some(params))
    ensures params.rest.None? ==> named - NamesFrom(params, positional) == map[] && positional <= |params.parameters|
  {}
}
