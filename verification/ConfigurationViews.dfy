/** Module configurations: stacks of `@forward` views over one map that is consumed as it is used. */
module ConfigurationViews {
  import opened Collections
  import opened Wrappers

  /** A configured value, as written. */
  datatype ConfiguredValue = ConfiguredValue(text: string)

  /** The map a configuration starts from. */
  class Base {
    var values: map<string, ConfiguredValue>

    constructor (values: map<string, ConfiguredValue>)
      ensures this.values == values
    {
      this.values := values;
    }
  }

  /** A view of a base map: the map itself, or another view under a prefix, a show list or a hide list. */
  datatype Store =
    | Direct(base: Base)
    | Unprefixed(inner: Store, prefix: string)
    | Safelist(inner: Store, names: set<string>)
    | Blocklist(inner: Store, names: set<string>)
  {
    /** The map all of this view's entries live in. */
    function Root(): Base {
      match this
      case Direct(base) => base
      case Unprefixed(inner, _) => inner.Root()
      case Safelist(inner, _) => inner.Root()
      case Blocklist(inner, _) => inner.Root()
    }

    /** What a name of this view is called in the base map. */
    function Translate(name: string): string {
      match this
      case Direct(_) => name
      case Unprefixed(inner, prefix) => inner.Translate(prefix + name)
      case Safelist(inner, _) => inner.Translate(name)
      case Blocklist(inner, _) => inner.Translate(name)
    }

    /** Whether every layer lets the name through. */
    predicate Visible(name: string) {
      match this
      case Direct(_) => true
      case Unprefixed(inner, prefix) => inner.Visible(prefix + name)
      case Safelist(inner, names) => name in names && inner.Visible(name)
      case Blocklist(inner, names) => name !in names && inner.Visible(name)
    }

    /** What the layers make of a base map. */
    function Read(values: map<string, ConfiguredValue>, name: string): Option<ConfiguredValue> {
      match this
      case Direct(_) => if name in values then Some(values[name]) else None
      case Unprefixed(inner, prefix) => inner.Read(values, prefix + name)
      case Safelist(inner, names) => if name !in names then None else inner.Read(values, name)
      case Blocklist(inner, names) => if name in names then None else inner.Read(values, name)
    }

    function Get(name: string): Option<ConfiguredValue>
      reads Root()
    {
      Read(Root().values, name)
    }

    /** Asks each layer in turn. */
    method Lookup(name: string) returns (value: Option<ConfiguredValue>)
      decreases this
      ensures value == Get(name)
    {
      match this
      case Direct(base) =>
        return if name in base.values then Some(base.values[name]) else None;
      case Unprefixed(inner, prefix) =>
        value := inner.Lookup(prefix + name);
      case Safelist(inner, names) =>
        if name !in names {
          return None;
        }
        value := inner.Lookup(name);
      case Blocklist(inner, names) =>
        if name in names {
          return None;
        }
        value := inner.Lookup(name);
    }

    /** Reading a view is reading the base map under the translated name, if it is visible. */
    lemma {:induction false} ReadIsBaseEntry(values: map<string, ConfiguredValue>, name: string)
      ensures Read(values, name) == if Visible(name) && Translate(name) in values then Some(values[Translate(name)]) else None
    {
      match this
      case Direct(_) =>
      case Unprefixed(inner, prefix) => inner.ReadIsBaseEntry(values, prefix + name);
      case Safelist(inner, _) => inner.ReadIsBaseEntry(values, name);
      case Blocklist(inner, _) => inner.ReadIsBaseEntry(values, name);
    }

    /** Two names of a view never mean the same entry. */
    lemma {:induction false} TranslateIsInjective(a: string, b: string)
      requires Translate(a) == Translate(b)
      ensures a == b
    {
      match this
      case Direct(_) =>
      case Unprefixed(inner, prefix) =>
        inner.TranslateIsInjective(prefix + a, prefix + b);
        assert a == (prefix + a)[|prefix|..] && b == (prefix + b)[|prefix|..];
      case Safelist(inner, _) => inner.TranslateIsInjective(a, b);
      case Blocklist(inner, _) => inner.TranslateIsInjective(a, b);
    }

    /** The names that can be read from a base map. */
    ghost function NamesIn(values: map<string, ConfiguredValue>): set<string> {
      match this
      case Direct(_) => values.Keys
      case Unprefixed(inner, prefix) => Stripped(inner.NamesIn(values), prefix)
      case Safelist(inner, names) => inner.NamesIn(values) * names
      case Blocklist(inner, names) => inner.NamesIn(values) - names
    }

    ghost function Names(): set<string>
      reads Root()
    {
      NamesIn(Root().values)
    }

    lemma {:induction false} NamesAreReadable(values: map<string, ConfiguredValue>, name: string)
      ensures name in NamesIn(values) <==> Read(values, name).Some?
    {
      match this
      case Direct(_) =>
      case Unprefixed(inner, prefix) =>
        inner.NamesAreReadable(values, prefix + name);
        assert HasPrefix(prefix + name, prefix) && (prefix + name)[|prefix|..] == name;
        forall k | HasPrefix(k, prefix) && k[|prefix|..] == name ensures k == prefix + name {
          assert k == k[..|prefix|] + k[|prefix|..];
        }
      case Safelist(inner, _) => inner.NamesAreReadable(values, name);
      case Blocklist(inner, _) => inner.NamesAreReadable(values, name);
    }

    /** The view shows exactly the visible entries of the base map, and as many names as entries. */
    lemma ShowsVisibleEntries(values: map<string, ConfiguredValue>)
      ensures |Images(this, NamesIn(values))| == |NamesIn(values)|
      ensures forall name :: Translate(name) in Images(this, NamesIn(values)) <==> Visible(name) && Translate(name) in values
    {
      forall name
        ensures Translate(name) in Images(this, NamesIn(values)) <==> Visible(name) && Translate(name) in values
      {
        NamesAreReadable(values, name);
        ReadIsBaseEntry(values, name);
        if Translate(name) in Images(this, NamesIn(values)) {
          var other :| other in NamesIn(values) && Translate(other) == Translate(name);
          TranslateIsInjective(other, name);
        }
      }
      ImageSize(this, NamesIn(values));
    }

    /** The names that can be read, each once. */
    method Keys() returns (keys: seq<string>)
      decreases this
      ensures NoRepeats(keys) && Members(keys) == Names()
    {
      match this
      case Direct(base) =>
        keys := [];
        var pending := base.values.Keys;
        while pending != {}
          invariant pending <= base.values.Keys && NoRepeats(keys)
          invariant Members(keys) == base.values.Keys - pending
          decreases |pending|
        {
          var name :| name in pending;
          pending := pending - {name};
          MembersAppend(keys, name);
          keys := keys + [name];
        }
      case Unprefixed(inner, prefix) =>
        var all := inner.Keys();
        keys := [];
        MembersEmpty(all);
        for i := 0 to |all|
          invariant NoRepeats(keys)
          invariant Members(keys) == Stripped(Members(all[..i]), prefix)
        {
          NextMember(all, i);
          StrippedMore(Members(all[..i]), all[i], prefix);
          if HasPrefix(all[i], prefix) {
            var key := all[i][|prefix|..];
            MembersAppend(keys, key);
            keys := keys + [key];
          }
        }
        assert all[..|all|] == all;
      case Safelist(inner, names) =>
        var all := inner.Keys();
        keys := Filter(all, names, true);
      case Blocklist(inner, names) =>
        var all := inner.Keys();
        keys := Filter(all, names, false);
    }

    method Len() returns (n: nat)
      ensures n == |Names()|
    {
      var keys := Keys();
      RepeatFreeSize(keys);
      n := |keys|;
    }

    /** The base map without the entry a name of this view means; a hidden name means none. */
    function Without(values: map<string, ConfiguredValue>, name: string): map<string, ConfiguredValue> {
      if Visible(name) then values - {Translate(name)} else values
    }

    /** Removes a visible entry from the base map; a hidden or missing name is left alone. */
    method Remove(name: string) returns (removed: Option<ConfiguredValue>)
      modifies Root()
      decreases this
      ensures removed == old(Get(name))
      ensures Root().values == Without(old(Root().values), name)
    {
      match this
      case Direct(base) =>
        removed := if name in base.values then Some(base.values[name]) else None;
        base.values := base.values - {name};
      case Unprefixed(inner, prefix) =>
        removed := inner.Remove(prefix + name);
      case Safelist(inner, names) =>
        if name !in names {
          return None;
        }
        removed := inner.Remove(name);
      case Blocklist(inner, names) =>
        if name in names {
          return None;
        }
        removed := inner.Remove(name);
    }
  }

  /** The keys that start with `prefix`, without it. */
  function Stripped(keys: set<string>, prefix: string): set<string> {
    set k | k in keys && HasPrefix(k, prefix) :: k[|prefix|..]
  }

  lemma StrippedMore(keys: set<string>, key: string, prefix: string)
    requires key !in keys
    ensures Stripped({}, prefix) == {}
    ensures if HasPrefix(key, prefix)
            then Stripped(keys + {key}, prefix) == Stripped(keys, prefix) + {key[|prefix|..]}
                 && key[|prefix|..] !in Stripped(keys, prefix)
            else Stripped(keys + {key}, prefix) == Stripped(keys, prefix)
  {
    if HasPrefix(key, prefix) {
      forall k | k in keys && HasPrefix(k, prefix) ensures k[|prefix|..] != key[|prefix|..] {
        assert k == prefix + k[|prefix|..] && key == prefix + key[|prefix|..];
      }
    }
  }

  ghost function Images(store: Store, names: set<string>): set<string> { set name | name in names :: store.Translate(name) }

  lemma MembersEmpty(s: seq<string>)
    ensures Members(s[..0]) == {}
  {}

  lemma IsMember(s: seq<string>, i: nat)
    requires i < |s|
    ensures s[i] in Members(s)
  {}

  lemma MembersAppend(s: seq<string>, x: string)
    ensures Members(s + [x]) == Members(s) + {x}
    ensures NoRepeats(s) && x !in Members(s) ==> NoRepeats(s + [x])
  {}

  lemma NextMember(s: seq<string>, i: nat)
    requires NoRepeats(s) && i < |s|
    ensures s[..i + 1] == s[..i] + [s[i]]
    ensures Members(s[..i + 1]) == Members(s[..i]) + {s[i]} && s[i] !in Members(s[..i])
  {
    assert s[..i + 1] == s[..i] + [s[i]];
  }

  lemma {:induction false} ImageSize(store: Store, names: set<string>)
    ensures |Images(store, names)| == |names|
    decreases |names|
  {
    if names == {} {
      assert Images(store, names) == {};
    } else {
      var x :| x in names;
      var rest := names - {x};
      ImageSize(store, rest);
      forall name | name in rest ensures store.Translate(name) != store.Translate(x) {
        if store.Translate(name) == store.Translate(x) {
          store.TranslateIsInjective(name, x);
        }
      }
      assert Images(store, names) == Images(store, rest) + {store.Translate(x)};
      assert store.Translate(x) !in Images(store, rest);
    }
  }

  /** The keys in (or not in) `names`, in order. */
  method Filter(all: seq<string>, names: set<string>, inside: bool) returns (keys: seq<string>)
    requires NoRepeats(all)
    ensures NoRepeats(keys) && Members(keys) == if inside then Members(all) * names else Members(all) - names
  {
    keys := [];
    MembersEmpty(all);
    for i := 0 to |all|
      invariant NoRepeats(keys)
      invariant Members(keys) == if inside then Members(all[..i]) * names else Members(all[..i]) - names
    {
      NextMember(all, i);
      if (all[i] in names) == inside {
        MembersAppend(keys, all[i]);
        keys := keys + [all[i]];
      }
    }
    assert all[..|all|] == all;
  }

  /** After an entry of the common base map is removed, a view loses exactly the name that means it. */
  lemma SiblingLosesOnly(view: Store, before: map<string, ConfiguredValue>, removed: string, name: string)
    ensures view.Read(before - {removed}, name)
            == if view.Translate(name) == removed then None else view.Read(before, name)
  {
    view.ReadIsBaseEntry(before, name);
    view.ReadIsBaseEntry(before - {removed}, name);
  }

  // ---- Configurations ----

  datatype ForwardRule = ForwardRule(prefix: Option<string>, shown: Option<set<string>>, hidden: Option<set<string>>) {
    /** The name a variable of the forwarded module has for whoever configures it. */
    function Outside(name: string): string { if prefix.Some? then prefix.value + name else name }

    predicate Allows(name: string) {
      if shown.Some? then name in shown.value else hidden.Some? ==> name !in hidden.value
    }
  }

  class Configuration {
    const store: Store
    const originalConfiguration: Configuration?
    const isExplicit: bool

    constructor (store: Store, original: Configuration?, isExplicit: bool)
      ensures this.store == store && this.originalConfiguration == original && this.isExplicit == isExplicit
    {
      this.store, this.originalConfiguration, this.isExplicit := store, original, isExplicit;
    }

    function OriginalConfig(): Configuration { if originalConfiguration != null then originalConfiguration else this }

    predicate SameOriginal(that: Configuration) { OriginalConfig() == that.OriginalConfig() }

    method IsEmpty() returns (empty: bool)
      ensures empty <==> store.Names() == {}
    {
      var n := store.Len();
      empty := n == 0;
    }

    /** A snapshot of what can be read. */
    method Values() returns (values: map<string, ConfiguredValue>)
      ensures values.Keys == store.Names()
      ensures forall name <- values :: store.Get(name) == Some(values[name])
    {
      ghost var root := store.Root();
      assert allocated(root);
      ghost var entries := root.values;
      values := map[];
      var keys := store.Keys();
      MembersEmpty(keys);
      for i := 0 to |keys|
        invariant root.values == entries && Members(keys) == store.NamesIn(entries)
        invariant values.Keys == Members(keys[..i])
        invariant forall name <- values :: store.Read(entries, name) == Some(values[name])
      {
        NextMember(keys, i);
        IsMember(keys, i);
        store.NamesAreReadable(entries, keys[i]);
        var v := store.Lookup(keys[i]);
        if v.Some? {
          values := values[keys[i] := v.value];
        }
      }
      assert keys[..|keys|] == keys;
    }

    /** Takes a variable out of the configuration and every view that shares its map. */
    method Remove(name: string) returns (removed: Option<ConfiguredValue>)
      modifies store.Root()
      ensures removed == old(store.Get(name))
      ensures store.Root().values == store.Without(old(store.Root().values), name)
    {
      ghost var root := store.Root();
      assert allocated(root);
      ghost var entries := root.values;
      store.ReadIsBaseEntry(entries, name);
      store.NamesAreReadable(entries, name);
      var empty := IsEmpty();
      assert root.values == entries;
      if empty {
        assert store.Without(entries, name) == entries;
        return None;
      }
      removed := store.Remove(name);
    }

    /** The configuration as the forwarded module sees it: fewer variables, without the prefix. */
    method ThroughForward(forward: ForwardRule) returns (through: Configuration)
      ensures through.SameOriginal(this) && through.isExplicit == isExplicit
      ensures store.Names() == {} ==> through == this
      ensures store.Names() != {} ==>
                through.originalConfiguration == if originalConfiguration != null then originalConfiguration else this
      ensures store.Names() != {} ==> SeesThrough(through.store, store, forward)
    {
      hide Store.NamesIn, SeesThrough;
      ghost var root := store.Root();
      assert allocated(root);
      var empty := IsEmpty();
      if empty {
        return this;
      }
      var view := store;
      if forward.prefix.Some? {
        view := Unprefixed(view, forward.prefix.value);
      }
      if forward.shown.Some? {
        view := Safelist(view, forward.shown.value);
      } else if forward.hidden.Some? && forward.hidden.value != {} {
        view := Blocklist(view, forward.hidden.value);
      }
      LayersSeeThrough(view, store, forward);
      through := new Configuration(view, OriginalConfig(), isExplicit);
    }
  }

  /** The view shows what the rule allows of the other one, under the rule's names. */
  ghost predicate SeesThrough(view: Store, store: Store, forward: ForwardRule) {
    && view.Root() == store.Root()
    && (forall values, name ::
          view.Read(values, name) == if forward.Allows(name) then store.Read(values, forward.Outside(name)) else None)
    && (forall name :: forward.Allows(name) ==> view.Translate(name) == store.Translate(forward.Outside(name)))
  }

  lemma LayersSeeThrough(view: Store, store: Store, forward: ForwardRule)
    requires var unprefixed := if forward.prefix.Some? then Unprefixed(store, forward.prefix.value) else store;
             view == if forward.shown.Some? then Safelist(unprefixed, forward.shown.value)
                     else if forward.hidden.Some? && forward.hidden.value != {} then Blocklist(unprefixed, forward.hidden.value)
                     else unprefixed
    ensures SeesThrough(view, store, forward)
  {
    var unprefixed := if forward.prefix.Some? then Unprefixed(store, forward.prefix.value) else store;
    assert unprefixed.Root() == store.Root();
    assert forall values, name :: unprefixed.Read(values, name) == store.Read(values, forward.Outside(name));
    assert forall name :: unprefixed.Translate(name) == store.Translate(forward.Outside(name));
  }

  /** The name goes: it is not excepted, and gone downstream. */
  predicate Goes(downstream: Store, after: map<string, ConfiguredValue>, except: set<string>, name: string) {
    name !in except && downstream.Read(after, name).None?
  }

  /** The base entries of the names among `done` that go. */
  ghost function Gone(upstream: Store, downstream: Store, after: map<string, ConfiguredValue>, except: set<string>,
                      done: set<string>): set<string>
  {
    set name | name in done && Goes(downstream, after, except, name) :: upstream.Translate(name)
  }

  /** Without the entries that went, a view shows what did not go. */
  lemma LeftAfterGone(upstream: Store, before: map<string, ConfiguredValue>, names: set<string>, downstream: Store,
                      after: map<string, ConfiguredValue>, except: set<string>, name: string)
    requires names == upstream.NamesIn(before)
    ensures upstream.Read(before - Gone(upstream, downstream, after, except, names), name)
            == if Goes(downstream, after, except, name) then None else upstream.Read(before, name)
  {
    var gone := Gone(upstream, downstream, after, except, names);
    upstream.ReadIsBaseEntry(before, name);
    upstream.ReadIsBaseEntry(before - gone, name);
    upstream.NamesAreReadable(before, name);
    if upstream.Translate(name) in gone {
      var other :| other in names && Goes(downstream, after, except, other) && upstream.Translate(other) == upstream.Translate(name);
      upstream.TranslateIsInjective(other, name);
    }
  }

  /**
   Drops what the downstream configuration has used. With maps of their own, the
   names left are exactly those excepted or still present downstream, unchanged.
   */
  method RemoveUsedConfiguration(upstream: Configuration, downstream: Configuration, except: set<string>)
    modifies upstream.store.Root()
    ensures upstream.store.Root() != downstream.store.Root() ==>
              forall name ::
                upstream.store.Get(name)
                == if name in except || downstream.store.Get(name).Some? then old(upstream.store.Get(name)) else None
  {
    hide Store.NamesIn, Store.Read, Store.Without, Gone, Goes;
    ghost var up, down := upstream.store, downstream.store;
    ghost var root, other := up.Root(), down.Root();
    assert allocated(root) && allocated(other);
    ghost var before, after := root.values, other.values;
    var values := upstream.Values();
    assert root.values == before && other.values == after;
    var pending := values.Keys;
    ghost var done: set<string> := {};
    NothingGone(up, down, after, except, before);
    while pending != {}
      invariant done + pending == values.Keys && done !! pending
      invariant root != other ==> other.values == after && root.values == before - Gone(up, down, after, except, done)
      decreases |pending|
    {
      var name :| name in pending;
      pending := pending - {name};
      if root != other {
        OneMoreName(up, before, down, after, except, done, name);
      }
      done := done + {name};
      if name !in except {
        ghost var now, nowOther := root.values, other.values;
        var found := downstream.store.Lookup(name);
        assert root.values == now && other.values == nowOther;
        if found.None? {
          var value := upstream.Remove(name);
        }
      }
    }
    if root != other {
      forall name
        ensures up.Read(root.values, name)
                == if name in except || down.Read(after, name).Some? then up.Read(before, name) else None
      {
        LeftAfterGone(up, before, values.Keys, down, after, except, name);
        GoesMeans(down, after, except, name);
      }
    }
  }

  lemma NothingGone(upstream: Store, downstream: Store, after: map<string, ConfiguredValue>, except: set<string>,
                    before: map<string, ConfiguredValue>)
    ensures before - Gone(upstream, downstream, after, except, {}) == before
  {}

  lemma GoesMeans(downstream: Store, after: map<string, ConfiguredValue>, except: set<string>, name: string)
    ensures Goes(downstream, after, except, name) <==> !(name in except || downstream.Read(after, name).Some?)
  {}

  /** Looking at one more readable name takes its entry out exactly when it goes. */
  lemma OneMoreName(upstream: Store, before: map<string, ConfiguredValue>, downstream: Store,
                    after: map<string, ConfiguredValue>, except: set<string>, done: set<string>, name: string)
    requires name in upstream.NamesIn(before)
    ensures var now := before - Gone(upstream, downstream, after, except, done);
            before - Gone(upstream, downstream, after, except, done + {name})
            == if name !in except && downstream.Read(after, name).None? then upstream.Without(now, name) else now
  {
    upstream.ReadIsBaseEntry(before, name);
    upstream.NamesAreReadable(before, name);
    var gone, more := Gone(upstream, downstream, after, except, done), Gone(upstream, downstream, after, except, done + {name});
    assert more == gone + if Goes(downstream, after, except, name) then {upstream.Translate(name)} else {};
  }
}
